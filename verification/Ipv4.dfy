/** IPv4 addresses in dotted decimal, and CIDR blocks (RFC 4632, section 3.1):
    net.ParseIP, net.ParseCIDR, net.CIDRMask and IPNet.Contains. */
module Ipv4 {
  import opened Common
  import opened Text

  type Octet = n: nat | n < 256

  datatype Ip = Ip(a: Octet, b: Octet, c: Octet, d: Octet)

  function Value(ip: Ip): nat {
    ((ip.a * 256 + ip.b) * 256 + ip.c) * 256 + ip.d
  }

  // ----- text form

  /** One field: one to three digits, no leading zero, at most 255. */
  function ParseOctet(f: string): Option<Octet> {
    if 1 <= |f| <= 3 && AllDigits(f) && (|f| > 1 ==> f[0] != '0') && DecimalValue(f) <= 255
    then Some(DecimalValue(f))
    else None
  }

  function ParseIp(s: string): Option<Ip> {
    var f := Split(s, '.');
    if |f| != 4 then None
    else
      match (ParseOctet(f[0]), ParseOctet(f[1]), ParseOctet(f[2]), ParseOctet(f[3]))
      case (Some(a), Some(b), Some(c), Some(d)) => Some(Ip(a, b, c, d))
      case _ => None
  }

  function DigitChar(n: nat): (c: char)
    requires n < 10
  {
    n as char + '0'
  }

  function PrintOctet(n: Octet): string {
    if n < 10 then [DigitChar(n)]
    else if n < 100 then [DigitChar(n / 10), DigitChar(n % 10)]
    else [DigitChar(n / 100), DigitChar(n / 10 % 10), DigitChar(n % 10)]
  }

  function Fields(ip: Ip): seq<string> {
    [PrintOctet(ip.a), PrintOctet(ip.b), PrintOctet(ip.c), PrintOctet(ip.d)]
  }

  function PrintIp(ip: Ip): string { Join(Fields(ip), '.') }

  // ----- blocks

  datatype Network = Network(base: Ip, prefix: nat)

  /** A decimal number of at most 32, leading zeros allowed. */
  function ParsePrefix(s: string): Option<nat> {
    if s != "" && AllDigits(s) && DecimalValue(s) <= 32 then Some(DecimalValue(s)) else None
  }

  function ParseCidr(s: string): (r: Option<Network>)
    ensures r.Some? ==> r.value.prefix <= 32
  {
    var f := Split(s, '/');
    if |f| != 2 then None
    else
      match (ParseIp(f[0]), ParsePrefix(f[1]))
      case (Some(ip), Some(p)) => Some(Network(ip, p))
      case _ => None
  }

  function Pow2(n: nat): (r: nat)
    ensures r > 0
  {
    if n == 0 then 1 else 2 * Pow2(n - 1)
  }

  /** Bitwise and. */
  function And(x: nat, m: nat): nat {
    if x == 0 || m == 0 then 0 else 2 * And(x / 2, m / 2) + if x % 2 == 1 && m % 2 == 1 then 1 else 0
  }

  /** A byte of the mask: all ones, or the complement of 255 shifted right by k, or zero. */
  function MaskByte(k: int): Octet {
    if k >= 8 then 255 else if k <= 0 then 0 else 255 - 255 / Pow2(k)
  }

  predicate SameMasked(x: Octet, y: Octet, k: int) {
    And(x, MaskByte(k)) == And(y, MaskByte(k))
  }

  /** IPNet.Contains: byte by byte under the mask. */
  predicate InNetwork(net: Network, ip: Ip) {
    && SameMasked(net.base.a, ip.a, net.prefix)
    && SameMasked(net.base.b, ip.b, net.prefix - 8)
    && SameMasked(net.base.c, ip.c, net.prefix - 16)
    && SameMasked(net.base.d, ip.d, net.prefix - 24)
  }

  // ----- masking a byte compares its leading bits

  lemma Pow2Table()
    ensures Pow2(0) == 1 && Pow2(1) == 2 && Pow2(2) == 4 && Pow2(3) == 8 && Pow2(4) == 16
    ensures Pow2(5) == 32 && Pow2(6) == 64 && Pow2(7) == 128 && Pow2(8) == 256
  {
  }

  /** w ones, the low j of them cleared. */
  lemma {:induction false} AndOnes(x: nat, w: nat, j: nat)
    requires j <= w && x < Pow2(w)
    ensures Pow2(j) <= Pow2(w) && And(x, Pow2(w) - Pow2(j)) == x - x % Pow2(j)
  {
    if w > 0 {
      var m := Pow2(w) - Pow2(j);
      if j > 0 {
        AndOnes(x / 2, w - 1, j - 1);
        assert m == 2 * (Pow2(w - 1) - Pow2(j - 1));
        assert m % 2 == 0 && m / 2 == Pow2(w - 1) - Pow2(j - 1);
        HalfRemainder(x, Pow2(j - 1));
      } else {
        AndOnes(x / 2, w - 1, 0);
        assert m % 2 == 1 && m / 2 == Pow2(w - 1) - 1;
      }
    }
  }

  lemma HalfRemainder(x: nat, d: nat)
    requires d > 0
    ensures x - x % (2 * d) == 2 * (x / 2 - x / 2 % d)
  {
    var q, r := x / 2 / d, x / 2 % d;
    assert x / 2 == d * q + r;
    assert x == (2 * d) * q + (2 * r + x % 2);
    assert 2 * r + x % 2 < 2 * d;
    QuotientUnique(x, 2 * d, q);
  }

  lemma MaskTable(k: nat)
    requires k <= 8
    ensures MaskByte(k) == Pow2(8) - Pow2(8 - k)
  {
    Pow2Table();
  }

  /** Masking clears the low bits: the byte loses its remainder. */
  lemma AndMask(x: Octet, k: nat)
    requires k <= 8
    ensures And(x, MaskByte(k)) == x - x % Pow2(8 - k)
  {
    Pow2Table();
    MaskTable(k);
    AndOnes(x, 8, 8 - k);
  }

  lemma QuotientFromCleared(x: nat, y: nat, d: nat)
    requires d > 0
    ensures x - x % d == y - y % d <==> x / d == y / d
  {
    var p, q := x / d, y / d;
    assert x - x % d == d * p && y - y % d == d * q;
    if p < q { MulMonotone(d, p + 1, q); }
    if q < p { MulMonotone(d, q + 1, p); }
  }

  lemma MaskIsQuotient(x: Octet, y: Octet, k: nat)
    requires k <= 8
    ensures SameMasked(x, y, k) <==> x / Pow2(8 - k) == y / Pow2(8 - k)
  {
    hide And, MaskByte;
    AndMask(x, k);
    AndMask(y, k);
    QuotientFromCleared(x, y, Pow2(8 - k));
  }

  lemma FullMask(k: int)
    ensures k >= 8 ==> MaskByte(k) == MaskByte(8) && Pow2(0) == 1
    ensures k <= 0 ==> MaskByte(k) == MaskByte(0) && Pow2(8) == 256
  {
    Pow2Table();
  }

  lemma SameMaskedFull(x: Octet, y: Octet, k: int)
    ensures k >= 8 ==> (SameMasked(x, y, k) <==> x == y)
    ensures k <= 0 ==> SameMasked(x, y, k)
  {
    hide And, MaskByte;
    if k >= 8 {
      FullMask(k);
      AndMask(x, 8);
      AndMask(y, 8);
    } else if k <= 0 {
      FullMask(k);
      AndMask(x, 0);
      AndMask(y, 0);
    }
  }

  // ----- a block is an interval of addresses

  function BlockSize(net: Network): (r: nat)
    requires net.prefix <= 32
    ensures r > 0
  {
    Pow2(32 - net.prefix)
  }

  /** The lowest address of the block: the base with its host bits cleared. */
  function Lowest(net: Network): int
    requires net.prefix <= 32
  {
    Value(net.base) - Value(net.base) % BlockSize(net)
  }

  lemma {:induction false} Pow2Add(m: nat, n: nat)
    ensures Pow2(m + n) == Pow2(m) * Pow2(n)
  {
    if m > 0 { Pow2Add(m - 1, n); }
  }

  lemma Pow2Weights()
    ensures Pow2(8) == 256 && Pow2(16) == 0x1_0000 && Pow2(24) == 0x100_0000
  {
    Pow2Table();
    Pow2Add(8, 8);
    Pow2Add(8, 16);
  }

  lemma MulMonotone(m: nat, a: int, b: int)
    requires a <= b
    ensures m * a <= m * b
  {
  }

  lemma QuotientUnique(v: int, m: int, t: int)
    requires m > 0 && m * t <= v < m * t + m
    ensures v / m == t
  {
    var q := v / m;
    assert m * q <= v < m * q + m;
    assert m * (t + 1) == m * t + m && m * (q + 1) == m * q + m;
    if q >= t + 1 { MulMonotone(m, t + 1, q); }
    if t >= q + 1 { MulMonotone(m, q + 1, t); }
  }

  /** Low-order digits do not reach a quotient by a multiple of their weight. */
  lemma DropLow(y: nat, w: nat, l: nat, q: nat)
    requires w > 0 && l < w && q > 0
    ensures q * w > 0 && (y * w + l) / (q * w) == y / q
  {
    var t, s := y / q, y % q;
    assert y == q * t + s;
    assert y * w == (q * w) * t + s * w by {
      assert (q * t + s) * w == q * t * w + s * w;
      assert q * t * w == (q * w) * t;
    }
    assert s * w + w <= q * w by { MulMonotone(w, s + 1, q); }
    assert q * w > 0;
    QuotientUnique(y * w + l, q * w, t);
  }

  /** 256 is a multiple of the divisor, so the high part splits off. */
  lemma HighSplit(h: nat, n: Octet, d: nat, e: nat)
    requires d > 0 && d * e == 256
    ensures (h * 256 + n) / d == h * e + n / d && n / d < e
  {
    assert n == d * (n / d) + n % d;
    assert h * 256 == d * (h * e) by { assert h * (d * e) == d * (h * e); }
    assert h * 256 + n == d * (h * e + n / d) + n % d;
    QuotientUnique(h * 256 + n, d, h * e + n / d);
    if n / d >= e { MulMonotone(d, e, n / d); }
  }

  lemma HighByte(h: nat, n: Octet, h': nat, n': Octet, k: nat)
    requires k <= 8
    ensures (h * 256 + n) / Pow2(8 - k) == (h' * 256 + n') / Pow2(8 - k)
       <==> h == h' && n / Pow2(8 - k) == n' / Pow2(8 - k)
  {
    var d, e := Pow2(8 - k), Pow2(k);
    Pow2Table();
    Pow2Add(8 - k, k);
    HighSplit(h, n, d, e);
    HighSplit(h', n', d, e);
    var q, q' := n / d, n' / d;
    if h < h' { MulMonotone(e, h + 1, h'); }
    if h' < h { MulMonotone(e, h' + 1, h); }
  }

  /** One byte under a partial mask, equal bytes above it (h), free bytes below it (l):
      the comparison is that of the quotient of the whole. w is the weight of the byte. */
  lemma QuotientByByte(h: nat, x: Octet, l: nat, h': nat, x': Octet, l': nat, k: nat, w: nat)
    requires k <= 8 && l < w && l' < w
    ensures Pow2(8 - k) * w > 0
    ensures ((h * 256 + x) * w + l) / (Pow2(8 - k) * w) == ((h' * 256 + x') * w + l') / (Pow2(8 - k) * w)
       <==> h == h' && SameMasked(x, x', k)
  {
    hide And, MaskByte;
    DropLow(h * 256 + x, w, l, Pow2(8 - k));
    DropLow(h' * 256 + x', w, l', Pow2(8 - k));
    HighByte(h, x, h', x', k);
    MaskIsQuotient(x, x', k);
  }

  lemma InNetworkIsQuotient(net: Network, ip: Ip)
    requires net.prefix <= 32
    ensures InNetwork(net, ip) <==> Value(net.base) / BlockSize(net) == Value(ip) / BlockSize(net)
  {
    hide And, MaskByte;
    var p: int, n := net.prefix, net.base;
    SameMaskedFull(n.a, ip.a, p);
    SameMaskedFull(n.b, ip.b, p - 8);
    SameMaskedFull(n.c, ip.c, p - 16);
    SameMaskedFull(n.d, ip.d, p - 24);
    if p <= 8 { FirstByte(net, ip); }
    else if p <= 16 { SecondByte(net, ip); }
    else if p <= 24 { ThirdByte(net, ip); }
    else { FourthByte(net, ip); }
  }

  lemma DigitPair(x: nat, y: nat, x': nat, y': nat)
    requires y < 256 && y' < 256
    ensures x * 256 + y == x' * 256 + y' <==> x == x' && y == y'
  {
  }

  /** The value of an address around each of its bytes. */
  lemma ValueAround(ip: Ip)
    ensures Value(ip) == (0 * 256 + ip.a) * 0x100_0000 + ((ip.b * 256 + ip.c) * 256 + ip.d)
    ensures Value(ip) == (ip.a * 256 + ip.b) * 0x1_0000 + (ip.c * 256 + ip.d)
    ensures Value(ip) == ((ip.a * 256 + ip.b) * 256 + ip.c) * 256 + ip.d
    ensures Value(ip) == (((ip.a * 256 + ip.b) * 256 + ip.c) * 256 + ip.d) * 1 + 0
  {
  }

  lemma SizeAround(net: Network)
    requires net.prefix <= 32
    ensures net.prefix <= 8 ==> BlockSize(net) == Pow2(8 - net.prefix) * 0x100_0000
    ensures 8 <= net.prefix <= 16 ==> BlockSize(net) == Pow2(16 - net.prefix) * 0x1_0000
    ensures 16 <= net.prefix <= 24 ==> BlockSize(net) == Pow2(24 - net.prefix) * 256
    ensures 24 <= net.prefix ==> BlockSize(net) == Pow2(32 - net.prefix) * 1
  {
    hide Pow2;
    Pow2Weights();
    if net.prefix <= 8 { Pow2Add(8 - net.prefix, 24); }
    if 8 <= net.prefix <= 16 { Pow2Add(16 - net.prefix, 16); }
    if 16 <= net.prefix <= 24 { Pow2Add(24 - net.prefix, 8); }
  }

  lemma FirstByte(net: Network, ip: Ip)
    requires net.prefix <= 8
    ensures Value(net.base) / BlockSize(net) == Value(ip) / BlockSize(net) <==> SameMasked(net.base.a, ip.a, net.prefix)
  {
    hide Pow2, SameMasked, Value, BlockSize;
    var n := net.base;
    ValueAround(n);
    ValueAround(ip);
    SizeAround(net);
    QuotientByByte(0, n.a, (n.b * 256 + n.c) * 256 + n.d, 0, ip.a, (ip.b * 256 + ip.c) * 256 + ip.d, net.prefix, 0x100_0000);
  }

  lemma SecondByte(net: Network, ip: Ip)
    requires 8 <= net.prefix <= 16
    ensures Value(net.base) / BlockSize(net) == Value(ip) / BlockSize(net)
       <==> net.base.a == ip.a && SameMasked(net.base.b, ip.b, net.prefix - 8)
  {
    hide Pow2, SameMasked, Value, BlockSize;
    var n := net.base;
    ValueAround(n);
    ValueAround(ip);
    SizeAround(net);
    QuotientByByte(n.a, n.b, n.c * 256 + n.d, ip.a, ip.b, ip.c * 256 + ip.d, net.prefix - 8, 0x1_0000);
  }

  lemma ThirdByte(net: Network, ip: Ip)
    requires 16 <= net.prefix <= 24
    ensures Value(net.base) / BlockSize(net) == Value(ip) / BlockSize(net)
       <==> net.base.a == ip.a && net.base.b == ip.b && SameMasked(net.base.c, ip.c, net.prefix - 16)
  {
    hide Pow2, SameMasked, Value, BlockSize;
    var n := net.base;
    ValueAround(n);
    ValueAround(ip);
    SizeAround(net);
    QuotientByByte(n.a * 256 + n.b, n.c, n.d, ip.a * 256 + ip.b, ip.c, ip.d, net.prefix - 16, 256);
    DigitPair(n.a, n.b, ip.a, ip.b);
  }

  lemma FourthByte(net: Network, ip: Ip)
    requires 24 <= net.prefix <= 32
    ensures Value(net.base) / BlockSize(net) == Value(ip) / BlockSize(net)
       <==> net.base.a == ip.a && net.base.b == ip.b && net.base.c == ip.c
            && SameMasked(net.base.d, ip.d, net.prefix - 24)
  {
    hide Pow2, SameMasked, Value, BlockSize;
    var n := net.base;
    ValueAround(n);
    ValueAround(ip);
    SizeAround(net);
    QuotientByByte((n.a * 256 + n.b) * 256 + n.c, n.d, 0, (ip.a * 256 + ip.b) * 256 + ip.c, ip.d, 0, net.prefix - 24, 1);
    DigitPair(n.a * 256 + n.b, n.c, ip.a * 256 + ip.b, ip.c);
    DigitPair(n.a, n.b, ip.a, ip.b);
  }

  lemma QuotientIsInterval(x: int, y: int, m: int)
    requires m > 0
    ensures x / m == y / m <==> x - x % m <= y < x - x % m + m
  {
    var q := x / m;
    assert x - x % m == m * q;
    assert y == m * (y / m) + y % m;
    if m * q <= y < m * q + m { QuotientUnique(y, m, q); }
  }

  /** Membership of a block is membership of an interval of address values. */
  lemma InNetworkIsInterval(net: Network, ip: Ip)
    requires net.prefix <= 32
    ensures InNetwork(net, ip) <==> Lowest(net) <= Value(ip) < Lowest(net) + BlockSize(net)
  {
    hide And, MaskByte;
    InNetworkIsQuotient(net, ip);
    QuotientIsInterval(Value(net.base), Value(ip), BlockSize(net));
  }

  // ----- text round trips

  lemma Decimals(f: string)
    requires 1 <= |f| <= 3 && AllDigits(f)
    ensures |f| == 1 ==> DecimalValue(f) == DigitValue(f[0])
    ensures |f| == 2 ==> DecimalValue(f) == DigitValue(f[0]) * 10 + DigitValue(f[1])
    ensures |f| == 3 ==> DecimalValue(f) == DigitValue(f[0]) * 100 + DigitValue(f[1]) * 10 + DigitValue(f[2])
  {
    assert f[..1][..0] == [];
    if |f| == 2 { assert f[..1][0] == f[0]; }
    if |f| == 3 { assert f[..2][..1] == f[..1]; }
  }

  lemma OctetPrintParse(n: Octet)
    ensures ParseOctet(PrintOctet(n)) == Some(n)
    ensures '.' !in PrintOctet(n) && '/' !in PrintOctet(n)
  {
    hide DecimalValue;
    Decimals(PrintOctet(n));
    DigitsPrinted(n % 10);
    DigitsPrinted(n / 10 % 10);
    DigitsPrinted(n / 100);
    if n >= 10 { assert n / 10 < 10 ==> n / 10 == n / 10 % 10; }
    hide DigitValue, DigitChar;
  }

  lemma DigitsPrinted(d: nat)
    requires d < 10
    ensures IsDigit(DigitChar(d)) && DigitValue(DigitChar(d)) == d && (DigitChar(d) == '0' <==> d == 0)
  {
  }

  lemma DigitCharOf(c: char)
    requires IsDigit(c)
    ensures DigitValue(c) < 10 && DigitChar(DigitValue(c)) == c
    ensures DigitValue(c) == 0 <==> c == '0'
  {
  }

  lemma TwoDigits(c: char, d: char)
    requires IsDigit(c) && IsDigit(d) && c != '0'
    ensures var n := DigitValue(c) * 10 + DigitValue(d); 10 <= n < 100 && PrintOctet(n) == [c, d]
  {
    DigitCharOf(c);
    DigitCharOf(d);
  }

  lemma ThreeDigits(c: char, d: char, e: char)
    requires IsDigit(c) && IsDigit(d) && IsDigit(e) && c != '0'
    requires DigitValue(c) * 100 + DigitValue(d) * 10 + DigitValue(e) < 256
    ensures PrintOctet(DigitValue(c) * 100 + DigitValue(d) * 10 + DigitValue(e)) == [c, d, e]
  {
    DigitCharOf(c);
    DigitCharOf(d);
    DigitCharOf(e);
  }

  lemma OctetParsePrint(f: string)
    requires ParseOctet(f).Some?
    ensures PrintOctet(ParseOctet(f).value) == f
  {
    hide PrintOctet, DecimalValue, DigitValue;
    Decimals(f);
    assert forall i :: 0 <= i < |f| ==> f[i] in f;
    if |f| == 1 {
      OneDigit(f[0]);
      assert f == [f[0]];
    } else if |f| == 2 {
      TwoDigits(f[0], f[1]);
      assert f == [f[0], f[1]];
    } else {
      ThreeDigits(f[0], f[1], f[2]);
      assert f == [f[0], f[1], f[2]];
    }
  }

  lemma OneDigit(c: char)
    requires IsDigit(c)
    ensures PrintOctet(DigitValue(c)) == [c]
  {
    DigitCharOf(c);
  }

  /** Printing then parsing an address is the identity. */
  lemma PrintParse(ip: Ip)
    ensures ParseIp(PrintIp(ip)) == Some(ip)
  {
    OctetPrintParse(ip.a);
    OctetPrintParse(ip.b);
    OctetPrintParse(ip.c);
    OctetPrintParse(ip.d);
    SplitJoin(Fields(ip), '.');
  }

  /** An address has one text form only: parsing then printing is the identity. */
  lemma ParsePrint(s: string)
    requires ParseIp(s).Some?
    ensures PrintIp(ParseIp(s).value) == s
  {
    var f := Split(s, '.');
    OctetParsePrint(f[0]);
    OctetParsePrint(f[1]);
    OctetParsePrint(f[2]);
    OctetParsePrint(f[3]);
    assert f == Fields(ParseIp(s).value);
    JoinSplit(s, '.');
  }

  lemma {:induction false} JoinFree(l: seq<string>, sep: char, c: char)
    requires c != sep && forall f :: f in l ==> c !in f
    ensures c !in Join(l, sep)
  {
    if |l| > 1 { JoinFree(l[1..], sep, c); }
  }

  lemma ParsedHasNoSlash(s: string)
    requires ParseIp(s).Some?
    ensures '/' !in s
  {
    var ip := ParseIp(s).value;
    ParsePrint(s);
    OctetPrintParse(ip.a);
    OctetPrintParse(ip.b);
    OctetPrintParse(ip.c);
    OctetPrintParse(ip.d);
    JoinFree(Fields(ip), '.', '/');
  }

  /** A separator inside the first part gives at least three pieces. */
  lemma {:induction false} SplitCount(a: string, c: char, b: string)
    ensures |Split(a + [c] + b, c)| > 1
    ensures c in a ==> |Split(a + [c] + b, c)| > 2
  {
    if a != [] {
      assert (a + [c] + b)[1..] == a[1..] + [c] + b;
      SplitCount(a[1..], c, b);
    } else {
      assert (a + [c] + b)[1..] == b;
    }
  }

  /** The text "s/32" is a block exactly when s is an address, and then it is the block of s alone. */
  lemma HostCidr(s: string)
    ensures ParseCidr(s + "/32") == if ParseIp(s).Some? then Some(Network(ParseIp(s).value, 32)) else None
  {
    Decimals("32");
    SplitFree("32", '/');
    assert s + "/32" == s + ['/'] + "32";
    if '/' in s {
      SplitCount(s, '/', "32");
      assert ParseIp(s).None? by { if ParseIp(s).Some? { ParsedHasNoSlash(s); } }
    } else {
      SplitFirst(s, '/', "32");
    }
  }

  lemma HostNetwork(x: Ip, y: Ip)
    ensures InNetwork(Network(x, 32), y) <==> x == y
  {
    hide And, MaskByte;
    SameMaskedFull(x.a, y.a, 32);
    SameMaskedFull(x.b, y.b, 24);
    SameMaskedFull(x.c, y.c, 16);
    SameMaskedFull(x.d, y.d, 8);
  }

  /** The text "a.b.c.d/p" is the block of that address and prefix for p up to 32, and no block above. */
  lemma CidrPrintParse(ip: Ip, p: nat)
    ensures ParseCidr(PrintIp(ip) + ['/'] + Itoa(p)) == if p <= 32 then Some(Network(ip, p)) else None
  {
    hide ParseOctet, PrintIp, DecimalValue, Itoa;
    PrintParse(ip);
    ParsedHasNoSlash(PrintIp(ip));
    ItoaValue(p);
    DigitsHaveNoSlash(Itoa(p));
    SplitFirst(PrintIp(ip), '/', Itoa(p));
    SplitFree(Itoa(p), '/');
    assert [PrintIp(ip)] + [Itoa(p)] == [PrintIp(ip), Itoa(p)];
  }

  lemma DigitsHaveNoSlash(s: string)
    requires AllDigits(s)
    ensures '/' !in s
  {
  }

  /** A text without a slash, or with an unreadable address or prefix, is no block. */
  lemma CidrNeedsBoth(a: string, b: string)
    ensures '/' !in a ==> ParseCidr(a).None?
    ensures '/' !in a && '/' !in b && (ParseIp(a).None? || !AllDigits(b) || b == "") ==> ParseCidr(a + ['/'] + b).None?
  {
    hide ParseIp;
    if '/' !in a {
      SplitFree(a, '/');
      if '/' !in b {
        SplitFirst(a, '/', b);
        SplitFree(b, '/');
      }
    }
  }
}
