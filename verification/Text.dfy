/** Splitting and joining text at a separator character. */
module Text {

  /** strings.Split / String.split: always at least one piece. */
  function Split(s: string, c: char): (r: seq<string>)
    ensures r != []
    ensures forall f :: f in r ==> c !in f
  {
    if s == [] then [[]]
    else
      var rest := Split(s[1..], c);
      if s[0] == c then [[]] + rest else [[s[0]] + rest[0]] + rest[1..]
  }

  function Join(l: seq<string>, c: char): string {
    if l == [] then []
    else if |l| == 1 then l[0]
    else l[0] + [c] + Join(l[1..], c)
  }

  lemma {:induction false} SplitFree(s: string, c: char)
    requires c !in s
    ensures Split(s, c) == [s]
  {
    if s != [] {
      SplitFree(s[1..], c);
      assert [s[0]] + s[1..] == s;
    }
  }

  lemma {:induction false} SplitFirst(a: string, c: char, b: string)
    requires c !in a
    ensures Split(a + [c] + b, c) == [a] + Split(b, c)
  {
    var s := a + [c] + b;
    if a == [] {
      assert s[1..] == b;
    } else {
      assert s[1..] == a[1..] + [c] + b;
      SplitFirst(a[1..], c, b);
      assert [a[0]] + a[1..] == a;
    }
  }

  /** Splitting undoes joining exactly for the non-empty lists of pieces without the separator. */
  lemma {:induction false} SplitJoin(l: seq<string>, c: char)
    ensures Split(Join(l, c), c) == l <==> l != [] && forall f :: f in l ==> c !in f
  {
    if l == [] || (exists f :: f in l && c in f) {
    } else if |l| == 1 {
      SplitFree(l[0], c);
    } else {
      SplitJoin(l[1..], c);
      SplitFirst(l[0], c, Join(l[1..], c));
    }
  }

  /** Joining undoes splitting, for every text. */
  lemma {:induction false} JoinSplit(s: string, c: char)
    ensures Join(Split(s, c), c) == s
  {
    if s != [] {
      JoinSplit(s[1..], c);
      var rest := Split(s[1..], c);
      assert Split(s, c)[1..] == if s[0] == c then rest else rest[1..];
    }
  }

  /** The Unicode White_Space characters, which str::trim removes. */
  predicate UnicodeSpace(c: char) {
    || c == ' ' || '\t' <= c <= '\r' || c == '\U{0085}' || c == '\U{00A0}' || c == '\U{1680}'
    || '\U{2000}' <= c <= '\U{200A}' || c == '\U{2028}' || c == '\U{2029}' || c == '\U{202F}'
    || c == '\U{205F}' || c == '\U{3000}'
  }

  predicate IsDigit(c: char) { '0' <= c <= '9' }

  predicate AllDigits(s: string) { forall c :: c in s ==> IsDigit(c) }

  function DigitValue(c: char): nat
    requires IsDigit(c)
  {
    c as int - '0' as int
  }

  function DecimalValue(s: string): nat
    requires AllDigits(s)
  {
    if s == [] then 0
    else DecimalValue(s[..|s| - 1]) * 10 + DigitValue(s[|s| - 1])
  }

  /** strconv.Itoa of a number that is not negative. */
  function Itoa(n: nat): string {
    (if n < 10 then [] else Itoa(n / 10)) + [(n % 10) as char + '0']
  }

  lemma {:induction false} ItoaValue(n: nat)
    ensures Itoa(n) != "" && AllDigits(Itoa(n)) && DecimalValue(Itoa(n)) == n
  {
    var s := Itoa(n);
    assert s[..|s| - 1] == if n < 10 then [] else Itoa(n / 10);
    if n >= 10 { ItoaValue(n / 10); }
  }
}
