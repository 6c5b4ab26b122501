/** JSON texts (RFC 8259): values, JSON.stringify without indentation, and JSON.parse. */
module Json {
  import opened Common
  import opened Text

  /** A number is kept as it is written. */
  datatype Json =
    | JNull
    | JBool(b: bool)
    | JNumber(lexeme: string)
    | JString(text: string)
    | JArray(items: Items)
    | JObject(members: Members)

  datatype Items = NoItems | Item(value: Json, rest: Items)

  /** In the order written, repeated keys included. */
  datatype Members = NoMembers | Member(key: string, value: Json, rest: Members)

  /** The value under a key: of several, the last. */
  function Get(ms: Members, key: string): Option<Json> {
    if ms.NoMembers? then None
    else match Get(ms.rest, key)
      case Some(v) => Some(v)
      case None => if ms.key == key then Some(ms.value) else None
  }

  // ----- strings

  const QUOTE: char := '\"'
  const BACKSLASH: char := '\\'

  function HexDigit(n: nat): char
    requires n < 16
  {
    if n < 10 then n as char + '0' else (n - 10) as char + 'a'
  }

  function HexValue(c: char): (r: Option<nat>)
    ensures r.Some? ==> r.value < 16
  {
    if '0' <= c <= '9' then Some((c - '0') as nat)
    else if 'a' <= c <= 'f' then Some((c - 'a') as nat + 10)
    else if 'A' <= c <= 'F' then Some((c - 'A') as nat + 10)
    else None
  }

  function Escape(c: char): (r: string)
    ensures r != "" && r[0] != QUOTE && '\n' !in r
  {
    if c == QUOTE || c == BACKSLASH then [BACKSLASH, c]
    else if c == '\n' then [BACKSLASH, 'n']
    else if c == '\r' then [BACKSLASH, 'r']
    else if c == '\t' then [BACKSLASH, 't']
    else if c == '\U{0008}' then [BACKSLASH, 'b']
    else if c == '\U{000C}' then [BACKSLASH, 'f']
    else if c < ' ' then [BACKSLASH, 'u', '0', '0', HexDigit(c as nat / 16), HexDigit(c as nat % 16)]
    else [c]
  }

  function Escaped(v: string): (r: string)
    ensures '\n' !in r
  {
    if v == "" then "" else Escape(v[0]) + Escaped(v[1..])
  }

  /** The character of a \u escape. Half a surrogate pair is no character and reads as U+FFFD. */
  function Unit(n: nat): char
    requires n < 0x1_0000
  {
    if n < 0xD800 || 0xE000 <= n then n as char else '\U{FFFD}'
  }

  function ReadHex(s: string): Option<char>
    requires |s| == 4
  {
    match (HexValue(s[0]), HexValue(s[1]), HexValue(s[2]), HexValue(s[3]))
    case (Some(a), Some(b), Some(c), Some(d)) => Some(Unit(((a * 16 + b) * 16 + c) * 16 + d))
    case _ => None
  }

  /** One character of a string, escaped or not, and what follows it. */
  function ReadChar(s: string): (r: Option<(char, string)>)
    ensures r.Some? ==> |r.value.1| < |s|
  {
    if s == "" || s[0] == QUOTE || s[0] < ' ' then None
    else if s[0] != BACKSLASH then Some((s[0], s[1..]))
    else if |s| < 2 then None
    else if s[1] == QUOTE || s[1] == BACKSLASH || s[1] == '/' then Some((s[1], s[2..]))
    else if s[1] == 'n' then Some(('\n', s[2..]))
    else if s[1] == 'r' then Some(('\r', s[2..]))
    else if s[1] == 't' then Some(('\t', s[2..]))
    else if s[1] == 'b' then Some(('\U{0008}', s[2..]))
    else if s[1] == 'f' then Some(('\U{000C}', s[2..]))
    else if s[1] == 'u' && |s| >= 6 then
      match ReadHex(s[2..6])
      case Some(c) => Some((c, s[6..]))
      case None => None
    else None
  }

  /** The rest of a string after its opening quote, and what follows the closing one. */
  function ReadString(s: string): (r: Option<(string, string)>)
    ensures r.Some? ==> |r.value.1| < |s|
    decreases |s|
  {
    if s != "" && s[0] == QUOTE then Some(("", s[1..]))
    else match ReadChar(s)
      case None => None
      case Some((c, rest)) =>
        match ReadString(rest)
        case Some((v, t)) => Some(([c] + v, t))
        case None => None
  }

  // ----- numbers

  predicate NumberChar(c: char) { IsDigit(c) || c == '+' || c == '-' || c == '.' || c == 'e' || c == 'E' }

  /** The characters in front that can be part of a number. None of them can follow a number, so
      the whole run has to be one. */
  function NumberRun(s: string): (r: string)
    ensures r <= s
  {
    if s != "" && NumberChar(s[0]) then [s[0]] + NumberRun(s[1..]) else ""
  }

  function Digits(s: string): (n: nat)
    ensures n <= |s|
  {
    if s != "" && IsDigit(s[0]) then 1 + Digits(s[1..]) else 0
  }

  predicate IsNumber(l: string) {
    var s := if l != "" && l[0] == '-' then l[1..] else l;
    var n := Digits(s);
    n > 0 && (n > 1 ==> s[0] != '0') && IsFraction(s[n..])
  }

  predicate IsFraction(s: string) {
    if s != "" && s[0] == '.' then Digits(s[1..]) > 0 && IsExponent(s[1..][Digits(s[1..])..]) else IsExponent(s)
  }

  predicate IsExponent(s: string) {
    s == "" ||
    ((s[0] == 'e' || s[0] == 'E') &&
     var t := if |s| > 1 && (s[1] == '+' || s[1] == '-') then s[2..] else s[1..];
     t != "" && AllDigits(t))
  }

  // ----- the printer

  function Print(v: Json): string {
    match v
    case JNull => "null"
    case JBool(b) => if b then "true" else "false"
    case JNumber(l) => l
    case JString(t) => [QUOTE] + Escaped(t) + [QUOTE]
    case JArray(xs) => ['['] + PrintItems(xs)
    case JObject(ms) => ['{'] + PrintMembers(ms)
  }

  /** What follows the opening bracket. */
  function PrintItems(xs: Items): string {
    match xs
    case NoItems => "]"
    case Item(v, rest) => Print(v) + if rest.NoItems? then "]" else [','] + PrintItems(rest)
  }

  /** What follows the opening brace. */
  function PrintMembers(ms: Members): string {
    match ms
    case NoMembers => "}"
    case Member(k, v, rest) =>
      [QUOTE] + (Escaped(k) + [QUOTE] + ([':'] + (Print(v) + if rest.NoMembers? then "}" else [','] + PrintMembers(rest))))
  }

  /** The numbers in a value are written as JSON writes them. */
  predicate WellFormed(v: Json) {
    match v
    case JNumber(l) => IsNumber(l) && forall c :: c in l ==> NumberChar(c)
    case JArray(xs) => WellFormedItems(xs)
    case JObject(ms) => WellFormedMembers(ms)
    case _ => true
  }

  predicate WellFormedItems(xs: Items) { xs.NoItems? || (WellFormed(xs.value) && WellFormedItems(xs.rest)) }

  predicate WellFormedMembers(ms: Members) { ms.NoMembers? || (WellFormed(ms.value) && WellFormedMembers(ms.rest)) }

  // ----- the reader

  predicate IsBlank(c: char) { c == ' ' || c == '\t' || c == '\n' || c == '\r' }

  function Skip(s: string): (r: string)
    ensures |r| <= |s|
  {
    if s != "" && IsBlank(s[0]) then Skip(s[1..]) else s
  }

  predicate Begins(s: string, c: char) { s != "" && s[0] == c }

  /** A value and what follows it. */
  function ReadValue(s: string): (r: Option<(Json, string)>)
    ensures r.Some? ==> |r.value.1| < |s|
    decreases |s|, 0
  {
    if s == "" then None
    else if s[0] == QUOTE then
      match ReadString(s[1..]) case None => None case Some((t, rest)) => Some((JString(t), rest))
    else if s[0] == '[' then
      var t := Skip(s[1..]);
      if Begins(t, ']') then Some((JArray(NoItems), t[1..]))
      else match ReadItems(t) case None => None case Some((xs, rest)) => Some((JArray(xs), rest))
    else if s[0] == '{' then
      var t := Skip(s[1..]);
      if Begins(t, '}') then Some((JObject(NoMembers), t[1..]))
      else match ReadMembers(t) case None => None case Some((ms, rest)) => Some((JObject(ms), rest))
    else if NumberChar(s[0]) then
      var l := NumberRun(s);
      if l != "" && IsNumber(l) then Some((JNumber(l), s[|l|..])) else None
    else if "null" <= s then Some((JNull, s[4..]))
    else if "true" <= s then Some((JBool(true), s[4..]))
    else if "false" <= s then Some((JBool(false), s[5..]))
    else None
  }

  function ReadItems(s: string): (r: Option<(Items, string)>)
    ensures r.Some? ==> |r.value.1| < |s|
    decreases |s|, 1
  {
    match ReadValue(s)
    case None => None
    case Some((v, a)) =>
      var b := Skip(a);
      if Begins(b, ']') then Some((Item(v, NoItems), b[1..]))
      else if Begins(b, ',') then
        match ReadItems(Skip(b[1..])) case None => None case Some((xs, rest)) => Some((Item(v, xs), rest))
      else None
  }

  function ReadMembers(s: string): (r: Option<(Members, string)>)
    ensures r.Some? ==> |r.value.1| < |s|
    decreases |s|, 1
  {
    if !Begins(s, QUOTE) then None
    else match ReadString(s[1..])
      case None => None
      case Some((k, a)) =>
        var b := Skip(a);
        if !Begins(b, ':') then None
        else match ReadValue(Skip(b[1..]))
          case None => None
          case Some((v, c)) =>
            var d := Skip(c);
            if Begins(d, '}') then Some((Member(k, v, NoMembers), d[1..]))
            else if Begins(d, ',') then
              match ReadMembers(Skip(d[1..])) case None => None case Some((ms, rest)) => Some((Member(k, v, ms), rest))
            else None
  }

  /** JSON.parse: one value and nothing else. */
  function ParseText(s: string): Option<Json> {
    match ReadValue(Skip(s))
    case Some((v, rest)) => if Skip(rest) == "" then Some(v) else None
    case None => None
  }

  // ----- reading undoes printing

  lemma ReadEscape(c: char, t: string)
    ensures ReadChar(Escape(c) + t) == Some((c, t))
  {
    var s := Escape(c) + t;
    assert |Escape(c)| == 1 ==> s[1..] == t;
    assert |Escape(c)| == 2 ==> s[2..] == t;
    if |Escape(c)| == 6 {
      assert s[6..] == t;
      var n := c as nat;
      assert HexValue('0') == Some(0) && HexValue(HexDigit(n / 16)) == Some(n / 16) && HexValue(HexDigit(n % 16)) == Some(n % 16);
      assert s[2..6] == ['0', '0', HexDigit(n / 16), HexDigit(n % 16)];
    }
  }

  /** Reading undoes escaping, whatever follows the closing quote. */
  lemma {:induction false} ReadEscaped(v: string, t: string)
    ensures ReadString(Escaped(v) + [QUOTE] + t) == Some((v, t))
  {
    hide Escape, ReadChar;
    var s := Escaped(v) + [QUOTE] + t;
    if v == "" {
      assert s[1..] == t;
    } else {
      var tail := Escaped(v[1..]) + [QUOTE] + t;
      assert s == Escape(v[0]) + tail;
      ReadEscape(v[0], tail);
      ReadEscaped(v[1..], t);
      assert [v[0]] + v[1..] == v;
    }
  }

  lemma {:induction false} RunOfNumber(l: string, u: string)
    requires (forall c :: c in l ==> NumberChar(c)) && (u != "" ==> !NumberChar(u[0]))
    ensures NumberRun(l + u) == l
  {
    if l == "" {
      assert l + u == u;
    } else {
      assert (l + u)[1..] == l[1..] + u && [l[0]] + l[1..] == l;
      RunOfNumber(l[1..], u);
    }
  }

  predicate Stops(u: string) { u == "" || !NumberChar(u[0]) }

  lemma PrintHead(v: Json)
    requires WellFormed(v)
    ensures Print(v) != "" && !IsBlank(Print(v)[0]) && Print(v)[0] != ']' && Print(v)[0] != '}'
    ensures forall u :: Skip(Print(v) + u) == Print(v) + u
  {
  }

  lemma {:induction false} ReadPrinted(v: Json, u: string)
    requires WellFormed(v) && (v.JNumber? ==> Stops(u))
    ensures ReadValue(Print(v) + u) == Some((v, u))
    decreases v
  {
    hide Escaped, ReadString, IsNumber, NumberRun, ReadItems, ReadMembers;
    var s := Print(v) + u;
    match v
    case JNull => assert s[4..] == u;
    case JBool(b) => assert if b then s[4..] == u else s[5..] == u;
    case JNumber(l) => ReadPrintedNumber(l, u);
    case JString(t) =>
      assert s == [QUOTE] + (Escaped(t) + [QUOTE] + u);
      assert s[1..] == Escaped(t) + [QUOTE] + u;
      ReadEscaped(t, u);
    case JArray(xs) => ReadPrintedArray(xs, u);
    case JObject(ms) => ReadPrintedObject(ms, u);
  }

  lemma {:induction false} ReadPrintedArray(xs: Items, u: string)
    requires WellFormedItems(xs)
    ensures ReadValue(['['] + PrintItems(xs) + u) == Some((JArray(xs), u))
    decreases xs, 1
  {
    hide ReadItems, ReadMembers, Print;
    var s, t := ['['] + PrintItems(xs) + u, PrintItems(xs) + u;
    assert s[1..] == t;
    if xs.NoItems? {
      assert t[1..] == u;
    } else {
      ItemsHead(xs, u);
      ReadPrintedItems(xs, u);
    }
  }

  lemma {:induction false} ReadPrintedObject(ms: Members, u: string)
    requires WellFormedMembers(ms)
    ensures ReadValue(['{'] + PrintMembers(ms) + u) == Some((JObject(ms), u))
    decreases ms, 1
  {
    hide ReadItems, ReadMembers, Print, Escaped;
    var s, t := ['{'] + PrintMembers(ms) + u, PrintMembers(ms) + u;
    assert s[1..] == t;
    if ms.NoMembers? {
      assert t[1..] == u;
    } else {
      ReadPrintedMembers(ms, u);
    }
  }

  lemma ReadPrintedNumber(l: string, u: string)
    requires WellFormed(JNumber(l)) && Stops(u)
    ensures ReadValue(l + u) == Some((JNumber(l), u))
  {
    hide ReadString, NumberRun, ReadItems, ReadMembers;
    PrintHead(JNumber(l));
    RunOfNumber(l, u);
    assert (l + u)[0] in l && (l + u)[|l|..] == u;
  }

  lemma ItemsHead(xs: Items, u: string)
    requires xs.Item? && WellFormedItems(xs)
    ensures Skip(PrintItems(xs) + u) == PrintItems(xs) + u && !Begins(PrintItems(xs) + u, ']')
  {
    PrintHead(xs.value);
  }

  lemma {:induction false} ReadPrintedItems(xs: Items, u: string)
    requires xs.Item? && WellFormedItems(xs)
    ensures ReadItems(PrintItems(xs) + u) == Some((xs, u))
    decreases xs, 0
  {
    hide Print, WellFormed, ReadValue;
    if xs.rest.NoItems? {
      var a := "]" + u;
      assert PrintItems(xs) + u == Print(xs.value) + a && a[1..] == u;
      ReadPrinted(xs.value, a);
    } else {
      var t := PrintItems(xs.rest) + u;
      var a := [','] + t;
      assert PrintItems(xs) + u == Print(xs.value) + a && a[1..] == t;
      ReadPrinted(xs.value, a);
      ItemsHead(xs.rest, u);
      ReadPrintedItems(xs.rest, u);
    }
  }

  lemma {:induction false} ReadPrintedMembers(ms: Members, u: string)
    requires ms.Member? && WellFormedMembers(ms)
    ensures ReadMembers(PrintMembers(ms) + u) == Some((ms, u))
    ensures Begins(PrintMembers(ms) + u, QUOTE)
    decreases ms, 0
  {
    hide Print, WellFormed, ReadValue, Escaped, ReadString;
    var t := PrintMembers(ms.rest) + u;
    var d := if ms.rest.NoMembers? then "}" + u else [','] + t;
    var a := [':'] + (Print(ms.value) + d);
    assert PrintMembers(ms) + u == [QUOTE] + (Escaped(ms.key) + [QUOTE] + a);
    assert (PrintMembers(ms) + u)[1..] == Escaped(ms.key) + [QUOTE] + a;
    ReadEscaped(ms.key, a);
    assert a[1..] == Print(ms.value) + d;
    PrintHead(ms.value);
    ReadPrinted(ms.value, d);
    if ms.rest.NoMembers? {
      assert d[1..] == u;
    } else {
      assert d[1..] == t;
      ReadPrintedMembers(ms.rest, u);
    }
  }

  /** Printing then parsing is the identity on all values. */
  lemma PrintParse(v: Json)
    requires WellFormed(v)
    ensures ParseText(Print(v)) == Some(v)
  {
    hide ReadValue, Print, WellFormed;
    assert Print(v) + "" == Print(v);
    PrintHead(v);
    ReadPrinted(v, "");
  }

  // ----- a text cut short

  lemma {:induction false} SkipExtends(s: string, u: string)
    requires Skip(s) != ""
    ensures Skip(s + u) == Skip(s) + u
  {
    if IsBlank(s[0]) {
      assert (s + u)[1..] == s[1..] + u;
      SkipExtends(s[1..], u);
    }
  }

  lemma CharExtends(s: string, u: string)
    requires ReadChar(s).Some?
    ensures ReadChar(s + u) == Some((ReadChar(s).value.0, ReadChar(s).value.1 + u))
  {
    assert (s + u)[1..] == s[1..] + u;
    if |s| >= 2 { assert (s + u)[2..] == s[2..] + u; }
    if |s| >= 6 { assert (s + u)[6..] == s[6..] + u && (s + u)[2..6] == s[2..6]; }
  }

  lemma {:induction false} StringExtends(s: string, u: string)
    requires ReadString(s).Some?
    ensures ReadString(s + u) == Some((ReadString(s).value.0, ReadString(s).value.1 + u))
    decreases |s|
  {
    hide ReadChar;
    if Begins(s, QUOTE) {
      assert (s + u)[1..] == s[1..] + u;
    } else {
      CharExtends(s, u);
      StringExtends(ReadChar(s).value.1, u);
      assert s != "" by { NothingToRead(); }
    }
  }

  lemma NothingToRead()
    ensures ReadChar("") == None
  {
  }

  lemma {:induction false} RunExtends(s: string, u: string)
    requires NumberRun(s) != s
    ensures NumberRun(s + u) == NumberRun(s)
  {
    assert (s + u)[1..] == s[1..] + u && s == [s[0]] + s[1..];
    if NumberChar(s[0]) { RunExtends(s[1..], u); }
  }

  /** What was read is read again from a longer text, unless it was a number that ended with the text. */
  lemma {:induction false} ValueExtends(s: string, u: string)
    requires ReadValue(s).Some? && (NumberChar(s[0]) ==> ReadValue(s).value.1 != "")
    ensures ReadValue(s + u) == Some((ReadValue(s).value.0, ReadValue(s).value.1 + u))
    decreases |s|, 0
  {
    hide ReadString, NumberRun, IsNumber;
    assert (s + u)[1..] == s[1..] + u && (s + u)[0] == s[0];
    if s[0] == QUOTE {
      StringExtends(s[1..], u);
    } else if s[0] == '[' {
      BracketExtends(s[1..], u, ']');
      var t := Skip(s[1..]);
      if !Begins(t, ']') { ItemsExtend(t, u); }
    } else if s[0] == '{' {
      BracketExtends(s[1..], u, '}');
      var t := Skip(s[1..]);
      if !Begins(t, '}') { MembersExtend(t, u); }
    } else if NumberChar(s[0]) {
      var l := NumberRun(s);
      RunExtends(s, u);
      assert (s + u)[|l|..] == s[|l|..] + u;
    } else {
      LiteralExtends(s, u, "null");
      LiteralExtends(s, u, "true");
      LiteralExtends(s, u, "false");
    }
  }

  lemma BracketExtends(s: string, u: string, c: char)
    requires Skip(s) != ""
    ensures Skip(s + u) == Skip(s) + u && (Begins(Skip(s + u), c) <==> Begins(Skip(s), c))
    ensures Skip(s + u)[1..] == Skip(s)[1..] + u
  {
    SkipExtends(s, u);
  }

  /** A literal in front stays, and no other literal comes in front of it. */
  lemma LiteralExtends(s: string, u: string, lit: string)
    requires s != "" && lit != ""
    ensures lit <= s ==> lit <= s + u && (s + u)[|lit|..] == s[|lit|..] + u
    ensures lit <= s + u ==> lit[0] == s[0]
  {
  }

  lemma {:induction false} ItemsExtend(s: string, u: string)
    requires ReadItems(s).Some?
    ensures ReadItems(s + u) == Some((ReadItems(s).value.0, ReadItems(s).value.1 + u))
    decreases |s|, 1
  {
    hide ReadValue;
    var a := ReadValue(s).value.1;
    SkipNothing();
    ValueNeedsText();
    ValueExtends(s, u);
    BracketExtends(a, u, ']');
    BracketExtends(a, u, ',');
    var b := Skip(a);
    if !Begins(b, ']') {
      ItemsNeedText();
      BracketExtends(b[1..], u, ',');
      ItemsExtend(Skip(b[1..]), u);
    }
  }

  lemma SkipNothing()
    ensures Skip("") == ""
  {
  }

  lemma ValueNeedsText()
    ensures ReadValue("") == None
  {
  }

  lemma ItemsNeedText()
    ensures ReadItems("") == None && ReadMembers("") == None
  {
  }

  lemma {:induction false} MembersExtend(s: string, u: string)
    requires ReadMembers(s).Some?
    ensures ReadMembers(s + u) == Some((ReadMembers(s).value.0, ReadMembers(s).value.1 + u))
    decreases |s|, 1
  {
    hide ReadValue, ReadString;
    SkipNothing();
    ValueNeedsText();
    ItemsNeedText();
    assert (s + u)[1..] == s[1..] + u;
    StringExtends(s[1..], u);
    var a := ReadString(s[1..]).value.1;
    BracketExtends(a, u, ':');
    var b := Skip(a);
    BracketExtends(b[1..], u, ':');
    var t := Skip(b[1..]);
    var c := ReadValue(t).value.1;
    ValueExtends(t, u);
    BracketExtends(c, u, '}');
    BracketExtends(c, u, ',');
    var d := Skip(c);
    if !Begins(d, '}') {
      BracketExtends(d[1..], u, ',');
      MembersExtend(Skip(d[1..]), u);
    }
  }

  /** No proper prefix of the text of an object, an array or a string is a JSON text. */
  lemma CutIsUnreadable(v: Json, n: nat)
    requires WellFormed(v) && (v.JObject? || v.JArray? || v.JString?) && n < |Print(v)|
    ensures ParseText(Print(v)[..n]) == None
  {
    hide ReadValue, WellFormed, Escaped;
    var s, u := Print(v)[..n], Print(v)[n..];
    if n == 0 {
      assert s == "";
      ValueNeedsText();
    } else {
      assert s[0] == Print(v)[0] && Skip(s) == s;
      assert s + u == Print(v) && Print(v) + "" == Print(v);
      ReadPrinted(v, "");
      if ReadValue(s).Some? { ValueExtends(s, u); }
    }
  }

  lemma {:induction false} PrintHasNoBreak(v: Json)
    requires WellFormed(v)
    ensures '\n' !in Print(v)
    decreases v
  {
    hide Escaped, IsNumber;
    match v
    case JArray(xs) => ItemsHaveNoBreak(xs);
    case JObject(ms) => MembersHaveNoBreak(ms);
    case _ =>
  }

  lemma {:induction false} ItemsHaveNoBreak(xs: Items)
    requires WellFormedItems(xs)
    ensures '\n' !in PrintItems(xs)
    decreases xs
  {
    if xs.Item? {
      PrintHasNoBreak(xs.value);
      ItemsHaveNoBreak(xs.rest);
    }
  }

  lemma {:induction false} MembersHaveNoBreak(ms: Members)
    requires WellFormedMembers(ms)
    ensures '\n' !in PrintMembers(ms)
    decreases ms
  {
    hide Escaped;
    if ms.Member? {
      PrintHasNoBreak(ms.value);
      MembersHaveNoBreak(ms.rest);
    }
  }

  // ----- the rest of the grammar

  /** White space around a value, and nothing else, is ignored. */
  lemma BlanksAreIgnored(before: string, v: Json, after: string)
    requires WellFormed(v) && (forall c :: c in before || c in after ==> c == ' ' || c == '\t' || c == '\n' || c == '\r')
    ensures ParseText(before + Print(v) + after) == Some(v)
  {
    hide ReadValue, Print, WellFormed, NumberChar;
    PrintHead(v);
    SkipAll(before, Print(v) + after);
    assert before + Print(v) + after == before + (Print(v) + after);
    SkipAll(after, "");
    assert after + "" == after;
    if after != "" { BlankIsNoNumber(after[0]); }
    ReadPrinted(v, after);
  }

  lemma BlankIsNoNumber(c: char)
    ensures IsBlank(c) ==> !NumberChar(c)
  {
  }

  lemma {:induction false} SkipAll(before: string, t: string)
    requires (forall c :: c in before ==> IsBlank(c)) && (t != "" ==> !IsBlank(t[0]))
    ensures Skip(before + t) == t
  {
    if before == "" {
      assert before + t == t;
    } else {
      assert (before + t)[1..] == before[1..] + t;
      SkipAll(before[1..], t);
    }
  }

  /** Anything but white space after a value is an error. */
  lemma TrailingTextIsAnError(v: Json, after: string)
    requires WellFormed(v) && !v.JNumber? && after != "" && !IsBlank(after[0])
    ensures ParseText(Print(v) + after) == None
  {
    hide ReadValue, Print, WellFormed;
    PrintHead(v);
    ReadPrinted(v, after);
  }

  lemma {:induction false} DigitsOf(a: string, b: string)
    requires AllDigits(a) && (b != "" ==> !IsDigit(b[0]))
    ensures Digits(a + b) == |a|
  {
    if a == "" {
      assert a + b == b;
    } else {
      assert (a + b)[1..] == a[1..] + b;
      assert a[0] in a;
      DigitsOf(a[1..], b);
    }
  }

  lemma ExponentOk(exponent: string, sign: string)
    requires AllDigits(exponent) && (sign == "" || sign == "+" || sign == "-")
    ensures IsExponent(if exponent == "" then "" else ['e'] + sign + exponent)
  {
    if exponent != "" {
      var s := ['e'] + sign + exponent;
      assert exponent[0] in exponent;
      if sign == "" { assert s[1..] == exponent && s[1] == exponent[0]; } else { assert s[2..] == exponent && s[1] == sign[0]; }
    }
  }

  lemma FractionOk(fraction: string, e: string)
    requires AllDigits(fraction) && IsExponent(e)
    ensures IsFraction((if fraction == "" then "" else ['.'] + fraction) + e)
  {
    hide IsExponent;
    if fraction == "" {
      assert "" + e == e;
      ExponentHead(e);
    } else {
      ExponentHead(e);
      assert fraction[0] in fraction;
      assert (['.'] + fraction + e)[1..] == fraction + e;
      DigitsOf(fraction, e);
      assert (fraction + e)[|fraction|..] == e;
    }
  }

  lemma ExponentHead(e: string)
    requires IsExponent(e)
    ensures e != "" ==> !IsDigit(e[0]) && e[0] != '.'
  {
  }

  lemma WholeOk(minus: bool, whole: string, rest: string)
    requires whole != "" && AllDigits(whole) && (|whole| > 1 ==> whole[0] != '0')
    requires IsFraction(rest) && (rest != "" ==> !IsDigit(rest[0]))
    ensures IsNumber((if minus then "-" else "") + whole + rest)
  {
    hide IsFraction;
    assert whole[0] in whole;
    var s := whole + rest;
    assert (if minus then "-" else "") + whole + rest == if minus then ['-'] + s else s;
    if minus { assert (['-'] + s)[1..] == s; }
    DigitsOf(whole, rest);
    assert s[|whole|..] == rest && s[0] == whole[0];
  }

  /** A number: a minus or not, digits without a needless zero, perhaps a point and digits, perhaps an
      exponent with a sign or not. All of these are read, and as written. */
  lemma NumbersRead(minus: bool, whole: string, fraction: string, exponent: string, sign: string)
    requires whole != "" && AllDigits(whole) && (|whole| > 1 ==> whole[0] != '0')
    requires AllDigits(fraction) && AllDigits(exponent)
    requires sign == "" || sign == "+" || sign == "-"
    ensures var l := (if minus then "-" else "") + whole
                     + ((if fraction == "" then "" else ['.'] + fraction) + (if exponent == "" then "" else ['e'] + sign + exponent));
      ParseText(l) == Some(JNumber(l))
  {
    hide IsNumber, IsFraction, IsExponent, ParseText, NumberChar;
    var e := if exponent == "" then "" else ['e'] + sign + exponent;
    var f := if fraction == "" then "" else ['.'] + fraction;
    ExponentOk(exponent, sign);
    FractionOk(fraction, e);
    WholeOk(minus, whole, f + e);
    NumberChars(whole);
    NumberChars(fraction);
    NumberChars(exponent);
    NumberChars(sign);
    NumberChars(['-', '.', 'e']);
    var l := (if minus then "-" else "") + whole + (f + e);
    forall c | c in l ensures NumberChar(c) {
      assert c in whole || c in fraction || c in exponent || c in sign || c in ['-', '.', 'e'];
    }
    PrintParse(JNumber(l));
  }

  lemma NumberChars(s: string)
    requires forall c :: c in s ==> IsDigit(c) || c == '-' || c == '+' || c == '.' || c == 'e'
    ensures forall c :: c in s ==> NumberChar(c)
  {
  }

  /** Each \u escape reads as its character, in either case of the hexadecimal letters. */
  lemma UnitEscapes(a: nat, b: nat, c: nat, d: nat, t: string)
    requires a < 13 && b < 16 && c < 16 && d < 16
    ensures ReadChar([BACKSLASH, 'u', HexDigit(a), HexDigit(b), HexDigit(c), HexDigit(d)] + t)
            == Some(((a * 4096 + b * 256 + c * 16 + d) as char, t))
  {
    var s := [BACKSLASH, 'u', HexDigit(a), HexDigit(b), HexDigit(c), HexDigit(d)] + t;
    HexReads(a);
    HexReads(b);
    HexReads(c);
    HexReads(d);
    hide HexDigit, HexValue;
    assert s[6..] == t && s[2..6] == [HexDigit(a), HexDigit(b), HexDigit(c), HexDigit(d)];
  }

  lemma HexReads(d: nat)
    requires d < 16
    ensures HexValue(HexDigit(d)) == Some(d)
    ensures d >= 10 ==> HexValue((d - 10) as char + 'A') == Some(d)
  {
  }
}
