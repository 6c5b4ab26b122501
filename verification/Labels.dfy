/** Kubernetes label selectors: metav1.LabelSelectorAsSelector and Matches. */
module Labels {
  import opened Text

  type LabelMap = map<string, string>

  datatype Requirement = Requirement(key: string, operator: string, values: seq<string>)

  datatype LabelSelector = LabelSelector(matchLabels: LabelMap, matchExpressions: seq<Requirement>)

  predicate Alphanumeric(c: char) { 'a' <= c <= 'z' || 'A' <= c <= 'Z' || IsDigit(c) }

  predicate LowerAlphanumeric(c: char) { 'a' <= c <= 'z' || IsDigit(c) }

  /** The name part of a key, and any non-empty value: at most 63 characters,
      alphanumeric at both ends, with '-', '_' and '.' allowed between. */
  predicate ValidName(s: string) {
    && 1 <= |s| <= 63
    && Alphanumeric(s[0]) && Alphanumeric(s[|s| - 1])
    && forall c :: c in s ==> Alphanumeric(c) || c == '-' || c == '_' || c == '.'
  }

  predicate ValidValue(s: string) { s == "" || ValidName(s) }

  predicate DnsLabel(s: string) {
    && 1 <= |s|
    && LowerAlphanumeric(s[0]) && LowerAlphanumeric(s[|s| - 1])
    && forall c :: c in s ==> LowerAlphanumeric(c) || c == '-'
  }

  /** A key is a name, optionally after a DNS subdomain and a slash. */
  predicate ValidKey(s: string) {
    var parts := Split(s, '/');
    if |parts| == 1 then ValidName(parts[0])
    else
      && |parts| == 2 && ValidName(parts[1])
      && 1 <= |parts[0]| <= 253
      && forall l :: l in Split(parts[0], '.') ==> DnsLabel(l)
  }

  predicate ValidLabels(labels: LabelMap) {
    forall k :: k in labels ==> ValidKey(k) && ValidValue(labels[k])
  }

  predicate ValidRequirement(r: Requirement) {
    && ValidKey(r.key)
    && (forall v :: v in r.values ==> ValidValue(v))
    && match r.operator
       case "In" => r.values != []
       case "NotIn" => r.values != []
       case "Exists" => r.values == []
       case "DoesNotExist" => r.values == []
       case _ => false
  }

  /** The selectors LabelSelectorAsSelector accepts. The others match nothing. */
  predicate WellFormed(sel: LabelSelector) {
    ValidLabels(sel.matchLabels) && forall r :: r in sel.matchExpressions ==> ValidRequirement(r)
  }

  predicate HasLabel(labels: LabelMap, key: string, value: string) {
    key in labels && labels[key] == value
  }

  predicate Contains(labels: LabelMap, wanted: LabelMap) {
    forall k :: k in wanted ==> HasLabel(labels, k, wanted[k])
  }

  predicate Satisfies(labels: LabelMap, r: Requirement) {
    match r.operator
    case "In" => r.key in labels && labels[r.key] in r.values
    case "NotIn" => r.key in labels ==> labels[r.key] !in r.values
    case "Exists" => r.key in labels
    case "DoesNotExist" => r.key !in labels
    case _ => false
  }

  predicate SelectorMatches(sel: LabelSelector, labels: LabelMap) {
    && WellFormed(sel)
    && Contains(labels, sel.matchLabels)
    && forall r :: r in sel.matchExpressions ==> Satisfies(labels, r)
  }

  function MatchLabels(labels: LabelMap): LabelSelector { LabelSelector(labels, []) }

  /** The label every namespace carries its own name under. */
  const NAMESPACE_NAME_LABEL := "kubernetes.io/metadata.name"

  lemma PrefixedKeyValid(l: string, m: string, n: string)
    requires DnsLabel(l) && DnsLabel(m) && |l| + |m| <= 200 && ValidName(n)
    ensures ValidKey(l + ['.'] + m + ['/'] + n)
  {
    var p := l + ['.'] + m;
    SplitFirst(p, '/', n);
    SplitFree(n, '/');
    SplitFirst(l, '.', m);
    SplitFree(m, '.');
  }

  lemma NamespaceNameLabelValid()
    ensures ValidKey(NAMESPACE_NAME_LABEL)
  {
    hide ValidKey;
    assert DnsLabel("kubernetes");
    assert DnsLabel("io");
    assert ValidName("metadata.name");
    PrefixedKeyValid("kubernetes", "io", "metadata.name");
    assert NAMESPACE_NAME_LABEL == "kubernetes" + ['.'] + "io" + ['/'] + "metadata.name";
  }

  // ----- laws of selectors

  function One(r: Requirement): LabelSelector { LabelSelector(map[], [r]) }

  function In(key: string, values: seq<string>): LabelSelector { One(Requirement(key, "In", values)) }

  function NotIn(key: string, values: seq<string>): LabelSelector { One(Requirement(key, "NotIn", values)) }

  function Exists(key: string): LabelSelector { One(Requirement(key, "Exists", [])) }

  function DoesNotExist(key: string): LabelSelector { One(Requirement(key, "DoesNotExist", [])) }

  /** A match label selects exactly the labels that hold that pair, if the pair is valid. */
  lemma LabelMeansPair(k: string, v: string, labels: LabelMap)
    ensures SelectorMatches(MatchLabels(map[k := v]), labels) <==> ValidKey(k) && ValidValue(v) && k in labels && labels[k] == v
  {
    hide ValidKey, ValidValue;
    assert k in map[k := v];
  }

  lemma OneMeans(r: Requirement, labels: LabelMap)
    ensures SelectorMatches(One(r), labels) <==> ValidRequirement(r) && Satisfies(labels, r)
  {
    hide ValidRequirement, Satisfies;
    assert One(r).matchExpressions[0] == r;
  }

  lemma OperatorsDiffer()
    ensures "In" != "NotIn" && "In" != "Exists" && "In" != "DoesNotExist"
    ensures "NotIn" != "Exists" && "NotIn" != "DoesNotExist" && "Exists" != "DoesNotExist"
  {
    assert |"In"| == 2 && |"NotIn"| == 5 && |"Exists"| == 6 && |"DoesNotExist"| == 12;
  }

  /** In matches exactly the labels that one of its values as a match label does. */
  lemma InIsSomeLabel(k: string, vs: seq<string>, labels: LabelMap)
    requires ValidKey(k) && vs != [] && forall v :: v in vs ==> ValidValue(v)
    ensures SelectorMatches(In(k, vs), labels) <==> exists v :: v in vs && SelectorMatches(MatchLabels(map[k := v]), labels)
  {
    hide ValidKey, ValidValue, SelectorMatches;
    OneMeans(Requirement(k, "In", vs), labels);
    forall v { LabelMeansPair(k, v, labels); }
  }

  lemma NotInIsNotIn(k: string, vs: seq<string>, labels: LabelMap)
    requires ValidKey(k) && vs != [] && forall v :: v in vs ==> ValidValue(v)
    ensures SelectorMatches(NotIn(k, vs), labels) <==> !SelectorMatches(In(k, vs), labels)
  {
    hide ValidKey, ValidValue, SelectorMatches;
    OperatorsDiffer();
    OneMeans(Requirement(k, "In", vs), labels);
    OneMeans(Requirement(k, "NotIn", vs), labels);
  }

  lemma ExistsIsSomeValue(k: string, labels: LabelMap)
    requires ValidKey(k)
    ensures SelectorMatches(Exists(k), labels) <==> exists v :: HasLabel(labels, k, v)
  {
    hide ValidKey, SelectorMatches;
    OperatorsDiffer();
    OneMeans(Requirement(k, "Exists", []), labels);
    if k in labels { assert HasLabel(labels, k, labels[k]); }
  }

  lemma DoesNotExistIsNotExists(k: string, labels: LabelMap)
    requires ValidKey(k)
    ensures SelectorMatches(DoesNotExist(k), labels) <==> !SelectorMatches(Exists(k), labels)
  {
    hide ValidKey, SelectorMatches;
    OperatorsDiffer();
    OneMeans(Requirement(k, "Exists", []), labels);
    OneMeans(Requirement(k, "DoesNotExist", []), labels);
  }

  /** A selector matches exactly if each of its labels and each of its requirements alone does. */
  lemma EachPartAlone(sel: LabelSelector, labels: LabelMap)
    ensures SelectorMatches(sel, labels) <==>
      && (forall k :: k in sel.matchLabels ==> SelectorMatches(MatchLabels(map[k := sel.matchLabels[k]]), labels))
      && (forall r :: r in sel.matchExpressions ==> SelectorMatches(One(r), labels))
  {
    hide ValidRequirement, ValidKey, ValidValue, Satisfies;
    forall k | k in sel.matchLabels { LabelMeansPair(k, sel.matchLabels[k], labels); }
    forall r { OneMeans(r, labels); }
  }

  /** The requirements that some labels meet are those with a valid key, valid values, one of the
      four operators, and values exactly for In and NotIn. All others match nothing. */
  lemma SatisfiableIff(r: Requirement)
    ensures (exists labels :: SelectorMatches(One(r), labels)) <==>
      && ValidKey(r.key) && (forall v :: v in r.values ==> ValidValue(v))
      && (((r.operator == "In" || r.operator == "NotIn") && r.values != [])
          || ((r.operator == "Exists" || r.operator == "DoesNotExist") && r.values == []))
  {
    hide ValidKey, ValidValue, SelectorMatches;
    OperatorsDiffer();
    forall labels { OneMeans(r, labels); }
    if ValidRequirement(r) {
      var labels := if r.operator == "In" then map[r.key := r.values[0]] else if r.operator == "Exists" then map[r.key := ""] else map[];
      assert Satisfies(labels, r);
      assert SelectorMatches(One(r), labels);
    }
  }

  // ----- what a name is

  predicate NameChar(c: char) { Alphanumeric(c) || c == '-' || c == '_' || c == '.' }

  /** ([-_.A-Za-z0-9]*)?[A-Za-z0-9] */
  predicate NameTail(s: string) {
    s != "" && if |s| == 1 then Alphanumeric(s[0]) else NameChar(s[0]) && NameTail(s[1..])
  }

  lemma {:induction false} NameTailMeaning(s: string)
    ensures NameTail(s) <==> s != "" && Alphanumeric(s[|s| - 1]) && forall c :: c in s ==> NameChar(c)
  {
    if |s| > 1 {
      NameTailMeaning(s[1..]);
      assert s == [s[0]] + s[1..];
    }
  }

  /** The pattern of the API: an alphanumeric character, then perhaps a tail; 63 characters at most. */
  lemma NameIsPattern(s: string)
    ensures ValidName(s) <==> 1 <= |s| <= 63 && Alphanumeric(s[0]) && (|s| == 1 || NameTail(s[1..]))
  {
    if |s| > 1 {
      NameTailMeaning(s[1..]);
      assert s == [s[0]] + s[1..];
    }
  }

  /** A key is a name, or a subdomain of at most 253 characters, a slash and a name. */
  lemma KeyForms(p: string, n: string)
    requires '/' !in n
    ensures ValidKey(n) <==> ValidName(n)
    ensures '/' !in p ==>
      (ValidKey(p + ['/'] + n) <==> ValidName(n) && 1 <= |p| <= 253 && forall l :: l in Split(p, '.') ==> DnsLabel(l))
  {
    hide DnsLabel, ValidName;
    SplitFree(n, '/');
    if '/' !in p { SplitFirst(p, '/', n); }
  }
}
