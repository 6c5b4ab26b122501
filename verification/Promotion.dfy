/** advisor/cmd/audit_cluster.go: one namespaced policy per namespace a cluster policy covers. */
module Promotion {
  import opened Common
  import opened Labels
  import opened Policies
  import opened Semantics

  /** An object as the dynamic client returns it. Fields that promotion copies without
      looking inside are carried as they are. */
  datatype Value =
    | Null
    | Text(text: string)
    | List(items: seq<Value>)
    | Object(fields: map<string, Value>)
    | Types(types: seq<Direction>)
    | Rules(rules: seq<Rule>)

  datatype Outcome<+T> = Done(value: T) | Error(message: string)

  // ----- the objects the API server stores for typed policies

  function EncodeList(items: seq<string>): Value {
    List(seq(|items|, i requires 0 <= i < |items| => Text(items[i])))
  }

  function EncodeRequirement(r: Requirement): Value {
    Object(map["key" := Text(r.key), "operator" := Text(r.operator)]
           + if r.values == [] then map[] else map["values" := EncodeList(r.values)])
  }

  function EncodeRequirements(rs: seq<Requirement>): seq<Value> {
    if rs == [] then [] else EncodeRequirements(rs[..|rs| - 1]) + [EncodeRequirement(rs[|rs| - 1])]
  }

  function EncodeSelector(sel: LabelSelector): Value {
    Object((if sel.matchLabels == map[] then map[]
            else map["matchLabels" := Object(map k | k in sel.matchLabels :: Text(sel.matchLabels[k]))])
           + (if sel.matchExpressions == [] then map[]
              else map["matchExpressions" := List(EncodeRequirements(sel.matchExpressions))]))
  }

  function EncodeSpec(spec: Spec): map<string, Value> {
    map["podSelector" := EncodeSelector(spec.podSelector)]
    + (if spec.policyTypes == [] then map[] else map["policyTypes" := Types(spec.policyTypes)])
    + (if spec.ingress == [] then map[] else map["ingress" := Rules(spec.ingress)])
    + (if spec.egress == [] then map[] else map["egress" := Rules(spec.egress)])
  }

  /** The labels and annotations of an object, which policies carry along without a meaning. */
  datatype Marks = Marks(labels: LabelMap, annotations: LabelMap)

  const API_VERSION := "kguardian.dev/v1alpha1"
  const LAST_APPLIED := "kubectl.kubernetes.io/last-applied-configuration"

  /** A field that is left out when there is nothing in it. */
  function OptionalTexts(key: string, texts: LabelMap): map<string, Value> {
    if texts == map[] then map[] else map[key := Object(map k | k in texts :: Text(texts[k]))]
  }

  function EncodeMarks(marks: Marks): map<string, Value> {
    OptionalTexts("labels", marks.labels) + OptionalTexts("annotations", marks.annotations)
  }

  function EncodeCluster(p: ClusterPolicy, marks: Marks): map<string, Value> {
    map["apiVersion" := Text(API_VERSION),
        "kind" := Text("AuditClusterNetworkPolicy"),
        "metadata" := Object(map["name" := Text(p.name)] + EncodeMarks(marks)),
        "spec" := Object(EncodeSpec(p.spec)
          + if p.namespaceSelector.None? then map[]
            else map["namespaceSelector" := EncodeSelector(p.namespaceSelector.value)])]
  }

  function EncodePolicy(p: Policy, marks: Marks): map<string, Value> {
    map["apiVersion" := Text(API_VERSION),
        "kind" := Text("AuditNetworkPolicy"),
        "metadata" := Object(map["namespace" := Text(p.ns), "name" := Text(p.name)] + EncodeMarks(marks)),
        "spec" := Object(EncodeSpec(p.spec))]
  }

  // ----- reading a selector out of an untyped object

  /** A field of an object, if there and of the kind wanted; a failed type assertion otherwise. */
  function Field(fields: map<string, Value>, key: string): Value {
    if key in fields then fields[key] else Null
  }

  function TextOr(v: Value): string { if v.Text? then v.text else "" }

  function Texts(items: seq<Value>): seq<string> {
    if items == [] then []
    else Texts(items[..|items| - 1]) + if items[|items| - 1].Text? then [items[|items| - 1].text] else []
  }

  method ReadTexts(items: seq<Value>) returns (out: seq<string>)
    ensures out == Texts(items)
  {
    out := [];
    for i := 0 to |items|
      invariant out == Texts(items[..i])
    {
      assert items[..i + 1][..i] == items[..i];
      if items[i].Text? { out := out + [items[i].text]; }
    }
    assert items[..|items|] == items;
  }

  function RequirementOf(expr: map<string, Value>): Requirement {
    var vals := Field(expr, "values");
    Requirement(TextOr(Field(expr, "key")), TextOr(Field(expr, "operator")), if vals.List? then Texts(vals.items) else [])
  }

  function RequirementsOf(items: seq<Value>): seq<Requirement> {
    if items == [] then []
    else
      var last := items[|items| - 1];
      RequirementsOf(items[..|items| - 1]) + if last.Object? then [RequirementOf(last.fields)] else []
  }

  function LabelsOf(fields: map<string, Value>): LabelMap {
    map k | k in fields && fields[k].Text? :: fields[k].text
  }

  function SelectorOf(fields: map<string, Value>): LabelSelector {
    var ml, me := Field(fields, "matchLabels"), Field(fields, "matchExpressions");
    LabelSelector(if ml.Object? then LabelsOf(ml.fields) else map[],
                  if me.List? then RequirementsOf(me.items) else [])
  }

  method ReadLabels(fields: map<string, Value>) returns (out: LabelMap)
    ensures out == LabelsOf(fields)
  {
    out := map[];
    var rest := fields.Keys;
    while rest != {}
      invariant rest <= fields.Keys
      invariant out == map k | k in fields && k !in rest && fields[k].Text? :: fields[k].text
      decreases rest
    {
      var k :| k in rest;
      if fields[k].Text? { out := out[k := fields[k].text]; }
      rest := rest - {k};
    }
  }

  method ReadRequirements(items: seq<Value>) returns (out: seq<Requirement>)
    ensures out == RequirementsOf(items)
  {
    out := [];
    for i := 0 to |items|
      invariant out == RequirementsOf(items[..i])
    {
      assert items[..i + 1][..i] == items[..i];
      if !items[i].Object? { continue; }
      var expr := items[i].fields;
      var vals := Field(expr, "values");
      var values := [];
      if vals.List? { values := ReadTexts(vals.items); }
      out := out + [Requirement(TextOr(Field(expr, "key")), TextOr(Field(expr, "operator")), values)];
    }
    assert items[..|items|] == items;
  }

  method UnstructuredToLabelSelector(fields: map<string, Value>) returns (out: LabelSelector)
    ensures out == SelectorOf(fields)
  {
    hide LabelsOf, RequirementsOf;
    out := LabelSelector(map[], []);
    var ml := Field(fields, "matchLabels");
    if ml.Object? {
      var labels := ReadLabels(ml.fields);
      out := out.(matchLabels := labels);
    }
    var me := Field(fields, "matchExpressions");
    if me.List? {
      var requirements := ReadRequirements(me.items);
      out := out.(matchExpressions := requirements);
    }
  }

  // ----- which namespaces

  datatype Namespace = Namespace(name: string, labels: LabelMap)

  /** The namespaces among those listed that the policy covers. */
  function Covered(selector: Option<LabelSelector>, listed: seq<Namespace>): seq<string> {
    if listed == [] then []
    else
      var last := listed[|listed| - 1];
      Covered(selector, listed[..|listed| - 1])
      + if selector.None? || SelectorMatches(selector.value, last.labels) then [last.name] else []
  }

  function Discovered(obj: map<string, Value>, listed: seq<Namespace>): Outcome<seq<string>> {
    var spec := Field(obj, "spec");
    if !spec.Object? then
      if spec.Null? then Done(Covered(None, listed)) else Error("reading spec.namespaceSelector")
    else
      var sel := Field(spec.fields, "namespaceSelector");
      if sel.Null? then Done(Covered(None, listed))
      else if !sel.Object? then Error("spec.namespaceSelector is not an object")
      else if !WellFormed(SelectorOf(sel.fields)) then Error("compiling namespaceSelector")
      else Done(Covered(Some(SelectorOf(sel.fields)), listed))
  }

  method DiscoverNamespaces(obj: map<string, Value>, listed: seq<Namespace>) returns (r: Outcome<seq<string>>)
    ensures r == Discovered(obj, listed)
  {
    var clientFilter: Option<LabelSelector> := None;
    var spec := Field(obj, "spec");
    if !spec.Object? && !spec.Null? { return Error("reading spec.namespaceSelector"); }
    if spec.Object? {
      var sel := Field(spec.fields, "namespaceSelector");
      if !sel.Null? {
        if !sel.Object? { return Error("spec.namespaceSelector is not an object"); }
        var converted := UnstructuredToLabelSelector(sel.fields);
        if !WellFormed(converted) { return Error("compiling namespaceSelector"); }
        clientFilter := Some(converted);
      }
    }
    var out := [];
    for i := 0 to |listed|
      invariant out == Covered(clientFilter, listed[..i])
    {
      assert listed[..i + 1][..i] == listed[..i];
      if clientFilter.Some? && !SelectorMatches(clientFilter.value, listed[i].labels) { continue; }
      out := out + [listed[i].name];
    }
    assert listed[..|listed|] == listed;
    return Done(out);
  }

  // ----- the expansion

  function MetadataOf(obj: map<string, Value>): map<string, Value> {
    var meta := Field(obj, "metadata");
    if meta.Object? then meta.fields else map[]
  }

  /** GetLabels and GetAnnotations: nulls read as empty; if anything else is no text, nothing is read. */
  function TextsAt(fields: map<string, Value>, key: string): LabelMap {
    var v := Field(fields, key);
    if v.Object? && forall k :: k in v.fields ==> v.fields[k].Text? || v.fields[k].Null?
    then map k | k in v.fields :: TextOr(v.fields[k])
    else map[]
  }

  function MarksOf(obj: map<string, Value>): Marks {
    Marks(TextsAt(MetadataOf(obj), "labels"), TextsAt(MetadataOf(obj), "annotations"))
  }

  /** Everything but the copy of the manifest kubectl keeps. */
  function Carried(marks: Marks): Marks {
    marks.(annotations := marks.annotations - {LAST_APPLIED})
  }

  function ItemFor(obj: map<string, Value>, spec: map<string, Value>, ns: string): map<string, Value> {
    map["apiVersion" := Text(API_VERSION),
        "kind" := Text("AuditNetworkPolicy"),
        "metadata" := Object(map["namespace" := Text(ns), "name" := Text(TextOr(Field(MetadataOf(obj), "name")))]
                             + EncodeMarks(Carried(MarksOf(obj)))),
        "spec" := Object(spec)]
  }

  method CleanAnnotations(anns: LabelMap) returns (clean: LabelMap)
    ensures clean == anns - {LAST_APPLIED}
  {
    clean := map[];
    var rest := anns.Keys;
    while rest != {}
      invariant rest <= anns.Keys
      invariant clean == map k | k in anns && k !in rest && k != LAST_APPLIED :: anns[k]
      decreases rest
    {
      var k :| k in rest;
      rest := rest - {k};
      if k == LAST_APPLIED { continue; }
      clean := clean[k := anns[k]];
    }
  }

  /** expandClusterPolicyToNamespaced. */
  method Expand(obj: map<string, Value>, namespaces: seq<string>) returns (r: Outcome<seq<map<string, Value>>>)
    ensures r.Done? <==> Field(obj, "spec").Object?
    ensures r.Done? ==> |r.value| == |namespaces| && forall i :: 0 <= i < |namespaces| ==>
              r.value[i] == ItemFor(obj, obj["spec"].fields - {"namespaceSelector"}, namespaces[i])
  {
    hide TextsAt, OptionalTexts;
    var spec := Field(obj, "spec");
    if !spec.Object? { return Error("policy has no spec"); }
    var kept := spec.fields - {"namespaceSelector"};
    var name := TextOr(Field(MetadataOf(obj), "name"));
    var labels, anns := TextsAt(MetadataOf(obj), "labels"), TextsAt(MetadataOf(obj), "annotations");
    var out := [];
    for i := 0 to |namespaces|
      invariant |out| == i
      invariant forall j :: 0 <= j < i ==> out[j] == ItemFor(obj, kept, namespaces[j])
    {
      var metadata := map["namespace" := Text(namespaces[i]), "name" := Text(name)] + OptionalTexts("labels", labels);
      var clean := CleanAnnotations(anns);
      metadata := metadata + OptionalTexts("annotations", clean);
      ItemByParts(obj, kept, namespaces[i]);
      out := out + [map["apiVersion" := Text(API_VERSION), "kind" := Text("AuditNetworkPolicy"),
                        "metadata" := Object(metadata), "spec" := Object(kept)]];
    }
    return Done(out);
  }

  lemma ItemByParts(obj: map<string, Value>, spec: map<string, Value>, ns: string)
    ensures ItemFor(obj, spec, ns) ==
      map["apiVersion" := Text(API_VERSION), "kind" := Text("AuditNetworkPolicy"),
          "metadata" := Object(
            map["namespace" := Text(ns), "name" := Text(TextOr(Field(MetadataOf(obj), "name")))]
            + OptionalTexts("labels", TextsAt(MetadataOf(obj), "labels"))
            + OptionalTexts("annotations", TextsAt(MetadataOf(obj), "annotations") - {LAST_APPLIED})),
          "spec" := Object(spec)]
  {
    hide TextsAt, OptionalTexts;
    var base := map["namespace" := Text(ns), "name" := Text(TextOr(Field(MetadataOf(obj), "name")))];
    var l := OptionalTexts("labels", TextsAt(MetadataOf(obj), "labels"));
    var a := OptionalTexts("annotations", TextsAt(MetadataOf(obj), "annotations") - {LAST_APPLIED});
    assert base + (l + a) == base + l + a;
  }

  /** The policy a namespace gets. */
  function Promoted(p: ClusterPolicy, ns: string): Policy {
    Policy(ns, p.name, "", 0, p.spec)
  }

  // ----- the objects read back are the typed policies

  lemma {:induction false} TextsEncode(items: seq<string>)
    ensures Texts(EncodeList(items).items) == items
  {
    if items != [] {
      var front := items[..|items| - 1];
      TextsEncode(front);
      assert EncodeList(items).items[..|items| - 1] == EncodeList(front).items;
    }
  }

  lemma RequirementEncode(r: Requirement)
    ensures EncodeRequirement(r).Object? && RequirementOf(EncodeRequirement(r).fields) == r
  {
    TextsEncode(r.values);
  }

  lemma RequirementsSnoc(items: seq<Value>, v: Value)
    requires v.Object?
    ensures RequirementsOf(items + [v]) == RequirementsOf(items) + [RequirementOf(v.fields)]
  {
    assert (items + [v])[..|items|] == items;
  }

  lemma EncodeSnoc(rs: seq<Requirement>, r: Requirement)
    ensures EncodeRequirements(rs + [r]) == EncodeRequirements(rs) + [EncodeRequirement(r)]
  {
    assert (rs + [r])[..|rs|] == rs;
  }

  lemma NoRequirements()
    ensures RequirementsOf(EncodeRequirements([])) == []
  {
  }

  lemma {:induction false} RequirementsEncode(rs: seq<Requirement>)
    ensures RequirementsOf(EncodeRequirements(rs)) == rs
  {
    hide EncodeRequirements, RequirementsOf, EncodeRequirement, RequirementOf;
    if rs == [] {
      NoRequirements();
    } else {
      var front, last := rs[..|rs| - 1], rs[|rs| - 1];
      assert rs == front + [last];
      RequirementsEncode(front);
      RequirementEncode(last);
      EncodeSnoc(front, last);
      RequirementsSnoc(EncodeRequirements(front), EncodeRequirement(last));
    }
  }

  lemma LabelsEncode(labels: LabelMap)
    ensures LabelsOf(map k | k in labels :: Text(labels[k])) == labels
  {
  }

  lemma EncodedFields(sel: LabelSelector)
    ensures EncodeSelector(sel).Object?
    ensures var fields := EncodeSelector(sel).fields;
      && Field(fields, "matchLabels") == (if sel.matchLabels == map[] then Null else Object(map k | k in sel.matchLabels :: Text(sel.matchLabels[k])))
      && Field(fields, "matchExpressions") == (if sel.matchExpressions == [] then Null else List(EncodeRequirements(sel.matchExpressions)))
  {
    hide EncodeRequirements;
  }

  /** The converter recovers a stored selector: round trip on every selector. */
  lemma SelectorEncode(sel: LabelSelector)
    ensures EncodeSelector(sel).Object? && SelectorOf(EncodeSelector(sel).fields) == sel
  {
    hide EncodeSelector, EncodeRequirements, RequirementsOf, LabelsOf, Field;
    EncodedFields(sel);
    LabelsEncode(sel.matchLabels);
    RequirementsEncode(sel.matchExpressions);
  }

  lemma TextsEncoded(key: string, texts: LabelMap, fields: map<string, Value>)
    requires Field(fields, key) == Field(OptionalTexts(key, texts), key)
    ensures TextsAt(fields, key) == texts
  {
  }

  /** Reading a stored object gives its labels and annotations back. */
  lemma MarksEncode(p: ClusterPolicy, marks: Marks)
    ensures MarksOf(EncodeCluster(p, marks)) == marks
  {
    var meta := MetadataOf(EncodeCluster(p, marks));
    assert meta == map["name" := Text(p.name)] + EncodeMarks(marks);
    TextsEncoded("labels", marks.labels, meta);
    TextsEncoded("annotations", marks.annotations, meta);
  }

  /** Each expanded item is the stored form of the promoted policy: the same spec, without
      the namespace selector, under the target namespace, with the labels and annotations of the
      cluster policy but for the copy of its manifest. */
  lemma ItemIsPromoted(p: ClusterPolicy, marks: Marks, ns: string)
    ensures Field(EncodeCluster(p, marks), "spec").Object?
    ensures ItemFor(EncodeCluster(p, marks), EncodeCluster(p, marks)["spec"].fields - {"namespaceSelector"}, ns)
            == EncodePolicy(Promoted(p, ns), Carried(marks))
  {
    hide EncodeMarks, MarksOf, Carried;
    SpecOfStored(p, marks);
    NameOfStored(p, marks);
    MarksEncode(p, marks);
  }

  lemma SpecOfStored(p: ClusterPolicy, marks: Marks)
    ensures Field(EncodeCluster(p, marks), "spec").Object?
    ensures EncodeCluster(p, marks)["spec"].fields - {"namespaceSelector"} == EncodeSpec(p.spec)
  {
    hide EncodeMarks, EncodeSelector;
  }

  lemma NameOfStored(p: ClusterPolicy, marks: Marks)
    ensures Field(MetadataOf(EncodeCluster(p, marks)), "name") == Text(p.name)
  {
    hide EncodeSpec, EncodeSelector;
    assert "name" !in EncodeMarks(marks);
  }

  lemma DiscoveredOfStored(p: ClusterPolicy, marks: Marks, listed: seq<Namespace>)
    ensures Discovered(EncodeCluster(p, marks), listed) ==
      if p.namespaceSelector.Some? && !WellFormed(p.namespaceSelector.value) then Error("compiling namespaceSelector")
      else Done(Covered(p.namespaceSelector, listed))
  {
    hide WellFormed, Covered, EncodeSelector, SelectorOf, EncodeMarks;
    if p.namespaceSelector.Some? { SelectorEncode(p.namespaceSelector.value); }
  }

  lemma {:induction false} CoveredMembers(selector: Option<LabelSelector>, listed: seq<Namespace>, ns: string)
    ensures ns in Covered(selector, listed) <==>
              exists n :: n in listed && n.name == ns && (selector.None? || SelectorMatches(selector.value, n.labels))
  {
    if listed != [] {
      var front, last := listed[..|listed| - 1], listed[|listed| - 1];
      assert listed == front + [last];
      CoveredMembers(selector, front, ns);
    }
  }

  /** The command: discover, then expand. For a stored cluster policy it emits, for each covered
      namespace, the stored form of the promoted policy. */
  method PromoteCluster(p: ClusterPolicy, marks: Marks, listed: seq<Namespace>) returns (r: Outcome<seq<map<string, Value>>>)
    ensures r.Done? <==> (p.namespaceSelector.Some? ==> WellFormed(p.namespaceSelector.value))
    ensures r.Done? ==>
      var targets := Covered(p.namespaceSelector, listed);
      |r.value| == |targets| && forall i :: 0 <= i < |targets| ==> r.value[i] == EncodePolicy(Promoted(p, targets[i]), Carried(marks))
  {
    hide WellFormed, Covered, EncodeSelector, SelectorOf, EncodeMarks;
    var obj := EncodeCluster(p, marks);
    DiscoveredOfStored(p, marks, listed);
    var discovered := DiscoverNamespaces(obj, listed);
    if discovered.Error? { return Error(discovered.message); }
    if |discovered.value| == 0 { return Done([]); }
    forall ns { ItemIsPromoted(p, marks, ns); }
    r := Expand(obj, discovered.value);
  }

  // ----- promotion preserves verdicts

  /** The namespaces the CLI was given are the evaluator's, and the server's filter dropped
      no namespace that the selector matches. */
  ghost predicate SameSnapshot(listed: seq<Namespace>, selector: Option<LabelSelector>, lookup: Lookup) {
    && "" !in lookup.namespaces
    && (forall n :: n in listed ==> n.name in lookup.namespaces && lookup.namespaces[n.name] == n.labels)
    && (forall ns :: ns in lookup.namespaces && (selector.None? || SelectorMatches(selector.value, lookup.namespaces[ns]))
          ==> Namespace(ns, lookup.namespaces[ns]) in listed)
  }

  lemma CoveredIsSelected(selector: Option<LabelSelector>, listed: seq<Namespace>, lookup: Lookup, ns: string)
    requires SameSnapshot(listed, selector, lookup)
    ensures ns in Covered(selector, listed) <==>
      lookup.GetNamespaceLabels(ns).Some? &&
      (selector.None? || SelectorMatches(selector.value, lookup.GetNamespaceLabels(ns).value))
  {
    hide SelectorMatches;
    CoveredMembers(selector, listed, ns);
    if ns in lookup.namespaces {
      assert Namespace(ns, lookup.namespaces[ns]) in listed ==>
        exists n :: n in listed && n == Namespace(ns, lookup.namespaces[ns]);
    }
  }

  /** A promoted policy of another namespace never applies. */
  lemma OtherNamespaceNeverApplies(p: ClusterPolicy, flow: Flow, dir: Direction, lookup: Lookup, ns: string)
    requires SubjectPod(flow, dir, lookup).Some? ==> SubjectPod(flow, dir, lookup).value.ns != ns
    ensures PolicyVerdict(Promoted(p, ns), flow, dir, lookup) == NotApplicable
  {
  }

  /** For the subject's namespace: the promoted policy, if the namespace was discovered, gives the
      verdict and reason of the cluster policy, and if it was not, the cluster policy does not apply.
      This holds exactly when the namespace is known to the snapshot, or the policy has a
      namespace selector, or it does not select the pod at all. */
  lemma PromotionPreservesVerdict(p: ClusterPolicy, listed: seq<Namespace>, flow: Flow, dir: Direction, lookup: Lookup)
    requires SameSnapshot(listed, p.namespaceSelector, lookup)
    requires SubjectPod(flow, dir, lookup).Some?
    ensures var subject := SubjectPod(flow, dir, lookup).value;
      (ClusterVerdict(p, flow, dir, lookup) ==
        if subject.ns in Covered(p.namespaceSelector, listed) then PolicyVerdict(Promoted(p, subject.ns), flow, dir, lookup) else NotApplicable)
      <==> (lookup.GetNamespaceLabels(subject.ns).Some? || p.namespaceSelector.Some?
            || !SelectorMatches(p.spec.podSelector, subject.labels))
  {
    hide SelectorMatches, SameSnapshot, Covered, RulesVerdict;
    CoveredIsSelected(p.namespaceSelector, listed, lookup, SubjectPod(flow, dir, lookup).value.ns);
    RulesVerdictApplies(p.spec, flow, dir, lookup);
  }

  /** Where it fails: a policy without a selector applies to a pod whose namespace the evaluator
      has not seen yet, and no promoted policy does. */
  lemma UnknownNamespaceDisagrees()
    ensures var p := ClusterPolicy("p", "", 0, None, Spec(LabelSelector(map[], []), [], [], []));
      var lookup := Lookup(map["a/x" := Pod("a", "x", map[], [])], map[]);
      var flow := Flow("", "", "a", "x", "", "", 80, "TCP");
      && SameSnapshot([], p.namespaceSelector, lookup)
      && ClusterVerdict(p, flow, Ingress, lookup).WouldDeny?
      && Covered(p.namespaceSelector, []) == []
  {
    assert "a" + "/" + "x" == "a/x";
  }

  lemma RulesVerdictApplies(spec: Spec, flow: Flow, dir: Direction, lookup: Lookup)
    ensures RulesVerdict(spec, flow, dir, lookup) != NotApplicable
  {
  }

  /** Over whole result lists: the cluster policy and any promoted policy report the same
      directions in the same order; in each, the promoted verdict is the cluster verdict if the
      subject is in that namespace and NotApplicable otherwise, and if no promoted policy applies
      the cluster policy does not apply either. */
  lemma PromotionPreservesResults(p: ClusterPolicy, listed: seq<Namespace>, flow: Flow, lookup: Lookup)
    requires SameSnapshot(listed, p.namespaceSelector, lookup)
    requires forall k :: k in lookup.pods ==> lookup.GetNamespaceLabels(lookup.pods[k].ns).Some?
    ensures var cs := ClusterVerdicts(flow, p, lookup);
      forall i :: 0 <= i < |cs| ==>
        var subject := SubjectPod(flow, cs[i].direction, lookup);
        && (forall ns :: ns in Covered(p.namespaceSelector, listed) ==>
              var ps := Verdicts(flow, Promoted(p, ns), lookup);
              && |ps| == |cs| && ps[i].direction == cs[i].direction
              && ps[i].verdict == if subject.Some? && subject.value.ns == ns then cs[i].verdict else NotApplicable)
        && (cs[i].verdict != NotApplicable ==> subject.Some? && subject.value.ns in Covered(p.namespaceSelector, listed))
  {
    hide SelectorMatches, SameSnapshot, Covered, RulesVerdict, EffectiveTypes, Selects, ClusterSelects;
    var cs := ClusterVerdicts(flow, p, lookup);
    forall i | 0 <= i < |cs|
      ensures var subject := SubjectPod(flow, cs[i].direction, lookup);
        && (forall ns :: ns in Covered(p.namespaceSelector, listed) ==>
              var ps := Verdicts(flow, Promoted(p, ns), lookup);
              && |ps| == |cs| && ps[i].direction == cs[i].direction
              && ps[i].verdict == if subject.Some? && subject.value.ns == ns then cs[i].verdict else NotApplicable)
        && (cs[i].verdict != NotApplicable ==> subject.Some? && subject.value.ns in Covered(p.namespaceSelector, listed))
    {
      DirectionPreserved(p, listed, flow, cs[i].direction, lookup);
    }
  }

  lemma DirectionPreserved(p: ClusterPolicy, listed: seq<Namespace>, flow: Flow, dir: Direction, lookup: Lookup)
    requires SameSnapshot(listed, p.namespaceSelector, lookup)
    requires forall k :: k in lookup.pods ==> lookup.GetNamespaceLabels(lookup.pods[k].ns).Some?
    ensures var subject := SubjectPod(flow, dir, lookup);
      && (forall ns :: ns in Covered(p.namespaceSelector, listed) ==>
            PolicyVerdict(Promoted(p, ns), flow, dir, lookup) ==
              if subject.Some? && subject.value.ns == ns then ClusterVerdict(p, flow, dir, lookup) else NotApplicable)
      && (ClusterVerdict(p, flow, dir, lookup) != NotApplicable ==>
            subject.Some? && subject.value.ns in Covered(p.namespaceSelector, listed))
  {
    hide SelectorMatches, SameSnapshot, Covered, RulesVerdict;
    if SubjectPod(flow, dir, lookup).Some? {
      PromotionPreservesVerdict(p, listed, flow, dir, lookup);
    }
  }

  /** A malformed namespace selector: promotion refuses, and the evaluator applies the policy nowhere. */
  lemma MalformedSelectorPromotesNothing(p: ClusterPolicy, marks: Marks, listed: seq<Namespace>, flow: Flow, dir: Direction, lookup: Lookup)
    requires p.namespaceSelector.Some? && !WellFormed(p.namespaceSelector.value)
    ensures Discovered(EncodeCluster(p, marks), listed).Error?
    ensures ClusterVerdict(p, flow, dir, lookup) == NotApplicable
  {
    DiscoveredOfStored(p, marks, listed);
  }

  // ----- the readers, by their parts

  /** The texts of a list, one after the other; what is no text is left out. */
  lemma {:induction false} TextsByParts(a: seq<Value>, b: seq<Value>, v: Value)
    ensures Texts(a + b) == Texts(a) + Texts(b)
    ensures Texts([v]) == if v.Text? then [v.text] else []
  {
    assert [v][..0] == [];
    if b == [] {
      assert a + b == a;
    } else {
      assert (a + b)[..|a + b| - 1] == a + b[..|b| - 1];
      TextsByParts(a, b[..|b| - 1], v);
    }
  }

  /** The requirements of a list, one after the other; what is no object is left out. */
  lemma {:induction false} RequirementsByParts(a: seq<Value>, b: seq<Value>, v: Value)
    ensures RequirementsOf(a + b) == RequirementsOf(a) + RequirementsOf(b)
    ensures RequirementsOf([v]) == if v.Object? then [RequirementOf(v.fields)] else []
  {
    assert [v][..0] == [];
    if b == [] {
      assert a + b == a;
    } else {
      assert (a + b)[..|a + b| - 1] == a + b[..|b| - 1];
      RequirementsByParts(a, b[..|b| - 1], v);
    }
  }

  /** Fields of the wrong kind read as if they were not there, and absent fields as empty. */
  lemma WrongKindsAreAbsent(fields: map<string, Value>, key: string)
    requires key in fields
    ensures !fields[key].Text? && key == "key" ==> RequirementOf(fields).key == ""
    ensures !fields[key].Text? && key == "operator" ==> RequirementOf(fields).operator == ""
    ensures !fields[key].List? && key == "values" ==> RequirementOf(fields).values == []
    ensures !fields[key].Object? && key == "matchLabels" ==> SelectorOf(fields).matchLabels == map[]
    ensures !fields[key].List? && key == "matchExpressions" ==> SelectorOf(fields).matchExpressions == []
  {
  }

  /** Label values that are no texts are left out one by one; the other pairs are kept. */
  lemma LabelsByPair(fields: map<string, Value>, k: string)
    ensures k in LabelsOf(fields) <==> k in fields && fields[k].Text?
    ensures k in LabelsOf(fields) ==> Text(LabelsOf(fields)[k]) == fields[k]
  {
  }

  /** Labels and annotations that are all texts or nulls are read, nulls as empty; if anything else is
      among them, none is. */
  lemma MetadataTextsByPair(fields: map<string, Value>, key: string, k: string)
    requires key in fields && fields[key].Object?
    ensures var v, texts := fields[key].fields, TextsAt(fields, key);
      if exists l :: l in v && !v[l].Text? && !v[l].Null? then texts == map[]
      else (k in texts <==> k in v) && (k in texts ==> texts[k] == if v[k].Text? then v[k].text else "")
  {
  }

  /** When discovery fails, on any object: the spec is there and no object, or the selector is there
      and no object, or it is malformed. No spec, no selector and a null selector cover everything. */
  lemma DiscoveryFailsIff(obj: map<string, Value>, listed: seq<Namespace>)
    ensures var spec := Field(obj, "spec");
      var sel := if spec.Object? then Field(spec.fields, "namespaceSelector") else Null;
      && (Discovered(obj, listed).Error? <==>
            (!spec.Object? && !spec.Null?) || (!sel.Object? && !sel.Null?) || (sel.Object? && !WellFormed(SelectorOf(sel.fields))))
      && (Discovered(obj, listed).Done? ==>
            Discovered(obj, listed).value == Covered(if sel.Object? then Some(SelectorOf(sel.fields)) else None, listed))
  {
    hide WellFormed, SelectorOf, Covered;
  }

  // ----- each target once, in listing order

  predicate Covers(selector: Option<LabelSelector>, n: Namespace) {
    selector.None? || SelectorMatches(selector.value, n.labels)
  }

  lemma {:induction false} CoveredByParts(selector: Option<LabelSelector>, a: seq<Namespace>, b: seq<Namespace>)
    ensures Covered(selector, a + b) == Covered(selector, a) + Covered(selector, b)
  {
    hide SelectorMatches;
    if b == [] {
      assert a + b == a;
    } else {
      assert (a + b)[..|a + b| - 1] == a + b[..|b| - 1];
      CoveredByParts(selector, a, b[..|b| - 1]);
    }
  }

  /** The i-th namespace listed, if covered, is the target that comes after those covered before it. */
  lemma CoveredAt(selector: Option<LabelSelector>, listed: seq<Namespace>, i: nat)
    requires i < |listed| && Covers(selector, listed[i])
    ensures var k := |Covered(selector, listed[..i])|;
      k < |Covered(selector, listed)| && Covered(selector, listed)[k] == listed[i].name
  {
    hide SelectorMatches;
    var before, after := listed[..i + 1], listed[i + 1..];
    assert before[..i] == listed[..i] && listed == before + after;
    CoveredByParts(selector, before, after);
  }

  lemma CoveredGrows(selector: Option<LabelSelector>, listed: seq<Namespace>, i: nat, j: nat)
    requires i < j < |listed| && Covers(selector, listed[i])
    ensures |Covered(selector, listed[..i])| < |Covered(selector, listed[..j])|
  {
    hide SelectorMatches;
    var a, b := listed[..i + 1], listed[i + 1..j];
    assert a[..i] == listed[..i] && listed[..j] == a + b;
    CoveredByParts(selector, a, b);
  }

  /** Of two covered namespaces the one listed first is the earlier target. */
  lemma ListingOrder(selector: Option<LabelSelector>, listed: seq<Namespace>, i: nat, j: nat)
    requires i < j < |listed| && Covers(selector, listed[i]) && Covers(selector, listed[j])
    ensures var targets := Covered(selector, listed);
      exists a, b :: 0 <= a < b < |targets| && targets[a] == listed[i].name && targets[b] == listed[j].name
  {
    hide SelectorMatches, Covered, Covers;
    CoveredAt(selector, listed, i);
    CoveredAt(selector, listed, j);
    CoveredGrows(selector, listed, i, j);
  }

  /** If each name is listed once, each target comes once. */
  lemma {:induction false} EachTargetOnce(selector: Option<LabelSelector>, listed: seq<Namespace>)
    requires forall i, j :: 0 <= i < j < |listed| ==> listed[i].name != listed[j].name
    ensures Distinct(Covered(selector, listed))
    ensures forall ns :: ns in Covered(selector, listed) ==> exists n :: n in listed && n.name == ns
  {
    hide SelectorMatches;
    if listed != [] {
      var front, last := listed[..|listed| - 1], listed[|listed| - 1];
      assert listed == front + [last];
      EachTargetOnce(selector, front);
      assert forall n :: n in front ==> n.name != last.name;
      assert last.name !in Covered(selector, front);
    }
  }
}
