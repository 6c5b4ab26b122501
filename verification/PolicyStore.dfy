/** evaluator/pkg/store: the policy index kept up to date by watch events. */
module PolicyStore {
  import opened Common
  import opened Policies

  // ----- what the index should hold

  datatype Event =
    | PolicySet(policy: Policy)
    | PolicyGone(ns: string, name: string)
    | ClusterSet(clusterPolicy: ClusterPolicy)
    | ClusterGone(name: string)
    | Unreadable  // not a policy object, or one that does not convert: dropped

  datatype Index = Index(policies: map<string, seq<Policy>>, cluster: seq<ClusterPolicy>)

  function PolicyName(p: Policy): string { p.name }

  function ClusterName(p: ClusterPolicy): string { p.name }

  /** The list without the entries of that name. */
  function Without<T>(list: seq<T>, name: string, nameOf: T -> string): seq<T> {
    if list == [] then []
    else
      var last := list[|list| - 1];
      Without(list[..|list| - 1], name, nameOf) + if nameOf(last) != name then [last] else []
  }

  function InNamespace(index: Index, ns: string): seq<Policy> {
    if ns in index.policies then index.policies[ns] else []
  }

  function Next(index: Index, e: Event): Index {
    match e
    case PolicySet(p) =>
      index.(policies := index.policies[p.ns := Without(InNamespace(index, p.ns), p.name, PolicyName) + [p]])
    case PolicyGone(ns, name) =>
      var rest := Without(InNamespace(index, ns), name, PolicyName);
      index.(policies := if rest == [] then index.policies - {ns} else index.policies[ns := rest])
    case ClusterSet(p) => index.(cluster := Without(index.cluster, p.name, ClusterName) + [p])
    case ClusterGone(name) => index.(cluster := Without(index.cluster, name, ClusterName))
    case Unreadable => index
  }

  function After(events: seq<Event>): Index {
    if events == [] then Index(map[], []) else Next(After(events[..|events| - 1]), events[|events| - 1])
  }

  /** The last word of the events on a key. */
  function Latest(events: seq<Event>, ns: string, name: string): Option<Policy> {
    if events == [] then None
    else match events[|events| - 1]
      case PolicySet(p) => if p.ns == ns && p.name == name then Some(p) else Latest(events[..|events| - 1], ns, name)
      case PolicyGone(ns', name') => if ns' == ns && name' == name then None else Latest(events[..|events| - 1], ns, name)
      case _ => Latest(events[..|events| - 1], ns, name)
  }

  function LatestCluster(events: seq<Event>, name: string): Option<ClusterPolicy> {
    if events == [] then None
    else match events[|events| - 1]
      case ClusterSet(p) => if p.name == name then Some(p) else LatestCluster(events[..|events| - 1], name)
      case ClusterGone(name') => if name' == name then None else LatestCluster(events[..|events| - 1], name)
      case _ => LatestCluster(events[..|events| - 1], name)
  }

  lemma WithoutNothing(index: Index, ns: string, name: string)
    requires ns !in index.policies
    ensures Without(InNamespace(index, ns), name, PolicyName) == []
    ensures index.policies - {ns} == index.policies
  {
  }

  predicate UniqueNames<T>(list: seq<T>, nameOf: T -> string) {
    forall i, j :: 0 <= i < j < |list| ==> nameOf(list[i]) != nameOf(list[j])
  }

  lemma {:induction false} WithoutMembers<T(!new)>(list: seq<T>, name: string, nameOf: T -> string)
    ensures forall p :: p in Without(list, name, nameOf) <==> p in list && nameOf(p) != name
    ensures UniqueNames(list, nameOf) ==> UniqueNames(Without(list, name, nameOf), nameOf)
  {
    if list != [] {
      var front := list[..|list| - 1];
      WithoutMembers(front, name, nameOf);
      assert list == front + [list[|list| - 1]];
    }
  }

  /** The shape the server relies on: policies sit under their own namespace, names are
      unique in it, and no namespace is kept empty. */
  ghost predicate WellKept(index: Index) {
    && (forall ns :: ns in index.policies ==>
          index.policies[ns] != [] && UniqueNames(index.policies[ns], PolicyName) && forall p :: p in index.policies[ns] ==> p.ns == ns)
    && UniqueNames(index.cluster, ClusterName)
  }

  lemma NextWellKept(index: Index, e: Event)
    requires WellKept(index)
    ensures WellKept(Next(index, e))
  {
    match e
    case PolicySet(p) => WithoutMembers(InNamespace(index, p.ns), p.name, PolicyName);
    case PolicyGone(ns, name) => WithoutMembers(InNamespace(index, ns), name, PolicyName);
    case ClusterSet(p) => WithoutMembers(index.cluster, p.name, ClusterName);
    case ClusterGone(name) => WithoutMembers(index.cluster, name, ClusterName);
    case Unreadable =>
  }

  /** Whatever the events, the index holds for each namespace and name exactly the policy of the
      latest event for that key, or none after a delete; and it stays well kept. */
  lemma {:induction false} IndexIsLatest(events: seq<Event>)
    ensures WellKept(After(events))
    ensures forall ns, p: Policy :: p in InNamespace(After(events), ns) <==> p.ns == ns && Latest(events, ns, p.name) == Some(p)
    ensures forall p: ClusterPolicy :: p in After(events).cluster <==> LatestCluster(events, p.name) == Some(p)
  {
    if events != [] {
      var front, e := events[..|events| - 1], events[|events| - 1];
      IndexIsLatest(front);
      NextWellKept(After(front), e);
      LatestKeyed(front);
      forall ns, p: Policy
        ensures p in InNamespace(After(events), ns) <==> p.ns == ns && Latest(events, ns, p.name) == Some(p)
      {
        NextMembers(After(front), e, ns, p);
      }
      forall p: ClusterPolicy ensures p in After(events).cluster <==> LatestCluster(events, p.name) == Some(p) {
        NextClusterMembers(After(front), e, p);
      }
    }
  }

  /** One event changes the entry of its own key and no other. */
  lemma NextMembers(index: Index, e: Event, ns: string, p: Policy)
    ensures p in InNamespace(Next(index, e), ns) <==>
      match e
      case PolicySet(q) => if q.ns == ns && q.name == p.name then p == q else p in InNamespace(index, ns)
      case PolicyGone(ns', name) => p in InNamespace(index, ns) && !(ns' == ns && p.name == name)
      case _ => p in InNamespace(index, ns)
  {
    match e
    case PolicySet(q) => WithoutMembers(InNamespace(index, ns), q.name, PolicyName);
    case PolicyGone(_, name) => WithoutMembers(InNamespace(index, ns), name, PolicyName);
    case _ =>
  }

  lemma NextClusterMembers(index: Index, e: Event, p: ClusterPolicy)
    ensures p in Next(index, e).cluster <==>
      match e
      case ClusterSet(q) => if q.name == p.name then p == q else p in index.cluster
      case ClusterGone(name) => p in index.cluster && p.name != name
      case _ => p in index.cluster
  {
    match e
    case ClusterSet(q) => WithoutMembers(index.cluster, q.name, ClusterName);
    case ClusterGone(name) => WithoutMembers(index.cluster, name, ClusterName);
    case _ =>
  }

  lemma {:induction false} LatestKeyed(events: seq<Event>)
    ensures forall ns, name :: Latest(events, ns, name).Some? ==>
              Latest(events, ns, name).value.ns == ns && Latest(events, ns, name).value.name == name
    ensures forall name :: LatestCluster(events, name).Some? ==> LatestCluster(events, name).value.name == name
  {
    if events != [] { LatestKeyed(events[..|events| - 1]); }
  }

  lemma NextOfSet(index: Index, p: Policy)
    ensures Next(index, PolicySet(p)) ==
      index.(policies := index.policies[p.ns := Without(InNamespace(index, p.ns), p.name, PolicyName) + [p]])
  {
  }

  lemma NextOfGone(index: Index, ns: string, name: string)
    ensures var rest := Without(InNamespace(index, ns), name, PolicyName);
      Next(index, PolicyGone(ns, name)) ==
        index.(policies := if rest == [] then index.policies - {ns} else index.policies[ns := rest])
  {
  }

  // ----- slices over backing arrays

  /** A Go slice: a backing array and a length. */
  datatype Slice<T> = Slice(data: array<T>, len: nat)

  ghost predicate InBounds<T>(s: Slice<T>) { s.len <= s.data.Length }

  ghost function Items<T>(s: Slice<T>): seq<T>
    reads s.data
    requires InBounds(s)
  {
    s.data[..s.len]
  }

  /** The loop of a set: the other entries, then the new one, in a new backing array. */
  method Rebuilt<T>(list: Slice<T>, item: T, nameOf: T -> string) returns (out: Slice<T>)
    requires InBounds(list)
    ensures InBounds(out) && fresh(out.data)
    ensures Items(out) == Without(Items(list), nameOf(item), nameOf) + [item]
  {
    var updated := new T[list.len + 1](_ => item);
    var n := 0;
    for i := 0 to list.len
      invariant 0 <= n <= i
      invariant updated[..n] == Without(list.data[..i], nameOf(item), nameOf)
    {
      assert list.data[..i + 1][..i] == list.data[..i];
      if nameOf(list.data[i]) == nameOf(item) { continue; }
      updated[n] := list.data[i];
      n := n + 1;
    }
    updated[n] := item;
    out := Slice(updated, n + 1);
    assert updated[..n + 1] == updated[..n] + [item];
  }

  /** The loop of a delete: kept entries move down inside the same backing array. */
  method CompactInPlace<T>(list: Slice<T>, name: string, nameOf: T -> string) returns (out: Slice<T>)
    requires InBounds(list)
    modifies list.data
    ensures InBounds(out) && out.data == list.data
    ensures Items(out) == Without(old(Items(list)), name, nameOf)
  {
    var n := 0;
    for i := 0 to list.len
      invariant 0 <= n <= i
      invariant forall j :: i <= j < list.len ==> list.data[j] == old(list.data[j])
      invariant list.data[..n] == Without(old(list.data[..])[..i], name, nameOf)
    {
      ghost var was := old(list.data[..]);
      assert was[..i + 1][..i] == was[..i];
      var p := list.data[i];
      assert p == was[i];
      if nameOf(p) != name {
        list.data[n] := p;
        n := n + 1;
      }
    }
    out := Slice(list.data, n);
    assert old(list.data[..])[..list.len] == old(Items(list));
  }

  lemma SetAfterRemoval<K, V>(m: map<K, V>, n: map<K, V>, k: K, v: V)
    requires m - {k} == n - {k}
    ensures m[k := v] == n[k := v]
  {
    forall l | l != k ensures l in m <==> l in n { assert l in m - {k} <==> l in n - {k}; }
    forall l | l in m && l != k ensures m[l] == n[l] { assert (m - {k})[l] == (n - {k})[l]; }
  }

  class Store {
    var policiesByNamespace: map<string, Slice<Policy>>
    var clusterPolicies: Slice<ClusterPolicy>

    /** The backing arrays. */
    ghost function Arrays(): set<object>
      reads this
    {
      (set ns | ns in policiesByNamespace :: policiesByNamespace[ns].data) + {clusterPolicies.data}
    }

    ghost predicate Valid()
      reads this
    {
      && InBounds(clusterPolicies)
      && (forall ns :: ns in policiesByNamespace ==> InBounds(policiesByNamespace[ns]))
      && (forall ns, ns' :: ns in policiesByNamespace && ns' in policiesByNamespace && ns != ns' ==>
            policiesByNamespace[ns].data != policiesByNamespace[ns'].data)
    }

    /** The contents, as values. */
    ghost function View(): Index
      reads this, Arrays()
      requires Valid()
    {
      Index(map ns | ns in policiesByNamespace :: Items(policiesByNamespace[ns]), Items(clusterPolicies))
    }

    constructor ()
      ensures Valid() && fresh(Arrays())
      ensures View() == Index(map[], [])
    {
      policiesByNamespace := map[];
      var none := new ClusterPolicy[0];
      clusterPolicies := Slice(none, 0);
    }

    /** policiesByNamespace[ns] = list */
    method Put(ns: string, list: Slice<Policy>)
      requires Valid() && InBounds(list)
      requires forall k :: k in policiesByNamespace && k != ns ==> policiesByNamespace[k].data != list.data
      modifies this`policiesByNamespace
      ensures Valid() && Arrays() <= old(Arrays()) + {list.data}
      ensures View() == old(View()).(policies := old(View()).policies[ns := Items(list)])
    {
      hide Items;
      policiesByNamespace := policiesByNamespace[ns := list];
      assert View().policies == old(View()).policies[ns := Items(list)];
    }

    /** delete(policiesByNamespace, ns) */
    method Drop(ns: string)
      requires Valid()
      modifies this`policiesByNamespace
      ensures Valid() && Arrays() <= old(Arrays())
      ensures View() == old(View()).(policies := old(View()).policies - {ns})
    {
      policiesByNamespace := policiesByNamespace - {ns};
      assert View().policies == old(View()).policies - {ns};
    }

    /** policiesByNamespace[ns], the nil slice if absent. */
    method ListOf(ns: string) returns (list: Slice<Policy>)
      requires Valid()
      ensures InBounds(list) && Items(list) == InNamespace(View(), ns)
      ensures fresh(list.data) || (ns in policiesByNamespace && list == policiesByNamespace[ns])
    {
      if ns in policiesByNamespace {
        list := policiesByNamespace[ns];
        assert View().policies[ns] == Items(list);
      } else {
        var none := new Policy[0];
        list := Slice(none, 0);
      }
    }

    /** A set: the namespace's list is rebuilt in a new backing array. */
    method OnPolicyAddOrUpdate(policy: Policy)
      requires Valid()
      modifies this
      ensures Valid() && fresh(Arrays() - old(Arrays()))
      ensures View() == Next(old(View()), PolicySet(policy))
    {
      hide Without, Items, InNamespace, Next, View;
      NextOfSet(View(), policy);
      var list := ListOf(policy.ns);
      var updated := Rebuilt(list, policy, PolicyName);
      Put(policy.ns, updated);
    }

    lemma SameKeys()
      requires Valid()
      ensures View().policies.Keys == policiesByNamespace.Keys
    {
    }

    /** The compaction loop on the list of one namespace leaves the others as they were. */
    method Compact(ns: string, name: string) returns (out: Slice<Policy>)
      requires Valid() && ns in policiesByNamespace
      modifies policiesByNamespace[ns].data
      ensures Valid() && InBounds(out) && out.data == policiesByNamespace[ns].data
      ensures forall k :: k in policiesByNamespace && k != ns ==> policiesByNamespace[k].data != out.data
      ensures Items(out) == Without(InNamespace(old(View()), ns), name, PolicyName)
      ensures View().policies - {ns} == old(View()).policies - {ns} && View().cluster == old(View()).cluster
    {
      hide Without;
      out := CompactInPlace(policiesByNamespace[ns], name, PolicyName);
    }

    /** A delete: the list is compacted in place, inside its backing array. */
    method OnPolicyDelete(ns: string, name: string)
      requires Valid()
      modifies this, Arrays()
      ensures Valid() && Arrays() <= old(Arrays())
      ensures View() == Next(old(View()), PolicyGone(ns, name))
    {
      hide Without, Items, Next, InNamespace, Valid, View;
      ghost var before := View();
      SameKeys();
      NextOfGone(before, ns, name);
      if ns !in policiesByNamespace {
        WithoutNothing(before, ns, name);
        return;
      }
      var out := Compact(ns, name);
      LengthIsEmpty(out);
      ghost var middle := View().policies;
      if out.len == 0 {
        Drop(ns);
      } else {
        Put(ns, out);
        SetAfterRemoval(middle, before.policies, ns, Items(out));
      }
    }

    lemma LengthIsEmpty(list: Slice<Policy>)
      requires InBounds(list)
      ensures list.len == 0 <==> Items(list) == []
    {
    }

    method OnClusterPolicyAddOrUpdate(policy: ClusterPolicy)
      requires Valid()
      modifies this
      ensures Valid() && fresh(Arrays() - old(Arrays()))
      ensures View() == Next(old(View()), ClusterSet(policy))
    {
      hide Without;
      clusterPolicies := Rebuilt(clusterPolicies, policy, ClusterName);
      assert View().policies == old(View()).policies;
    }

    method OnClusterPolicyDelete(name: string)
      requires Valid()
      modifies this, Arrays()
      ensures Valid() && Arrays() <= old(Arrays())
      ensures View() == Next(old(View()), ClusterGone(name))
    {
      hide Without, Items;
      clusterPolicies := CompactInPlace(clusterPolicies, name, ClusterName);
      assert View().policies == old(View()).policies;
    }

    method Handle(e: Event)
      requires Valid()
      modifies this, Arrays()
      ensures Valid() && fresh(Arrays() - old(Arrays()))
      ensures View() == Next(old(View()), e)
    {
      match e
      case PolicySet(p) => OnPolicyAddOrUpdate(p);
      case PolicyGone(ns, name) => OnPolicyDelete(ns, name);
      case ClusterSet(p) => OnClusterPolicyAddOrUpdate(p);
      case ClusterGone(name) => OnClusterPolicyDelete(name);
      case Unreadable =>
    }

    /** A snapshot: the list copied out into an array of its own. */
    method PoliciesInNamespace(ns: string) returns (out: array<Policy>)
      requires Valid()
      ensures fresh(out) && out[..] == InNamespace(View(), ns)
    {
      if ns !in policiesByNamespace {
        out := new Policy[0];
        return;
      }
      var src := policiesByNamespace[ns];
      out := new Policy[src.len](i requires 0 <= i < src.len && src.len <= src.data.Length reads src.data => src.data[i]);
      assert out[..] == src.data[..src.len];
    }

    method ClusterPolicies() returns (out: array<ClusterPolicy>)
      requires Valid()
      ensures fresh(out) && out[..] == View().cluster
    {
      var src := clusterPolicies;
      out := new ClusterPolicy[src.len](i requires 0 <= i < src.len && src.len <= src.data.Length reads src.data => src.data[i]);
    }
  }

  lemma AfterSnoc(past: seq<Event>, e: Event)
    ensures After(past + [e]) == Next(After(past), e)
  {
    assert (past + [e])[..|past|] == past;
  }

  /** The events in order. */
  method HandleAll(store: Store, events: seq<Event>, ghost past: seq<Event>)
    requires store.Valid() && store.View() == After(past)
    modifies store, store.Arrays()
    ensures store.Valid() && fresh(store.Arrays() - old(store.Arrays()))
    ensures store.View() == After(past + events)
    decreases |events|
  {
    hide Next, After;
    if events == [] {
      assert past + events == past;
    } else {
      ghost var past' := past + [events[0]];
      AfterSnoc(past, events[0]);
      assert past + events == past' + events[1..];
      store.Handle(events[0]);
      HandleAll(store, events[1..], past');
    }
  }

  /** A snapshot already returned is not changed by any later events, in-place deletes included,
      and the store afterwards holds what the events say. */
  method SnapshotSurvives(store: Store, ns: string, events: seq<Event>, ghost past: seq<Event>)
    returns (snapshot: array<Policy>)
    requires store.Valid() && store.View() == After(past)
    modifies store, store.Arrays()
    ensures store.Valid() && store.View() == After(past + events)
    ensures snapshot[..] == InNamespace(After(past), ns)
  {
    snapshot := store.PoliciesInNamespace(ns);
    HandleAll(store, events, past);
  }
}
