/** The objects the policy compiler, the evaluator and the promotion command share:
    network policies, flows, and the evaluator's view of the cluster. */
module Policies {
  import opened Common
  import opened Labels

  datatype IntOrString = Number(n: int) | Name(name: string)

  datatype PortSpec = PortSpec(port: Option<IntOrString>, endPort: Option<int>, protocol: Option<string>)

  datatype IpBlock = IpBlock(cidr: string, except: seq<string>)

  datatype Peer = Peer(
    podSelector: Option<LabelSelector>,
    namespaceSelector: Option<LabelSelector>,
    ipBlock: Option<IpBlock>)

  /** from/to and ports; the two rule types of the API differ in field names only. */
  datatype Rule = Rule(peers: seq<Peer>, ports: seq<PortSpec>)

  /** A policy type, or the direction it stands for. Other: anything else admission let through. */
  datatype Direction = Ingress | Egress | Other(name: string)

  datatype Spec = Spec(podSelector: LabelSelector, policyTypes: seq<Direction>, ingress: seq<Rule>, egress: seq<Rule>)

  datatype Policy = Policy(ns: string, name: string, uid: string, generation: int, spec: Spec)

  datatype ClusterPolicy = ClusterPolicy(
    name: string, uid: string, generation: int, namespaceSelector: Option<LabelSelector>, spec: Spec)

  datatype ContainerPort = ContainerPort(name: string, protocol: string, number: int)

  datatype Pod = Pod(ns: string, name: string, labels: LabelMap, containers: seq<seq<ContainerPort>>)

  datatype Flow = Flow(
    srcNs: string, srcName: string, dstNs: string, dstName: string,
    srcIp: string, dstIp: string, dstPort: int, protocol: string)

  /** The informer caches: pods under "namespace/name", namespaces under their name. */
  datatype Lookup = Lookup(pods: map<string, Pod>, namespaces: map<string, LabelMap>) {

    function GetPod(ns: string, name: string): Option<Pod> {
      var key := ns + "/" + name;
      if ns == "" || name == "" || key !in pods then None else Some(pods[key])
    }

    function GetNamespaceLabels(name: string): Option<LabelMap> {
      if name == "" || name !in namespaces then None else Some(namespaces[name])
    }

    /** Informers key a pod by its own namespace and name, neither of which holds a slash. */
    ghost predicate Valid() {
      forall k :: k in pods ==>
        k == pods[k].ns + "/" + pods[k].name && '/' !in pods[k].ns && '/' !in pods[k].name
    }

    /** Every cached pod with a namespace and a name is found under them, every other pair finds
        nothing, and a namespace is known exactly if it is cached, with labels or without. */
    lemma CachedIsFound(ns: string, name: string)
      requires Valid()
      ensures forall k :: k in pods && pods[k].ns == ns && pods[k].name == name && ns != "" && name != "" ==>
                GetPod(ns, name) == Some(pods[k])
      ensures GetPod(ns, name).Some? ==> ns != "" && name != "" && exists k :: k in pods && pods[k] == GetPod(ns, name).value
      ensures ns != "" ==> (GetNamespaceLabels(ns).Some? <==> ns in namespaces)
      ensures ns in namespaces && ns != "" ==> GetNamespaceLabels(ns) == Some(namespaces[ns])
    {
    }

    /** A pod found under a namespace and a name is in that namespace and has that name. */
    lemma PodFound(ns: string, name: string)
      requires Valid() && GetPod(ns, name).Some?
      ensures GetPod(ns, name).value.ns == ns && GetPod(ns, name).value.name == name
    {
      var p := GetPod(ns, name).value;
      var key := ns + "/" + name;
      assert key == p.ns + "/" + p.name && key[|ns|] == '/';
      if |ns| != |p.ns| { BesideSlash(p.ns, p.name, |ns|); }
      assert ns == key[..|ns|] && p.ns == key[..|p.ns|];
      assert name == key[|ns| + 1..] && p.name == key[|p.ns| + 1..];
    }
  }

  lemma BesideSlash(a: string, b: string, i: nat)
    requires i < |a + "/" + b| && i != |a|
    ensures (a + "/" + b)[i] in a || (a + "/" + b)[i] in b
  {
    if i < |a| { assert (a + "/" + b)[i] == a[i]; } else { assert (a + "/" + b)[i] == b[i - |a| - 1]; }
  }

  datatype Reason = NoRules(dir: Direction) | NoRuleMatched(dir: Direction) | UnknownDirection

  datatype Verdict = NotApplicable | Allow | WouldDeny(reason: Reason)

  datatype Result = Result(
    policyNs: string, policyName: string, uid: string, generation: int, direction: Direction, verdict: Verdict)
}
