# Verified model of kguardian

kguardian watches pods with eBPF, stores what it sees in a broker, and turns the
observations into network policies that an evaluator can audit before anyone
enforces them. This project models the parts of it that make promises about
policies and about data in transit, and proves those promises with Dafny 4.11
(`dafny verify dfyconfig.toml`).

**Policies.** The advisor compiles traffic records into a NetworkPolicy
(`Compiler`), the evaluator interprets policies against flows (`Matcher`), the
CLI expands a cluster policy into one policy per namespace (`Promotion`), and the
server looks policies up by namespace (`Server` over `PolicyStore`). `Semantics`
says with quantifiers what a policy means; the evaluator's loops are proved equal
to it, and every other result is stated over it: the compiler is exact
(`Exactness`, and on the fields of the records `Observation`), promotion preserves
verdicts, the index loses none. `Labels` and `Ipv4` give label selectors and CIDR
blocks in full. `PolicyLaws` ties operators, peers, ports and reasons to each other.

**Delivery.** The controller's batcher and the broker's table are two classes and
one composed state machine (`Batcher`, `TrafficTable`); the syscall snapshots
(`Syscalls`) and the audit queue (`AuditQueue`, `AuditFlow`) are step protocols
whose theorems hold in every interleaving and for every outcome of a POST: answered,
lost, or committed with the answer lost.

**Smaller machines.** The status aggregator and its ranking (`Aggregator`,
`TopOffenders`), the SYN-retransmission tracker (`SynTracker`), and the chat stream
from the bridge's printer to the page's incremental parser (`Sse`, `SseRoundTrip`,
`Json`, `ChatJson`, `ChatStream`).

Code that updates state is a class with the same fields, and each of its methods is
proved against a function of the old state; the theorems over whole runs are lemmas
about that function.

## What turned out not to hold

Each of these is stated with the exact condition under which it does hold.

- The policy generated from a record does not always allow that record when the
  broker audits it: the audit flow carries no identity of the peer, so a peer
  resolved to labels is denied (`AuditFlow.OwnTrafficAllowedIff`,
  `AuditFlow.LabelledClientIsDenied`).
- A promoted policy and its cluster policy disagree on a pod whose namespace the
  evaluator has not seen, when the policy has no namespace selector
  (`Promotion.PromotionPreservesVerdict`, `Promotion.UnknownNamespaceDisagrees`).
- The pool headroom of 8 connections is lost when the permits setting is within 8
  of 2^32 or does not fit 32 bits (and the broker starts with it at all), because the
  sum saturates and two modules of the broker parse the setting at different widths
  (`AuditQueue.HeadroomIff`, `AuditQueue.LargestSettingLeavesNoRoom`).
- The duplicate check does not look at the same columns as the content key, although
  its comment says so (broker/src/add.rs:62-65): it is coarser, for UDP in
  particular, and it recognises no record that lacks a column its query filters on
  (`TrafficTable.StoredByContentIff`, `TrafficTable.CommittedIsKnown`,
  `TrafficTable.SecondUdpFlowIsNotStored`, `TrafficTable.UndecidedRecordIsStoredTwice`).
- A pod with a blank name is marked as sent by the controller and skipped by the
  broker: a pass that finds no difference means that the row equals the cache iff the
  pod has a name or nothing was seen for it, and what was sent lies within the row iff
  the pod has a name or nothing is marked as sent (`Syscalls.NoDifferenceMeansStored`,
  `Syscalls.OrderedIff`, `Syscalls.BlankNameIsMarkedButNotStored`).
- The broker does not audit every record the generator accepts: the generator's case
  folding takes the long s for an S (`AuditFlow.AcceptedIsAuditedIff`).
- Widening a policy without explicit policy types can add a denial: its first egress
  rule makes Egress effective (`Semantics.WideningInferredTypes`,
  `Semantics.WideningKeepsAllow`).

Where comments and code differ, the code is followed: `Record` is documented to
count verdicts that do not apply (evaluator/pkg/status/aggregator.go:88-90), but the
server never passes it one; the deny-all policy is documented as having no policy
types (advisor/pkg/network/standard_policy.go:113), but lists both.

## Model

| member | source | states |
|---|---|---|
| `Labels.InIsSomeLabel` | evaluator/pkg/matcher/matcher.go:506-514 | an In requirement matches iff one of its values does as a match label |
| `Labels.NotInIsNotIn` | evaluator/pkg/matcher/matcher.go:506-514 | NotIn over the same values matches iff In does not |
| `Labels.ExistsIsSomeValue` | evaluator/pkg/matcher/matcher.go:506-514 | Exists matches iff the labels hold the key with some value |
| `Labels.DoesNotExistIsNotExists` | evaluator/pkg/matcher/matcher.go:506-514 | DoesNotExist matches iff Exists does not |
| `Labels.LabelMeansPair` | evaluator/pkg/matcher/matcher.go:506-514 | a match label matches iff key and value are valid and the labels hold the pair |
| `Labels.EachPartAlone` | evaluator/pkg/matcher/matcher.go:506-514 | a selector matches iff each of its labels and requirements alone does |
| `Labels.SatisfiableIff` | evaluator/pkg/matcher/matcher.go:506-514 | some labels meet a requirement iff its key and values are valid, the operator is one of the four, and there are values exactly for In and NotIn; all others match nothing |
| `Labels.NameIsPattern` | evaluator/pkg/matcher/matcher.go:506-514 | valid names are those of at most 63 characters that the pattern of the API matches |
| `Labels.KeyForms` | evaluator/pkg/matcher/matcher.go:506-514 | a key is a name, or a subdomain, a slash and a name |
| `Ipv4.InNetworkIsInterval` | evaluator/pkg/matcher/matcher.go:489-498 | an address is in a block, by masking byte by byte, iff its value lies in [masked base, masked base + 2^(32-prefix)) |
| `Ipv4.AndMask` | evaluator/pkg/matcher/matcher.go:489-498 | bitwise and with a mask byte, defined bit by bit, clears exactly the low bits |
| `Ipv4.InNetworkIsQuotient` | evaluator/pkg/matcher/matcher.go:489-498 | the four masked byte comparisons equal one comparison of quotients by the block size, for every prefix length |
| `Ipv4.PrintParse` | evaluator/pkg/matcher/matcher.go:485-488 | parsing the dotted decimal form of an address gives the address back |
| `Ipv4.ParsePrint` | evaluator/pkg/matcher/matcher.go:485-488 | a text that parses is the printed form of its address: no two texts for one address |
| `Ipv4.CidrPrintParse` | evaluator/pkg/matcher/matcher.go:489-498 | "a.b.c.d/p" is the block of that address and prefix for p up to 32, and unreadable above |
| `Ipv4.CidrNeedsBoth` | evaluator/pkg/matcher/matcher.go:489-498 | a text without a slash, or with an unreadable address or prefix, is no block |
| `Ipv4.HostCidr` | advisor/pkg/network/standard_policy.go:361-365 | for every text s, "s/32" is a readable block iff s is an address, and then it is the block of that address |
| `Ipv4.HostNetwork` | advisor/pkg/network/standard_policy.go:361-365 | a /32 block holds its own address only |
| `Semantics.BlockAdmitsIsInterval` | evaluator/pkg/matcher/matcher.go:481-500 | an ipBlock peer admits an address iff it lies in the interval of the block and in no interval of a readable except entry |
| `Semantics.HostBlockAdmits` | advisor/pkg/network/standard_policy.go:361-365 | the generator's address peer admits exactly the one text it was made from, and only if that is an address |
| `Semantics.DedupElements` | evaluator/pkg/matcher/matcher.go:226-248 | removing repeated policy types loses and adds none |
| `Semantics.DedupDistinct` | evaluator/pkg/matcher/matcher.go:226-248 | for known policy types the result has each type once, so at most two |
| `Semantics.EffectiveTypesCorrect` | evaluator/pkg/matcher/matcher.go:205-248 | the effective directions are those listed, or Ingress plus Egress when there are egress rules; each once if well formed |
| `Semantics.OneVerdictPerDirection` | evaluator/pkg/matcher/matcher.go:125-202 | exactly one result per effective direction; Allow iff the subject is selected and some rule has a matching peer and port, WouldDeny iff selected and none has, NotApplicable iff not selected |
| `Semantics.WideningKeepsAllow` | evaluator/pkg/matcher/matcher.go:125-202 | with explicit policy types, adding rules, peers to a non-empty peer list or ports to a non-empty port list keeps the result list's directions and every Allow in it |
| `Semantics.WideningInferredTypes` | evaluator/pkg/matcher/matcher.go:205-219 | with inferred types the list is kept as a front; one Egress result is added iff the widening adds the first egress rule, and it is a denial iff the pod is selected and the new rules do not admit the flow |
| `PolicyLaws.InSelectsByValue` | evaluator/pkg/matcher/matcher.go:160-178 | a policy that selects pods by In reports, result by result, what the policies that select by one of the values report |
| `PolicyLaws.NotInSelectsTheOthers` | evaluator/pkg/matcher/matcher.go:160-178 | of the In and the NotIn policy exactly one applies to a pod of the namespace, in every direction |
| `PolicyLaws.RangeIsItsNumbers` | evaluator/pkg/matcher/matcher.go:408-432 | a port range admits what one of its numbers does, both ends included |
| `PolicyLaws.NameIsItsNumbers` | evaluator/pkg/matcher/matcher.go:440-462 | a named port admits what the number of one of the destination pod's ports of that name and protocol does |
| `PolicyLaws.PortForms` | evaluator/pkg/matcher/matcher.go:408-432 | a number admits that port and protocol; no protocol is TCP; no port is every number |
| `PolicyLaws.OwnNamespacePeer` | evaluator/pkg/matcher/matcher.go:355-394 | for a selected subject, a peer without a namespace selector is a matching pod of the policy's own namespace |
| `PolicyLaws.PeerSelectorsCombine` | evaluator/pkg/matcher/matcher.go:340-394 | two selectors are met by the peers that meet both; an absent pod selector is the one that matches everything |
| `PolicyLaws.BlockDecidesAlone` | evaluator/pkg/matcher/matcher.go:340-346 | an address block decides without the selectors beside it |
| `PolicyLaws.RuleIsPeersAndPorts` | evaluator/pkg/matcher/matcher.go:280-310 | a rule admits iff it does with one of its peers and with one of its ports; an empty list stands for any |
| `PolicyLaws.DenialReasons` | evaluator/pkg/matcher/matcher.go:280-310 | a denial says no rules iff the direction has none; without rules there is no Allow |
| `PolicyLaws.FirstTypeFirst` | evaluator/pkg/matcher/matcher.go:226-248 | the type listed first stays first, the other one follows |
| `PolicyLaws.ResultsIdentifyPolicy` | evaluator/pkg/matcher/matcher.go:125-139 | results carry namespace, name, identifier and generation of their policy; cluster results have no namespace |
| `Policies.Lookup.PodFound` | evaluator/pkg/store/store.go:291-305 | a pod found under a namespace and a name is that pod: no other pair gives the same cache key |
| `Policies.Lookup.CachedIsFound` | evaluator/pkg/store/store.go:291-339 | every cached pod is found, no other, and a namespace is known iff cached, with labels or without |
| `Matcher.IpBlockMatches` | evaluator/pkg/matcher/matcher.go:481-500 | the loop over except entries decides membership of the block without its readable exceptions, false for unreadable texts |
| `Matcher.PeerEntryMatches` | evaluator/pkg/matcher/matcher.go:340-394 | the early returns decide whether the peer entry admits the flow's peer |
| `Matcher.PeerListMatches` | evaluator/pkg/matcher/matcher.go:324-338 | true iff the list is empty or some entry admits the peer |
| `Matcher.NamedPortMatches` | evaluator/pkg/matcher/matcher.go:440-462 | true iff some container declares the name with that protocol (TCP by default) and number |
| `Matcher.PortEntryMatches` | evaluator/pkg/matcher/matcher.go:408-432 | protocol, then any port, number, range to endPort or named port, on the destination pod |
| `Matcher.PortsMatch` | evaluator/pkg/matcher/matcher.go:396-406 | true iff the list is empty or some entry admits the port |
| `Matcher.EvaluateRules` | evaluator/pkg/matcher/matcher.go:280-310 | the rule loop gives Allow iff some rule admits the flow, otherwise the source's reason for the denial (the cluster sibling at lines 90-115 is the same loop) |
| `Matcher.DedupPolicyTypes` | evaluator/pkg/matcher/matcher.go:226-248 | the two-flag loop keeps first occurrences of Ingress and Egress, in order |
| `Matcher.EffectivePolicyTypes` | evaluator/pkg/matcher/matcher.go:205-219 | the directions a policy applies in |
| `Matcher.Match` | evaluator/pkg/matcher/matcher.go:125-202 | the result list is, in order of the effective directions, the declarative verdict of each |
| `Matcher.MatchCluster` | evaluator/pkg/matcher/matcher.go:18-73 | the same for cluster policies, with their namespace selector |
| `Observation.ParsePortIff` | advisor/pkg/network/standard_policy.go:379-388 | a port is read as n iff n is in 1..65535 and the text is a decimal numeral of n, plus sign or not |
| `Observation.PrintedPort` | advisor/pkg/network/standard_policy.go:379-388 | the printed form of every number in 1..65535 is read as that number, and of no other |
| `Observation.UnreadablePort` | advisor/pkg/network/standard_policy.go:379-388 | texts without digits or with anything else among them are no ports |
| `Compiler.HasPort` | advisor/pkg/network/types.go:50-55 | comparing port texts and protocols finds a port iff it is there |
| `Compiler.MergeOrAppendRule` | advisor/pkg/network/types.go:40-70 | the (peer, port, protocol) set grows by exactly the given triple, peers and ports stay unique, a triple already there changes nothing, existing entries keep their place and only gain ports at the end |
| `Compiler.ProcessTrafficRules` | advisor/pkg/network/standard_policy.go:144-216 | the two accumulators hold exactly what the accepted records of each direction ask for |
| `Compiler.PortLessTotal` | advisor/pkg/network/standard_policy.go:439-459 | the port comparator is a strict total order on the compiler's ports |
| `Compiler.DeduplicatePorts` | advisor/pkg/network/standard_policy.go:419-462 | the loop keeps the first usable port of each text key, and sorts them |
| `Compiler.PlainKeys` | advisor/pkg/network/standard_policy.go:428-432 | on the compiler's ports the text key "port-protocol" is injective |
| `Compiler.DeduplicateIgnoresOrder` | advisor/pkg/network/standard_policy.go:419-462 | the deduplicated list depends on the set of ports only |
| `Compiler.SortedKeys` | advisor/pkg/network/standard_policy.go:289-296 | the keys in ascending order, whatever order the map iterates in |
| `Compiler.GroupByPeer` | advisor/pkg/network/standard_policy.go:230-234 | the grouping map holds for each peer exactly the ports asked for it |
| `Compiler.TransformRules` | advisor/pkg/network/standard_policy.go:227-285 | the emitted rules are a function of the set of (peer, port) pairs; both transforms |
| `Compiler.Generate` | advisor/pkg/network/standard_policy.go:48-121 | the policy is the one compiled from the set of wishes in the records; an error without pod details; deny-all with both directions when nothing was accepted |
| `Exactness.PeerForMeaning` | advisor/pkg/network/standard_policy.go:300-366 | the peer entry made for an address admits a flow iff the flow's peer is what the address resolves to: service selector, pod labels in their namespace, or the address itself |
| `Exactness.RulesForAdmits` | advisor/pkg/network/standard_policy.go:227-285 | the rules made from a set of pairs admit a flow iff one pair does: grouping by peer admits nothing more |
| `Exactness.CompiledAdmits` | advisor/pkg/network/standard_policy.go:48-98 | the generated rules of a direction admit a flow iff some record permits it |
| `Exactness.GeneratedPolicyIsExact` | advisor/pkg/network/standard_policy.go:48-98 | for all records, flows and lookups: Allow iff the subject is the target and some record of that direction has the flow's port, normalised protocol and peer; WouldDeny iff the subject is the target and none has |
| `Exactness.ListedDirections` | advisor/pkg/network/standard_policy.go:79-95 | the listed directions are those with an accepted record, and both when there is none at all |
| `Exactness.ObservedIsAllowed` | evaluator/pkg/matcher/matcher.go:125-202 | an accepted record's flow has an Allow result in the evaluator's list for the generated policy |
| `Exactness.AllowedWasObserved` | evaluator/pkg/matcher/matcher.go:125-202 | every Allow in that list comes from an accepted record and concerns the target |
| `Exactness.OrderAndRepetitionDoNotMatter` | advisor/pkg/network/standard_policy.go:236-243 | permuting or repeating the records leaves the whole generated manifest identical |
| `Exactness.CanonicalOrder` | advisor/pkg/network/standard_policy.go:227-296 | one rule per peer address in strictly ascending order, each with exactly the ports asked for that peer, strictly ascending |
| `Observation.FoldingIsSpelling` | advisor/pkg/network/types.go:136-144 | the direction is recognised in any mix of cases and, for ASCII texts, nothing else is |
| `Observation.WishMeaning` | advisor/pkg/network/standard_policy.go:144-216 | what a record asks for, exactly, from its fields |
| `Observation.SkippedIff` | advisor/pkg/network/standard_policy.go:160-208 | the records skipped: no peer, the pod itself, neither direction, or no numeral of 1..65535 in the direction's port column |
| `Observation.ObservedTrafficIsAllowed` | advisor/pkg/network/standard_policy.go:48-98 | for any traffic with a record of either direction, a peer other than the pod, a printed port in 1..65535 and TCP, UDP or SCTP: the result list for the generated policy has an Allow for every flow of the target with that port, protocol and peer |
| `Observation.AllowedTrafficWasObserved` | advisor/pkg/network/standard_policy.go:48-98 | every Allow in that list comes from such a record: same port, the protocol it stands for, and its peer |
| `Observation.DirectionsObserved` | advisor/pkg/network/standard_policy.go:79-95 | the policy applies in the directions some record was accepted in, and in both if none was accepted |
| `Observation.ManifestIdentity` | advisor/pkg/network/standard_policy.go:62-76 | name, namespace, labels and pod selector of the generated manifest |
| `Observation.PortOrder` | advisor/pkg/network/standard_policy.go:439-459 | the port order is by number, then by protocol, numbers before names |
| `Observation.StringLessMeaning` | advisor/pkg/network/standard_policy.go:289-296 | the string order is lexicographic: a proper prefix, or smaller at the first difference |
| `Promotion.ReadTexts` | advisor/cmd/audit_cluster.go:188-194 | values that are not texts are skipped, the others keep their order |
| `Promotion.ReadLabels` | advisor/cmd/audit_cluster.go:168-175 | the text entries of matchLabels, whatever the iteration order |
| `Promotion.ReadRequirements` | advisor/cmd/audit_cluster.go:176-198 | entries that are not objects are skipped, missing fields read as empty |
| `Promotion.UnstructuredToLabelSelector` | advisor/cmd/audit_cluster.go:166-200 | the typed selector of an untyped object |
| `Promotion.TextsByParts` | advisor/cmd/audit_cluster.go:188-194 | the values of two lists one after the other; what is no text is left out |
| `Promotion.RequirementsByParts` | advisor/cmd/audit_cluster.go:176-198 | the requirements of two lists one after the other; what is no object is left out |
| `Promotion.LabelsByPair` | advisor/cmd/audit_cluster.go:168-175 | exactly the pairs whose value is a text are kept |
| `Promotion.WrongKindsAreAbsent` | advisor/cmd/audit_cluster.go:166-200 | a field of the wrong kind reads as an absent one |
| `Promotion.SelectorEncode` | advisor/cmd/audit_cluster.go:166-200 | converting the stored form of any selector gives that selector back |
| `Promotion.DiscoverNamespaces` | advisor/cmd/audit_cluster.go:119-160 | the covered namespaces in listing order; the three error cases |
| `Promotion.DiscoveryFailsIff` | advisor/cmd/audit_cluster.go:119-142 | on any object: discovery fails iff spec or selector is there and no object, or the selector is malformed |
| `Promotion.CoveredMembers` | advisor/cmd/audit_cluster.go:144-158 | a namespace is covered iff one of that name is listed and the selector, if any, matches its labels |
| `Promotion.EachTargetOnce` | advisor/cmd/audit_cluster.go:144-158 | if each name is listed once, each target comes once |
| `Promotion.ListingOrder` | advisor/cmd/audit_cluster.go:144-158 | of two covered namespaces the one listed first is the earlier target |
| `Promotion.CleanAnnotations` | advisor/cmd/audit_cluster.go:244-254 | every annotation but the copy of the manifest that kubectl keeps |
| `Promotion.Expand` | advisor/cmd/audit_cluster.go:211-260 | one item per namespace with the spec less its namespace selector, the policy's name, its labels and its cleaned annotations; an error iff there is no spec |
| `Promotion.MarksEncode` | advisor/cmd/audit_cluster.go:221-222 | the labels and annotations read from a stored object are those stored |
| `Promotion.MetadataTextsByPair` | advisor/cmd/audit_cluster.go:221-222 | labels and annotations with nulls read as empty; if anything else is no text, none is read |
| `Promotion.ItemIsPromoted` | advisor/cmd/audit_cluster.go:211-260 | an expanded item is the stored form of a namespaced policy with the cluster policy's own spec, labels and annotations |
| `Promotion.DiscoveredOfStored` | advisor/cmd/audit_cluster.go:119-160 | for a stored cluster policy, discovery fails iff its selector is malformed and otherwise gives the covered namespaces |
| `Promotion.PromoteCluster` | advisor/cmd/audit_cluster.go:96-113 | for a stored cluster policy the command emits, for each covered namespace in order, the stored form of the promoted policy; it fails iff the selector is malformed |
| `Promotion.OtherNamespaceNeverApplies` | evaluator/pkg/matcher/matcher.go:139-161 | a promoted policy is NotApplicable to a subject of any other namespace |
| `Promotion.PromotionPreservesVerdict` | evaluator/pkg/matcher/matcher.go:18-115 | for the subject's namespace, cluster verdict and reason equal the promoted policy's when the namespace was discovered and NotApplicable otherwise, iff the namespace is known, or the policy has a namespace selector, or it does not select the pod |
| `Promotion.UnknownNamespaceDisagrees` | evaluator/pkg/matcher/matcher.go:34-55 | a concrete policy and pod outside that condition |
| `Promotion.PromotionPreservesResults` | evaluator/pkg/matcher/matcher.go:18-115 | over whole result lists: same directions in the same order, equal verdicts in the subject's namespace, NotApplicable elsewhere, and no applicable cluster result without a promoted policy for it |
| `Promotion.MalformedSelectorPromotesNothing` | advisor/cmd/audit_cluster.go:133-139 | a malformed namespace selector makes discovery fail and the evaluator apply the policy nowhere |
| `PolicyStore.IndexIsLatest` | evaluator/pkg/store/store.go:132-179 | after any events the index holds for each key exactly the policy of the latest event, or none after a delete; names stay unique, policies sit under their namespace, no namespace is kept empty |
| `PolicyStore.NextMembers` | evaluator/pkg/store/store.go:132-179 | one event changes the entry of its own key and no other |
| `PolicyStore.WithoutMembers` | evaluator/pkg/store/store.go:148-154 | removing a name removes its entries and nothing else, and keeps names unique |
| `PolicyStore.NextWellKept` | evaluator/pkg/store/store.go:132-179 | every event keeps the shape the server relies on |
| `PolicyStore.Rebuilt` | evaluator/pkg/store/store.go:146-155 | a set builds the list in a new backing array |
| `PolicyStore.CompactInPlace` | evaluator/pkg/store/store.go:167-173 | a delete compacts the list inside its own backing array, losing nothing but the name |
| `PolicyStore.Store.OnPolicyAddOrUpdate` | evaluator/pkg/store/store.go:132-156 | the store becomes the next index; no other namespace's backing array is shared |
| `PolicyStore.Store.OnPolicyDelete` | evaluator/pkg/store/store.go:158-179 | the same for a delete, with the emptied namespace removed |
| `PolicyStore.Store.OnClusterPolicyAddOrUpdate` | evaluator/pkg/store/store.go:240-259 | the same for cluster policies |
| `PolicyStore.Store.OnClusterPolicyDelete` | evaluator/pkg/store/store.go:261-276 | the same for cluster policies |
| `PolicyStore.Store.PoliciesInNamespace` | evaluator/pkg/store/store.go:215-225 | a snapshot in an array of its own with the current list |
| `PolicyStore.Store.ClusterPolicies` | evaluator/pkg/store/store.go:229-238 | the same for cluster policies |
| `PolicyStore.HandleAll` | evaluator/pkg/store/store.go:132-179 | a sequence of events takes the store to the index those events define |
| `PolicyStore.SnapshotSurvives` | evaluator/pkg/store/store.go:215-225 | a snapshot returned earlier is unchanged by any later events, in-place deletes included |
| `Server.Evaluator.HandleEvaluate` | evaluator/pkg/server/server.go:129-182 | the results of the selected namespaced policies and all cluster policies, in order; each policy's counters gain a flow evaluated per applicable result of it, a denial per denied one, and the flow's tuple as often as it was denied; the denied counter grows by the number of denials, and by as many denials recorded |
| `Server.Evaluator.RecordResults` | evaluator/pkg/server/server.go:154-182 | results that do not apply are not recorded |
| `Server.EveryObservation` | evaluator/pkg/server/server.go:154-167 | every observation is of an applicable result: policy, generation, both pods, protocol, port, direction, and denied iff the result is |
| `Server.ObservationCounts` | evaluator/pkg/server/server.go:154-167 | per policy, as many observations as applicable results, as many denied as denials, and each tuple as often as denied |
| `Server.CountersGain` | evaluator/pkg/server/server.go:154-167 | the same of the counters of any history the results are added to |
| `Server.DenialsRecorded` | evaluator/pkg/server/server.go:159-170 | as many observations are denials as the server counts |
| `Server.SilentPolicy` | evaluator/pkg/matcher/matcher.go:139-161 | a policy of a namespace that is neither end of the flow has no applicable result |
| `Server.IndexLosesNoVerdict` | evaluator/pkg/server/server.go:129-150 | the multiset of applicable results equals that of evaluating every stored policy of every namespace and every cluster policy |
| `Server.NoPolicyTwice` | evaluator/pkg/server/server.go:129-133 | no policy is evaluated twice |
| `TopOffenders.RanksBeforeTotal` | evaluator/pkg/status/aggregator.go:277-297 | the six-field order is a strict total order on distinct counted tuples |
| `TopOffenders.FirstDifferenceDecides` | evaluator/pkg/status/aggregator.go:277-297 | count descending, then source, destination, port, protocol, direction ascending: the first field that differs decides |
| `TopOffenders.ComputeTopOffenders` | evaluator/pkg/status/aggregator.go:267-312 | whatever the map's iteration order, the first n in rank order |
| `TopOffenders.TopIsTop` | evaluator/pkg/status/aggregator.go:267-312 | min(n, number of tuples) counters, strictly sorted, every omitted one ranks strictly below every returned one |
| `TopOffenders.TopIsUnique` | evaluator/pkg/status/aggregator.go:267-312 | only one list has those properties |
| `Aggregator.SummaryIsExact` | evaluator/pkg/status/aggregator.go:95-125 | counters of any observations: number evaluated, number denied, exact multiplicity of each denied tuple and no other tuple, highest generation seen |
| `Aggregator.DeniesAreTupleTotal` | evaluator/pkg/status/aggregator.go:114-124 | the denials counted equal the sum of the tuple counters |
| `Aggregator.RecordedPerPolicy` | evaluator/pkg/status/aggregator.go:95-125 | recording adds to each policy's history its own observations in order and no others |
| `Aggregator.CountersGrow` | evaluator/pkg/status/aggregator.go:95-125 | all counters only grow with a history |
| `Aggregator.Aggregator.Record` | evaluator/pkg/status/aggregator.go:95-125 | one observation is added to the history of its own policy, every entry still summarises its history |
| `Aggregator.Aggregator.TakeSnapshot` | evaluator/pkg/status/aggregator.go:147-165 | the snapshot is a copy in new objects |
| `Aggregator.Aggregator.PatchAll` | evaluator/pkg/status/aggregator.go:183-219 | patches in turn with verdicts recorded in between: published statuses come from the snapshot, an entry is evicted iff its policy is gone, a cancellation ends the loop |
| `Aggregator.Aggregator.Flush` | evaluator/pkg/status/aggregator.go:146-220 | snapshot, keys in order, patches: as the flush function says |
| `Aggregator.PublishedIsSnapshot` | evaluator/pkg/status/aggregator.go:146-220 | whatever is recorded meanwhile, each published status is that of the snapshot, in key order, at most once per policy, and exactly for the successful patches unless cancelled |
| `Aggregator.StatusIsExact` | evaluator/pkg/status/aggregator.go:226-235 | a published status has the number of observations, of denials, and the highest generation |
| `Aggregator.OffendersAreExact` | evaluator/pkg/status/aggregator.go:226-235 | published offenders carry the exact number of their denials, and no denied tuple left out has more |
| `Aggregator.KeyOrder` | evaluator/pkg/status/aggregator.go:176-181 | policies are published by namespace, then by name |
| `Aggregator.OthersSurvive` | evaluator/pkg/status/aggregator.go:183-219 | an entry whose policy is not found missing keeps its history through a flush and gains exactly what is recorded meanwhile |
| `Aggregator.EvictedStartsAgain` | evaluator/pkg/status/aggregator.go:199-213 | an entry whose policy is found missing starts again from nothing, with what is recorded after its patch |
| `TrafficTable.Table.CreatePodTrafficBatch` | broker/src/add.rs:88-154 | the table gains the new events of the batch or, if an identifier is repeated, nothing |
| `TrafficTable.NewEventsMembers` | broker/src/add.rs:112-134 | rows inserted by one call have pairwise distinct content keys and match no earlier row |
| `TrafficTable.NewEventsComplete` | broker/src/add.rs:112-134 | every event without a matching row is inserted, itself or by its content |
| `TrafficTable.CommittedIsKnown` | broker/src/add.rs:157-207 | after a commit an event of the batch has a matching row iff its columns are present |
| `TrafficTable.StoredByContentIff` | broker/src/add.rs:62-86 | an event of a committed batch is stored with its content iff the content was there before or no row matched it |
| `TrafficTable.UnseenFlowIsStored` | broker/src/add.rs:157-207 | in columns: an event of a committed batch that no earlier row agrees with on pod address, direction, peer address, decision and ports is stored with all seven content columns |
| `TrafficTable.SeenFlowInsertsNothing` | broker/src/add.rs:157-207 | in columns: an event with all columns inserts nothing iff some row agrees with it, for UDP on one of the ports |
| `TrafficTable.AbsentColumnNeverMatches` | broker/src/add.rs:157-207 | an event without a column that is filtered on is inserted whatever the rows |
| `TrafficTable.KeyIsContent` | broker/src/add.rs:76-86 | content keys are equal iff the seven columns are |
| `TrafficTable.SecondUdpFlowIsNotStored` | broker/src/add.rs:168-179 | DNS then NTP from a pod to one address, as the controller reports them: the second is taken for the first |
| `TrafficTable.UndecidedRecordIsStoredTwice` | broker/src/add.rs:198-206 | an event without a decision, sent again, is stored again |
| `TrafficTable.ResendInsertsNothing` | broker/src/add.rs:88-154 | resending any populated events of a committed batch inserts nothing |
| `TrafficTable.CommitKeepsNoDuplicates` | broker/src/add.rs:88-154 | no call makes two populated rows with one content |
| `TrafficTable.NoDuplicatesInColumns` | broker/src/add.rs:62-86 | in columns: no two rows, the first with all columns, agree on all of them |
| `TrafficTable.NeverStoredTwice` | broker/src/add.rs:88-154 | neither does any sequence of calls, and no row is ever lost |
| `Batcher.NetworkBatcher.CapBatch` | controller/src/network.rs:169-176 | the oldest entries beyond the cap are dropped and counted |
| `Batcher.NetworkBatcher.FlushNetworkBatch` | controller/src/network.rs:178-208 | a flush reaches the state the pipeline's flush function gives; Turn and TurnStores say what that is |
| `Batcher.NetworkBatcher.HandleNetworkEvents` | controller/src/network.rs:80-135 | the loop over any inputs reaches the state of the pipeline's run |
| `Batcher.RunConserves` | controller/src/network.rs:80-208 | in every run the pending records are the contiguous last ones accepted, at most 1000 at each loop head |
| `Batcher.Turn` | controller/src/network.rs:80-208 | one turn of any run: it sends iff something is pending and the time is up, the channel closed, 100 are pending or 1000 ms have passed; if the POST is answered everything pending is delivered and nothing stays pending; if not, the last 1000 stay and the older are dropped; if it does not send, all stays |
| `Batcher.TurnStores` | controller/src/network.rs:178-208 | a lost POST leaves the table as it was; any other makes every pending record recognised there |
| `Batcher.NothingLostOrInvented` | controller/src/network.rs:80-208 | accepted = delivered + dropped + pending, as multisets |
| `Batcher.DroppedOnlyOnOverflow` | controller/src/network.rs:164-208 | a record is dropped only when the 1000 newest accepted records, all after it, are pending |
| `Batcher.FatesAreFinal` | controller/src/network.rs:178-208 | fates are given in order of arrival and never change |
| `Batcher.NeverCollides` | broker/src/add.rs:143-152 | a resent record never collides with its own row, whatever happened to earlier POSTs |
| `Batcher.DeliveredIsStored` | controller/src/network.rs:178-208 | in every run each delivered record has a matching row, the table gains accepted records only, and the broker never refuses a batch |
| `Batcher.RunNeverStoresTwice` | broker/src/add.rs:88-154 | in every run, with lost and unanswered POSTs retried, no record is stored twice |
| `AuditQueue.AuditClient.TryEnqueue` | broker/src/audit.rs:319-331 | never blocks; a flow is queued, or shed and counted if the queue is full |
| `AuditQueue.AuditClient.ReceiveAndSpawn` | broker/src/audit.rs:246-254 | the front flow goes to a worker that takes the permit |
| `AuditQueue.AuditClient.WorkerDone` | broker/src/audit.rs:251-254 | the worker's permit is given back |
| `AuditQueue.EveryRunConserves` | broker/src/audit.rs:239-257 | in every interleaving: permits available + held + running = configured; attempted = shed + queued + running + finished; dispatch is first in, first out; the queue never exceeds its capacity |
| `AuditQueue.ShedExactlyWhenFull` | broker/src/audit.rs:319-331 | a flow is shed iff it is offered to a full queue |
| `AuditQueue.NeverStuck` | broker/src/audit.rs:239-257 | with a permit configured, a waiting flow can always make progress |
| `AuditQueue.EverythingCanFinish` | broker/src/audit.rs:239-257 | from every reachable state, without new flows, the queue can be worked off: every flow attempted is then finished or was shed, and the permits are back |
| `AuditQueue.WorkersCanFillPermits` | broker/src/audit.rs:239-257 | any number of workers up to the permits can run at once |
| `AuditQueue.HeadroomIff` | broker/src/main.rs:64-79 | at least 8 connections stay outside the audit path in every reachable state iff permits + 8 fits 32 bits or the settings are beyond what the broker starts with |
| `AuditQueue.PoolIsLeast` | broker/src/main.rs:77-79 | the pool is the least size that is the one configured or more, and 8 more than the permits while 32 bits hold it |
| `AuditQueue.SettingsRead` | broker/src/main.rs:66-72 | both readers of the setting: the number, at least 1; 16 if it is absent or too wide |
| `AuditQueue.LargestSettingLeavesNoRoom` | broker/src/main.rs:66-79 | with the largest 32-bit setting a reachable state holds every connection |
| `AuditFlow.SameReading` | broker/src/audit.rs:189-233 | audit flow and generator read the same direction, port and peer address from an accepted record |
| `AuditFlow.FlowOfRecord` | broker/src/audit.rs:189-233 | there is a flow iff the record says INGRESS or EGRESS in any case, white space around it or not; which end is the pod, and which columns are read |
| `AuditFlow.PortOfText` | broker/src/audit.rs:220 | the port is the integer the text writes, if 32 bits hold it, and otherwise 0 |
| `AuditFlow.AcceptedIsAuditedIff` | broker/src/audit.rs:190-218 | a record the generator accepts has a flow iff its direction has no long s |
| `AuditFlow.NoPeerIdentity` | broker/src/audit.rs:196-213 | the audit flow never identifies the peer pod |
| `AuditFlow.OwnTrafficAllowedIff` | broker/src/audit.rs:189-233 | the generated policy allows the audit flow of its own record iff the subject is the target, the peer resolved to no labels and is an address, and the protocol is TCP, UDP or SCTP |
| `AuditFlow.LabelledClientIsDenied` | broker/src/audit.rs:196-213 | a concrete record, admitted by the peer's labels, whose audit reports a denial |
| `Syscalls.SyscallTable.CreatePodSyscalls` | broker/src/add.rs:489-546 | the transaction stores all entries or none; blank names are skipped, rows of the same pod replaced, a clash of the primary key fails it |
| `Syscalls.SyscallTable.GetPodSysCall` | advisor/pkg/api/pod_syscall.go:60 | the reader splits the stored column at commas |
| `Syscalls.StoreAllEffect` | broker/src/add.rs:495-544 | a batch of distinct pods is committed iff no entry clashes with a row of another namespace or architecture; then each named pod has the row of its entry and all other rows are as before |
| `Syscalls.StoredOfEntry` | advisor/pkg/api/pod_syscall.go:60 | a reader of the row of an entry gets exactly its names |
| `Syscalls.NamedPodIsStored` | broker/src/add.rs:507-533 | the entry of a new pod whose name has a letter, digit, dash or dot is stored and its reader gets the names it carries |
| `Syscalls.BlankPodIsSkipped` | broker/src/add.rs:507-514 | the entry of a name of spaces and tabs changes nothing |
| `Text.SplitJoin` | advisor/pkg/api/pod_syscall.go:60 | splitting undoes joining iff the list is not empty and its names are comma-free |
| `Text.JoinSplit` | advisor/pkg/api/pod_syscall.go:60 | joining undoes splitting for every text |
| `Syscalls.SyscallSync.ProcessSyscallEvent` | controller/src/syscall.rs:48-82 | the name is added to the pod's set |
| `Syscalls.CacheIsObserved` | controller/src/syscall.rs:48-82 | in every interleaving the cache holds exactly the names observed per pod |
| `Syscalls.SyscallSync.CollectPod` | controller/src/syscall.rs:99-121 | a snapshot of exactly the cached set is added to the batch iff it differs from what was last sent |
| `Syscalls.SyscallSync.CollectAll` | controller/src/syscall.rs:99-121 | the batch has exactly one entry for each pod that differs, with its whole cached set; it is empty iff no pod differs |
| `Syscalls.Pass` | controller/src/syscall.rs:87-153 | after a pass that sends nothing, or one whose POST is answered, no pod differs, and a reader gets exactly the names seen for a pod iff it has a name or none was seen; a pass sends iff some pod differs |
| `Syscalls.SyscallSync.PostConcludes` | controller/src/syscall.rs:123-150 | the snapshots become last sent iff the POST is believed to have succeeded |
| `Syscalls.SyncInvariant` | controller/src/syscall.rs:84-155 | in every interleaving, for every pod with a name, last sent is within the broker's row, which is within the cache |
| `Syscalls.NeverRegresses` | controller/src/syscall.rs:84-155 | no step takes a name out of a stored row |
| `Syscalls.NoDifferenceMeansStored` | controller/src/syscall.rs:108 | in every interleaving, when cache and last sent agree, a reader gets exactly the names seen iff the pod has a name or none was seen |
| `Syscalls.OrderedIff` | controller/src/syscall.rs:84-155 | last sent lies within the row and the row within the cache iff the pod has a name or nothing is marked as sent |
| `Syscalls.CommitAlwaysPossible` | broker/src/add.rs:489-546 | the broker never rejects the controller's batch |
| `Syscalls.BlankNameIsMarkedButNotStored` | broker/src/add.rs:507-514 | a run after which a blank pod name is marked sent and not stored |
| `Sse.Response.EmitEvent` | llm-bridge/src/index.ts:176-178 | an event is written as an event line, a data line and a blank line |
| `Sse.Response.Ping` | llm-bridge/src/index.ts:189-191 | a heartbeat is written as a comment frame |
| `Sse.Dispatch` | frontend/src/services/aiApi.ts:85-121 | the data lines are joined and parsed; empty or unreadable data is ignored, a null value throws |
| `Sse.Drain` | frontend/src/services/aiApi.ts:128-132 | the inner loop dispatches exactly the complete frames and leaves the rest |
| `Sse.FramesExtend` | frontend/src/services/aiApi.ts:124-133 | frames found so far stand when more text arrives; only the rest is looked at again |
| `Sse.StreamChat` | frontend/src/services/aiApi.ts:123-137 | the callbacks depend on the joined text only, not on its split into chunks |
| `SseRoundTrip.DispatchBody` | frontend/src/services/aiApi.ts:85-121 | a written event dispatches as itself, a heartbeat as nothing |
| `SseRoundTrip.StandardReading` | llm-bridge/src/index.ts:176-191 | a reader that follows section 9.2.6 of the WHATWG HTML standard gets each event with its type and its JSON text, and nothing from a heartbeat |
| `SseRoundTrip.DispatchCut` | frontend/src/services/aiApi.ts:134 | a frame cut anywhere is ignored or dispatches as the whole |
| `SseRoundTrip.PrintThenParse` | llm-bridge/src/index.ts:176-191 | parsing what was printed gives exactly the events, in order, heartbeats notwithstanding, for any JSON codec |
| `SseRoundTrip.CutStreamGivesPrefix` | frontend/src/services/aiApi.ts:123-137 | cut at any character, the stream gives the events of the first k writes, where k is those that fit before the cut, give or take one whose line ends are missing |
| `Json.ReadEscaped` | llm-bridge/src/index.ts:177 | reading undoes escaping of any string, whatever follows its closing quote |
| `Json.PrintParse` | llm-bridge/src/index.ts:177 | parsing the printed text of any JSON value gives the value back |
| `Json.ValueExtends` | frontend/src/services/aiApi.ts:93-98 | what the reader reads it reads again from any longer text, unless it was a number at the very end |
| `Json.CutIsUnreadable` | frontend/src/services/aiApi.ts:93-98 | no proper prefix of the text of an object, array or string parses |
| `Json.BlanksAreIgnored` | frontend/src/services/aiApi.ts:93-98 | white space around a value is ignored |
| `Json.TrailingTextIsAnError` | frontend/src/services/aiApi.ts:93-98 | any other text after a value is an error |
| `Json.NumbersRead` | frontend/src/services/aiApi.ts:93-98 | every number of the grammar is read as written |
| `Json.UnitEscapes` | frontend/src/services/aiApi.ts:93-98 | four hexadecimal digits are read as the character they number |
| `ChatJson.SwitchFindsEvent` | frontend/src/services/aiApi.ts:100-121 | the switch on the parsed event makes the callback of the event with its fields |
| `ChatJson.ChatJsonIsJson` | llm-bridge/src/providers/anthropic.ts:27-33 | the texts of the chat events are newline-free, read back, and are unreadable when cut, as the stream results ask of a codec |
| `Sse.Response.WriteAll` | llm-bridge/src/index.ts:176-191 | the response holds the printed events and heartbeats, in order |
| `ChatStream.Chat` | frontend/src/services/aiApi.ts:123-137 | from the printing code through any network that keeps the text: for any events, heartbeats and chunks the page gets exactly the events, in order |
| `ChatStream.BrokenChat` | frontend/src/services/aiApi.ts:123-137 | when the connection ends early, a prefix of them |
| `SynTracker.Probes.TraceTcpRetransmit` | controller/src/bpf/netpolicy_drop.bpf.c:59-138 | the entry and the emitted event as the step says, a full ring buffer included |
| `SynTracker.Probes.TraceTcpConnect` | controller/src/bpf/netpolicy_drop.bpf.c:141-180 | a connect starts the entry afresh |
| `SynTracker.Probes.TraceTcpStateChange` | controller/src/bpf/netpolicy_drop.bpf.c:183-217 | an existing entry is marked established |
| `SynTracker.Probes.TraceUdpSend` | controller/src/bpf/netpolicy_drop.bpf.c:220-269 | a UDP entry is counted under its own key |
| `SynTracker.EntryFromHistory` | controller/src/bpf/netpolicy_drop.bpf.c:59-217 | an entry's 32-bit count and mark follow from the steps since the last reset, for every trace |
| `SynTracker.ReportedExactlyWhen` | controller/src/bpf/netpolicy_drop.bpf.c:104-133 | a drop is reported iff the step is a retransmission with room in the buffer, the count has reached four, and there was no report or established mark since the reset |
| `SynTracker.ReportIsSafe` | controller/src/bpf/netpolicy_drop.bpf.c:104-133 | between two resets at most one report, never after an entry was marked established, only after at least three retransmissions, with a count of at least four |
| `SynTracker.ReportsAreSeparated` | controller/src/bpf/netpolicy_drop.bpf.c:131-132 | two reports of a connection have a connect or an eviction between them |
| `SynTracker.UdpIsCountedOnly` | controller/src/bpf/netpolicy_drop.bpf.c:220-269 | a UDP peer is counted from its last eviction, in 32 bits, and never reported |

## Left out

- HTTP, watch connections, informers, SQL execution, eBPF loading and every clock: they appear as inputs, event sequences or outcomes; elapsed time is a parameter of the batcher's loop.
- Timestamps, generated identifiers, logs and metrics, in every model. A record's uuid is kept, because it is the table's primary key.
- Ipv4.ParsePrint: only dotted decimal texts; the library also reads an IPv4-mapped IPv6 text as the same address.
- Semantics.HostBlockAdmits: the same restriction; an IPv4-mapped IPv6 text of the one address is admitted by the program too.
- Matcher.IpBlockMatches: IPv6 addresses and blocks count as unreadable.
- Lone surrogates in JSON strings, which read as U+FFFD and are never printed; the byte decoding before the stream parser; read errors and aborts of the stream.
- The Cilium generator, the generators of the web interface and the unused advisor/pkg/k8s/networkpolicies.go: near copies, or outside any path.
- The broker's answers to address lookups are fixed functions during one generation.
- The sort calls of the Go library are one correct sort; Ordering.SortedUnique shows that any correct sort gives the same list here.
- The server-side filter of the namespace listing: Promotion.SameSnapshot says that the listing agrees with the evaluator's cache and drops no matching namespace.
- Rule lists and policy types are carried as typed values through promotion, which never looks inside them; the output printing of promoted items and naming target namespaces by hand are not modelled.
- Counter widths of the aggregator (int64) and of ports (int32) are unbounded; the SYN counter and the pool arithmetic have their 32 bits.
- Two CPUs updating one SYN entry at the same instant; probe firings that the address or state filters discard are steps that do not occur.
- Eviction from the controller's caches, several architectures, rows left by an earlier controller, and a commit that lands after the controller gave up on its POST and sent again: the syscall protocol assumes a POST is over when its outcome is concluded.
- The cache that suppresses repeated traffic events, and the conversion of raw events: an event that is filtered out arrives as none.
- The policy drop handler, which runs the same batching code with another timeout.
- A disabled audit client, which ignores every flow, and the shutdown of the queue; the persistence of verdicts.
- Environment parsing and clamps other than the permits setting, retention pruning, authentication, the user interface.
