/** `normalize_plan` of agent.py: the plan is re-indexed by id, standard
    lanes, groups and components are added when the goal mentions them,
    known components are moved to their lane, and one IAS sign-on edge may
    be added.  Dictionaries are `Dict`s, so their insertion order is the
    order of the lists the plan gets back. */
module Normalize {
  import opened Wrappers
  import opened Text
  import opened Dicts
  import opened Plans
  import opened Document

  // ---------------------------------------------------------------------
  // Indexing by id

  /** A dictionary keyed by the non-empty key each of its values carries. */
  predicate Indexed<V>(d: Dict<string, V>, key: V -> string) {
    KeysUnique(d) && forall i :: 0 <= i < |d| ==> d[i].0 != "" && key(d[i].1) == d[i].0
  }

  /** `{x.get("id"): x for x in xs if x.get("id")}`: a later value with the
      same id replaces an earlier one in its place. */
  function Index<V(==)>(xs: seq<V>, key: V -> string): (d: Dict<string, V>)
    ensures Indexed(d, key)
    ensures forall i :: 0 <= i < |d| ==> d[i].1 in xs
    ensures forall i :: 0 <= i < |xs| && key(xs[i]) != "" ==> HasKey(d, key(xs[i]))
  {
    var ys := Filter(xs, v => key(v) != "");
    var d := FromSeq(ys, key);
    assert forall i :: 0 <= i < |d| ==> d[i].0 != "" by {
      forall i | 0 <= i < |d| ensures d[i].0 != "" {
        assert d[i].1 in ys;
      }
    }
    d
  }

  /** Indexing a dictionary's own values gives the dictionary back. */
  lemma IndexValues<V>(d: Dict<string, V>, key: V -> string)
    requires Indexed(d, key)
    ensures Index(Values(d), key) == d
  {
    var vs := Values(d);
    FilterAll(vs, v => key(v) != "");
    FromSeqValues(d, key);
  }

  function GroupKey(g: Group): string { g.id.GetOr("") }

  function NodeKey(n: Node): string { n.id.GetOr("") }

  /** A list of groups or nodes holding one whose id is `k`. */
  predicate Carries<V>(vs: seq<V>, key: V -> string, k: string) {
    exists i :: 0 <= i < |vs| && key(vs[i]) == k
  }

  /** The ids present after indexing are the non-empty ids of the list. */
  lemma IndexKeys<V>(xs: seq<V>, key: V -> string, k: string)
    ensures HasKey(Index(xs, key), k) <==> k != "" && Carries(xs, key, k)
  {
    var d := Index(xs, key);
    if HasKey(d, k) {
      var i :| 0 <= i < |d| && d[i].0 == k;
      var j :| 0 <= j < |xs| && xs[j] == d[i].1;
      assert key(xs[j]) == k;
    }
    if k != "" && Carries(xs, key, k) {
      var j :| 0 <= j < |xs| && key(xs[j]) == k;
    }
  }

  /** The values of an indexed dictionary carry exactly its keys. */
  lemma ValuesCarry<V>(d: Dict<string, V>, key: V -> string, k: string)
    requires Indexed(d, key)
    ensures Carries(Values(d), key, k) <==> HasKey(d, k)
  {
    var vs := Values(d);
    if Carries(vs, key, k) {
      var i :| 0 <= i < |vs| && key(vs[i]) == k;
      assert d[i].0 == k;
    }
    if HasKey(d, k) {
      var i :| 0 <= i < |d| && d[i].0 == k;
      assert key(vs[i]) == k;
    }
  }

  /** Adding a value under its own non-empty key keeps a dictionary indexed. */
  lemma SetDefaultIndexed<V>(d: Dict<string, V>, key: V -> string, v: V)
    requires Indexed(d, key) && key(v) != ""
    ensures Indexed(SetDefault(d, key(v), v), key)
  {
  }

  // ---------------------------------------------------------------------
  // Goal keywords

  /** `any(kw in goal_lower for kw in words)`. */
  predicate AnyIn(gl: string, words: seq<string>) {
    exists i :: 0 <= i < |words| && Contains(gl, words[i])
  }

  const HybridWords: seq<string> := ["hybrid", "on-prem", "on premise"]
  const SecurityWords: seq<string> := ["security", "secure", "zero trust"]
  const PartnerWords: seq<string> := ["partner", "third party", "external"]
  const EventWords: seq<string> := ["event", "async", "message"]
  const ApiWords: seq<string> := ["api", "rest", "gateway"]
  const MonitorWord := "monitor"

  // ---------------------------------------------------------------------
  // Groups

  const Btp := "BTP"

  const BtpGroup := Group(Some(Btp), Some("SAP BTP"), Some("Platform & Security"), Some("dashed"))
  const OnPremGroup := Group(Some("OnPrem"), Some("On-Premise"), Some("Application"), Some("solid"))
  const SecurityGroup := Group(Some("SecurityZone"), Some("Security Boundary"), Some("Platform & Security"), Some("dashed"))
  const PartnerGroup := Group(Some("PartnerZone"), Some("Partner Integration Zone"), Some("Integration"), Some("dashed"))

  /** `ensure_group`: add the group under its id unless the id is taken. */
  function EnsureGroup(d: Dict<string, Group>, g: Group): Dict<string, Group> {
    SetDefault(d, GroupKey(g), g)
  }

  /** The groups after the goal-triggered additions. */
  function ContextGroups(gl: string, d: Dict<string, Group>): Dict<string, Group> {
    var d1 := EnsureGroup(d, BtpGroup);
    var d2 := EnsureGroupIf(AnyIn(gl, HybridWords), d1, OnPremGroup);
    var d3 := EnsureGroupIf(AnyIn(gl, SecurityWords), d2, SecurityGroup);
    EnsureGroupIf(AnyIn(gl, PartnerWords), d3, PartnerGroup)
  }

  function EnsureGroupIf(b: bool, d: Dict<string, Group>, g: Group): Dict<string, Group> {
    if b then EnsureGroup(d, g) else d
  }

  function NormalGroups(gl: string, gs: seq<Group>): Dict<string, Group> {
    ContextGroups(gl, Index(gs, GroupKey))
  }

  // ---------------------------------------------------------------------
  // Nodes

  /** A component added by `ensure_node`: always in group BTP, without scope. */
  function ContextNode(nid: string, name: string, lane: string, kind: string): Node {
    Node(Some(nid), Some(name), Some(lane), Some(kind), Some(Btp), None)
  }

  const EventMeshNode := ContextNode("EventMesh", "Event Mesh", "Integration", "integration")
  const ApimNode := ContextNode("APIM", "API Management", "Integration", "integration")
  const MonitoringNode := ContextNode("Monitoring", "Cloud ALM", "Platform & Security", "service")

  /** `ensure_node`: add the component under its id unless the id is taken. */
  function EnsureNode(d: Dict<string, Node>, n: Node): Dict<string, Node> {
    SetDefault(d, NodeKey(n), n)
  }

  /** The nodes after the goal-triggered additions. */
  function ContextNodes(gl: string, d: Dict<string, Node>): Dict<string, Node> {
    var d1 := EnsureNodeIf(AnyIn(gl, EventWords), d, EventMeshNode);
    var d2 := EnsureNodeIf(AnyIn(gl, ApiWords), d1, ApimNode);
    EnsureNodeIf(Contains(gl, MonitorWord), d2, MonitoringNode)
  }

  function EnsureNodeIf(b: bool, d: Dict<string, Node>, n: Node): Dict<string, Node> {
    if b then EnsureNode(d, n) else d
  }

  /** One entry of `lane_corrections`: the node id, its lane and its default group. */
  datatype Correction = Correction(nid: string, lane: string, group: string)

  const LaneCorrections: seq<Correction> := [
    Correction("IntegrationSuite", "Integration", Btp),
    Correction("Integration Suite", "Integration", Btp),
    Correction("IAS", "Platform & Security", Btp),
    Correction("XSUAA", "Platform & Security", Btp),
    Correction("CloudConnector", "Platform & Security", Btp)
  ]

  /** The lane is set; a missing or empty group becomes the default group. */
  function CorrectNode(n: Node, c: Correction): Node {
    n.(lane := Some(c.lane), group := if Truthy(n.group) then n.group else Some(c.group))
  }

  /** One round of the corrections loop: only a node that is present changes. */
  function CorrectStep(d: Dict<string, Node>, c: Correction): Dict<string, Node> {
    match Get(d, c.nid)
    case None => d
    case Some(n) => Put(d, c.nid, CorrectNode(n, c))
  }

  function Corrected(d: Dict<string, Node>, cs: seq<Correction>): Dict<string, Node> {
    if |cs| == 0 then d else CorrectStep(Corrected(d, cs[..|cs| - 1]), cs[|cs| - 1])
  }

  /** No node id appears twice in a corrections table. */
  predicate DistinctNids(cs: seq<Correction>) {
    forall i, j :: 0 <= i < j < |cs| ==> cs[i].nid != cs[j].nid
  }

  /** The table entry for node id `k`, if any. */
  function CorrectionFor(k: string, cs: seq<Correction>): (r: Option<Correction>)
    ensures r.Some? ==> r.value in cs && r.value.nid == k
    ensures r.None? ==> forall j :: 0 <= j < |cs| ==> cs[j].nid != k
  {
    if |cs| == 0 then None
    else if cs[|cs| - 1].nid == k then Some(cs[|cs| - 1])
    else CorrectionFor(k, cs[..|cs| - 1])
  }

  function Corrections(n: Node, c: Option<Correction>): Node {
    match c
    case None => n
    case Some(c) => CorrectNode(n, c)
  }

  /** The nodes before the lane corrections. */
  function Contextual(gl: string, ns: seq<Node>): Dict<string, Node> {
    ContextNodes(gl, Index(ns, NodeKey))
  }

  function NormalNodes(gl: string, ns: seq<Node>): Dict<string, Node> {
    Corrected(Contextual(gl, ns), LaneCorrections)
  }

  // ---------------------------------------------------------------------
  // Edges

  const Ias := "IAS"
  const IasLabel := "OAuth2/SAML"

  /** `(e.get("from"), e.get("to"), e.get("label", ""))`. */
  function EdgeTriple(e: Edge): (Option<string>, Option<string>, string) {
    (e.from, e.to, e.labelText.GetOr(""))
  }

  /** `edge_set`. */
  function TripleSet(es: seq<Edge>): set<(Option<string>, Option<string>, string)> {
    set e | e in es :: EdgeTriple(e)
  }

  /** `add_edge`: a new triple between two known nodes is appended. */
  function AddEdge(es: seq<Edge>, nodes: Dict<string, Node>, src: string, tgt: string, lbl: string): seq<Edge> {
    if (Some(src), Some(tgt), lbl) !in TripleSet(es) && HasKey(nodes, src) && HasKey(nodes, tgt)
    then es + [Edge(Some(src), Some(tgt), Some(lbl))]
    else es
  }

  /** A node the IAS edge may point to: an app or service other than IAS
      (its id is its key in the node dictionary). */
  predicate IsTarget(n: Node) {
    (n.kind == Some("app") || n.kind == Some("service")) && n.id != Some(Ias)
  }

  /** The first target at or after position `i`. */
  function FirstTargetFrom(d: Dict<string, Node>, i: nat): (r: Option<string>)
    requires i <= |d|
    ensures r.None? <==> forall j :: i <= j < |d| ==> !IsTarget(d[j].1)
    ensures r.Some? ==> exists j :: i <= j < |d| && d[j].0 == r.value && IsTarget(d[j].1) &&
                                   (forall j' :: i <= j' < j ==> !IsTarget(d[j'].1))
    decreases |d| - i
  {
    if i == |d| then None
    else if IsTarget(d[i].1) then Some(d[i].0)
    else FirstTargetFrom(d, i + 1)
  }

  /** The edges after the IAS pattern. */
  function IasLinked(es: seq<Edge>, nodes: Dict<string, Node>): seq<Edge> {
    if !HasKey(nodes, Ias) then es
    else
      match FirstTargetFrom(nodes, 0)
      case None => es
      case Some(t) => AddEdge(es, nodes, Ias, t, IasLabel)
  }

  // ---------------------------------------------------------------------
  // The whole normalisation

  /** `normalize_plan(user_goal, plan)`. */
  function Normalize(goal: string, p: Plan): Plan {
    var gl := Lower(goal);
    var nodes := NormalNodes(gl, p.nodes);
    Plan(p.title, LanesOrDefault(p.lanes), Values(NormalGroups(gl, p.groups)), Values(nodes),
         IasLinked(p.edges, nodes), if p.legend.Some? then p.legend else Some(true))
  }

  // ---------------------------------------------------------------------
  // Groups: facts

  /** One conditional `ensure_group`: the old entries stay in place, the group
      is added under its id only when asked for and absent, and a repeat of
      the same step changes nothing. */
  lemma EnsureGroupIfFacts(b: bool, d: Dict<string, Group>, g: Group, k: string)
    requires Indexed(d, GroupKey) && GroupKey(g) != ""
    ensures var r := EnsureGroupIf(b, d, g);
      Indexed(r, GroupKey) && d <= r
      && (HasKey(r, k) <==> HasKey(d, k) || (b && k == GroupKey(g)))
      && (forall i :: |d| <= i < |r| ==> r[i].1 == g)
      && EnsureGroupIf(b, r, g) == r
  {
    SetDefaultIndexed(d, GroupKey, g);
    SetDefaultKeys(d, GroupKey(g), g, k);
  }

  /** The ids after the context groups: the old ones, BTP, and each other
      context group whose keywords the goal names. */
  lemma ContextGroupsKeys(gl: string, d: Dict<string, Group>, k: string)
    requires Indexed(d, GroupKey)
    ensures Indexed(ContextGroups(gl, d), GroupKey)
    ensures HasKey(ContextGroups(gl, d), k) <==>
      (HasKey(d, k) || k == Btp
       || (AnyIn(gl, HybridWords) && k == "OnPrem")
       || (AnyIn(gl, SecurityWords) && k == "SecurityZone")
       || (AnyIn(gl, PartnerWords) && k == "PartnerZone"))
  {
    var d1 := EnsureGroup(d, BtpGroup);
    var d2 := EnsureGroupIf(AnyIn(gl, HybridWords), d1, OnPremGroup);
    var d3 := EnsureGroupIf(AnyIn(gl, SecurityWords), d2, SecurityGroup);
    EnsureGroupIfFacts(true, d, BtpGroup, k);
    EnsureGroupIfFacts(AnyIn(gl, HybridWords), d1, OnPremGroup, k);
    EnsureGroupIfFacts(AnyIn(gl, SecurityWords), d2, SecurityGroup, k);
    EnsureGroupIfFacts(AnyIn(gl, PartnerWords), d3, PartnerGroup, k);
  }

  /** The context groups keep every indexed group in place and in order, and
      everything after them is a context group. */
  lemma ContextGroupsPrefix(gl: string, d: Dict<string, Group>)
    requires Indexed(d, GroupKey)
    ensures d <= ContextGroups(gl, d)
    ensures forall i :: |d| <= i < |ContextGroups(gl, d)| ==>
      ContextGroups(gl, d)[i].1 in [BtpGroup, OnPremGroup, SecurityGroup, PartnerGroup]
  {
    var d1 := EnsureGroup(d, BtpGroup);
    var d2 := EnsureGroupIf(AnyIn(gl, HybridWords), d1, OnPremGroup);
    var d3 := EnsureGroupIf(AnyIn(gl, SecurityWords), d2, SecurityGroup);
    EnsureGroupIfFacts(true, d, BtpGroup, Btp);
    EnsureGroupIfFacts(AnyIn(gl, HybridWords), d1, OnPremGroup, Btp);
    EnsureGroupIfFacts(AnyIn(gl, SecurityWords), d2, SecurityGroup, Btp);
    EnsureGroupIfFacts(AnyIn(gl, PartnerWords), d3, PartnerGroup, Btp);
  }

  /** A second pass of the context groups adds nothing. */
  lemma ContextGroupsStable(gl: string, d: Dict<string, Group>)
    requires Indexed(d, GroupKey)
    ensures ContextGroups(gl, ContextGroups(gl, d)) == ContextGroups(gl, d)
  {
    var r := ContextGroups(gl, d);
    var d1 := EnsureGroup(d, BtpGroup);
    var d2 := EnsureGroupIf(AnyIn(gl, HybridWords), d1, OnPremGroup);
    var d3 := EnsureGroupIf(AnyIn(gl, SecurityWords), d2, SecurityGroup);
    ContextGroupsKeys(gl, d, Btp);
    ContextGroupsKeys(gl, d, "OnPrem");
    ContextGroupsKeys(gl, d, "SecurityZone");
    ContextGroupsKeys(gl, d, "PartnerZone");
    EnsureGroupIfFacts(true, r, BtpGroup, Btp);
    EnsureGroupIfFacts(AnyIn(gl, HybridWords), r, OnPremGroup, Btp);
    EnsureGroupIfFacts(AnyIn(gl, SecurityWords), r, SecurityGroup, Btp);
    EnsureGroupIfFacts(AnyIn(gl, PartnerWords), r, PartnerGroup, Btp);
  }

  // ---------------------------------------------------------------------
  // Nodes: facts

  /** One conditional `ensure_node`, as `EnsureGroupIfFacts`. */
  lemma EnsureNodeIfFacts(b: bool, d: Dict<string, Node>, n: Node, k: string)
    requires Indexed(d, NodeKey) && NodeKey(n) != ""
    ensures var r := EnsureNodeIf(b, d, n);
      Indexed(r, NodeKey) && d <= r
      && (HasKey(r, k) <==> HasKey(d, k) || (b && k == NodeKey(n)))
      && (forall i :: |d| <= i < |r| ==> r[i].1 == n)
      && EnsureNodeIf(b, r, n) == r
  {
    SetDefaultIndexed(d, NodeKey, n);
    SetDefaultKeys(d, NodeKey(n), n, k);
  }

  /** The ids after the context components: the old ones and each component
      whose keywords the goal names. */
  lemma ContextNodesKeys(gl: string, d: Dict<string, Node>, k: string)
    requires Indexed(d, NodeKey)
    ensures Indexed(ContextNodes(gl, d), NodeKey)
    ensures HasKey(ContextNodes(gl, d), k) <==>
      (HasKey(d, k)
       || (AnyIn(gl, EventWords) && k == "EventMesh")
       || (AnyIn(gl, ApiWords) && k == "APIM")
       || (Contains(gl, MonitorWord) && k == "Monitoring"))
  {
    var d1 := EnsureNodeIf(AnyIn(gl, EventWords), d, EventMeshNode);
    var d2 := EnsureNodeIf(AnyIn(gl, ApiWords), d1, ApimNode);
    EnsureNodeIfFacts(AnyIn(gl, EventWords), d, EventMeshNode, k);
    EnsureNodeIfFacts(AnyIn(gl, ApiWords), d1, ApimNode, k);
    EnsureNodeIfFacts(Contains(gl, MonitorWord), d2, MonitoringNode, k);
  }

  /** The context components keep every indexed node in place, and everything
      after them is a context component. */
  lemma ContextNodesPrefix(gl: string, d: Dict<string, Node>)
    requires Indexed(d, NodeKey)
    ensures d <= ContextNodes(gl, d)
    ensures forall i :: |d| <= i < |ContextNodes(gl, d)| ==>
      ContextNodes(gl, d)[i].1 in [EventMeshNode, ApimNode, MonitoringNode]
  {
    var d1 := EnsureNodeIf(AnyIn(gl, EventWords), d, EventMeshNode);
    var d2 := EnsureNodeIf(AnyIn(gl, ApiWords), d1, ApimNode);
    EnsureNodeIfFacts(AnyIn(gl, EventWords), d, EventMeshNode, "");
    EnsureNodeIfFacts(AnyIn(gl, ApiWords), d1, ApimNode, "");
    EnsureNodeIfFacts(Contains(gl, MonitorWord), d2, MonitoringNode, "");
  }

  /** A second pass of the context components adds nothing, even after the
      lane corrections, which keep every id. */
  lemma ContextNodesStable(gl: string, d: Dict<string, Node>, e: Dict<string, Node>)
    requires Indexed(d, NodeKey) && Indexed(e, NodeKey)
    requires forall k :: HasKey(e, k) <==> HasKey(ContextNodes(gl, d), k)
    ensures ContextNodes(gl, e) == e
  {
    ContextNodesKeys(gl, d, "EventMesh");
    ContextNodesKeys(gl, d, "APIM");
    ContextNodesKeys(gl, d, "Monitoring");
    EnsureNodeIfFacts(AnyIn(gl, EventWords), e, EventMeshNode, "");
    EnsureNodeIfFacts(AnyIn(gl, ApiWords), e, ApimNode, "");
    EnsureNodeIfFacts(Contains(gl, MonitorWord), e, MonitoringNode, "");
  }

  // ---------------------------------------------------------------------
  // Lane corrections: facts

  /** With distinct ids in the table, the corrections keep every id in its
      place and correct each node by its own table entry, if it has one. */
  lemma {:induction false} CorrectedFacts(d: Dict<string, Node>, cs: seq<Correction>)
    requires KeysUnique(d) && DistinctNids(cs)
    ensures |Corrected(d, cs)| == |d|
    ensures forall i :: 0 <= i < |d| ==>
      Corrected(d, cs)[i] == (d[i].0, Corrections(d[i].1, CorrectionFor(d[i].0, cs)))
  {
    if |cs| > 0 {
      var cs', c := cs[..|cs| - 1], cs[|cs| - 1];
      assert DistinctNids(cs');
      CorrectedFacts(d, cs');
      var e := Corrected(d, cs');
      assert Keys(e) == Keys(d);
      CorrectStepFacts(d, e, cs', c);
    }
  }

  lemma CorrectStepFacts(d: Dict<string, Node>, e: Dict<string, Node>, cs': seq<Correction>, c: Correction)
    requires KeysUnique(d) && DistinctNids(cs' + [c])
    requires |e| == |d| && forall i :: 0 <= i < |d| ==> e[i] == (d[i].0, Corrections(d[i].1, CorrectionFor(d[i].0, cs')))
    ensures var cs := cs' + [c];
      |CorrectStep(e, c)| == |d| &&
      forall i :: 0 <= i < |d| ==> CorrectStep(e, c)[i] == (d[i].0, Corrections(d[i].1, CorrectionFor(d[i].0, cs)))
  {
    var cs := cs' + [c];
    assert cs[..|cs| - 1] == cs';
    var r := CorrectStep(e, c);
    var f := Find(e, c.nid);
    if f < 0 {
      forall i | 0 <= i < |d| ensures r[i] == (d[i].0, Corrections(d[i].1, CorrectionFor(d[i].0, cs))) {
        assert e[i].0 == d[i].0;
      }
    } else {
      assert CorrectionFor(c.nid, cs') == None by {
        forall j | 0 <= j < |cs'| ensures cs'[j].nid != c.nid { assert cs[j] == cs'[j] && cs[|cs'|] == c; }
      }
      assert KeysUnique(e) by {
        forall i, j | 0 <= i < j < |e| ensures e[i].0 != e[j].0 { assert e[i].0 == d[i].0 && e[j].0 == d[j].0; }
      }
      PutPresent(e, c.nid, CorrectNode(e[f].1, c));
      forall i | 0 <= i < |d| ensures r[i] == (d[i].0, Corrections(d[i].1, CorrectionFor(d[i].0, cs))) {
        if i != f { assert e[i].0 != c.nid; }
      }
    }
  }

  /** A corrected node is corrected again to itself, as every default group is non-empty. */
  lemma CorrectNodeTwice(n: Node, c: Correction)
    requires c.group != ""
    ensures CorrectNode(CorrectNode(n, c), c) == CorrectNode(n, c)
  {
  }

  /** The correction table: distinct ids and non-empty default groups. */
  lemma LaneCorrectionsWellFormed()
    ensures DistinctNids(LaneCorrections)
    ensures forall j :: 0 <= j < |LaneCorrections| ==> LaneCorrections[j].group != ""
  {
  }

  /** A second round of corrections changes nothing. */
  lemma CorrectedStable(d: Dict<string, Node>, cs: seq<Correction>)
    requires KeysUnique(d) && DistinctNids(cs)
    requires forall j :: 0 <= j < |cs| ==> cs[j].group != ""
    ensures Corrected(Corrected(d, cs), cs) == Corrected(d, cs)
  {
    var e := Corrected(d, cs);
    CorrectedFacts(d, cs);
    assert KeysUnique(e) by {
      forall i, j | 0 <= i < j < |e| ensures e[i].0 != e[j].0 { assert e[i].0 == d[i].0 && e[j].0 == d[j].0; }
    }
    CorrectedFacts(e, cs);
    forall i | 0 <= i < |e| ensures Corrected(e, cs)[i] == e[i] {
      var o := CorrectionFor(d[i].0, cs);
      if o.Some? { CorrectNodeTwice(d[i].1, o.value); }
    }
  }

  /** The corrections keep every node's id, so an indexed dictionary stays indexed. */
  lemma CorrectedIndexed(d: Dict<string, Node>, cs: seq<Correction>)
    requires Indexed(d, NodeKey) && DistinctNids(cs)
    ensures Indexed(Corrected(d, cs), NodeKey)
    ensures forall k :: HasKey(Corrected(d, cs), k) <==> HasKey(d, k)
  {
    var e := Corrected(d, cs);
    CorrectedFacts(d, cs);
    assert Keys(e) == Keys(d);
    forall k ensures HasKey(e, k) <==> HasKey(d, k) {
      if HasKey(d, k) { var i :| 0 <= i < |d| && d[i].0 == k; assert e[i].0 == k; }
      if HasKey(e, k) { var i :| 0 <= i < |e| && e[i].0 == k; assert d[i].0 == k; }
    }
  }

  // ---------------------------------------------------------------------
  // Edges: facts

  lemma TripleSetSnoc(es: seq<Edge>, e: Edge)
    ensures TripleSet(es + [e]) == TripleSet(es) + {EdgeTriple(e)}
  {
    var a, b := TripleSet(es + [e]), TripleSet(es) + {EdgeTriple(e)};
    forall t | t in a ensures t in b {
      var x :| x in es + [e] && EdgeTriple(x) == t;
      if x != e { assert x in es; }
    }
    forall t | t in b ensures t in a {
      if t != EdgeTriple(e) { var x :| x in es && EdgeTriple(x) == t; assert x in es + [e]; }
      else { assert e in es + [e]; }
    }
  }

  /** The IAS pattern keeps every edge in order and appends at most one: the
      edge from IAS to the first target, exactly when IAS and a target exist
      and that triple is new. */
  lemma IasLinkedFacts(es: seq<Edge>, nodes: Dict<string, Node>)
    ensures var r := IasLinked(es, nodes);
      es <= r && |r| <= |es| + 1
      && (|r| == |es| + 1 <==>
            HasKey(nodes, Ias) && FirstTargetFrom(nodes, 0).Some?
            && (Some(Ias), FirstTargetFrom(nodes, 0), IasLabel) !in TripleSet(es))
      && (|r| == |es| + 1 ==> r[|es|] == Edge(Some(Ias), FirstTargetFrom(nodes, 0), Some(IasLabel)))
  {
    var t := FirstTargetFrom(nodes, 0);
    if t.Some? {
      var j :| 0 <= j < |nodes| && nodes[j].0 == t.value && IsTarget(nodes[j].1);
      assert HasKey(nodes, t.value);
    }
  }

  /** A second IAS pass adds nothing: the edge it would add is already there. */
  lemma IasLinkedStable(es: seq<Edge>, nodes: Dict<string, Node>)
    ensures IasLinked(IasLinked(es, nodes), nodes) == IasLinked(es, nodes)
  {
    var r := IasLinked(es, nodes);
    var t := FirstTargetFrom(nodes, 0);
    IasLinkedFacts(es, nodes);
    if |r| == |es| + 1 {
      var e := Edge(Some(Ias), t, Some(IasLabel));
      assert r == es + [e];
      TripleSetSnoc(es, e);
      assert (Some(Ias), t, IasLabel) == EdgeTriple(e);
    }
  }

  // ---------------------------------------------------------------------
  // The normalised plan

  lemma ValuesPrefix<V>(a: Dict<string, V>, b: Dict<string, V>)
    requires a <= b
    ensures Values(a) <= Values(b)
  {
    assert forall i :: 0 <= i < |a| ==> Values(a)[i] == a[i].1 == b[i].1 == Values(b)[i];
  }

  /** The values of an indexed group dictionary have distinct non-empty ids. */
  lemma IndexedGroupIds(g: Dict<string, Group>)
    requires Indexed(g, GroupKey)
    ensures var gs := Values(g);
      (forall i :: 0 <= i < |gs| ==> Truthy(gs[i].id))
      && (forall i, j :: 0 <= i < j < |gs| ==> gs[i].id != gs[j].id)
  {
    forall i | 0 <= i < |g| ensures Values(g)[i].id == Some(g[i].0) && g[i].0 != "" {
      assert GroupKey(g[i].1) == g[i].0;
    }
  }

  /** Groups: every group has an id and no id appears twice; BTP is always
      present, and so is every original group with an id. */
  lemma NormalGroupIds(gl: string, groups: seq<Group>)
    ensures var gs := Values(NormalGroups(gl, groups));
      (forall i :: 0 <= i < |gs| ==> Truthy(gs[i].id))
      && (forall i, j :: 0 <= i < j < |gs| ==> gs[i].id != gs[j].id)
      && Carries(gs, GroupKey, Btp)
      && (forall i :: 0 <= i < |groups| && Truthy(groups[i].id) ==> Carries(gs, GroupKey, groups[i].id.value))
  {
    var d := Index(groups, GroupKey);
    var g := ContextGroups(gl, d);
    var gs := Values(g);
    ContextGroupsKeys(gl, d, Btp);
    ValuesCarry(g, GroupKey, Btp);
    forall i | 0 <= i < |groups| && Truthy(groups[i].id) ensures Carries(gs, GroupKey, groups[i].id.value) {
      var k := groups[i].id.value;
      assert GroupKey(groups[i]) == k;
      ContextGroupsKeys(gl, d, k);
      ValuesCarry(g, GroupKey, k);
    }
    IndexedGroupIds(g);
  }

  /** Groups: the deduplicated originals come first, unchanged and in order,
      and every group after them is a context group. */
  lemma NormalGroupsOrigin(gl: string, groups: seq<Group>)
    ensures var gs := Values(NormalGroups(gl, groups));
      Values(Index(groups, GroupKey)) <= gs
      && (forall i :: 0 <= i < |gs| ==> gs[i] in groups || gs[i] in [BtpGroup, OnPremGroup, SecurityGroup, PartnerGroup])
  {
    var d := Index(groups, GroupKey);
    var g := ContextGroups(gl, d);
    ContextGroupsPrefix(gl, d);
    ValuesPrefix(d, g);
    forall i | 0 <= i < |g| ensures Values(g)[i] in groups || Values(g)[i] in [BtpGroup, OnPremGroup, SecurityGroup, PartnerGroup] {
      if i < |d| { assert g[i] == d[i]; }
    }
  }

  /** Groups: each other context group is present exactly when the plan had
      it or the goal names one of its keywords. */
  lemma NormalContextGroups(gl: string, groups: seq<Group>)
    ensures var gs := Values(NormalGroups(gl, groups));
      (Carries(gs, GroupKey, "OnPrem") <==> Carries(groups, GroupKey, "OnPrem") || AnyIn(gl, HybridWords))
      && (Carries(gs, GroupKey, "SecurityZone") <==> Carries(groups, GroupKey, "SecurityZone") || AnyIn(gl, SecurityWords))
      && (Carries(gs, GroupKey, "PartnerZone") <==> Carries(groups, GroupKey, "PartnerZone") || AnyIn(gl, PartnerWords))
  {
    NormalGroupKey(gl, groups, "OnPrem");
    NormalGroupKey(gl, groups, "SecurityZone");
    NormalGroupKey(gl, groups, "PartnerZone");
  }

  /** The ids of the normalised groups. */
  lemma NormalGroupKey(gl: string, groups: seq<Group>, k: string)
    ensures Carries(Values(NormalGroups(gl, groups)), GroupKey, k) <==>
      ((k != "" && Carries(groups, GroupKey, k)) || k == Btp
       || (AnyIn(gl, HybridWords) && k == "OnPrem")
       || (AnyIn(gl, SecurityWords) && k == "SecurityZone")
       || (AnyIn(gl, PartnerWords) && k == "PartnerZone"))
  {
    var d := Index(groups, GroupKey);
    ContextGroupsKeys(gl, d, k);
    ValuesCarry(ContextGroups(gl, d), GroupKey, k);
    IndexKeys(groups, GroupKey, k);
  }

  /** The values of an indexed node dictionary have distinct non-empty ids. */
  lemma IndexedNodeIds(d: Dict<string, Node>)
    requires Indexed(d, NodeKey)
    ensures var ns := Values(d);
      (forall i :: 0 <= i < |ns| ==> Truthy(ns[i].id))
      && (forall i, j :: 0 <= i < j < |ns| ==> ns[i].id != ns[j].id)
  {
    forall i | 0 <= i < |d| ensures Values(d)[i].id == Some(d[i].0) && d[i].0 != "" {
      assert NodeKey(d[i].1) == d[i].0;
    }
  }

  lemma NormalNodesIndexed(gl: string, nodes: seq<Node>)
    ensures Indexed(NormalNodes(gl, nodes), NodeKey)
    ensures forall k :: HasKey(NormalNodes(gl, nodes), k) <==> HasKey(Contextual(gl, nodes), k)
  {
    ContextNodesKeys(gl, Index(nodes, NodeKey), "");
    LaneCorrectionsWellFormed();
    CorrectedIndexed(Contextual(gl, nodes), LaneCorrections);
  }

  /** The ids of the normalised nodes. */
  lemma NormalNodeKey(gl: string, nodes: seq<Node>, k: string)
    ensures Carries(Values(NormalNodes(gl, nodes)), NodeKey, k) <==>
      ((k != "" && Carries(nodes, NodeKey, k))
       || (AnyIn(gl, EventWords) && k == "EventMesh")
       || (AnyIn(gl, ApiWords) && k == "APIM")
       || (Contains(gl, MonitorWord) && k == "Monitoring"))
  {
    var d := Index(nodes, NodeKey);
    ContextNodesKeys(gl, d, k);
    NormalNodesIndexed(gl, nodes);
    ValuesCarry(NormalNodes(gl, nodes), NodeKey, k);
    IndexKeys(nodes, NodeKey, k);
  }

  /** Nodes: every node has an id and no id appears twice, and every original
      node with an id is present. */
  lemma NormalNodeIds(gl: string, nodes: seq<Node>)
    ensures var ns := Values(NormalNodes(gl, nodes));
      (forall i :: 0 <= i < |ns| ==> Truthy(ns[i].id))
      && (forall i, j :: 0 <= i < j < |ns| ==> ns[i].id != ns[j].id)
      && (forall i :: 0 <= i < |nodes| && Truthy(nodes[i].id) ==> Carries(ns, NodeKey, nodes[i].id.value))
  {
    NormalNodesIndexed(gl, nodes);
    IndexedNodeIds(NormalNodes(gl, nodes));
    forall i | 0 <= i < |nodes| && Truthy(nodes[i].id)
      ensures Carries(Values(NormalNodes(gl, nodes)), NodeKey, nodes[i].id.value)
    {
      assert NodeKey(nodes[i]) == nodes[i].id.value;
      NormalNodeKey(gl, nodes, nodes[i].id.value);
    }
  }

  /** Nodes: Event Mesh, API Management and Cloud ALM are present exactly when
      the plan had them or the goal names one of their keywords. */
  lemma NormalContextNodes(gl: string, nodes: seq<Node>)
    ensures var ns := Values(NormalNodes(gl, nodes));
      (Carries(ns, NodeKey, "EventMesh") <==> Carries(nodes, NodeKey, "EventMesh") || AnyIn(gl, EventWords))
      && (Carries(ns, NodeKey, "APIM") <==> Carries(nodes, NodeKey, "APIM") || AnyIn(gl, ApiWords))
      && (Carries(ns, NodeKey, "Monitoring") <==> Carries(nodes, NodeKey, "Monitoring") || Contains(gl, MonitorWord))
  {
    NormalNodeKey(gl, nodes, "EventMesh");
    NormalNodeKey(gl, nodes, "APIM");
    NormalNodeKey(gl, nodes, "Monitoring");
  }

  /** Nodes before the corrections: the deduplicated originals first,
      unchanged and in order, then only context components. */
  lemma ContextualOrigin(gl: string, nodes: seq<Node>)
    ensures var d := Contextual(gl, nodes);
      Index(nodes, NodeKey) <= d
      && (forall i :: 0 <= i < |d| ==> d[i].1 in nodes || d[i].1 in [EventMeshNode, ApimNode, MonitoringNode])
  {
    var x := Index(nodes, NodeKey);
    var d := Contextual(gl, nodes);
    ContextNodesPrefix(gl, x);
    forall i | 0 <= i < |d| ensures d[i].1 in nodes || d[i].1 in [EventMeshNode, ApimNode, MonitoringNode] {
      if i < |x| { assert d[i] == x[i]; }
    }
  }

  lemma CorrectionForAt(k: string, cs: seq<Correction>, j: int)
    requires DistinctNids(cs) && 0 <= j < |cs| && cs[j].nid == k
    ensures CorrectionFor(k, cs) == Some(cs[j])
  {
    var r := CorrectionFor(k, cs);
    var j' :| 0 <= j' < |cs| && cs[j'] == r.value;
  }

  /** Corrections by a table with distinct ids, entry by entry. */
  lemma CorrectedByTable(d: Dict<string, Node>, cs: seq<Correction>)
    requires KeysUnique(d) && DistinctNids(cs)
    ensures var ns := Values(Corrected(d, cs));
      |ns| == |d|
      && (forall i, j :: 0 <= i < |d| && 0 <= j < |cs| && d[i].0 == cs[j].nid ==>
            ns[i] == d[i].1.(lane := Some(cs[j].lane),
                             group := if Truthy(d[i].1.group) then d[i].1.group else Some(cs[j].group)))
      && (forall i :: 0 <= i < |d| && (forall j :: 0 <= j < |cs| ==> d[i].0 != cs[j].nid) ==> ns[i] == d[i].1)
  {
    CorrectedFacts(d, cs);
    forall i, j | 0 <= i < |d| && 0 <= j < |cs| && d[i].0 == cs[j].nid
      ensures CorrectionFor(d[i].0, cs) == Some(cs[j])
    {
      CorrectionForAt(d[i].0, cs, j);
    }
  }

  /** Lane corrections: a node named in the table gets the table's lane and
      keeps a non-empty group, else gets the table's group; nothing else of
      it changes, and every other node is left as it was. */
  lemma NormalCorrections(gl: string, nodes: seq<Node>)
    ensures var d, ns, cs := Contextual(gl, nodes), Values(NormalNodes(gl, nodes)), LaneCorrections;
      |ns| == |d|
      && (forall i, j :: 0 <= i < |d| && 0 <= j < |cs| && d[i].0 == cs[j].nid ==>
            ns[i] == d[i].1.(lane := Some(cs[j].lane),
                             group := if Truthy(d[i].1.group) then d[i].1.group else Some(cs[j].group)))
      && (forall i :: 0 <= i < |d| && (forall j :: 0 <= j < |cs| ==> d[i].0 != cs[j].nid) ==> ns[i] == d[i].1)
  {
    ContextNodesKeys(gl, Index(nodes, NodeKey), "");
    LaneCorrectionsWellFormed();
    CorrectedByTable(Contextual(gl, nodes), LaneCorrections);
  }

  /** `ns[i]` is the first node the IAS edge may point to. */
  predicate FirstTargetAt(ns: seq<Node>, i: int) {
    0 <= i < |ns| && IsTarget(ns[i]) && forall i' :: 0 <= i' < i ==> !IsTarget(ns[i'])
  }

  lemma {:induction false} FirstTargetFromAt(d: Dict<string, Node>, i: nat, j: nat)
    requires i <= j < |d| && IsTarget(d[j].1) && forall j' :: i <= j' < j ==> !IsTarget(d[j'].1)
    ensures FirstTargetFrom(d, i) == Some(d[j].0)
    decreases j - i
  {
    if i < j {
      FirstTargetFromAt(d, i + 1, j);
    }
  }

  /** The first target of an indexed dictionary is the id of the first target among its values. */
  lemma FirstTargetValues(d: Dict<string, Node>)
    requires Indexed(d, NodeKey)
    ensures FirstTargetFrom(d, 0).Some? <==> exists i :: FirstTargetAt(Values(d), i)
    ensures forall i :: FirstTargetAt(Values(d), i) ==> FirstTargetFrom(d, 0) == Values(d)[i].id
  {
    forall i | FirstTargetAt(Values(d), i) ensures FirstTargetFrom(d, 0) == Values(d)[i].id && Values(d)[i].id.Some? {
      FirstTargetValuesAt(d, i);
    }
    if FirstTargetFrom(d, 0).Some? {
      FirstTargetValuesSome(d);
    }
  }

  lemma FirstTargetValuesAt(d: Dict<string, Node>, i: int)
    requires Indexed(d, NodeKey) && FirstTargetAt(Values(d), i)
    ensures FirstTargetFrom(d, 0) == Values(d)[i].id && Values(d)[i].id.Some?
  {
    var ns := Values(d);
    assert forall j' :: 0 <= j' < i ==> ns[j'] == d[j'].1;
    FirstTargetFromAt(d, 0, i);
    assert NodeKey(d[i].1) == d[i].0;
  }

  lemma FirstTargetValuesSome(d: Dict<string, Node>)
    requires FirstTargetFrom(d, 0).Some?
    ensures exists i :: FirstTargetAt(Values(d), i)
  {
    var ns := Values(d);
    var j :| 0 <= j < |d| && d[j].0 == FirstTargetFrom(d, 0).value && IsTarget(d[j].1) && (forall j' :: 0 <= j' < j ==> !IsTarget(d[j'].1));
    assert forall j' :: 0 <= j' < j ==> ns[j'] == d[j'].1;
    assert FirstTargetAt(ns, j);
  }

  /** Edges: the original edges stay, in order, and at most one is added:
      IAS to the first app or service, labelled OAuth2/SAML, exactly when
      IAS and such a node exist and that edge is new. */
  lemma NormalizeEdges(goal: string, p: Plan)
    ensures var r := Normalize(goal, p);
      p.edges <= r.edges && |r.edges| <= |p.edges| + 1
      && (|r.edges| == |p.edges| + 1 <==>
            Carries(r.nodes, NodeKey, Ias) &&
            exists i :: FirstTargetAt(r.nodes, i) && (Some(Ias), r.nodes[i].id, IasLabel) !in TripleSet(p.edges))
      && (forall i :: |r.edges| == |p.edges| + 1 && FirstTargetAt(r.nodes, i) ==>
            r.edges[|p.edges|] == Edge(Some(Ias), r.nodes[i].id, Some(IasLabel)))
  {
    var n := NormalNodes(Lower(goal), p.nodes);
    NormalNodesIndexed(Lower(goal), p.nodes);
    IasLinkedFacts(p.edges, n);
    FirstTargetValues(n);
    ValuesCarry(n, NodeKey, Ias);
  }

  /** Title, lanes and legend: the title is kept, the lanes are the plan's
      or else the five standard lanes, and a missing legend becomes true. */
  lemma NormalizeFrame(goal: string, p: Plan)
    ensures var r := Normalize(goal, p);
      r.title == p.title && |r.lanes| > 0
      && (|p.lanes| > 0 ==> r.lanes == p.lanes) && (|p.lanes| == 0 ==> r.lanes == DefaultLanes)
      && (p.legend.Some? ==> r.legend == p.legend) && (p.legend.None? ==> r.legend == Some(true))
  {
  }

  // ---------------------------------------------------------------------
  // Idempotence

  lemma NormalGroupsStable(gl: string, groups: seq<Group>)
    ensures NormalGroups(gl, Values(NormalGroups(gl, groups))) == NormalGroups(gl, groups)
  {
    var d := Index(groups, GroupKey);
    ContextGroupsKeys(gl, d, "");
    IndexValues(NormalGroups(gl, groups), GroupKey);
    ContextGroupsStable(gl, d);
  }

  lemma NormalNodesStable(gl: string, nodes: seq<Node>)
    ensures NormalNodes(gl, Values(NormalNodes(gl, nodes))) == NormalNodes(gl, nodes)
  {
    var n := NormalNodes(gl, nodes);
    var d := Contextual(gl, nodes);
    NormalNodesIndexed(gl, nodes);
    IndexValues(n, NodeKey);
    ContextNodesKeys(gl, Index(nodes, NodeKey), "");
    ContextNodesStable(gl, Index(nodes, NodeKey), n);
    LaneCorrectionsWellFormed();
    CorrectedStable(d, LaneCorrections);
  }

  /** Normalising a normalised plan with the same goal changes nothing. */
  lemma NormalizeIdempotent(goal: string, p: Plan)
    ensures Normalize(goal, Normalize(goal, p)) == Normalize(goal, p)
  {
    var gl := Lower(goal);
    NormalGroupsStable(gl, p.groups);
    NormalNodesStable(gl, p.nodes);
    IasLinkedStable(p.edges, NormalNodes(gl, p.nodes));
  }

  // ---------------------------------------------------------------------
  // The procedure

  /** The `for nid, (lane, group) in lane_corrections.items()` loop. */
  method ApplyCorrections(d0: Dict<string, Node>, cs: seq<Correction>) returns (d: Dict<string, Node>)
    ensures d == Corrected(d0, cs)
  {
    d := d0;
    for i := 0 to |cs|
      invariant d == Corrected(d0, cs[..i])
    {
      assert cs[..i + 1][..i] == cs[..i];
      var c := cs[i];
      var n := Get(d, c.nid);
      if n.Some? {
        d := Put(d, c.nid, CorrectNode(n.value, c));
      }
    }
    assert cs[..|cs|] == cs;
  }

  /** `add_edge`, which updates `edges` and `edge_set` together. */
  method AddEdgeTo(edges0: seq<Edge>, edgeSet0: set<(Option<string>, Option<string>, string)>,
                   nodes: Dict<string, Node>, src: string, tgt: string, lbl: string)
    returns (edges: seq<Edge>, edgeSet: set<(Option<string>, Option<string>, string)>)
    requires edgeSet0 == TripleSet(edges0)
    ensures edges == AddEdge(edges0, nodes, src, tgt, lbl) && edgeSet == TripleSet(edges)
  {
    edges, edgeSet := edges0, edgeSet0;
    if (Some(src), Some(tgt), lbl) !in edgeSet && HasKey(nodes, src) && HasKey(nodes, tgt) {
      var e := Edge(Some(src), Some(tgt), Some(lbl));
      edges := edges + [e];
      edgeSet := edgeSet + {(Some(src), Some(tgt), lbl)};
      TripleSetSnoc(edges0, e);
    }
  }

  /** The `for nid in nodes` loop that links IAS to the first app or service and stops. */
  method LinkIas(edges0: seq<Edge>, edgeSet0: set<(Option<string>, Option<string>, string)>, nodes: Dict<string, Node>)
    returns (edges: seq<Edge>, edgeSet: set<(Option<string>, Option<string>, string)>)
    requires edgeSet0 == TripleSet(edges0) && HasKey(nodes, Ias)
    ensures edges == IasLinked(edges0, nodes) && edgeSet == TripleSet(edges)
  {
    edges, edgeSet := edges0, edgeSet0;
    var i := 0;
    while i < |nodes|
      invariant 0 <= i <= |nodes|
      invariant FirstTargetFrom(nodes, i) == FirstTargetFrom(nodes, 0)
    {
      var (nid, n) := nodes[i];
      if IsTarget(n) {
        edges, edgeSet := AddEdgeTo(edges, edgeSet, nodes, Ias, nid, IasLabel);
        return;
      }
      i := i + 1;
    }
  }

  /** The groups part of `normalize_plan`. */
  method GroupsOf(gl: string, gs: seq<Group>) returns (groups: Dict<string, Group>)
    ensures groups == NormalGroups(gl, gs)
  {
    groups := Index(gs, GroupKey);
    groups := EnsureGroup(groups, BtpGroup);
    if AnyIn(gl, HybridWords) {
      groups := EnsureGroup(groups, OnPremGroup);
    }
    if AnyIn(gl, SecurityWords) {
      groups := EnsureGroup(groups, SecurityGroup);
    }
    if AnyIn(gl, PartnerWords) {
      groups := EnsureGroup(groups, PartnerGroup);
    }
  }

  /** The nodes part of `normalize_plan`, lane corrections included. */
  method NodesOf(gl: string, ns: seq<Node>) returns (nodes: Dict<string, Node>)
    ensures nodes == NormalNodes(gl, ns)
  {
    nodes := Index(ns, NodeKey);
    if AnyIn(gl, EventWords) {
      nodes := EnsureNode(nodes, EventMeshNode);
    }
    if AnyIn(gl, ApiWords) {
      nodes := EnsureNode(nodes, ApimNode);
    }
    if Contains(gl, MonitorWord) {
      nodes := EnsureNode(nodes, MonitoringNode);
    }
    assert nodes == Contextual(gl, ns);
    nodes := ApplyCorrections(nodes, LaneCorrections);
  }

  /** `normalize_plan(user_goal, plan)`. */
  method NormalizePlan(goal: string, p: Plan) returns (r: Plan)
    ensures r == Normalize(goal, p)
  {
    var gl := Lower(goal);
    var lanes := LanesOrDefault(p.lanes);
    var groups := GroupsOf(gl, p.groups);
    var nodes := NodesOf(gl, p.nodes);
    var edges := p.edges;
    var edgeSet := TripleSet(edges);
    if HasKey(nodes, Ias) {
      edges, edgeSet := LinkIas(edges, edgeSet, nodes);
    }
    var legend := if p.legend.Some? then p.legend else Some(true);
    r := Plan(p.title, lanes, Values(groups), Values(nodes), edges, legend);
  }
}
