/** The architecture plan: the JSON object the language model proposes and
    every consumer reads.  Each optional field is None when its key is absent;
    list fields that may be missing, `null` or empty are plain sequences. */
module Plans {
  import opened Wrappers

  datatype Node = Node(
    id: Option<string>,
    name: Option<string>,
    lane: Option<string>,
    kind: Option<string>,
    group: Option<string>,
    scope: Option<string>)

  datatype Group = Group(id: Option<string>, name: Option<string>, lane: Option<string>, style: Option<string>)

  datatype Edge = Edge(from: Option<string>, to: Option<string>, labelText: Option<string>)

  datatype Plan = Plan(
    title: Option<string>,
    lanes: seq<string>,
    groups: seq<Group>,
    nodes: seq<Node>,
    edges: seq<Edge>,
    legend: Option<bool>)

  /** The five standard lanes, top to bottom (plan_to_drawio.py and agent.py agree). */
  const DefaultLanes: seq<string> := ["Experience", "Application", "Integration", "Data", "Platform & Security"]

  /** `plan.get("lanes") or DEFAULT_LANES`. */
  function LanesOrDefault(lanes: seq<string>): (r: seq<string>)
    ensures |r| > 0
    ensures |lanes| > 0 ==> r == lanes
  {
    if |lanes| == 0 then DefaultLanes else lanes
  }
}
