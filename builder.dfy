/** The live builder of mcp_client.py: `ArchitectureDiagramBuilder` turns a
    plan into draw.io server calls, placing nodes on a grid inside their
    lane and connecting nodes whose cells it has recorded.  The server is an
    oracle that answers each call; the generator's progress events are
    returned as a list. */
module Builder {
  import opened Wrappers
  import opened Text
  import opened Dicts
  import opened Plans
  import opened Document

  // ---------------------------------------------------------------------
  // Layout constants (`build_from_plan`)

  const LaneHeaderWidth := 140
  const LaneHeight := 180
  const NodeWidth := 160
  const NodeHeight := 60
  const MarginX := 40
  const MarginY := 30
  const MaxNodesPerRow := 5

  /** `total_width`: the lane header, five columns and a margin. */
  const TotalWidth := LaneHeaderWidth + (NodeWidth + MarginX) * MaxNodesPerRow + MarginX

  const HeaderWidth := 400
  const HeaderHeight := 40
  /** How far a header pushes the lanes down. */
  const HeaderGap := 60

  // ---------------------------------------------------------------------
  // Lane bucketing

  /** `node.get("lane", "Application")`. */
  function NodeLane(n: Node): string {
    n.lane.GetOr("Application")
  }

  /** The fuzzy test: either lower-cased name contains the other. */
  predicate Matches(l: string, nl: string) {
    Contains(Lower(nl), Lower(l)) || Contains(Lower(l), Lower(nl))
  }

  /** The first lane that matches `nl` fuzzily. */
  function FuzzyLane(lanes: seq<string>, nl: string): (r: Option<string>)
    ensures r.None? <==> forall j :: 0 <= j < |lanes| ==> !Matches(lanes[j], nl)
    ensures r.Some? ==> exists j :: 0 <= j < |lanes| && lanes[j] == r.value && Matches(lanes[j], nl) &&
                                    (forall j' :: 0 <= j' < j ==> !Matches(lanes[j'], nl))
  {
    if |lanes| == 0 then None
    else if Matches(lanes[0], nl) then Some(lanes[0])
    else
      var r := FuzzyLane(lanes[1..], nl);
      assert forall j :: 1 <= j < |lanes| ==> lanes[1..][j - 1] == lanes[j];
      r
  }

  /** The lane whose bucket receives a node whose lane is `nl`: the exact
      lane, else the first fuzzy match, else the first lane; no bucket when
      there are no lanes. */
  function BucketOf(lanes: seq<string>, nl: string): Option<string> {
    if nl in lanes then Some(nl)
    else if |lanes| == 0 then None
    else
      match FuzzyLane(lanes, nl)
      case Some(l) => Some(l)
      case None => Some(lanes[0])
  }

  /** `lane_nodes[l]` after the bucketing loop: the nodes bucketed to `l`, in order. */
  function LaneMembers(lanes: seq<string>, nodes: seq<Node>, l: string): (ms: seq<Node>)
    ensures |ms| <= |nodes|
  {
    if |nodes| == 0 then []
    else
      var n := nodes[|nodes| - 1];
      LaneMembers(lanes, nodes[..|nodes| - 1], l) + (if BucketOf(lanes, NodeLane(n)) == Some(l) then [n] else [])
  }

  // ---------------------------------------------------------------------
  // The grid inside a lane

  /** The top of lane `i`. */
  function LaneY(startY: int, i: int): int {
    startY + i * LaneHeight
  }

  /** Where the lanes start: below the header when there is one. */
  function StartY(offsetY: int, header: Option<string>): int {
    if Truthy(header) then offsetY + HeaderGap else offsetY
  }

  /** The left edge of the `k`-th node of a lane: column `k % 5`. */
  function NodeX(offsetX: int, k: nat): int {
    offsetX + LaneHeaderWidth + MarginX + (k % MaxNodesPerRow) * (NodeWidth + MarginX)
  }

  /** The top edge of the `k`-th of `count` nodes in the lane at `baseY`:
      one row is centred; several rows are centred as a block, row `k / 5`.
      Python's `//` floors, as Dafny's `/` does for a positive divisor. */
  function NodeY(baseY: int, k: nat, count: nat): int {
    if count <= MaxNodesPerRow then baseY + (LaneHeight - NodeHeight) / 2
    else
      var rows := (count + MaxNodesPerRow - 1) / MaxNodesPerRow;
      var total := if rows > 1 then rows * NodeHeight + (rows - 1) * MarginY else NodeHeight;
      baseY + (LaneHeight - total) / 2 + (k / MaxNodesPerRow) * (NodeHeight + MarginY)
  }

  /** A node with the cell geometry the builder requests for it. */
  datatype Placement = Placement(node: Node, lane: string, x: int, y: int)

  /** The placements of lane `i`'s bucket. */
  function LanePlacements(lanes: seq<string>, nodes: seq<Node>, i: nat, offsetX: int, startY: int): (ps: seq<Placement>)
    requires i < |lanes|
    ensures var ms := LaneMembers(lanes, nodes, lanes[i]);
      |ps| == |ms| &&
      forall k :: 0 <= k < |ps| ==>
        ps[k] == Placement(ms[k], lanes[i], NodeX(offsetX, k), NodeY(LaneY(startY, i), k, |ms|))
  {
    var ms := LaneMembers(lanes, nodes, lanes[i]);
    seq(|ms|, k requires 0 <= k < |ms| => Placement(ms[k], lanes[i], NodeX(offsetX, k), NodeY(LaneY(startY, i), k, |ms|)))
  }

  /** The placements of the first `n` lanes, lane by lane. */
  function Placements(lanes: seq<string>, nodes: seq<Node>, n: nat, offsetX: int, startY: int): seq<Placement>
    requires n <= |lanes|
  {
    if n == 0 then [] else Placements(lanes, nodes, n - 1, offsetX, startY) + LanePlacements(lanes, nodes, n - 1, offsetX, startY)
  }

  // ---------------------------------------------------------------------
  // Bucketing and grid: facts

  /** With lanes, every node lane has a bucket among them: the lane itself
      when it is one, else the first fuzzy match, else the first lane; with
      no lanes there is none. */
  lemma BucketFacts(lanes: seq<string>, nl: string)
    ensures BucketOf(lanes, nl).None? <==> |lanes| == 0
    ensures BucketOf(lanes, nl).Some? ==> BucketOf(lanes, nl).value in lanes
    ensures nl in lanes ==> BucketOf(lanes, nl) == Some(nl)
    ensures nl !in lanes && (exists j :: 0 <= j < |lanes| && Matches(lanes[j], nl)) ==>
      exists j :: 0 <= j < |lanes| && BucketOf(lanes, nl) == Some(lanes[j]) && Matches(lanes[j], nl) &&
                  (forall j' :: 0 <= j' < j ==> !Matches(lanes[j'], nl))
    ensures nl !in lanes && |lanes| > 0 && (forall j :: 0 <= j < |lanes| ==> !Matches(lanes[j], nl)) ==>
      BucketOf(lanes, nl) == Some(lanes[0])
  {
  }

  /** A bucket holds exactly the nodes bucketed to its lane. */
  lemma MembersFacts(lanes: seq<string>, nodes: seq<Node>, l: string)
    ensures var ms := LaneMembers(lanes, nodes, l);
      (forall k :: 0 <= k < |ms| ==> ms[k] in nodes && BucketOf(lanes, NodeLane(ms[k])) == Some(l))
      && (forall i :: 0 <= i < |nodes| && BucketOf(lanes, NodeLane(nodes[i])) == Some(l) ==> nodes[i] in ms)
  {
    MembersSound(lanes, nodes, l);
    MembersComplete(lanes, nodes, l);
  }

  lemma {:induction false} MembersSound(lanes: seq<string>, nodes: seq<Node>, l: string)
    ensures forall n :: n in LaneMembers(lanes, nodes, l) ==> n in nodes && BucketOf(lanes, NodeLane(n)) == Some(l)
  {
    if |nodes| > 0 {
      var nodes' := nodes[..|nodes| - 1];
      MembersSound(lanes, nodes', l);
      assert nodes == nodes' + [nodes[|nodes| - 1]];
    }
  }

  lemma {:induction false} MembersComplete(lanes: seq<string>, nodes: seq<Node>, l: string)
    ensures forall n :: n in nodes && BucketOf(lanes, NodeLane(n)) == Some(l) ==> n in LaneMembers(lanes, nodes, l)
  {
    if |nodes| > 0 {
      var nodes' := nodes[..|nodes| - 1];
      MembersComplete(lanes, nodes', l);
      assert nodes == nodes' + [nodes[|nodes| - 1]];
    }
  }

  lemma MemberBucket(lanes: seq<string>, nodes: seq<Node>, l: string, n: Node)
    requires n in LaneMembers(lanes, nodes, l)
    ensures BucketOf(lanes, NodeLane(n)) == Some(l)
  {
    MembersFacts(lanes, nodes, l);
    var ms := LaneMembers(lanes, nodes, l);
    var k :| 0 <= k < |ms| && ms[k] == n;
  }

  /** With lanes, every node lands in the bucket of one of them. */
  lemma BucketsCover(lanes: seq<string>, nodes: seq<Node>, i: nat)
    requires |lanes| > 0 && i < |nodes|
    ensures exists j :: 0 <= j < |lanes| && nodes[i] in LaneMembers(lanes, nodes, lanes[j])
  {
    var b := BucketOf(lanes, NodeLane(nodes[i]));
    BucketFacts(lanes, NodeLane(nodes[i]));
    var j :| 0 <= j < |lanes| && lanes[j] == b.value;
    MembersFacts(lanes, nodes, lanes[j]);
  }

  /** A node is in at most one bucket. */
  lemma BucketsDisjoint(lanes: seq<string>, nodes: seq<Node>, l1: string, l2: string, n: Node)
    requires n in LaneMembers(lanes, nodes, l1) && n in LaneMembers(lanes, nodes, l2)
    ensures l1 == l2
  {
    MemberBucket(lanes, nodes, l1, n);
    MemberBucket(lanes, nodes, l2, n);
  }

  /** With no lanes every bucket is empty: no node is placed. */
  lemma NoLanesNoMembers(nodes: seq<Node>, l: string)
    ensures LaneMembers([], nodes, l) == []
  {
    var ms := LaneMembers([], nodes, l);
    if |ms| > 0 { MemberBucket([], nodes, l, ms[0]); }
  }

  /** The grid: node `k` is in column `k % 5` and row `k / 5`, columns 200
      apart and rows 90 apart. */
  lemma GridCell(offsetX: int, baseY: int, k: nat, count: nat)
    requires k < count
    ensures NodeX(offsetX, k) == offsetX + LaneHeaderWidth + MarginX + (k % 5) * 200
    ensures NodeY(baseY, k, count) == NodeY(baseY, 0, count) + (k / 5) * 90
  {
    if count <= MaxNodesPerRow {
      assert k / 5 == 0;
    }
  }

  /** Every node sits right of the lane header and within `total_width`; in a
      lane of at most ten nodes it also sits within the lane's height. */
  lemma GridInLane(offsetX: int, baseY: int, k: nat, count: nat)
    requires k < count
    ensures offsetX + LaneHeaderWidth < NodeX(offsetX, k) && NodeX(offsetX, k) + NodeWidth <= offsetX + TotalWidth
    ensures count <= 2 * MaxNodesPerRow ==>
      baseY <= NodeY(baseY, k, count) && NodeY(baseY, k, count) + NodeHeight <= baseY + LaneHeight
  {
    if MaxNodesPerRow < count <= 2 * MaxNodesPerRow {
      assert (count + MaxNodesPerRow - 1) / MaxNodesPerRow == 2;
      assert k / 5 <= 1;
    }
  }

  /** No two nodes of a lane overlap. */
  lemma GridNoOverlap(offsetX: int, baseY: int, k1: nat, k2: nat, count: nat)
    requires k1 < count && k2 < count && k1 != k2
    ensures var x1, y1, x2, y2 := NodeX(offsetX, k1), NodeY(baseY, k1, count), NodeX(offsetX, k2), NodeY(baseY, k2, count);
      x1 + NodeWidth <= x2 || x2 + NodeWidth <= x1 || y1 + NodeHeight <= y2 || y2 + NodeHeight <= y1
  {
    GridCell(offsetX, baseY, k1, count);
    GridCell(offsetX, baseY, k2, count);
    if k1 / 5 == k2 / 5 {
      assert k1 % 5 != k2 % 5;
    } else if k1 / 5 < k2 / 5 {
      assert (k1 / 5) * 90 + 90 <= (k2 / 5) * 90;
    } else {
      assert (k2 / 5) * 90 + 90 <= (k1 / 5) * 90;
    }
  }

  /** Lane `i` starts 180 below lane `i - 1`, below the header if any, and the
      170-high lane labels never overlap. */
  lemma LanesStacked(offsetY: int, header: Option<string>, i: nat, j: nat)
    requires i < j
    ensures LaneY(StartY(offsetY, header), 0) == if Truthy(header) then offsetY + HeaderGap else offsetY
    ensures LaneY(StartY(offsetY, header), i) + LaneHeight - 10 < LaneY(StartY(offsetY, header), j)
  {
    assert i * LaneHeight + LaneHeight <= j * LaneHeight;
  }

  // ---------------------------------------------------------------------
  // The server as an oracle

  /** The draw.io style a builder call asks for; the style strings themselves
      are constants of mcp_client.py and are named here by their role. */
  datatype CellStyle = HeaderText | LaneLabel | NodeType(key: string) | Connector

  /** A tool call sent to the draw.io server. */
  datatype Call =
    | AddRectangle(x: int, y: int, width: int, height: int, caption: string, style: CellStyle)
    | AddEdge(source: string, target: string, caption: string, style: CellStyle)
    | ListPagedModel(page: int, pageSize: int)
    | DeleteCell(cellId: string)

  /** The `result` of a reply: nothing, a string, a dict (its `"id"`, if any),
      or a list of cells (each cell's `"id"` when it is a dict carrying one). */
  datatype Payload = NoResult | TextResult(s: string) | Record(id: Option<string>) | Cells(cells: seq<Option<string>>)

  /** An `MCPResponse`. */
  datatype Reply = Reply(success: bool, result: Payload, error: Option<string>)

  /** A progress event yielded by `build_from_plan`. */
  datatype Event =
    | Phase(message: string)
    | LaneCreated(lane: string, index: nat)
    | ErrorEvent(message: string)
    | NodeCreated(nodeId: string, name: Option<string>, lane: string)
    | EdgeCreated(from: Option<string>, to: Option<string>, labelText: string)

  const LayersMessage := "Creating architecture layers..."
  const ComponentsMessage := "Adding architecture components..."
  const ConnectMessage := "Connecting components..."

  /** The message of a lane whose rectangle the server refused; Python
      formats a missing error as "None". */
  function LaneError(lane: string, error: Option<string>): string {
    "Failed to create lane " + lane + ": " + error.GetOr("None")
  }

  /** The `NODE_TYPE_STYLES` keys. */
  const NodeTypes: set<string> := {"app", "service", "integration", "data", "security", "external"}

  /** `NODE_TYPE_STYLES.get(node.get("type", "app"), NODE_TYPE_STYLES["app"])`,
      named by the key whose style is used. */
  function StyleKey(kind: Option<string>): (k: string)
    ensures k in NodeTypes
    ensures kind.Some? && kind.value in NodeTypes ==> k == kind.value
    ensures (kind.None? || kind.value !in NodeTypes) ==> k == "app"
  {
    var t := kind.GetOr("app");
    if t in NodeTypes then t else "app"
  }

  /** `node.get("name", node.get("id", ""))`. */
  function NodeText(n: Node): string {
    match n.name
    case Some(s) => s
    case None => n.id.GetOr("")
  }

  /** The cell id the builder records from a successful add: the dict's
      `"id"`, or the string result itself. */
  function CellIdOf(p: Payload): Option<string> {
    match p
    case TextResult(s) => Some(s)
    case Record(id) => id
    case _ => None
  }

  /** `edge.get("label", "")`. */
  function EdgeLabel(e: Edge): string {
    e.labelText.GetOr("")
  }

  /** `self.cell_ids.get(key)`. */
  function CellOf(ids: map<string, Option<string>>, key: Option<string>): Option<string> {
    if key.Some? && key.value in ids then ids[key.value] else None
  }

  // ---------------------------------------------------------------------
  // A build, step by step

  /** What a build has done so far: the calls sent, the recorded cell ids,
      the events yielded, and whether it stopped on a node without an id. */
  datatype Run = Run(log: seq<Call>, cellIds: map<string, Option<string>>, events: seq<Event>, raised: bool)

  /** The header rectangle, sent only when there is a header text. */
  function HeaderCalls(offsetX: int, offsetY: int, header: Option<string>): seq<Call> {
    if Truthy(header) then [AddRectangle(offsetX, offsetY, HeaderWidth, HeaderHeight, header.value, HeaderText)] else []
  }

  /** The label rectangle of lane `i`. */
  function LaneCall(lanes: seq<string>, i: nat, offsetX: int, startY: int): Call
    requires i < |lanes|
  {
    AddRectangle(offsetX, LaneY(startY, i), LaneHeaderWidth, LaneHeight - 10, lanes[i], LaneLabel)
  }

  function LaneEvent(lane: string, i: nat, reply: Reply): Event {
    if reply.success then LaneCreated(lane, i) else ErrorEvent(LaneError(lane, reply.error))
  }

  function LaneStep(answer: seq<Call> -> Reply, r: Run, lanes: seq<string>, i: nat, offsetX: int, startY: int): Run
    requires i < |lanes|
  {
    var log := r.log + [LaneCall(lanes, i, offsetX, startY)];
    r.(log := log, events := r.events + [LaneEvent(lanes[i], i, answer(log))])
  }

  /** The first `n` lanes, created one by one. */
  function LanesRun(answer: seq<Call> -> Reply, r: Run, lanes: seq<string>, n: nat, offsetX: int, startY: int): Run
    requires n <= |lanes|
  {
    if n == 0 then r else LaneStep(answer, LanesRun(answer, r, lanes, n - 1, offsetX, startY), lanes, n - 1, offsetX, startY)
  }

  /** The rectangle of a placed node. */
  function NodeCall(p: Placement): Call {
    AddRectangle(p.x, p.y, NodeWidth, NodeHeight, NodeText(p.node), NodeType(StyleKey(p.node.kind)))
  }

  /** One placed node: after a successful add the returned id is recorded
      under the node's id, and a node without an id stops the build. */
  function NodeStep(answer: seq<Call> -> Reply, r: Run, p: Placement): Run {
    if r.raised then r
    else
      var log := r.log + [NodeCall(p)];
      var reply := answer(log);
      if !reply.success then r.(log := log)
      else
        match p.node.id
        case None => r.(log := log, raised := true)
        case Some(id) =>
          r.(log := log, cellIds := r.cellIds[id := CellIdOf(reply.result)],
             events := r.events + [NodeCreated(id, p.node.name, p.lane)])
  }

  function NodesRun(answer: seq<Call> -> Reply, r: Run, ps: seq<Placement>): Run {
    if |ps| == 0 then r else NodeStep(answer, NodesRun(answer, r, ps[..|ps| - 1]), ps[|ps| - 1])
  }

  /** One edge: requested only when both endpoints have truthy recorded ids. */
  function EdgeStep(answer: seq<Call> -> Reply, r: Run, e: Edge): Run {
    var src := CellOf(r.cellIds, e.from);
    var tgt := CellOf(r.cellIds, e.to);
    if Truthy(src) && Truthy(tgt) then
      var log := r.log + [AddEdge(src.value, tgt.value, EdgeLabel(e), Connector)];
      if answer(log).success then r.(log := log, events := r.events + [EdgeCreated(e.from, e.to, EdgeLabel(e))])
      else r.(log := log)
    else r
  }

  function EdgesRun(answer: seq<Call> -> Reply, r: Run, es: seq<Edge>): Run {
    if |es| == 0 then r else EdgeStep(answer, EdgesRun(answer, r, es[..|es| - 1]), es[|es| - 1])
  }

  /** Every node placement of the plan, lane by lane. */
  function AllPlacements(plan: Plan, offsetX: int, startY: int): seq<Placement> {
    Placements(plan.lanes, plan.nodes, |plan.lanes|, offsetX, startY)
  }

  /** The run before the nodes: header, first phase, lanes, second phase. */
  function LanesDone(answer: seq<Call> -> Reply, log: seq<Call>, ids: map<string, Option<string>>, plan: Plan,
                     offsetX: int, offsetY: int, header: Option<string>): Run
  {
    var r0 := Run(log + HeaderCalls(offsetX, offsetY, header), ids, [Phase(LayersMessage)], false);
    var r1 := LanesRun(answer, r0, plan.lanes, |plan.lanes|, offsetX, StartY(offsetY, header));
    r1.(events := r1.events + [Phase(ComponentsMessage)])
  }

  /** `build_from_plan` run to completion against `answer`, from the call
      history `log` and the recorded ids `ids`. */
  function Build(answer: seq<Call> -> Reply, log: seq<Call>, ids: map<string, Option<string>>, plan: Plan,
                 offsetX: int, offsetY: int, header: Option<string>): Run
  {
    var r2 := NodesRun(answer, LanesDone(answer, log, ids, plan, offsetX, offsetY, header),
                       AllPlacements(plan, offsetX, StartY(offsetY, header)));
    if r2.raised then r2 else EdgesRun(answer, r2.(events := r2.events + [Phase(ConnectMessage)]), plan.edges)
  }

  // ---------------------------------------------------------------------
  // Clearing

  /** `model_resp.result if isinstance(model_resp.result, list) else []`. */
  function ListedCells(p: Payload): seq<Option<string>> {
    if p.Cells? then p.cells else []
  }

  /** One delete per listed cell that carries an id, in order. */
  function DeleteCalls(cells: seq<Option<string>>): seq<Call> {
    if |cells| == 0 then []
    else DeleteCalls(cells[..|cells| - 1]) + (match cells[|cells| - 1] case Some(id) => [DeleteCell(id)] case None => [])
  }

  datatype Cleared = Cleared(log: seq<Call>, cellIds: map<string, Option<string>>, reply: Reply)

  const ClearedMessage := "Diagram cleared"

  /** `clear_diagram`: list the model; on failure return that reply and keep
      the ids; otherwise delete every listed cell with an id and forget all
      recorded ids. */
  function Clear(answer: seq<Call> -> Reply, log: seq<Call>, ids: map<string, Option<string>>): Cleared {
    var log1 := log + [ListPagedModel(0, 50)];
    var reply := answer(log1);
    if !reply.success then Cleared(log1, ids, reply)
    else Cleared(log1 + DeleteCalls(ListedCells(reply.result)), map[], Reply(true, TextResult(ClearedMessage), None))
  }

  // ---------------------------------------------------------------------
  // A build: facts

  /** The lane rectangles of the first `n` lanes, in order. */
  function LaneCalls(lanes: seq<string>, n: nat, offsetX: int, startY: int): (cs: seq<Call>)
    requires n <= |lanes|
    ensures |cs| == n && forall i :: 0 <= i < n ==> cs[i] == LaneCall(lanes, i, offsetX, startY)
  {
    seq(n, i requires 0 <= i < n => LaneCall(lanes, i, offsetX, startY))
  }

  /** The lanes send their rectangles in order and yield one event each;
      nothing else changes. */
  lemma {:induction false} LanesRunLog(answer: seq<Call> -> Reply, r: Run, lanes: seq<string>, n: nat, offsetX: int, startY: int)
    requires n <= |lanes|
    ensures var z := LanesRun(answer, r, lanes, n, offsetX, startY);
      z.log == r.log + LaneCalls(lanes, n, offsetX, startY) && z.cellIds == r.cellIds && z.raised == r.raised &&
      |z.events| == |r.events| + n && z.events[..|r.events|] == r.events
  {
    if n > 0 {
      LanesRunLog(answer, r, lanes, n - 1, offsetX, startY);
      assert LaneCalls(lanes, n, offsetX, startY) == LaneCalls(lanes, n - 1, offsetX, startY) + [LaneCall(lanes, n - 1, offsetX, startY)];
    }
  }

  /** Lane `i` yields `lane_created` exactly when the server accepted its
      rectangle, and the error event otherwise. */
  lemma {:induction false} LanesRunEvents(answer: seq<Call> -> Reply, r: Run, lanes: seq<string>, n: nat, offsetX: int, startY: int, i: nat)
    requires i < n <= |lanes|
    ensures var z := LanesRun(answer, r, lanes, n, offsetX, startY);
      |r.log| + i < |z.log| && |r.events| + i < |z.events| &&
      z.events[|r.events| + i] == LaneEvent(lanes[i], i, answer(z.log[..|r.log| + i + 1]))
  {
    var z' := LanesRun(answer, r, lanes, n - 1, offsetX, startY);
    var z := LanesRun(answer, r, lanes, n, offsetX, startY);
    LanesRunLog(answer, r, lanes, n - 1, offsetX, startY);
    assert |z'.log| == |r.log| + n - 1 && |z'.events| == |r.events| + n - 1;
    assert z == LaneStep(answer, z', lanes, n - 1, offsetX, startY);
    if i < n - 1 {
      LanesRunEvents(answer, r, lanes, n - 1, offsetX, startY, i);
      assert z.log[..|r.log| + i + 1] == z'.log[..|r.log| + i + 1];
      assert z.events[|r.events| + i] == z'.events[|r.events| + i];
    } else {
      assert z.log[..|r.log| + i + 1] == z.log;
    }
  }

  lemma NodesRunSnoc(answer: seq<Call> -> Reply, r: Run, ps: seq<Placement>, p: Placement)
    ensures NodesRun(answer, r, ps + [p]) == NodeStep(answer, NodesRun(answer, r, ps), p)
  {
    assert (ps + [p])[..|ps|] == ps;
  }

  /** A stopped build stays stopped and does nothing more. */
  lemma {:induction false} NodesRunRaised(answer: seq<Call> -> Reply, r: Run, ps: seq<Placement>)
    requires r.raised
    ensures NodesRun(answer, r, ps) == r
  {
    if |ps| > 0 { NodesRunRaised(answer, r, ps[..|ps| - 1]); }
  }

  /** Running more placements only extends what a shorter run did, and once
      a run has stopped the rest of the placements change nothing. */
  lemma {:induction false} NodesRunPrefix(answer: seq<Call> -> Reply, r: Run, ps: seq<Placement>, m: nat)
    requires m <= |ps|
    ensures NodesRun(answer, r, ps[..m]).log <= NodesRun(answer, r, ps).log
    ensures NodesRun(answer, r, ps[..m]).raised ==> NodesRun(answer, r, ps) == NodesRun(answer, r, ps[..m])
  {
    if m < |ps| {
      var ps' := ps[..|ps| - 1];
      assert ps'[..m] == ps[..m];
      NodesRunPrefix(answer, r, ps', m);
      if NodesRun(answer, r, ps[..m]).raised {
        assert NodesRun(answer, r, ps').raised;
      }
    } else {
      assert ps[..m] == ps;
    }
  }

  /** Node `j` sends the `j`-th node call, and only a stopped run sends fewer. */
  lemma {:induction false} NodesRunLog(answer: seq<Call> -> Reply, r: Run, ps: seq<Placement>)
    requires !r.raised
    ensures var z := NodesRun(answer, r, ps);
      |r.log| <= |z.log| <= |r.log| + |ps| && z.log[..|r.log|] == r.log &&
      (!z.raised ==> |z.log| == |r.log| + |ps|) &&
      forall j :: |r.log| <= j < |z.log| ==> z.log[j] == NodeCall(ps[j - |r.log|])
  {
    if |ps| > 0 {
      var ps' := ps[..|ps| - 1];
      NodesRunLog(answer, r, ps');
      var z' := NodesRun(answer, r, ps');
      var z := NodesRun(answer, r, ps);
      assert z'.log <= z.log;
      forall j | |r.log| <= j < |z.log| ensures z.log[j] == NodeCall(ps[j - |r.log|]) {
        if j < |z'.log| { assert z.log[j] == z'.log[j]; }
      }
    }
  }

  /** Node `j` of `ps` was added successfully by the run whose calls are
      `log`, starting from the history `log0`, and carries the id `k`. */
  predicate AddedAt(answer: seq<Call> -> Reply, log0: seq<Call>, ps: seq<Placement>, log: seq<Call>, j: int, k: string) {
    0 <= j < |ps| && |log0| + j < |log| && ps[j].node.id == Some(k) && answer(log[..|log0| + j + 1]).success
  }

  /** A node's cell id is recorded only on a successful add, as the id that
      add returned; every successful add of a node with an id records it;
      every other recorded id is kept. */
  lemma {:induction false} NodesRunRecorded(answer: seq<Call> -> Reply, r: Run, ps: seq<Placement>, k: string)
    requires !r.raised
    ensures var z := NodesRun(answer, r, ps);
      (k in z.cellIds <==> k in r.cellIds || exists j :: AddedAt(answer, r.log, ps, z.log, j, k)) &&
      (k in z.cellIds && k !in r.cellIds ==>
        exists j :: AddedAt(answer, r.log, ps, z.log, j, k) && z.cellIds[k] == CellIdOf(answer(z.log[..|r.log| + j + 1]).result)) &&
      (k in r.cellIds && (forall j :: !AddedAt(answer, r.log, ps, z.log, j, k)) ==> z.cellIds[k] == r.cellIds[k])
  {
    if |ps| > 0 {
      var ps', p := ps[..|ps| - 1], ps[|ps| - 1];
      NodesRunRecorded(answer, r, ps', k);
      var z', z := NodesRun(answer, r, ps'), NodesRun(answer, r, ps);
      NodesRunLog(answer, r, ps');
      assert ps == ps' + [p];
      RecordedKeysStep(answer, r, ps', p, ps, z', z, k);
      RecordedValueStep(answer, r, ps', p, ps, z', z, k);
    }
  }

  /** One more placement records `k` only by adding it, and keeps what it does not add. */
  lemma RecordedKeysStep(answer: seq<Call> -> Reply, r: Run, ps': seq<Placement>, p: Placement, ps: seq<Placement>,
                         z': Run, z: Run, k: string)
    requires ps == ps' + [p] && z == NodeStep(answer, z', p)
    requires |r.log| <= |z'.log| <= |r.log| + |ps'| && z'.log[..|r.log|] == r.log
    requires !z'.raised ==> |z'.log| == |r.log| + |ps'|
    requires k in z'.cellIds <==> k in r.cellIds || exists j :: AddedAt(answer, r.log, ps', z'.log, j, k)
    requires k in r.cellIds && (forall j :: !AddedAt(answer, r.log, ps', z'.log, j, k)) ==> z'.cellIds[k] == r.cellIds[k]
    ensures k in z.cellIds <==> k in r.cellIds || exists j :: AddedAt(answer, r.log, ps, z.log, j, k)
    ensures k in r.cellIds && (forall j :: !AddedAt(answer, r.log, ps, z.log, j, k)) ==> z.cellIds[k] == r.cellIds[k]
  {
    var last := |ps'|;
    assert z'.log <= z.log;
    AddedAtExtend(answer, r.log, ps', ps, z'.log, z.log, k);
    if !z'.raised && p.node.id == Some(k) && answer(z'.log + [NodeCall(p)]).success {
      assert z.log == z'.log + [NodeCall(p)] && z.log[..|r.log| + last + 1] == z.log;
      assert AddedAt(answer, r.log, ps, z.log, last, k);
    } else {
      if !z'.raised {
        assert z.log == z'.log + [NodeCall(p)] && z.log[..|r.log| + last + 1] == z.log;
      }
      assert !AddedAt(answer, r.log, ps, z.log, last, k);
      assert k in z.cellIds <==> k in z'.cellIds;
      assert k in z'.cellIds ==> z.cellIds[k] == z'.cellIds[k];
    }
  }

  /** One more placement keeps every newly recorded id tied to the add that returned it. */
  lemma RecordedValueStep(answer: seq<Call> -> Reply, r: Run, ps': seq<Placement>, p: Placement, ps: seq<Placement>,
                          z': Run, z: Run, k: string)
    requires ps == ps' + [p] && z == NodeStep(answer, z', p)
    requires |r.log| <= |z'.log| <= |r.log| + |ps'| && z'.log[..|r.log|] == r.log
    requires !z'.raised ==> |z'.log| == |r.log| + |ps'|
    requires k in z'.cellIds && k !in r.cellIds ==>
      exists j :: AddedAt(answer, r.log, ps', z'.log, j, k) && z'.cellIds[k] == CellIdOf(answer(z'.log[..|r.log| + j + 1]).result)
    ensures k in z.cellIds && k !in r.cellIds ==>
      exists j :: AddedAt(answer, r.log, ps, z.log, j, k) && z.cellIds[k] == CellIdOf(answer(z.log[..|r.log| + j + 1]).result)
  {
    var last := |ps'|;
    assert z'.log <= z.log;
    if k in z.cellIds && k !in r.cellIds {
      if !z'.raised && p.node.id == Some(k) && answer(z'.log + [NodeCall(p)]).success {
        assert z.log == z'.log + [NodeCall(p)] && z.log[..|r.log| + last + 1] == z.log;
        assert AddedAt(answer, r.log, ps, z.log, last, k);
      } else {
        assert k in z'.cellIds && z.cellIds[k] == z'.cellIds[k];
        var j :| AddedAt(answer, r.log, ps', z'.log, j, k) && z'.cellIds[k] == CellIdOf(answer(z'.log[..|r.log| + j + 1]).result);
        AddedAtExtend(answer, r.log, ps', ps, z'.log, z.log, k);
        assert AddedAt(answer, r.log, ps, z.log, j, k);
      }
    }
  }

  /** Node additions seen in a shorter run are seen, unchanged, in the longer one. */
  lemma AddedAtExtend(answer: seq<Call> -> Reply, log0: seq<Call>, ps': seq<Placement>, ps: seq<Placement>,
                      log': seq<Call>, log: seq<Call>, k: string)
    requires ps' <= ps && log' <= log && |ps'| + 1 == |ps|
    requires |log'| <= |log0| + |ps'| && (|log'| < |log0| + |ps'| ==> log == log')
    ensures forall j :: 0 <= j < |ps'| ==> (AddedAt(answer, log0, ps', log', j, k) <==> AddedAt(answer, log0, ps, log, j, k))
    ensures forall j :: AddedAt(answer, log0, ps', log', j, k) ==> log'[..|log0| + j + 1] == log[..|log0| + j + 1]
  {
    forall j | 0 <= j < |ps'| ensures AddedAt(answer, log0, ps', log', j, k) <==> AddedAt(answer, log0, ps, log, j, k) {
      if |log0| + j < |log'| { assert log'[..|log0| + j + 1] == log[..|log0| + j + 1]; }
    }
  }

  /** Whether an edge is requested: both endpoints have truthy recorded ids. */
  predicate Connectable(ids: map<string, Option<string>>, e: Edge) {
    Truthy(CellOf(ids, e.from)) && Truthy(CellOf(ids, e.to))
  }

  /** The edge calls for `es` under the recorded ids `ids`, in order. */
  function EdgeCalls(ids: map<string, Option<string>>, es: seq<Edge>): seq<Call> {
    if |es| == 0 then []
    else
      var e := es[|es| - 1];
      EdgeCalls(ids, es[..|es| - 1]) +
        (if Connectable(ids, e) then [AddEdge(CellOf(ids, e.from).value, CellOf(ids, e.to).value, EdgeLabel(e), Connector)] else [])
  }

  /** The edges send exactly the gated edge calls, under the ids recorded
      before them, and yield only `edge_created` events, at most one per
      edge; the ids and the stop flag are untouched. */
  lemma {:induction false} EdgesRunFacts(answer: seq<Call> -> Reply, r: Run, es: seq<Edge>)
    ensures var z := EdgesRun(answer, r, es);
      z.log == r.log + EdgeCalls(r.cellIds, es) && z.cellIds == r.cellIds && z.raised == r.raised &&
      |r.events| <= |z.events| <= |r.events| + |es| && z.events[..|r.events|] == r.events &&
      forall i :: |r.events| <= i < |z.events| ==> z.events[i].EdgeCreated?
  {
    if |es| > 0 {
      EdgesRunFacts(answer, r, es[..|es| - 1]);
      var z' := EdgesRun(answer, r, es[..|es| - 1]);
      var z := EdgesRun(answer, r, es);
      assert z'.events <= z.events;
      forall i | |r.events| <= i < |z.events| ensures z.events[i].EdgeCreated? {
        if i < |z'.events| { assert z.events[i] == z'.events[i]; }
      }
    }
  }

  /** An edge call is sent exactly for an edge both of whose endpoints have
      truthy recorded ids, between those ids, with the edge's label. */
  lemma {:induction false} EdgeCallsGate(ids: map<string, Option<string>>, es: seq<Edge>, c: Call)
    ensures c in EdgeCalls(ids, es) <==>
      exists e :: e in es && Connectable(ids, e) &&
        c == AddEdge(CellOf(ids, e.from).value, CellOf(ids, e.to).value, EdgeLabel(e), Connector)
  {
    if |es| > 0 {
      var es' := es[..|es| - 1];
      EdgeCallsGate(ids, es', c);
      assert es == es' + [es[|es| - 1]];
      assert forall e :: e in es <==> e in es' || e == es[|es| - 1];
    }
  }

  /** Deletes go, in order, to exactly the listed cells that carry an id. */
  lemma {:induction false} DeleteCallsFacts(cells: seq<Option<string>>, id: string)
    ensures |DeleteCalls(cells)| <= |cells|
    ensures forall c :: c in DeleteCalls(cells) ==> c.DeleteCell?
    ensures DeleteCell(id) in DeleteCalls(cells) <==> Some(id) in cells
  {
    if |cells| > 0 {
      var cells' := cells[..|cells| - 1];
      DeleteCallsFacts(cells', id);
      assert cells == cells' + [cells[|cells| - 1]];
    }
  }

  /** `clear_diagram` first lists the model; it forgets the recorded ids
      exactly when the listing succeeded (or there were none), and reports
      success exactly then. */
  lemma ClearFacts(answer: seq<Call> -> Reply, log: seq<Call>, ids: map<string, Option<string>>)
    ensures var z := Clear(answer, log, ids);
      var listed := answer(log + [ListPagedModel(0, 50)]);
      |z.log| > |log| && z.log[..|log| + 1] == log + [ListPagedModel(0, 50)] &&
      (z.cellIds == map[] <==> listed.success || ids == map[]) &&
      (z.reply.success <==> listed.success) &&
      (!listed.success ==> z.reply == listed && z.log == log + [ListPagedModel(0, 50)] && z.cellIds == ids) &&
      (listed.success ==> z.log == log + [ListPagedModel(0, 50)] + DeleteCalls(ListedCells(listed.result)))
  {
  }

  /** Every placement is the `k`-th member of the bucket of some lane `i`,
      at that lane's grid cell `k`. */
  lemma {:induction false} PlacementsOrigin(lanes: seq<string>, nodes: seq<Node>, n: nat, offsetX: int, startY: int, p: Placement)
    requires n <= |lanes| && p in Placements(lanes, nodes, n, offsetX, startY)
    ensures exists i, k :: (0 <= i < n && 0 <= k < |LaneMembers(lanes, nodes, lanes[i])| &&
      p == Placement(LaneMembers(lanes, nodes, lanes[i])[k], lanes[i], NodeX(offsetX, k),
                     NodeY(LaneY(startY, i), k, |LaneMembers(lanes, nodes, lanes[i])|)))
  {
    var ps' := Placements(lanes, nodes, n - 1, offsetX, startY);
    var lp := LanePlacements(lanes, nodes, n - 1, offsetX, startY);
    assert Placements(lanes, nodes, n, offsetX, startY) == ps' + lp;
    if p in ps' {
      PlacementsOrigin(lanes, nodes, n - 1, offsetX, startY, p);
    } else {
      var k :| 0 <= k < |lp| && lp[k] == p;
      var ms := LaneMembers(lanes, nodes, lanes[n - 1]);
      assert 0 <= n - 1 < n && 0 <= k < |ms| &&
        p == Placement(ms[k], lanes[n - 1], NodeX(offsetX, k), NodeY(LaneY(startY, n - 1), k, |ms|));
    }
  }

  /** The bucket of lane `i` is placed, in order, among the first `n > i` lanes' placements. */
  lemma {:induction false} PlacementsHolds(lanes: seq<string>, nodes: seq<Node>, n: nat, offsetX: int, startY: int, i: nat, q: Placement)
    requires i < n <= |lanes| && q in LanePlacements(lanes, nodes, i, offsetX, startY)
    ensures q in Placements(lanes, nodes, n, offsetX, startY)
  {
    if i < n - 1 { PlacementsHolds(lanes, nodes, n - 1, offsetX, startY, i, q); }
  }

  /** With lanes, every node of the plan is placed. */
  lemma PlacementsCover(lanes: seq<string>, nodes: seq<Node>, offsetX: int, startY: int, m: nat)
    requires |lanes| > 0 && m < |nodes|
    ensures exists p :: p in Placements(lanes, nodes, |lanes|, offsetX, startY) && p.node == nodes[m]
  {
    BucketsCover(lanes, nodes, m);
    var i :| 0 <= i < |lanes| && nodes[m] in LaneMembers(lanes, nodes, lanes[i]);
    var ms := LaneMembers(lanes, nodes, lanes[i]);
    var k :| 0 <= k < |ms| && ms[k] == nodes[m];
    var lp := LanePlacements(lanes, nodes, i, offsetX, startY);
    PlacementsHolds(lanes, nodes, |lanes|, offsetX, startY, i, lp[k]);
  }

  /** A run that only meets successful replies and nodes with ids never stops. */
  lemma {:induction false} NodesRunNoStop(answer: seq<Call> -> Reply, r: Run, ps: seq<Placement>)
    requires !r.raised && (forall l :: answer(l).success) && (forall j :: 0 <= j < |ps| ==> ps[j].node.id.Some?)
    ensures !NodesRun(answer, r, ps).raised
  {
    if |ps| > 0 { NodesRunNoStop(answer, r, ps[..|ps| - 1]); }
  }

  /** The run before the nodes has sent the header and lane rectangles,
      yielded the first phase, one event per lane and the second phase,
      and left the ids alone. */
  lemma LanesDoneFacts(answer: seq<Call> -> Reply, log: seq<Call>, ids: map<string, Option<string>>, plan: Plan,
                       offsetX: int, offsetY: int, header: Option<string>)
    ensures var z := LanesDone(answer, log, ids, plan, offsetX, offsetY, header);
      z.log == log + HeaderCalls(offsetX, offsetY, header) + LaneCalls(plan.lanes, |plan.lanes|, offsetX, StartY(offsetY, header)) &&
      z.cellIds == ids && !z.raised && |z.events| == |plan.lanes| + 2 &&
      z.events[0] == Phase(LayersMessage) && z.events[|plan.lanes| + 1] == Phase(ComponentsMessage)
  {
    var r0 := Run(log + HeaderCalls(offsetX, offsetY, header), ids, [Phase(LayersMessage)], false);
    LanesRunLog(answer, r0, plan.lanes, |plan.lanes|, offsetX, StartY(offsetY, header));
  }

  /** With no lanes no node is placed, so no id is recorded and the only
      edges drawn are those between ids recorded by earlier builds. */
  lemma BuildNoLanes(answer: seq<Call> -> Reply, log: seq<Call>, ids: map<string, Option<string>>, plan: Plan,
                     offsetX: int, offsetY: int, header: Option<string>)
    requires plan.lanes == []
    ensures var z := Build(answer, log, ids, plan, offsetX, offsetY, header);
      !z.raised && z.cellIds == ids && z.log == log + HeaderCalls(offsetX, offsetY, header) + EdgeCalls(ids, plan.edges)
  {
    LanesDoneFacts(answer, log, ids, plan, offsetX, offsetY, header);
    var r1 := LanesDone(answer, log, ids, plan, offsetX, offsetY, header);
    assert AllPlacements(plan, offsetX, StartY(offsetY, header)) == [];
    EdgesRunFacts(answer, r1.(events := r1.events + [Phase(ConnectMessage)]), plan.edges);
  }

  /** Every placed node is a node of the plan. */
  lemma PlacedNodes(lanes: seq<string>, nodes: seq<Node>, offsetX: int, startY: int)
    ensures forall p :: p in Placements(lanes, nodes, |lanes|, offsetX, startY) ==> p.node in nodes
  {
    forall p | p in Placements(lanes, nodes, |lanes|, offsetX, startY) ensures p.node in nodes {
      PlacementsOrigin(lanes, nodes, |lanes|, offsetX, startY, p);
      var i, k :| 0 <= i < |lanes| && 0 <= k < |LaneMembers(lanes, nodes, lanes[i])| &&
        p.node == LaneMembers(lanes, nodes, lanes[i])[k];
      MembersFacts(lanes, nodes, lanes[i]);
    }
  }

  /** When every call succeeds, every node has an id and there are lanes,
      the build runs to the end and records a cell id for every node. */
  lemma BuildRecordsEveryNode(answer: seq<Call> -> Reply, log: seq<Call>, ids: map<string, Option<string>>, plan: Plan,
                              offsetX: int, offsetY: int, header: Option<string>, m: nat)
    requires forall l :: answer(l).success
    requires forall i :: 0 <= i < |plan.nodes| ==> plan.nodes[i].id.Some?
    requires |plan.lanes| > 0 && m < |plan.nodes|
    ensures var z := Build(answer, log, ids, plan, offsetX, offsetY, header);
      !z.raised && plan.nodes[m].id.value in z.cellIds
  {
    var startY := StartY(offsetY, header);
    var ps := AllPlacements(plan, offsetX, startY);
    var r1 := LanesDone(answer, log, ids, plan, offsetX, offsetY, header);
    LanesDoneFacts(answer, log, ids, plan, offsetX, offsetY, header);
    PlacedNodes(plan.lanes, plan.nodes, offsetX, startY);
    NodesRunNoStop(answer, r1, ps);
    var z2 := NodesRun(answer, r1, ps);
    NodesRunLog(answer, r1, ps);
    PlacementsCover(plan.lanes, plan.nodes, offsetX, startY, m);
    var p :| p in ps && p.node == plan.nodes[m];
    var j :| 0 <= j < |ps| && ps[j] == p;
    var k := plan.nodes[m].id.value;
    assert AddedAt(answer, r1.log, ps, z2.log, j, k);
    NodesRunRecorded(answer, r1, ps, k);
    EdgesRunFacts(answer, z2.(events := z2.events + [Phase(ConnectMessage)]), plan.edges);
  }

  /** The placements of fewer lanes are a prefix of those of more lanes. */
  lemma {:induction false} PlacementsPrefix(lanes: seq<string>, nodes: seq<Node>, n: nat, m: nat, offsetX: int, startY: int)
    requires n <= m <= |lanes|
    ensures Placements(lanes, nodes, n, offsetX, startY) <= Placements(lanes, nodes, m, offsetX, startY)
  {
    if n < m { PlacementsPrefix(lanes, nodes, n, m - 1, offsetX, startY); }
  }

  /** A run that stopped after the first `n` lanes is the run of all of them. */
  lemma NodesRunStopsAt(answer: seq<Call> -> Reply, r: Run, lanes: seq<string>, nodes: seq<Node>, n: nat, offsetX: int, startY: int)
    requires n <= |lanes| && NodesRun(answer, r, Placements(lanes, nodes, n, offsetX, startY)).raised
    ensures NodesRun(answer, r, Placements(lanes, nodes, |lanes|, offsetX, startY))
      == NodesRun(answer, r, Placements(lanes, nodes, n, offsetX, startY))
  {
    var head := Placements(lanes, nodes, n, offsetX, startY);
    var all := Placements(lanes, nodes, |lanes|, offsetX, startY);
    PlacementsPrefix(lanes, nodes, n, |lanes|, offsetX, startY);
    assert all == head + all[|head|..];
    NodesRunAppend(answer, r, head, all[|head|..]);
    NodesRunRaised(answer, NodesRun(answer, r, head), all[|head|..]);
  }

  /** Running two lists of placements is running one after the other. */
  lemma {:induction false} NodesRunAppend(answer: seq<Call> -> Reply, r: Run, a: seq<Placement>, b: seq<Placement>)
    ensures NodesRun(answer, r, a + b) == NodesRun(answer, NodesRun(answer, r, a), b)
  {
    if |b| == 0 {
      assert a + b == a;
    } else {
      NodesRunAppend(answer, r, a, b[..|b| - 1]);
      assert (a + b)[..|a + b| - 1] == a + b[..|b| - 1];
    }
  }

  /** The bucketing loop's invariant survives one more node. */
  lemma BucketStep(lanes: seq<string>, nodes: seq<Node>, i: nat, before: map<string, seq<Node>>, after: map<string, seq<Node>>)
    requires i < |nodes|
    requires forall l :: l in lanes ==> l in before && before[l] == LaneMembers(lanes, nodes[..i], l)
    requires forall l :: l in lanes ==>
      l in after && after[l] == before[l] + (if BucketOf(lanes, NodeLane(nodes[i])) == Some(l) then [nodes[i]] else [])
    ensures forall l :: l in lanes ==> after[l] == LaneMembers(lanes, nodes[..i + 1], l)
  {
    forall l | l in lanes ensures after[l] == LaneMembers(lanes, nodes[..i + 1], l) {
      LaneMembersSnoc(lanes, nodes, i, l);
    }
  }

  lemma LaneMembersSnoc(lanes: seq<string>, nodes: seq<Node>, i: nat, l: string)
    requires i < |nodes|
    ensures LaneMembers(lanes, nodes[..i + 1], l) ==
      LaneMembers(lanes, nodes[..i], l) + (if BucketOf(lanes, NodeLane(nodes[i])) == Some(l) then [nodes[i]] else [])
  {
    assert nodes[..i + 1][..i] == nodes[..i];
  }

  lemma EdgesRunSnoc(answer: seq<Call> -> Reply, r: Run, es: seq<Edge>, i: nat)
    requires i < |es|
    ensures EdgesRun(answer, r, es[..i + 1]) == EdgeStep(answer, EdgesRun(answer, r, es[..i]), es[i])
  {
    assert es[..i + 1][..i] == es[..i];
  }

  lemma DeleteCallsSnoc(cells: seq<Option<string>>, i: nat)
    requires i < |cells|
    ensures DeleteCalls(cells[..i + 1]) ==
      DeleteCalls(cells[..i]) + (match cells[i] case Some(id) => [DeleteCell(id)] case None => [])
  {
    assert cells[..i + 1][..i] == cells[..i];
  }

  // ---------------------------------------------------------------------
  // The objects

  /** The draw.io server connection as an oracle: `answer` replies to the
      last call of a history, and `log` is the history so far. */
  class DrawioClient {
    var log: seq<Call>
    const answer: seq<Call> -> Reply

    constructor(answer: seq<Call> -> Reply)
      ensures log == [] && this.answer == answer
    {
      this.answer := answer;
      log := [];
    }

    /** `call_tool`: send `c` and return the server's reply to it. */
    method Send(c: Call) returns (r: Reply)
      modifies this
      ensures log == old(log) + [c] && r == answer(log)
    {
      log := log + [c];
      r := answer(log);
    }
  }

  /** `ArchitectureDiagramBuilder`: the client and the node-id to cell-id map. */
  class ArchitectureDiagramBuilder {
    const client: DrawioClient
    var cellIds: map<string, Option<string>>

    constructor(client: DrawioClient)
      ensures this.client == client && cellIds == map[]
    {
      this.client := client;
      cellIds := map[];
    }

    /** The fuzzy lane search: the first lane the node lane contains or is
        contained in, case-insensitively. */
    static method FuzzyMatch(lanes: seq<string>, nl: string) returns (found: Option<string>)
      ensures found == FuzzyLane(lanes, nl)
    {
      var j := 0;
      while j < |lanes|
        invariant 0 <= j <= |lanes|
        invariant forall j' :: 0 <= j' < j ==> !Matches(lanes[j'], nl)
      {
        if Contains(Lower(lanes[j]), Lower(nl)) || Contains(Lower(nl), Lower(lanes[j])) {
          return Some(lanes[j]);
        }
        j := j + 1;
      }
      return None;
    }

    /** `lane_nodes`: one bucket per lane, each holding, in plan order, the
        nodes whose lane is that lane, else fuzzily matches it first, else
        falls back to the first lane. */
    static method BucketNodes(lanes: seq<string>, nodes: seq<Node>) returns (buckets: map<string, seq<Node>>)
      ensures buckets.Keys == set l | l in lanes
      ensures forall l :: l in lanes ==> buckets[l] == LaneMembers(lanes, nodes, l)
    {
      buckets := map l | l in lanes :: [];
      for i := 0 to |nodes|
        invariant buckets.Keys == set l | l in lanes
        invariant forall l :: l in lanes ==> buckets[l] == LaneMembers(lanes, nodes[..i], l)
      {
        ghost var before := buckets;
        buckets := AddToBucket(lanes, buckets, nodes[i]);
        BucketStep(lanes, nodes, i, before, buckets);
      }
      assert nodes[..|nodes|] == nodes;
    }

    /** One pass of the bucketing loop: `node` joins the bucket `BucketOf` picks, if any. */
    static method AddToBucket(lanes: seq<string>, buckets: map<string, seq<Node>>, node: Node)
      returns (buckets': map<string, seq<Node>>)
      requires buckets.Keys == set l | l in lanes
      ensures buckets'.Keys == buckets.Keys
      ensures forall l :: l in lanes ==>
        l in buckets' && buckets'[l] == buckets[l] + (if BucketOf(lanes, NodeLane(node)) == Some(l) then [node] else [])
    {
      var nl := node.lane.GetOr("Application");
      buckets' := buckets;
      if nl !in buckets && |lanes| > 0 {
        var found := FuzzyMatch(lanes, nl);
        match found {
          case Some(l) => buckets' := buckets[l := buckets[l] + [node]];
          case None => buckets' := buckets[lanes[0] := buckets[lanes[0]] + [node]];
        }
      } else if nl in buckets {
        buckets' := buckets[nl := buckets[nl] + [node]];
      }
    }

    /** The grid cell of the `k`-th of `count` nodes in the lane at `baseY`. */
    static method GridPosition(offsetX: int, baseY: int, k: nat, count: nat) returns (x: int, y: int)
      ensures x == NodeX(offsetX, k) && y == NodeY(baseY, k, count)
    {
      var row := k / MaxNodesPerRow;
      var col := k % MaxNodesPerRow;
      x := offsetX + LaneHeaderWidth + MarginX + col * (NodeWidth + MarginX);
      if count <= MaxNodesPerRow {
        y := baseY + (LaneHeight - NodeHeight) / 2;
      } else {
        var rowsNeeded := (count + MaxNodesPerRow - 1) / MaxNodesPerRow;
        var totalRowsH := if rowsNeeded > 1 then rowsNeeded * NodeHeight + (rowsNeeded - 1) * MarginY else NodeHeight;
        var startRowY := baseY + (LaneHeight - totalRowsH) / 2;
        y := startRowY + row * (NodeHeight + MarginY);
      }
    }

    /** The lane loop of `build_from_plan`. */
    method CreateLanes(lanes: seq<string>, offsetX: int, startY: int, events0: seq<Event>) returns (events: seq<Event>)
      modifies client
      ensures Run(client.log, cellIds, events, false) ==
        LanesRun(client.answer, Run(old(client.log), cellIds, events0, false), lanes, |lanes|, offsetX, startY)
    {
      ghost var r0 := Run(client.log, cellIds, events0, false);
      events := events0;
      for i := 0 to |lanes|
        invariant Run(client.log, cellIds, events, false) == LanesRun(client.answer, r0, lanes, i, offsetX, startY)
      {
        var resp := client.Send(AddRectangle(offsetX, startY + i * LaneHeight, LaneHeaderWidth, LaneHeight - 10, lanes[i], LaneLabel));
        if resp.success {
          events := events + [LaneCreated(lanes[i], i)];
        } else {
          events := events + [ErrorEvent(LaneError(lanes[i], resp.error))];
        }
      }
    }

    /** The grid loop of one lane; it stops at a node without an id. */
    method CreateLaneNodes(lanes: seq<string>, nodes: seq<Node>, laneIdx: nat, nodesInLane: seq<Node>,
                           offsetX: int, startY: int, events0: seq<Event>) returns (events: seq<Event>, raised: bool)
      requires laneIdx < |lanes| && nodesInLane == LaneMembers(lanes, nodes, lanes[laneIdx])
      modifies this, client
      ensures Run(client.log, cellIds, events, raised) ==
        NodesRun(client.answer, Run(old(client.log), old(cellIds), events0, false), LanePlacements(lanes, nodes, laneIdx, offsetX, startY))
    {
      ghost var r := Run(client.log, cellIds, events0, false);
      ghost var lp := LanePlacements(lanes, nodes, laneIdx, offsetX, startY);
      events, raised := events0, false;
      for nodeIdx := 0 to |nodesInLane|
        invariant Run(client.log, cellIds, events, false) == NodesRun(client.answer, r, lp[..nodeIdx])
      {
        assert lp[..nodeIdx + 1] == lp[..nodeIdx] + [lp[nodeIdx]];
        NodesRunSnoc(client.answer, r, lp[..nodeIdx], lp[nodeIdx]);
        events, raised := CreateGridNode(lanes, nodes, laneIdx, nodesInLane, nodeIdx, offsetX, startY, events);
        if raised {
          // `self.cell_ids[node["id"]]` raised KeyError: the build ends here.
          NodesRunPrefix(client.answer, r, lp, nodeIdx + 1);
          return;
        }
      }
      assert lp[..|lp|] == lp;
    }

    /** The `nodeIdx`-th node of lane `laneIdx`, at its grid position. */
    method CreateGridNode(lanes: seq<string>, nodes: seq<Node>, laneIdx: nat, nodesInLane: seq<Node>, nodeIdx: nat,
                          offsetX: int, startY: int, events0: seq<Event>) returns (events: seq<Event>, raised: bool)
      requires laneIdx < |lanes| && nodesInLane == LaneMembers(lanes, nodes, lanes[laneIdx]) && nodeIdx < |nodesInLane|
      modifies this, client
      ensures Run(client.log, cellIds, events, raised) ==
        NodeStep(client.answer, Run(old(client.log), old(cellIds), events0, false), LanePlacements(lanes, nodes, laneIdx, offsetX, startY)[nodeIdx])
    {
      var lane := lanes[laneIdx];
      var baseY := startY + laneIdx * LaneHeight;
      var node := nodesInLane[nodeIdx];
      var x, y := GridPosition(offsetX, baseY, nodeIdx, |nodesInLane|);
      assert LanePlacements(lanes, nodes, laneIdx, offsetX, startY)[nodeIdx] == Placement(node, lane, x, y);
      events, raised := CreateNode(node, lane, x, y, events0);
    }

    /** One node: add its rectangle and, when the add succeeds, record the
        returned cell id under the node's id. */
    method CreateNode(node: Node, lane: string, x: int, y: int, events0: seq<Event>) returns (events: seq<Event>, raised: bool)
      modifies this, client
      ensures Run(client.log, cellIds, events, raised) ==
        NodeStep(client.answer, Run(old(client.log), old(cellIds), events0, false), Placement(node, lane, x, y))
    {
      var style := StyleKey(node.kind);
      var resp := client.Send(AddRectangle(x, y, NodeWidth, NodeHeight, NodeText(node), NodeType(style)));
      events, raised := events0, false;
      if resp.success {
        var cid := CellIdOf(resp.result);
        match node.id {
          case None =>
            raised := true;
          case Some(id) =>
            cellIds := cellIds[id := cid];
            events := events + [NodeCreated(id, node.name, lane)];
        }
      }
    }

    /** The node loops of `build_from_plan`, lane by lane. */
    method CreateNodes(lanes: seq<string>, nodes: seq<Node>, offsetX: int, startY: int, events0: seq<Event>)
      returns (events: seq<Event>, raised: bool)
      modifies this, client
      ensures Run(client.log, cellIds, events, raised) ==
        NodesRun(client.answer, Run(old(client.log), old(cellIds), events0, false), Placements(lanes, nodes, |lanes|, offsetX, startY))
    {
      ghost var r1 := Run(client.log, cellIds, events0, false);
      events, raised := events0, false;
      var laneNodes := BucketNodes(lanes, nodes);
      for laneIdx := 0 to |lanes|
        invariant Run(client.log, cellIds, events, false) == NodesRun(client.answer, r1, Placements(lanes, nodes, laneIdx, offsetX, startY))
      {
        ghost var before := Placements(lanes, nodes, laneIdx, offsetX, startY);
        ghost var lp := LanePlacements(lanes, nodes, laneIdx, offsetX, startY);
        events, raised := CreateLaneNodes(lanes, nodes, laneIdx, laneNodes[lanes[laneIdx]], offsetX, startY, events);
        NodesRunAppend(client.answer, r1, before, lp);
        assert before + lp == Placements(lanes, nodes, laneIdx + 1, offsetX, startY);
        if raised {
          NodesRunStopsAt(client.answer, r1, lanes, nodes, laneIdx + 1, offsetX, startY);
          return;
        }
      }
    }

    /** The edge loop of `build_from_plan`. */
    method CreateEdges(edges: seq<Edge>, events0: seq<Event>) returns (events: seq<Event>)
      modifies client
      ensures Run(client.log, cellIds, events, false) == EdgesRun(client.answer, Run(old(client.log), cellIds, events0, false), edges)
    {
      ghost var r2 := Run(client.log, cellIds, events0, false);
      events := events0;
      for i := 0 to |edges|
        invariant Run(client.log, cellIds, events, false) == EdgesRun(client.answer, r2, edges[..i])
      {
        var edge := edges[i];
        var caption := edge.labelText.GetOr("");
        var sourceCell := CellOf(cellIds, edge.from);
        var targetCell := CellOf(cellIds, edge.to);
        EdgesRunSnoc(client.answer, r2, edges, i);
        if sourceCell.Some? && sourceCell.value != "" && targetCell.Some? && targetCell.value != "" {
          var resp := client.Send(AddEdge(sourceCell.value, targetCell.value, caption, Connector));
          if resp.success {
            events := events + [EdgeCreated(edge.from, edge.to, caption)];
          }
        }
      }
      assert edges[..|edges|] == edges;
    }

    /** `build_from_plan`: the calls it sends, the ids it records and the
        events it yields are those of `Build`; `raised` says the build
        stopped on a node without an id. */
    method BuildFromPlan(plan: Plan, offsetX: int, offsetY: int, header: Option<string>) returns (events: seq<Event>, raised: bool)
      modifies this, client
      ensures Run(client.log, cellIds, events, raised) == Build(client.answer, old(client.log), old(cellIds), plan, offsetX, offsetY, header)
    {
      ghost var log0, ids0 := client.log, cellIds;
      var startY := offsetY;
      if header.Some? && header.value != "" {
        var _ := client.Send(AddRectangle(offsetX, offsetY, HeaderWidth, HeaderHeight, header.value, HeaderText));
        startY := offsetY + HeaderGap;
      }
      assert client.log == log0 + HeaderCalls(offsetX, offsetY, header) && startY == StartY(offsetY, header);
      events := CreateLanes(plan.lanes, offsetX, startY, [Phase(LayersMessage)]);
      events := events + [Phase(ComponentsMessage)];
      assert Run(client.log, cellIds, events, false) == LanesDone(client.answer, log0, ids0, plan, offsetX, offsetY, header);
      events, raised := CreateNodes(plan.lanes, plan.nodes, offsetX, startY, events);
      if raised {
        return;
      }
      events := events + [Phase(ConnectMessage)];
      events := CreateEdges(plan.edges, events);
    }

    /** `clear_diagram`: as `Clear`. */
    method ClearDiagram() returns (r: Reply)
      modifies this, client
      ensures Cleared(client.log, cellIds, r) == Clear(client.answer, old(client.log), old(cellIds))
    {
      var modelResp := client.Send(ListPagedModel(0, 50));
      if !modelResp.success {
        return modelResp;
      }
      var cells := if modelResp.result.Cells? then modelResp.result.cells else [];
      ghost var log1 := client.log;
      for i := 0 to |cells|
        invariant client.log == log1 + DeleteCalls(cells[..i])
      {
        DeleteCallsSnoc(cells, i);
        match cells[i] {
          case Some(id) => var _ := client.Send(DeleteCell(id));
          case None =>
        }
      }
      assert cells[..|cells|] == cells;
      cellIds := map[];
      r := Reply(true, TextResult(ClearedMessage), None);
    }
  }
}
