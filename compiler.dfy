/** plan_to_drawio.py: the plan compiler.  It places nodes in fixed lane
    bands, chooses each node's style, and emits the diagram as a list of
    cells. */
module PlanToDrawio {
  import opened Wrappers
  import opened Text
  import opened Dicts
  import opened Sorting
  import opened Colors
  import opened Document
  import opened Plans

  const LaneHeight: int := 130
  const LanePadding: int := 20
  const NodeWidth: int := 160
  const NodeHeight: int := 60
  const NodeSpacingX: int := 200
  const GroupPadding: int := 30
  const DiagramMargin: int := 40

  // ---------------------------------------------------------------------------
  // Colours and node styles
  // ---------------------------------------------------------------------------

  datatype Palette = Palette(fill: string, stroke: string, bg: string, text: string)

  const ExternalColors: Palette := Palette("#95a5a6", "#7f8c8d", "#f4f6f6", "#ffffff")

  /** `_get_lane_colors`: the lane's palette, the External one for any other name. */
  function LaneColors(lane: string): Palette {
    if lane == "Experience" then Palette("#0a6ed1", "#0858a8", "#e8f4fd", "#ffffff")
    else if lane == "Application" then Palette("#1a9898", "#147a7a", "#e6f5f5", "#ffffff")
    else if lane == "Integration" then Palette("#f39c12", "#c77d0e", "#fef5e6", "#ffffff")
    else if lane == "Data" then Palette("#6c5ce7", "#5649b9", "#f0eef9", "#ffffff")
    else if lane == "Platform & Security" then Palette("#2c3e50", "#1a252f", "#ebeff2", "#ffffff")
    else ExternalColors
  }

  predicate KnownLane(lane: string) {
    lane in {"Experience", "Application", "Integration", "Data", "Platform & Security", "External"}
  }

  lemma UnknownLaneIsExternal(lane: string)
    requires !KnownLane(lane)
    ensures LaneColors(lane) == LaneColors("External")
  {
  }

  /** `_is_dark`: an empty value reads as black, a missing `#` is put in front,
      anything but six hex digits is not dark, and otherwise luminance < 0.5. */
  function IsDark(hex: string): bool {
    var c := WithHash(if hex == "" then "#000000" else hex);
    MatchesHexColor(c) && Luminance(c) < Half
  }

  lemma IsDarkNeedsHexColor(hex: string)
    requires hex != "" && !MatchesHexColor(WithHash(hex))
    ensures !IsDark(hex)
  {
  }

  lemma IsDarkByLuminance(hex: string)
    requires MatchesHexColor(hex)
    ensures IsDark(hex) <==> Luminance(hex) < Half
  {
  }

  /** A missing `#` makes no difference. */
  lemma IsDarkIgnoresHash(hex: string)
    requires hex != "" && hex[0] != '#'
    ensures IsDark(hex) == IsDark("#" + hex)
  {
    assert ("#" + hex)[0] == '#';
  }

  /** Because of Python's `$`, a colour followed by one newline still counts. */
  lemma IsDarkAcceptsTrailingNewline()
    ensures IsDark("#000000\n")
  {
    var c := "#000000\n";
    assert MatchesHexColor(c);
    assert Luminance(c) == 0;
  }

  /** The palette's fills: Experience, Application, Data and Platform & Security are dark ... */
  lemma PaletteDarkFills()
    ensures IsDark("#0a6ed1") && IsDark("#1a9898") && IsDark("#6c5ce7") && IsDark("#2c3e50")
  {
    assert MatchesHexColor("#0a6ed1") && Luminance("#0a6ed1") == 958878;
    assert MatchesHexColor("#1a9898") && Luminance("#1a9898") == 1252124;
    assert MatchesHexColor("#6c5ce7") && Luminance("#6c5ce7") == 1054374;
    assert MatchesHexColor("#2c3e50") && Luminance("#2c3e50") == 594728;
  }

  /** ... and Integration and External are light. */
  lemma PaletteLightFills()
    ensures !IsDark("#f39c12") && !IsDark("#95a5a6")
  {
    assert MatchesHexColor("#f39c12") && Luminance("#f39c12") == 1645326;
    assert MatchesHexColor("#95a5a6") && Luminance("#95a5a6") == 1616706;
  }

  /** The style of a node's shape, before the colour settings. */
  function ShapeStyle(kind: string): Style {
    if kind == "data" then
      map["shape" := "cylinder3", "whiteSpace" := "wrap", "html" := "1", "boundedLbl" := "1",
          "backgroundOutline" := "1", "size" := "15"]
    else if kind == "security" then
      map["shape" := "hexagon", "perimeter" := "hexagonPerimeter2", "whiteSpace" := "wrap", "html" := "1",
          "fixedSize" := "1", "size" := "20"]
    else
      map["rounded" := "1", "whiteSpace" := "wrap", "html" := "1", "arcSize" := "20"]
  }

  function KindOf(n: Node): string { n.kind.GetOr("app") }

  function LaneOf(n: Node): string { n.lane.GetOr("Application") }

  /** Type `external`, or scope `external` in any letter case. */
  predicate IsExternal(n: Node) {
    KindOf(n) == "external" || Lower(n.scope.GetOr("")) == "external"
  }

  function NodeColors(n: Node): Palette {
    if IsExternal(n) then ExternalColors else LaneColors(LaneOf(n))
  }

  function FontColorFor(fill: string): string {
    if IsDark(fill) then "#ffffff" else "#1a1a1a"
  }

  /** `_node_style`. */
  function NodeStyle(n: Node): Style {
    var p := NodeColors(n);
    ShapeStyle(KindOf(n)) + map["fillColor" := p.fill, "strokeColor" := p.stroke, "strokeWidth" := "2",
      "fontColor" := FontColorFor(p.fill), "fontSize" := "12", "fontStyle" := "1", "shadow" := "1"]
  }

  lemma ExternalNodesAreGrey(n: Node)
    requires IsExternal(n)
    ensures NodeStyle(n)["fillColor"] == "#95a5a6" && NodeStyle(n)["strokeColor"] == "#7f8c8d"
  {
  }

  lemma LaneNodeColors(n: Node)
    requires !IsExternal(n)
    ensures NodeStyle(n)["fillColor"] == LaneColors(LaneOf(n)).fill
    ensures NodeStyle(n)["strokeColor"] == LaneColors(LaneOf(n)).stroke
  {
  }

  lemma NodeShapes(n: Node)
    ensures KindOf(n) == "data" ==> NodeStyle(n)["shape"] == "cylinder3"
    ensures KindOf(n) == "security" ==> NodeStyle(n)["shape"] == "hexagon"
    ensures KindOf(n) != "data" && KindOf(n) != "security" ==>
      "shape" !in NodeStyle(n) && NodeStyle(n)["rounded"] == "1"
  {
  }

  /** The label is white exactly on a dark fill. */
  lemma NodeContrast(n: Node)
    ensures NodeStyle(n)["fontColor"] == "#ffffff" <==> IsDark(NodeStyle(n)["fillColor"])
  {
    var fill := NodeColors(n).fill;
    assert NodeStyle(n)["fontColor"] == FontColorFor(fill) && NodeStyle(n)["fillColor"] == fill;
    assert "#1a1a1a" != "#ffffff" by { assert "#1a1a1a"[1] != "#ffffff"[1]; }
  }

  // ---------------------------------------------------------------------------
  // Lane bands
  // ---------------------------------------------------------------------------

  /** The dict `_lane_positions` builds: lane i at 80 + 150 i, a repeated name keeping its last y. */
  function LaneY(lanes: seq<string>): map<string, int> {
    if |lanes| == 0 then map[]
    else LaneY(lanes[..|lanes| - 1])[lanes[|lanes| - 1] := DiagramMargin + 40 + (LaneHeight + LanePadding) * (|lanes| - 1)]
  }

  /** `lane_y.get(lane, 120)`. */
  function LaneYOr(laneY: map<string, int>, lane: string): int {
    if lane in laneY then laneY[lane] else 120
  }

  method LanePositions(lanes: seq<string>) returns (positions: map<string, int>)
    ensures positions == LaneY(lanes)
  {
    positions := map[];
    var y := DiagramMargin + 40;
    for i := 0 to |lanes|
      invariant positions == LaneY(lanes[..i])
      invariant y == DiagramMargin + 40 + (LaneHeight + LanePadding) * i
    {
      assert lanes[..i + 1][..i] == lanes[..i];
      positions := positions[lanes[i] := y];
      y := y + LaneHeight + LanePadding;
    }
    assert lanes[..|lanes|] == lanes;
  }

  /** Every listed lane has a band, at the y of its last occurrence. */
  lemma {:induction false} LaneYAtLastOccurrence(lanes: seq<string>, i: int)
    requires 0 <= i < |lanes| && forall j :: i < j < |lanes| ==> lanes[j] != lanes[i]
    ensures lanes[i] in LaneY(lanes) && LaneY(lanes)[lanes[i]] == 80 + 150 * i
  {
    if i < |lanes| - 1 {
      var p := lanes[..|lanes| - 1];
      assert forall j :: i < j < |p| ==> p[j] == lanes[j];
      LaneYAtLastOccurrence(p, i);
      assert p[i] == lanes[i];
    }
  }

  lemma {:induction false} LaneYDomain(lanes: seq<string>, lane: string)
    ensures lane in LaneY(lanes) <==> lane in lanes
  {
    if |lanes| > 0 {
      var p := lanes[..|lanes| - 1];
      LaneYDomain(p, lane);
      assert lanes == p + [lanes[|lanes| - 1]];
    }
  }

  /** With distinct names, lane i's band is at y = 80 + 150 i. */
  lemma LaneYDistinct(lanes: seq<string>, i: int)
    requires 0 <= i < |lanes| && forall j, k :: 0 <= j < k < |lanes| ==> lanes[j] != lanes[k]
    ensures lanes[i] in LaneY(lanes) && LaneY(lanes)[lanes[i]] == 80 + 150 * i
  {
    LaneYAtLastOccurrence(lanes, i);
  }

  // ---------------------------------------------------------------------------
  // Node layout
  // ---------------------------------------------------------------------------

  type Pos = (int, int)

  datatype CompileError = MissingNodeId

  /** `nodes_by_lane` after the bucketing loop: per lane, in first-appearance order, its nodes in order. */
  function Buckets(nodes: seq<Node>): Dict<string, seq<Node>> {
    if |nodes| == 0 then []
    else
      var d := Buckets(nodes[..|nodes| - 1]);
      var n := nodes[|nodes| - 1];
      Put(d, LaneOf(n), Get(d, LaneOf(n)).GetOr([]) + [n])
  }

  /** The nodes of one lane, in plan order. */
  function InLane(nodes: seq<Node>, lane: string): seq<Node> {
    if |nodes| == 0 then []
    else InLane(nodes[..|nodes| - 1], lane) + (if LaneOf(nodes[|nodes| - 1]) == lane then [nodes[|nodes| - 1]] else [])
  }

  lemma {:induction false} BucketsKeysUnique(nodes: seq<Node>)
    ensures KeysUnique(Buckets(nodes))
  {
    if |nodes| > 0 { BucketsKeysUnique(nodes[..|nodes| - 1]); }
  }

  /** Each lane seen is a key whose bucket holds that lane's nodes in plan order. */
  lemma {:induction false} BucketsByLane(nodes: seq<Node>, lane: string)
    ensures Get(Buckets(nodes), lane) == if |InLane(nodes, lane)| > 0 then Some(InLane(nodes, lane)) else None
  {
    if |nodes| > 0 {
      var p := nodes[..|nodes| - 1];
      var n := nodes[|nodes| - 1];
      var d := Buckets(p);
      BucketsKeysUnique(p);
      BucketsByLane(p, lane);
      BucketsByLane(p, LaneOf(n));
      GetPut(d, LaneOf(n), Get(d, LaneOf(n)).GetOr([]) + [n], lane);
      assert nodes[..|nodes| - 1] == p;
      if LaneOf(n) == lane {
        assert InLane(nodes, lane) == InLane(p, lane) + [n];
      } else {
        assert InLane(nodes, lane) == InLane(p, lane);
      }
    }
  }

  /** Python's `<` on strings: lexicographic by code point. */
  predicate StrLess(a: string, b: string) {
    if |a| == 0 then |b| > 0
    else if |b| == 0 then false
    else a[0] < b[0] || (a[0] == b[0] && StrLess(a[1..], b[1..]))
  }

  /** Python's `<` on pairs of strings. */
  predicate PairLess(a: (string, string), b: (string, string)) {
    StrLess(a.0, b.0) || (a.0 == b.0 && StrLess(a.1, b.1))
  }

  /** `(n.get("group") or "zzz", n.get("id", ""))`. */
  function SortKey(n: Node): (string, string) {
    (if Truthy(n.group) then n.group.value else "zzz", n.id.GetOr(""))
  }

  lemma {:induction false} StrLessIrreflexive(a: string)
    ensures !StrLess(a, a)
  {
    if |a| > 0 { StrLessIrreflexive(a[1..]); }
  }

  lemma {:induction false} StrLessTransitive(a: string, b: string, c: string)
    requires StrLess(a, b) && StrLess(b, c)
    ensures StrLess(a, c)
  {
    if |a| > 0 && |b| > 0 && |c| > 0 && a[0] == b[0] && b[0] == c[0] {
      StrLessTransitive(a[1..], b[1..], c[1..]);
    }
  }

  lemma {:induction false} StrLessTotal(a: string, b: string)
    ensures a == b || StrLess(a, b) || StrLess(b, a)
  {
    if |a| > 0 && |b| > 0 && a[0] == b[0] {
      StrLessTotal(a[1..], b[1..]);
      if a[1..] == b[1..] { assert a == [a[0]] + a[1..] && b == [b[0]] + b[1..]; }
    }
  }

  lemma PairLessIsStrictTotalOrder()
    ensures StrictTotalOrder(PairLess)
  {
    forall a: (string, string) ensures !PairLess(a, a) {
      StrLessIrreflexive(a.0);
      StrLessIrreflexive(a.1);
    }
    forall a: (string, string), b: (string, string), c: (string, string) | PairLess(a, b) && PairLess(b, c)
      ensures PairLess(a, c)
    {
      if StrLess(a.0, b.0) && StrLess(b.0, c.0) { StrLessTransitive(a.0, b.0, c.0); }
      if a.0 == b.0 && b.0 == c.0 {
        StrLessIrreflexive(a.0);
        StrLessTransitive(a.1, b.1, c.1);
      }
    }
    forall a: (string, string), b: (string, string) ensures a == b || PairLess(a, b) || PairLess(b, a) {
      StrLessTotal(a.0, b.0);
      StrLessTotal(a.1, b.1);
    }
  }

  /** One lane's nodes in drawing order: `nodes.sort(key=...)`, which is stable. */
  function SortLane(nodes: seq<Node>): seq<Node> {
    SortBy(nodes, SortKey, PairLess)
  }

  /** The placements of one lane's sorted nodes: column k at x = 220 + 200 k. */
  function Row(nodes: seq<Node>, y: int): (r: seq<(Node, Pos)>)
    ensures |r| == |nodes|
    ensures forall k :: 0 <= k < |nodes| ==> r[k] == (nodes[k], (DiagramMargin + 180 + NodeSpacingX * k, y))
  {
    seq(|nodes|, k requires 0 <= k < |nodes| => (nodes[k], (DiagramMargin + 180 + NodeSpacingX * k, y)))
  }

  /** Every assignment `positions[node["id"]] = (x, y)`, in execution order. */
  function Placements(buckets: Dict<string, seq<Node>>, laneY: map<string, int>): seq<(Node, Pos)> {
    if |buckets| == 0 then []
    else
      var (lane, nodes) := buckets[|buckets| - 1];
      Placements(buckets[..|buckets| - 1], laneY) + Row(SortLane(nodes), LaneYOr(laneY, lane) + 35)
  }

  /** The `positions` dict: looked up by id only, so its order does not matter. */
  type Positions = map<string, Pos>

  /** The positions after a run of assignments, a later one for the same id winning. */
  function PutAll(ps: seq<(Node, Pos)>): Positions {
    if |ps| == 0 then map[]
    else PutAll(ps[..|ps| - 1])[ps[|ps| - 1].0.id.GetOr("") := ps[|ps| - 1].1]
  }

  predicate AllHaveIds(ps: seq<(Node, Pos)>) {
    forall i :: 0 <= i < |ps| ==> ps[i].0.id.Some?
  }

  /** The outcome of a run of assignments: `node["id"]` raises `KeyError` for a node without an id. */
  function Placed(ps: seq<(Node, Pos)>): Result<Positions, CompileError> {
    if AllHaveIds(ps) then Success(PutAll(ps)) else Failure(MissingNodeId)
  }

  /** `_layout_nodes_in_lanes`. */
  function Layout(nodes: seq<Node>, laneY: map<string, int>): Result<Positions, CompileError> {
    Placed(Placements(Buckets(nodes), laneY))
  }

  method LayoutNodesInLanes(nodes: seq<Node>, laneY: map<string, int>) returns (r: Result<Positions, CompileError>)
    ensures r == Layout(nodes, laneY)
  {
    var byLane := BucketByLane(nodes);
    r := PlaceLanes(byLane, laneY);
  }

  /** The second loop of `_layout_nodes_in_lanes`, lane by lane in bucket order. */
  method PlaceLanes(byLane: Dict<string, seq<Node>>, laneY: map<string, int>) returns (r: Result<Positions, CompileError>)
    ensures r == Placed(Placements(byLane, laneY))
  {
    var positions: Positions := map[];
    for b := 0 to |byLane|
      invariant AllHaveIds(Placements(byLane[..b], laneY))
      invariant positions == PutAll(Placements(byLane[..b], laneY))
    {
      var ok;
      ok, positions := PlaceBucket(byLane, b, laneY, positions);
      if !ok {
        return Failure(MissingNodeId);
      }
    }
    assert byLane[..|byLane|] == byLane;
    r := Success(positions);
  }

  /** One pass of the second loop: the bucket's lane row, sorted and placed. */
  method PlaceBucket(byLane: Dict<string, seq<Node>>, b: int, laneY: map<string, int>, positions: Positions)
    returns (ok: bool, positions': Positions)
    requires 0 <= b < |byLane|
    requires AllHaveIds(Placements(byLane[..b], laneY)) && positions == PutAll(Placements(byLane[..b], laneY))
    ensures ok ==> AllHaveIds(Placements(byLane[..b + 1], laneY)) && positions' == PutAll(Placements(byLane[..b + 1], laneY))
    ensures !ok ==> Placed(Placements(byLane, laneY)) == Failure(MissingNodeId)
  {
    var lane, members := byLane[b].0, byLane[b].1;
    PlacementsSnoc(byLane, b, laneY);
    ok, positions' := PlaceRow(positions, Placements(byLane[..b], laneY), SortLane(members), LaneYOr(laneY, lane) + 35);
    if !ok {
      LayoutFailsAt(byLane, b + 1, laneY);
    }
  }

  /** The first loop of `_layout_nodes_in_lanes`. */
  method BucketByLane(nodes: seq<Node>) returns (byLane: Dict<string, seq<Node>>)
    ensures byLane == Buckets(nodes)
  {
    byLane := [];
    for i := 0 to |nodes|
      invariant byLane == Buckets(nodes[..i])
    {
      assert nodes[..i + 1][..i] == nodes[..i];
      var lane := LaneOf(nodes[i]);
      byLane := Put(byLane, lane, Get(byLane, lane).GetOr([]) + [nodes[i]]);
    }
    assert nodes[..|nodes|] == nodes;
  }

  /** The inner loop of `_layout_nodes_in_lanes` over one lane's sorted nodes. */
  method PlaceRow(positions: Positions, ghost done: seq<(Node, Pos)>, sorted: seq<Node>, y: int)
    returns (ok: bool, positions': Positions)
    requires AllHaveIds(done) && positions == PutAll(done)
    ensures ok <==> AllHaveIds(done + Row(sorted, y))
    ensures ok ==> positions' == PutAll(done + Row(sorted, y))
  {
    ghost var row := Row(sorted, y);
    positions' := positions;
    assert done + row[..0] == done;
    var x := DiagramMargin + 180;
    for k := 0 to |sorted|
      invariant x == DiagramMargin + 180 + NodeSpacingX * k
      invariant AllHaveIds(done + row[..k]) && positions' == PutAll(done + row[..k])
    {
      PlaceStep(done, row, k);
      if sorted[k].id.None? {
        return false, positions';
      }
      positions' := positions'[sorted[k].id.value := (x, y)];
      x := x + NodeSpacingX;
    }
    assert row[..|sorted|] == row;
    return true, positions';
  }

  /** One assignment of the inner loop, and the failure it may reveal. */
  lemma PlaceStep(done: seq<(Node, Pos)>, row: seq<(Node, Pos)>, k: int)
    requires 0 <= k < |row|
    ensures PutAll(done + row[..k + 1]) == PutAll(done + row[..k])[row[k].0.id.GetOr("") := row[k].1]
    ensures AllHaveIds(done + row[..k + 1]) <==> AllHaveIds(done + row[..k]) && row[k].0.id.Some?
    ensures row[k].0.id.None? ==> !AllHaveIds(done + row)
  {
    assert done + row[..k + 1] == (done + row[..k]) + [row[k]];
    PutAllSnoc(done + row[..k], row[k]);
    assert (done + row)[|done| + k] == row[k];
  }

  /** A node without an id among the first buckets' placements is one among all of them. */
  lemma LayoutFailsAt(buckets: Dict<string, seq<Node>>, b: int, laneY: map<string, int>)
    requires 0 <= b <= |buckets| && !AllHaveIds(Placements(buckets[..b], laneY))
    ensures Placed(Placements(buckets, laneY)) == Failure(MissingNodeId)
  {
    PlacementsPrefix(buckets, b, laneY);
    AllHaveIdsPrefix(Placements(buckets[..b], laneY), Placements(buckets, laneY));
  }

  lemma PutAllSnoc(a: seq<(Node, Pos)>, e: (Node, Pos))
    ensures PutAll(a + [e]) == PutAll(a)[e.0.id.GetOr("") := e.1]
    ensures AllHaveIds(a + [e]) <==> AllHaveIds(a) && e.0.id.Some?
  {
    assert (a + [e])[..|a|] == a;
    assert forall i :: 0 <= i < |a| ==> (a + [e])[i] == a[i];
  }

  lemma AllHaveIdsPrefix(a: seq<(Node, Pos)>, b: seq<(Node, Pos)>)
    requires a <= b
    ensures AllHaveIds(b) ==> AllHaveIds(a)
  {
    assert forall i :: 0 <= i < |a| ==> a[i] == b[i];
  }

  lemma PlacementsSnoc(buckets: Dict<string, seq<Node>>, b: int, laneY: map<string, int>)
    requires 0 <= b < |buckets|
    ensures Placements(buckets[..b + 1], laneY)
      == Placements(buckets[..b], laneY) + Row(SortLane(buckets[b].1), LaneYOr(laneY, buckets[b].0) + 35)
  {
    assert buckets[..b + 1][..b] == buckets[..b];
  }

  /** The placements of a prefix of the buckets are a prefix of all placements. */
  lemma {:induction false} PlacementsPrefix(buckets: Dict<string, seq<Node>>, b: int, laneY: map<string, int>)
    requires 0 <= b <= |buckets|
    ensures Placements(buckets[..b], laneY) <= Placements(buckets, laneY)
    decreases |buckets| - b
  {
    if b < |buckets| {
      PlacementsPrefix(buckets, b + 1, laneY);
      assert buckets[..b + 1][..b] == buckets[..b];
    } else {
      assert buckets[..b] == buckets;
    }
  }

  // ---------------------------------------------------------------------------
  // Layout theorems
  // ---------------------------------------------------------------------------

  /** The nodes the placements assign, in order. */
  function PlacedNodes(ps: seq<(Node, Pos)>): (ns: seq<Node>)
    ensures |ns| == |ps| && forall i :: 0 <= i < |ps| ==> ns[i] == ps[i].0
  {
    seq(|ps|, i requires 0 <= i < |ps| => ps[i].0)
  }

  /** Every bucket's nodes, concatenated in bucket order. */
  function Flatten(d: Dict<string, seq<Node>>): seq<Node> {
    if |d| == 0 then [] else Flatten(d[..|d| - 1]) + d[|d| - 1].1
  }

  lemma {:induction false} FlattenAppend(a: Dict<string, seq<Node>>, b: Dict<string, seq<Node>>)
    ensures Flatten(a + b) == Flatten(a) + Flatten(b)
    decreases |b|
  {
    if |b| == 0 {
      assert a + b == a;
    } else {
      assert (a + b)[..|a + b| - 1] == a + b[..|b| - 1];
      FlattenAppend(a, b[..|b| - 1]);
    }
  }

  lemma FlattenReplace(d: Dict<string, seq<Node>>, i: int, e: (string, seq<Node>))
    requires 0 <= i < |d|
    ensures Flatten(d) == Flatten(d[..i]) + d[i].1 + Flatten(d[i + 1..])
    ensures Flatten(d[i := e]) == Flatten(d[..i]) + e.1 + Flatten(d[i + 1..])
  {
    assert d == d[..i] + [d[i]] + d[i + 1..];
    assert d[i := e] == d[..i] + [e] + d[i + 1..];
    FlattenAppend(d[..i] + [d[i]], d[i + 1..]);
    FlattenAppend(d[..i], [d[i]]);
    FlattenAppend(d[..i] + [e], d[i + 1..]);
    FlattenAppend(d[..i], [e]);
    assert [d[i]][..0] == [] && [e][..0] == [];
  }

  /** Appending to one bucket adds exactly that node to the union of all buckets. */
  lemma FlattenPut(d: Dict<string, seq<Node>>, lane: string, n: Node)
    requires KeysUnique(d)
    ensures multiset(Flatten(Put(d, lane, Get(d, lane).GetOr([]) + [n]))) == multiset(Flatten(d)) + multiset{n}
  {
    if Find(d, lane) < 0 {
      FlattenPutNew(d, lane, n);
    } else {
      FlattenPutExisting(d, lane, n);
    }
  }

  lemma FlattenPutNew(d: Dict<string, seq<Node>>, lane: string, n: Node)
    requires Find(d, lane) < 0
    ensures multiset(Flatten(Put(d, lane, Get(d, lane).GetOr([]) + [n]))) == multiset(Flatten(d)) + multiset{n}
  {
    assert Get(d, lane).GetOr([]) + [n] == [n];
    assert Put(d, lane, [n]) == d + [(lane, [n])];
    assert (d + [(lane, [n])])[..|d|] == d;
    assert Flatten(d + [(lane, [n])]) == Flatten(d) + [n];
  }

  lemma FlattenPutExisting(d: Dict<string, seq<Node>>, lane: string, n: Node)
    requires Find(d, lane) >= 0
    ensures multiset(Flatten(Put(d, lane, Get(d, lane).GetOr([]) + [n]))) == multiset(Flatten(d)) + multiset{n}
  {
    var i := Find(d, lane);
    var v := d[i].1 + [n];
    assert Get(d, lane).GetOr([]) + [n] == v;
    assert Put(d, lane, v) == d[i := (lane, v)];
    FlattenReplace(d, i, (lane, v));
    MultisetInsertMiddle(Flatten(d[..i]), d[i].1, Flatten(d[i + 1..]), n);
  }

  lemma MultisetInsertMiddle<T>(a: seq<T>, b: seq<T>, c: seq<T>, x: T)
    ensures multiset(a + (b + [x]) + c) == multiset(a + b + c) + multiset{x}
  {
  }

  /** The buckets hold each node exactly once. */
  lemma {:induction false} BucketsPartition(nodes: seq<Node>)
    ensures multiset(Flatten(Buckets(nodes))) == multiset(nodes)
  {
    if |nodes| > 0 {
      BucketsPartition(nodes[..|nodes| - 1]);
      BucketsSnoc(nodes);
      MultisetSnoc(nodes);
    }
  }

  /** Bucketing one more node adds it to the buckets' contents. */
  lemma BucketsSnoc(nodes: seq<Node>)
    requires |nodes| > 0
    ensures multiset(Flatten(Buckets(nodes)))
      == multiset(Flatten(Buckets(nodes[..|nodes| - 1]))) + multiset{nodes[|nodes| - 1]}
  {
    var p, n := nodes[..|nodes| - 1], nodes[|nodes| - 1];
    BucketsKeysUnique(p);
    FlattenPut(Buckets(p), LaneOf(n), n);
  }

  lemma MultisetSnoc<T>(s: seq<T>)
    requires |s| > 0
    ensures multiset(s) == multiset(s[..|s| - 1]) + multiset{s[|s| - 1]}
  {
    assert s == s[..|s| - 1] + [s[|s| - 1]];
  }

  /** Every node the buckets hold is placed exactly once. */
  lemma {:induction false} PlacedNodesPermute(buckets: Dict<string, seq<Node>>, laneY: map<string, int>)
    ensures multiset(PlacedNodes(Placements(buckets, laneY))) == multiset(Flatten(buckets))
  {
    if |buckets| > 0 {
      var prefix := buckets[..|buckets| - 1];
      var (lane, members) := buckets[|buckets| - 1];
      var a := Placements(prefix, laneY);
      var row := Row(SortLane(members), LaneYOr(laneY, lane) + 35);
      PlacedNodesPermute(prefix, laneY);
      assert Placements(buckets, laneY) == a + row;
      PlacedNodesAppend(a, row);
      PlacedNodesRow(SortLane(members), LaneYOr(laneY, lane) + 35);
      SortByPermutes(members, SortKey, PairLess);
      assert Flatten(buckets) == Flatten(prefix) + members;
    }
  }

  lemma PlacedNodesAppend(a: seq<(Node, Pos)>, b: seq<(Node, Pos)>)
    ensures PlacedNodes(a + b) == PlacedNodes(a) + PlacedNodes(b)
  {
  }

  lemma PlacedNodesRow(nodes: seq<Node>, y: int)
    ensures PlacedNodes(Row(nodes, y)) == nodes
  {
  }

  /** No two nodes share an id. */
  predicate UniqueIds(ns: seq<Node>) {
    forall i, j :: 0 <= i < |ns| && 0 <= j < |ns| && i != j ==> ns[i].id != ns[j].id
  }

  predicate AllIds(ns: seq<Node>) {
    forall i :: 0 <= i < |ns| ==> ns[i].id.Some?
  }

  lemma CountOne(a: seq<Node>, p: int)
    requires UniqueIds(a) && 0 <= p < |a|
    ensures multiset(a)[a[p]] == 1
  {
    assert a == a[..p] + [a[p]] + a[p + 1..];
    assert a[p] !in a[..p] by {
      forall i | 0 <= i < p ensures a[..p][i] != a[p] { assert a[..p][i] == a[i]; }
    }
    var t := a[p + 1..];
    assert a[p] !in t by {
      forall i | 0 <= i < |t| ensures t[i] != a[p] { assert t[i] == a[p + 1 + i]; }
    }
  }

  lemma CountTwo(b: seq<Node>, i: int, j: int)
    requires 0 <= i < j < |b| && b[i] == b[j]
    ensures multiset(b)[b[i]] >= 2
  {
    assert b == b[..j] + b[j..];
    assert b[i] in b[..j] by { assert b[..j][i] == b[i]; }
    assert b[j] in b[j..] by { assert b[j..][0] == b[j]; }
  }

  /** Distinct ids stay distinct under any reordering. */
  lemma UniqueIdsPermutation(a: seq<Node>, b: seq<Node>)
    requires multiset(a) == multiset(b) && UniqueIds(a)
    ensures UniqueIds(b)
  {
    forall i, j | 0 <= i < |b| && 0 <= j < |b| && i < j ensures b[i].id != b[j].id {
      if b[i].id == b[j].id {
        assert b[i] in multiset(a) && b[j] in multiset(a);
        var p :| 0 <= p < |a| && a[p] == b[i];
        var q :| 0 <= q < |a| && a[q] == b[j];
        CountTwo(b, i, j);
        CountOne(a, p);
      }
    }
  }

  /** The surviving position of a placement whose id no other placement uses. */
  lemma {:induction false} PutAllAt(ps: seq<(Node, Pos)>, j: int)
    requires 0 <= j < |ps| && AllHaveIds(ps) && UniqueIds(PlacedNodes(ps))
    ensures ps[j].0.id.value in PutAll(ps) && PutAll(ps)[ps[j].0.id.value] == ps[j].1
  {
    if j < |ps| - 1 {
      var p := ps[..|ps| - 1];
      assert PlacedNodes(ps)[j] == ps[j].0 && PlacedNodes(ps)[|ps| - 1] == ps[|ps| - 1].0;
      assert UniqueIds(PlacedNodes(p)) by {
        forall a, b | 0 <= a < |p| && 0 <= b < |p| && a != b ensures PlacedNodes(p)[a].id != PlacedNodes(p)[b].id {
          assert PlacedNodes(ps)[a] == PlacedNodes(p)[a] && PlacedNodes(ps)[b] == PlacedNodes(p)[b];
        }
      }
      PutAllAt(p, j);
      assert p[j] == ps[j];
    }
  }

  /** Where the k-th sorted node of bucket b is assigned. */
  lemma PlacementOfLane(buckets: Dict<string, seq<Node>>, laneY: map<string, int>, b: int, lane: string, members: seq<Node>, k: int)
    returns (j: int)
    requires 0 <= b < |buckets| && buckets[b] == (lane, members) && 0 <= k < |members|
    ensures 0 <= j < |Placements(buckets, laneY)|
    ensures Placements(buckets, laneY)[j] == (SortLane(members)[k], (220 + 200 * k, LaneYOr(laneY, lane) + 35))
  {
    var pre := Placements(buckets[..b], laneY);
    var row := Row(SortLane(members), LaneYOr(laneY, lane) + 35);
    PlacementsSnoc(buckets, b, laneY);
    PlacementsPrefix(buckets, b + 1, laneY);
    IndexInPrefix(pre, row, Placements(buckets, laneY), k);
    j := |pre| + k;
  }

  lemma IndexInPrefix<T>(pre: seq<T>, row: seq<T>, all: seq<T>, k: int)
    requires pre + row <= all && 0 <= k < |row|
    ensures |pre| + k < |all| && all[|pre| + k] == row[k]
  {
    assert (pre + row)[|pre| + k] == row[k];
  }

  /** The nodes placed are exactly the plan's nodes, rearranged. */
  lemma PlacementsPermutePlan(nodes: seq<Node>, laneY: map<string, int>)
    ensures multiset(PlacedNodes(Placements(Buckets(nodes), laneY))) == multiset(nodes)
  {
    PlacedNodesPermute(Buckets(nodes), laneY);
    BucketsPartition(nodes);
  }

  /** Layout fails exactly when some node has no id. */
  lemma LayoutFailsIffMissingId(nodes: seq<Node>, laneY: map<string, int>)
    ensures Layout(nodes, laneY).Failure? <==> !AllIds(nodes)
  {
    var ps := Placements(Buckets(nodes), laneY);
    PlacementsPermutePlan(nodes, laneY);
    if !AllIds(nodes) {
      var i :| 0 <= i < |nodes| && nodes[i].id.None?;
      assert nodes[i] in multiset(PlacedNodes(ps));
      var j :| 0 <= j < |ps| && PlacedNodes(ps)[j] == nodes[i];
    } else {
      forall j | 0 <= j < |ps| ensures ps[j].0.id.Some? {
        assert PlacedNodes(ps)[j] in multiset(nodes);
      }
    }
  }

  /** With every id present and distinct, the k-th node of a lane, in `(group or "zzz", id)` order,
      sits at x = 220 + 200 k and y = the lane's y + 35 (155 for a lane with no band). */
  lemma LayoutGrid(nodes: seq<Node>, laneY: map<string, int>, lane: string, k: int)
    requires AllIds(nodes) && UniqueIds(nodes)
    requires 0 <= k < |InLane(nodes, lane)|
    ensures Layout(nodes, laneY).Success?
    ensures var n := SortLane(InLane(nodes, lane))[k];
      var positions := Layout(nodes, laneY).value;
      n.id.Some? && n.id.value in positions && positions[n.id.value] == (220 + 200 * k, LaneYOr(laneY, lane) + 35)
  {
    var bs := Buckets(nodes);
    var ps := Placements(bs, laneY);
    LayoutFailsIffMissingId(nodes, laneY);
    assert AllHaveIds(ps);
    assert Layout(nodes, laneY) == Success(PutAll(ps));
    var j := LanePlacement(nodes, laneY, lane, k);
    PlacedUniqueIds(nodes, laneY);
    PutAllAt(ps, j);
  }

  /** Where the k-th sorted node of a lane is assigned. */
  lemma LanePlacement(nodes: seq<Node>, laneY: map<string, int>, lane: string, k: int) returns (j: int)
    requires 0 <= k < |InLane(nodes, lane)|
    ensures 0 <= j < |Placements(Buckets(nodes), laneY)|
    ensures Placements(Buckets(nodes), laneY)[j].0 == SortLane(InLane(nodes, lane))[k]
    ensures Placements(Buckets(nodes), laneY)[j].1 == (220 + 200 * k, LaneYOr(laneY, lane) + 35)
  {
    var b := BucketIndex(nodes, lane);
    j := PlacementOfLane(Buckets(nodes), laneY, b, lane, InLane(nodes, lane), k);
  }

  /** Where a lane's bucket sits among the buckets. */
  lemma BucketIndex(nodes: seq<Node>, lane: string) returns (b: int)
    requires |InLane(nodes, lane)| > 0
    ensures 0 <= b < |Buckets(nodes)| && Buckets(nodes)[b] == (lane, InLane(nodes, lane))
  {
    BucketsByLane(nodes, lane);
    b :| 0 <= b < |Buckets(nodes)| && Buckets(nodes)[b] == (lane, InLane(nodes, lane));
  }

  lemma PlacedUniqueIds(nodes: seq<Node>, laneY: map<string, int>)
    requires UniqueIds(nodes)
    ensures UniqueIds(PlacedNodes(Placements(Buckets(nodes), laneY)))
  {
    PlacementsPermutePlan(nodes, laneY);
    UniqueIdsPermutation(nodes, PlacedNodes(Placements(Buckets(nodes), laneY)));
  }

  /** Two nodes of one lane sit side by side: 200 apart, more than the 160 width. */
  lemma SameLaneDisjoint(nodes: seq<Node>, laneY: map<string, int>, lane: string, k1: int, k2: int)
    requires AllIds(nodes) && UniqueIds(nodes)
    requires 0 <= k1 < k2 < |InLane(nodes, lane)|
    ensures Layout(nodes, laneY).Success?
    ensures var s := SortLane(InLane(nodes, lane)); var positions := Layout(nodes, laneY).value;
      s[k1].id.Some? && s[k2].id.Some?
      && s[k1].id.value in positions && s[k2].id.value in positions
      && positions[s[k1].id.value].0 + NodeWidth < positions[s[k2].id.value].0
  {
    LayoutGrid(nodes, laneY, lane, k1);
    LayoutGrid(nodes, laneY, lane, k2);
  }

  /** Nodes of two distinct listed lanes are at least 150 apart vertically, more than the 60 height. */
  lemma DistinctLanesDisjoint(nodes: seq<Node>, lanes: seq<string>, i1: int, i2: int, k1: int, k2: int)
    requires AllIds(nodes) && UniqueIds(nodes)
    requires forall a, b :: 0 <= a < b < |lanes| ==> lanes[a] != lanes[b]
    requires 0 <= i1 < |lanes| && 0 <= i2 < |lanes| && i1 != i2
    requires 0 <= k1 < |InLane(nodes, lanes[i1])| && 0 <= k2 < |InLane(nodes, lanes[i2])|
    ensures Layout(nodes, LaneY(lanes)).Success?
    ensures var n1 := SortLane(InLane(nodes, lanes[i1]))[k1]; var n2 := SortLane(InLane(nodes, lanes[i2]))[k2];
      var positions := Layout(nodes, LaneY(lanes)).value;
      n1.id.Some? && n2.id.Some?
      && n1.id.value in positions && n2.id.value in positions
      && (positions[n1.id.value].1 + NodeHeight < positions[n2.id.value].1
          || positions[n2.id.value].1 + NodeHeight < positions[n1.id.value].1)
  {
    LayoutGrid(nodes, LaneY(lanes), lanes[i1], k1);
    LayoutGrid(nodes, LaneY(lanes), lanes[i2], k2);
    LaneYDistinct(lanes, i1);
    LaneYDistinct(lanes, i2);
  }

  /** A node whose lane has no band is placed at y = 155, only 40 below the row of the
      first lane (y = 115): in the same column the two 160x60 boxes overlap. */
  lemma UnlistedLaneCollides(nodes: seq<Node>, lanes: seq<string>, lane: string, k: int)
    requires AllIds(nodes) && UniqueIds(nodes)
    requires forall a, b :: 0 <= a < b < |lanes| ==> lanes[a] != lanes[b]
    requires |lanes| > 0 && lane !in lanes
    requires k < |InLane(nodes, lane)| && k < |InLane(nodes, lanes[0])|
    requires 0 <= k
    ensures Layout(nodes, LaneY(lanes)).Success?
    ensures var n := SortLane(InLane(nodes, lane))[k]; var m := SortLane(InLane(nodes, lanes[0]))[k];
      var positions := Layout(nodes, LaneY(lanes)).value;
      n.id.Some? && m.id.Some? && n.id.value in positions && m.id.value in positions
      && positions[n.id.value] == (220 + 200 * k, 155)
      && positions[m.id.value] == (220 + 200 * k, 115)
  {
    LayoutGrid(nodes, LaneY(lanes), lane, k);
    LayoutGrid(nodes, LaneY(lanes), lanes[0], k);
    LaneYDomain(lanes, lane);
    LaneYDistinct(lanes, 0);
  }

  // ---------------------------------------------------------------------------
  // Canvas size
  // ---------------------------------------------------------------------------

  /** `max(x for x, _ in positions.values())`. */
  ghost function MaxX(m: Positions): (r: int)
    requires |m| > 0
    ensures forall k :: k in m ==> m[k].0 <= r
    ensures exists k :: k in m && m[k].0 == r
    decreases |m|
  {
    var k :| k in m;
    var rest := m - {k};
    assert rest.Keys == m.Keys - {k};
    assert forall k' :: k' in rest ==> rest[k'] == m[k'];
    if |rest| == 0 then
      assert m.Keys <= {k};
      m[k].0
    else
      var r := MaxX(rest);
      var w :| w in rest && rest[w].0 == r;
      assert w in m && m[w].0 == r;
      if m[k].0 > r then m[k].0 else r
  }

  /** `_calculate_diagram_size`. */
  ghost function DiagramSize(m: Positions, laneCount: int): (int, int) {
    if |m| == 0 then (1000, 600)
    else
      var right := MaxX(m) + NodeWidth + DiagramMargin;
      (if right > 1200 then right else 1200, DiagramMargin * 2 + 40 + (LaneHeight + LanePadding) * laneCount)
  }

  lemma MaxXUnique(m: Positions, best: int)
    requires |m| > 0
    requires forall k :: k in m ==> m[k].0 <= best
    requires exists k :: k in m && m[k].0 == best
    ensures best == MaxX(m)
  {
  }

  method CalculateDiagramSize(positions: Positions, laneCount: int) returns (width: int, height: int)
    ensures (width, height) == DiagramSize(positions, laneCount)
  {
    if |positions| == 0 {
      return 1000, 600;
    }
    var rest := positions.Keys;
    var first :| first in rest;
    var best := positions[first].0;
    rest := rest - {first};
    while rest != {}
      invariant rest <= positions.Keys
      invariant forall k :: k in positions && k !in rest ==> positions[k].0 <= best
      invariant exists k :: k in positions && positions[k].0 == best
      decreases |rest|
    {
      var k :| k in rest;
      if positions[k].0 > best {
        best := positions[k].0;
      }
      rest := rest - {k};
    }
    MaxXUnique(positions, best);
    width := best + NodeWidth + DiagramMargin;
    if width < 1200 {
      width := 1200;
    }
    height := DiagramMargin * 2 + 40 + (LaneHeight + LanePadding) * laneCount;
  }

  /** Without positions the canvas is 1000x600; otherwise it is at least 1200 wide, leaves
      40 units right of every node, and stacks one 150-unit band per lane below a 120-unit header. */
  lemma CanvasCoversNodes(m: Positions, laneCount: int)
    ensures |m| == 0 ==> DiagramSize(m, laneCount) == (1000, 600)
    ensures |m| > 0 ==> DiagramSize(m, laneCount).0 >= 1200
    ensures forall k :: k in m ==> m[k].0 + NodeWidth + DiagramMargin <= DiagramSize(m, laneCount).0
    ensures |m| > 0 ==> DiagramSize(m, laneCount).1 == 120 + 150 * laneCount
  {
  }

  lemma LaneBandsFit(lanes: seq<string>, ps: Positions, lane: string)
    requires |ps| > 0 && lane in lanes
    ensures lane in LaneY(lanes) && LaneY(lanes)[lane] - 10 + LaneHeight <= DiagramSize(ps, |lanes|).1
  {
    LaneYDomain(lanes, lane);
    LaneYAtLastOccurrence(lanes, LastIndex(lanes, lane));
  }

  /** The last index of `x` in `s`. */
  function LastIndex(s: seq<string>, x: string): (i: int)
    requires x in s
    ensures 0 <= i < |s| && s[i] == x && forall j :: i < j < |s| ==> s[j] != x
  {
    var p := s[..|s| - 1];
    if s[|s| - 1] == x then |s| - 1
    else
      assert s == p + [s[|s| - 1]];
      LastIndex(p, x)
  }

  // ---------------------------------------------------------------------------
  // Emission: `plan_to_mxgraph` as a list of cells
  // ---------------------------------------------------------------------------

  /** The compiled document: the canvas size in the root element and the cells in order. */
  datatype Diagram = Diagram(width: int, height: int, cells: seq<Cell>)

  /** The document as its consumers parse it. */
  function AsDoc(d: Diagram): Doc {
    Doc("mxGraphModel", d.cells, None)
  }

  function Geo(x: int, y: int, w: int, h: int): Geometry {
    Geometry(Some(x as real), Some(y as real), Some(w as real), Some(h as real))
  }

  /** A vertex cell under the default layer "1". */
  function VertexCell(id: string, value: string, style: Style, g: Geometry): Cell {
    Cell(Some(id), Some(value), style, true, false, Some("1"), None, None, Some(g))
  }

  /** Cells "0" and "1", the root and the default layer. */
  function Roots(): seq<Cell> {
    [Cell(Some("0"), None, map[], false, false, None, None, None, None),
     Cell(Some("1"), None, map[], false, false, Some("0"), None, None, None)]
  }

  const TitleStyle: Style := map["text" := "1", "html" := "1", "strokeColor" := "none", "fillColor" := "none",
    "align" := "left", "verticalAlign" := "middle", "fontStyle" := "1", "fontSize" := "18", "fontColor" := "#1a1a1a"]

  function TitleCell(title: Option<string>): Cell {
    VertexCell("100", title.GetOr("Architecture Diagram"), TitleStyle, Geo(DiagramMargin, DiagramMargin, 400, 30))
  }

  function LaneBackgroundStyle(bg: string): Style {
    map["rounded" := "0", "whiteSpace" := "wrap", "html" := "1", "strokeColor" := "#e0e0e0", "fillColor" := bg,
      "opacity" := "50"]
  }

  function LaneHeaderStyle(fill: string): Style {
    map["text" := "1", "html" := "1", "strokeColor" := "none", "fillColor" := "none", "fontStyle" := "1",
      "fontColor" := fill, "align" := "left", "verticalAlign" := "top", "fontSize" := "13", "spacingLeft" := "4"]
  }

  /** The band and the header of lane i. */
  function LaneBand(lanes: seq<string>, laneY: map<string, int>, width: int, i: int): seq<Cell>
    requires 0 <= i < |lanes|
  {
    var y := LaneYOr(laneY, lanes[i]) - 10;
    var colors := LaneColors(lanes[i]);
    [VertexCell(NatToString(101 + 2 * i), "", LaneBackgroundStyle(colors.bg),
       Geo(DiagramMargin, y, width - DiagramMargin * 2, LaneHeight)),
     VertexCell(NatToString(102 + 2 * i), lanes[i], LaneHeaderStyle(colors.fill), Geo(DiagramMargin + 8, y + 6, 160, 24))]
  }

  function LaneCells(lanes: seq<string>, laneY: map<string, int>, width: int): (cells: seq<Cell>)
    ensures |cells| == 2 * |lanes|
  {
    if |lanes| == 0 then []
    else LaneCells(lanes[..|lanes| - 1], laneY, width) + LaneBand(lanes, laneY, width, |lanes| - 1)
  }

  method EmitLaneCells(lanes: seq<string>, laneY: map<string, int>, width: int) returns (cells: seq<Cell>)
    ensures cells == LaneCells(lanes, laneY, width)
  {
    cells := [];
    for i := 0 to |lanes|
      invariant cells == LaneCells(lanes[..i], laneY, width)
    {
      assert lanes[..i + 1][..i] == lanes[..i];
      assert LaneBand(lanes[..i + 1], laneY, width, i) == LaneBand(lanes, laneY, width, i);
      cells := cells + LaneBand(lanes, laneY, width, i);
    }
    assert lanes[..|lanes|] == lanes;
  }

  /** Lane i's band spans the canvas between the margins, 130 high from 10 above the lane's y. */
  lemma {:induction false} LaneBandPlacement(lanes: seq<string>, laneY: map<string, int>, width: int, i: int)
    requires 0 <= i < |lanes|
    ensures var c := LaneCells(lanes, laneY, width)[2 * i];
      c.vertex && c.value == Some("") && Lookup(c.style, "fillColor") == Some(LaneColors(lanes[i]).bg)
      && c.geometry == Some(Geo(40, LaneYOr(laneY, lanes[i]) - 10, width - 80, 130))
    ensures LaneCells(lanes, laneY, width)[2 * i + 1].value == Some(lanes[i])
  {
    var p := lanes[..|lanes| - 1];
    if i < |lanes| - 1 {
      LaneBandPlacement(p, laneY, width, i);
      assert p[i] == lanes[i];
    }
  }

  // Groups

  const GroupDefaultLane: string := "Platform & Security"

  /** The x of every positioned node of group `gid`, in plan order. */
  function MemberXs(nodes: seq<Node>, gid: string, positions: Positions): seq<int> {
    if |nodes| == 0 then []
    else
      var n := nodes[|nodes| - 1];
      var xs := MemberXs(nodes[..|nodes| - 1], gid, positions);
      if n.group == Some(gid) && n.id.GetOr("") in positions then xs + [positions[n.id.GetOr("")].0] else xs
  }

  /** Every positioned member contributes its x. */
  lemma {:induction false} MemberXsComplete(nodes: seq<Node>, gid: string, positions: Positions, j: int)
    requires 0 <= j < |nodes| && nodes[j].group == Some(gid) && nodes[j].id.GetOr("") in positions
    ensures positions[nodes[j].id.GetOr("")].0 in MemberXs(nodes, gid, positions)
  {
    if j < |nodes| - 1 {
      MemberXsComplete(nodes[..|nodes| - 1], gid, positions, j);
      assert nodes[..|nodes| - 1][j] == nodes[j];
    }
  }

  /** `min(xs)`. */
  function Min(xs: seq<int>): int
    requires |xs| > 0
  {
    if |xs| == 1 then xs[0]
    else
      var m := Min(xs[1..]);
      if xs[0] <= m then xs[0] else m
  }

  /** `max(xs)`. */
  function Max(xs: seq<int>): int
    requires |xs| > 0
  {
    if |xs| == 1 then xs[0]
    else
      var m := Max(xs[1..]);
      if xs[0] >= m then xs[0] else m
  }

  lemma {:induction false} MinMaxBounds(xs: seq<int>, x: int)
    requires x in xs
    ensures Min(xs) <= x <= Max(xs)
  {
    if |xs| > 1 && x != xs[0] {
      assert x in xs[1..];
      MinMaxBounds(xs[1..], x);
    }
  }

  function GroupStyle(dash: string): Style {
    map["rounded" := "1", "whiteSpace" := "wrap", "html" := "1", "fillColor" := "#ffffff", "fillOpacity" := "60",
      "strokeColor" := "#666666", "strokeWidth" := "2", "dashed" := dash, "dashPattern" := "8 4",
      "verticalAlign" := "top", "fontStyle" := "1", "fontSize" := "11", "fontColor" := "#666666", "spacingTop" := "4"]
  }

  /** `dashed=1` unless the group's style is given and is not "dashed". */
  function GroupDash(g: Group): string {
    if g.style.GetOr("dashed") == "dashed" then "1" else "0"
  }

  /** The group's rectangle: around its positioned members with 30 of padding, else 400 wide at x = 200. */
  function GroupBox(gid: string, g: Group, nodes: seq<Node>, positions: Positions, laneY: map<string, int>): Geometry {
    var y := LaneYOr(laneY, g.lane.GetOr(GroupDefaultLane)) - 5;
    var xs := MemberXs(nodes, gid, positions);
    if |xs| > 0 then
      Geo(Min(xs) - GroupPadding, y, Max(xs) - Min(xs) + NodeWidth + GroupPadding * 2, LaneHeight - 10)
    else Geo(DiagramMargin + 160, y, 400, LaneHeight - 10)
  }

  function GroupCell(gid: string, g: Group, nodes: seq<Node>, positions: Positions, laneY: map<string, int>): Cell {
    VertexCell("g_" + gid, g.name.GetOr(gid), GroupStyle(GroupDash(g)), GroupBox(gid, g, nodes, positions, laneY))
  }

  /** The group cells and `seen_groups` after the group loop. */
  function EmitGroups(gs: seq<Group>, nodes: seq<Node>, positions: Positions, laneY: map<string, int>)
    : (seq<Cell>, set<string>)
  {
    if |gs| == 0 then ([], {})
    else
      var (cells, seen) := EmitGroups(gs[..|gs| - 1], nodes, positions, laneY);
      var g := gs[|gs| - 1];
      if !Truthy(g.id) || g.id.value in seen then (cells, seen)
      else (cells + [GroupCell(g.id.value, g, nodes, positions, laneY)], seen + {g.id.value})
  }

  method EmitGroupCells(gs: seq<Group>, nodes: seq<Node>, positions: Positions, laneY: map<string, int>)
    returns (cells: seq<Cell>, seen: set<string>)
    ensures (cells, seen) == EmitGroups(gs, nodes, positions, laneY)
  {
    cells, seen := [], {};
    for i := 0 to |gs|
      invariant (cells, seen) == EmitGroups(gs[..i], nodes, positions, laneY)
    {
      assert gs[..i + 1][..i] == gs[..i];
      var gid := gs[i].id;
      if gid.Some? && gid.value != "" && gid.value !in seen {
        seen := seen + {gid.value};
        cells := cells + [GroupCell(gid.value, gs[i], nodes, positions, laneY)];
      }
    }
    assert gs[..|gs|] == gs;
  }

  /** The present, non-empty group ids. */
  function TruthyGroupIds(gs: seq<Group>): set<string> {
    if |gs| == 0 then {}
    else TruthyGroupIds(gs[..|gs| - 1]) + (if Truthy(gs[|gs| - 1].id) then {gs[|gs| - 1].id.value} else {})
  }

  lemma {:induction false} TruthyGroupIdsMembers(gs: seq<Group>, x: string)
    ensures x in TruthyGroupIds(gs) <==> exists i :: 0 <= i < |gs| && gs[i].id == Some(x) && x != ""
  {
    if |gs| > 0 {
      var p := gs[..|gs| - 1];
      TruthyGroupIdsMembers(p, x);
      assert forall i :: 0 <= i < |p| ==> p[i] == gs[i];
    }
  }

  /** A cell id made of a fixed prefix and an id. */
  predicate PrefixedBy(id: Option<string>, prefix: string, ids: set<string>) {
    id.Some? && |prefix| <= |id.value| && id.value[..|prefix|] == prefix && id.value[|prefix|..] in ids
  }

  predicate DistinctIds(cells: seq<Cell>) {
    forall i, j :: 0 <= i < j < |cells| ==> cells[i].id != cells[j].id
  }

  lemma PrefixedNew(cells: seq<Cell>, prefix: string, seen: set<string>, x: string)
    requires DistinctIds(cells) && x !in seen
    requires forall i :: 0 <= i < |cells| ==> PrefixedBy(cells[i].id, prefix, seen)
    ensures forall i :: 0 <= i < |cells| ==> cells[i].id != Some(prefix + x)
  {
    assert (prefix + x)[|prefix|..] == x;
  }

  /** One `g_<id>` cell per distinct non-empty group id and no other. */
  lemma {:induction false} GroupCellsUnique(gs: seq<Group>, nodes: seq<Node>, positions: Positions, laneY: map<string, int>)
    ensures var (cells, seen) := EmitGroups(gs, nodes, positions, laneY);
      seen == TruthyGroupIds(gs) && |cells| == |seen| && DistinctIds(cells)
      && forall i :: 0 <= i < |cells| ==> PrefixedBy(cells[i].id, "g_", seen)
  {
    if |gs| > 0 {
      var p := gs[..|gs| - 1];
      var g := gs[|gs| - 1];
      GroupCellsUnique(p, nodes, positions, laneY);
      var (cells, seen) := EmitGroups(p, nodes, positions, laneY);
      if Truthy(g.id) && g.id.value !in seen {
        CellsStep(cells, seen, GroupCell(g.id.value, g, nodes, positions, laneY), "g_", g.id.value);
      }
    }
  }

  /** For a member placed in the group's own lane, the group's rectangle holds the member's
      160x60 box with 30 units to spare on the left and on the right. */
  lemma GroupContainsMember(gid: string, g: Group, nodes: seq<Node>, positions: Positions, laneY: map<string, int>, j: int)
    requires 0 <= j < |nodes| && nodes[j].group == Some(gid)
    requires nodes[j].id.GetOr("") in positions
    requires positions[nodes[j].id.GetOr("")] == (positions[nodes[j].id.GetOr("")].0, LaneYOr(laneY, g.lane.GetOr(GroupDefaultLane)) + 35)
    ensures var b := GroupBox(gid, g, nodes, positions, laneY); var (x, y) := positions[nodes[j].id.GetOr("")];
      b.x.Some? && b.y.Some? && b.width.Some? && b.height.Some?
      && b.x.value + GroupPadding as real <= x as real
      && (x + NodeWidth + GroupPadding) as real <= b.x.value + b.width.value
      && b.y.value <= y as real && (y + NodeHeight) as real <= b.y.value + b.height.value
  {
    MemberXsComplete(nodes, gid, positions, j);
    MinMaxBounds(MemberXs(nodes, gid, positions), positions[nodes[j].id.GetOr("")].0);
  }

  // Nodes

  /** The node cells and `seen_nodes` after the node loop.  The parent is the node's group when
      that group produced a cell. */
  function NodeCell(nid: string, n: Node, p: Pos, groupIds: set<string>): Cell {
    var parent := if Truthy(n.group) && n.group.value in groupIds then "g_" + n.group.value else "1";
    Cell(Some("n_" + nid), Some(n.name.GetOr(nid)), NodeStyle(n), true, false, Some(parent), None, None,
      Some(Geo(p.0, p.1, NodeWidth, NodeHeight)))
  }

  function EmitNodes(ns: seq<Node>, positions: Positions, groupIds: set<string>): (seq<Cell>, set<string>) {
    if |ns| == 0 then ([], {})
    else
      var (cells, seen) := EmitNodes(ns[..|ns| - 1], positions, groupIds);
      var n := ns[|ns| - 1];
      if !Truthy(n.id) || n.id.value in seen || n.id.value !in positions then (cells, seen)
      else (cells + [NodeCell(n.id.value, n, positions[n.id.value], groupIds)], seen + {n.id.value})
  }

  method EmitNodeCells(ns: seq<Node>, positions: Positions, groupIds: set<string>)
    returns (cells: seq<Cell>, seen: set<string>)
    ensures (cells, seen) == EmitNodes(ns, positions, groupIds)
  {
    cells, seen := [], {};
    for i := 0 to |ns|
      invariant (cells, seen) == EmitNodes(ns[..i], positions, groupIds)
    {
      assert ns[..i + 1][..i] == ns[..i];
      var nid := ns[i].id;
      if nid.Some? && nid.value != "" && nid.value !in seen && nid.value in positions {
        seen := seen + {nid.value};
        cells := cells + [NodeCell(nid.value, ns[i], positions[nid.value], groupIds)];
      }
    }
    assert ns[..|ns|] == ns;
  }

  /** The present, non-empty node ids that have a position. */
  function PositionedIds(ns: seq<Node>, positions: Positions): set<string> {
    if |ns| == 0 then {}
    else
      var n := ns[|ns| - 1];
      PositionedIds(ns[..|ns| - 1], positions) + (if Truthy(n.id) && n.id.value in positions then {n.id.value} else {})
  }

  lemma {:induction false} PositionedIdsMembers(ns: seq<Node>, positions: Positions, x: string)
    ensures x in PositionedIds(ns, positions) <==> exists i :: 0 <= i < |ns| && ns[i].id == Some(x) && x != "" && x in positions
  {
    if |ns| > 0 {
      var p := ns[..|ns| - 1];
      PositionedIdsMembers(p, positions, x);
      assert forall i :: 0 <= i < |p| ==> p[i] == ns[i];
    }
  }

  /** One `n_<id>` cell per distinct positioned node id and no other. */
  lemma {:induction false} NodeCellsUnique(ns: seq<Node>, positions: Positions, groupIds: set<string>)
    ensures var (cells, seen) := EmitNodes(ns, positions, groupIds);
      seen == PositionedIds(ns, positions) && |cells| == |seen| && DistinctIds(cells)
      && forall i :: 0 <= i < |cells| ==> PrefixedBy(cells[i].id, "n_", seen)
  {
    if |ns| > 0 {
      var p := ns[..|ns| - 1];
      var n := ns[|ns| - 1];
      NodeCellsUnique(p, positions, groupIds);
      var (cells, seen) := EmitNodes(p, positions, groupIds);
      if Truthy(n.id) && n.id.value !in seen && n.id.value in positions {
        CellsStep(cells, seen, NodeCell(n.id.value, n, positions[n.id.value], groupIds), "n_", n.id.value);
      }
    }
  }

  /** Appending the cell of a new id keeps the cells one per id, each carrying the prefix. */
  lemma CellsStep(cells: seq<Cell>, seen: set<string>, c: Cell, prefix: string, x: string)
    requires |cells| == |seen| && DistinctIds(cells) && forall i :: 0 <= i < |cells| ==> PrefixedBy(cells[i].id, prefix, seen)
    requires x !in seen && c.id == Some(prefix + x)
    ensures var cells', seen' := cells + [c], seen + {x};
      |cells'| == |seen'| && DistinctIds(cells') && forall i :: 0 <= i < |cells'| ==> PrefixedBy(cells'[i].id, prefix, seen')
  {
    PrefixedNew(cells, prefix, seen, x);
    assert (prefix + x)[|prefix|..] == x;
    assert forall i :: 0 <= i < |cells| ==> (cells + [c])[i] == cells[i];
  }

  // Edges

  const EdgeStyle: Style := map["edgeStyle" := "orthogonalEdgeStyle", "rounded" := "1", "orthogonalLoop" := "1",
    "jettySize" := "auto", "html" := "1", "strokeColor" := "#333333", "strokeWidth" := "2", "endArrow" := "blockThin",
    "endFill" := "1", "endSize" := "8"]

  const EdgeLabelStyle: Style := map["text" := "1", "html" := "1", "strokeColor" := "none", "fillColor" := "#ffffff",
    "align" := "center", "verticalAlign" := "middle", "whiteSpace" := "wrap", "rounded" := "1", "fontSize" := "10",
    "fontColor" := "#333333", "spacing" := "2", "labelBackgroundColor" := "#ffffff"]

  /** `node_cells.get(id, id)`: the node's cell when it was emitted, else the raw plan id. */
  function Endpoint(nodeIds: set<string>, id: string): string {
    if id in nodeIds then "n_" + id else id
  }

  function EdgeId(src: string, tgt: string): string {
    "e_" + src + "_" + tgt
  }

  function PosOr(positions: Positions, id: string): Pos {
    if id in positions then positions[id] else (0, 0)
  }

  /** The label's box: 100 x 20, left edge 50 before the midpoint x plus 80, top 15 above the midpoint y. */
  function LabelBox(positions: Positions, src: string, tgt: string): Geometry {
    var (sx, sy) := PosOr(positions, src);
    var (tx, ty) := PosOr(positions, tgt);
    var lx := (sx + tx) as real / 2.0 + (NodeWidth as real) / 2.0;
    var ly := (sy + ty) as real / 2.0 - 15.0;
    Geometry(Some(lx - 50.0), Some(ly), Some(100.0), Some(20.0))
  }

  /** The cells of one edge: the connector, then its label when the label is non-empty. */
  function EdgeCells(src: string, tgt: string, labelText: string, nodeIds: set<string>, positions: Positions): seq<Cell> {
    [Cell(Some(EdgeId(src, tgt)), None, EdgeStyle, false, true, Some("1"), Some(Endpoint(nodeIds, src)),
       Some(Endpoint(nodeIds, tgt)), Some(Geometry(None, None, None, None)))]
    + if labelText == "" then []
      else [VertexCell("l_" + src + "_" + tgt, labelText, EdgeLabelStyle, LabelBox(positions, src, tgt))]
  }

  /** The edge cells and `seen_edges` after the edge loop. */
  function EmitEdges(es: seq<Edge>, nodeIds: set<string>, positions: Positions): (seq<Cell>, set<(string, string)>) {
    if |es| == 0 then ([], {})
    else
      var (cells, seen) := EmitEdges(es[..|es| - 1], nodeIds, positions);
      var e := es[|es| - 1];
      var src, tgt := e.from.GetOr(""), e.to.GetOr("");
      if src == "" || tgt == "" || (src, tgt) in seen then (cells, seen)
      else (cells + EdgeCells(src, tgt, e.labelText.GetOr(""), nodeIds, positions), seen + {(src, tgt)})
  }

  method EmitEdgeCells(es: seq<Edge>, nodeIds: set<string>, positions: Positions)
    returns (cells: seq<Cell>, seen: set<(string, string)>)
    ensures (cells, seen) == EmitEdges(es, nodeIds, positions)
  {
    cells, seen := [], {};
    for i := 0 to |es|
      invariant (cells, seen) == EmitEdges(es[..i], nodeIds, positions)
    {
      assert es[..i + 1][..i] == es[..i];
      var src, tgt := es[i].from.GetOr(""), es[i].to.GetOr("");
      if src != "" && tgt != "" && (src, tgt) !in seen {
        seen := seen + {(src, tgt)};
        cells := cells + EdgeCells(src, tgt, es[i].labelText.GetOr(""), nodeIds, positions);
      }
    }
    assert es[..|es|] == es;
  }

  /** The `(from, to)` pairs with both ends non-empty. */
  function EdgePairs(es: seq<Edge>): set<(string, string)> {
    if |es| == 0 then {}
    else
      var e := es[|es| - 1];
      EdgePairs(es[..|es| - 1]) + (if e.from.GetOr("") != "" && e.to.GetOr("") != "" then {(e.from.GetOr(""), e.to.GetOr(""))} else {})
  }

  lemma {:induction false} EdgePairsMembers(es: seq<Edge>, src: string, tgt: string)
    ensures (src, tgt) in EdgePairs(es) <==>
      src != "" && tgt != "" && exists i :: 0 <= i < |es| && es[i].from.GetOr("") == src && es[i].to.GetOr("") == tgt
  {
    if |es| > 0 {
      var p := es[..|es| - 1];
      EdgePairsMembers(p, src, tgt);
      assert forall i :: 0 <= i < |p| ==> p[i] == es[i];
    }
  }

  /** The number of connector cells. */
  function CountEdgeCells(cells: seq<Cell>): nat {
    if |cells| == 0 then 0 else CountEdgeCells(cells[..|cells| - 1]) + (if cells[|cells| - 1].edge then 1 else 0)
  }

  lemma {:induction false} CountEdgeCellsAppend(a: seq<Cell>, b: seq<Cell>)
    ensures CountEdgeCells(a + b) == CountEdgeCells(a) + CountEdgeCells(b)
    decreases |b|
  {
    if |b| == 0 {
      assert a + b == a;
    } else {
      assert (a + b)[..|a + b| - 1] == a + b[..|b| - 1];
      CountEdgeCellsAppend(a, b[..|b| - 1]);
    }
  }

  lemma EdgeCellsOneConnector(src: string, tgt: string, labelText: string, nodeIds: set<string>, positions: Positions)
    ensures CountEdgeCells(EdgeCells(src, tgt, labelText, nodeIds, positions)) == 1
  {
    var cs := EdgeCells(src, tgt, labelText, nodeIds, positions);
    var c0 := cs[0];
    assert c0.edge;
    assert CountEdgeCells([c0]) == 1 by { assert [c0][..0] == []; }
    if labelText != "" {
      var c1 := cs[1];
      assert cs == [c0] + [c1] && !c1.edge;
      CountEdgeCellsAppend([c0], [c1]);
      assert CountEdgeCells([c1]) == 0 by { assert [c1][..0] == []; }
    } else {
      assert cs == [c0];
    }
  }

  /** Exactly one connector per distinct `(from, to)` pair with both ends non-empty. */
  lemma {:induction false} EdgeCellsPerPair(es: seq<Edge>, nodeIds: set<string>, positions: Positions)
    ensures var (cells, seen) := EmitEdges(es, nodeIds, positions);
      seen == EdgePairs(es) && CountEdgeCells(cells) == |seen|
  {
    if |es| > 0 {
      var p := es[..|es| - 1];
      var e := es[|es| - 1];
      var src, tgt := e.from.GetOr(""), e.to.GetOr("");
      EdgeCellsPerPair(p, nodeIds, positions);
      var (cells, seen) := EmitEdges(p, nodeIds, positions);
      if src != "" && tgt != "" && (src, tgt) !in seen {
        CountEdgeCellsAppend(cells, EdgeCells(src, tgt, e.labelText.GetOr(""), nodeIds, positions));
        EdgeCellsOneConnector(src, tgt, e.labelText.GetOr(""), nodeIds, positions);
      }
    }
  }

  /** The first edge with a given pair yields its cells; the connector points at the emitted
      node cells, or at the raw plan ids where no such cell exists. */
  lemma {:induction false} EdgeEmitted(es: seq<Edge>, nodeIds: set<string>, positions: Positions, i: int)
    requires 0 <= i < |es|
    requires es[i].from.GetOr("") != "" && es[i].to.GetOr("") != ""
    requires forall j :: 0 <= j < i ==> (es[j].from, es[j].to) != (es[i].from, es[i].to)
    ensures var src, tgt := es[i].from.GetOr(""), es[i].to.GetOr("");
      var c := EdgeCells(src, tgt, es[i].labelText.GetOr(""), nodeIds, positions)[0];
      c in EmitEdges(es, nodeIds, positions).0
      && c.source == Some(if src in nodeIds then "n_" + src else src)
      && c.target == Some(if tgt in nodeIds then "n_" + tgt else tgt)
  {
    var p := es[..|es| - 1];
    var src, tgt := es[i].from.GetOr(""), es[i].to.GetOr("");
    if i < |es| - 1 {
      assert p[i] == es[i];
      EdgeEmitted(p, nodeIds, positions, i);
    } else {
      EdgeCellsPerPair(p, nodeIds, positions);
      EdgePairsMembers(p, src, tgt);
      assert (src, tgt) !in EdgePairs(p) by {
        forall j | 0 <= j < |p| ensures (p[j].from.GetOr(""), p[j].to.GetOr("")) != (src, tgt) {
          assert p[j] == es[j];
          assert (es[j].from, es[j].to) != (es[i].from, es[i].to);
        }
      }
    }
  }

  /** Two different pairs can give the same connector id, because ids may contain `_`. */
  lemma EdgeIdCollision()
    ensures ("a_b", "c") != ("a", "b_c") && EdgeId("a_b", "c") == EdgeId("a", "b_c")
  {
  }

  /** With both ends positioned, the label's box is centred horizontally between the two nodes'
      centres, and its centre is 35 above the midpoint of their centres. */
  lemma LabelPlacement(positions: Positions, src: string, tgt: string)
    requires src in positions && tgt in positions
    ensures var b := LabelBox(positions, src, tgt);
      var (sx, sy) := positions[src]; var (tx, ty) := positions[tgt];
      b.x.value + b.width.value / 2.0 == ((sx + NodeWidth / 2) as real + (tx + NodeWidth / 2) as real) / 2.0
      && b.y.value + b.height.value / 2.0 + 35.0 == ((sy + NodeHeight / 2) as real + (ty + NodeHeight / 2) as real) / 2.0
  {
  }

  // Legend

  const LegendTitleStyle: Style := map["text" := "1", "html" := "1", "strokeColor" := "none", "fillColor" := "none",
    "align" := "left", "verticalAlign" := "top", "fontStyle" := "1", "fontSize" := "11", "fontColor" := "#666666"]

  const LegendLabelStyle: Style := map["text" := "1", "html" := "1", "strokeColor" := "none", "fillColor" := "none",
    "align" := "left", "verticalAlign" := "middle", "fontSize" := "9", "fontColor" := "#666666"]

  function SwatchStyle(p: Palette): Style {
    map["rounded" := "1", "whiteSpace" := "wrap", "html" := "1", "fillColor" := p.fill, "strokeColor" := p.stroke]
  }

  /** The swatch and the name of the k-th legend lane. */
  function LegendEntry(lane: string, legendX: int, k: int): seq<Cell> {
    var ly := DiagramMargin + 25 + 22 * k;
    [VertexCell("leg_" + lane, "", SwatchStyle(LaneColors(lane)), Geo(legendX, ly, 16, 16)),
     VertexCell("legl_" + lane, lane, LegendLabelStyle, Geo(legendX + 22, ly, 100, 16))]
  }

  function LegendEntries(lanes: seq<string>, legendX: int): (cells: seq<Cell>)
    ensures |cells| == 2 * |lanes|
  {
    if |lanes| == 0 then []
    else LegendEntries(lanes[..|lanes| - 1], legendX) + LegendEntry(lanes[|lanes| - 1], legendX, |lanes| - 1)
  }

  /** The legend, unless the plan sets `legend` false: a title and the first four lanes. */
  function LegendCells(legend: Option<bool>, lanes: seq<string>, width: int): (cells: seq<Cell>)
    ensures |cells| == if legend.GetOr(true) then 1 + 2 * (if |lanes| < 4 then |lanes| else 4) else 0
  {
    if !legend.GetOr(true) then []
    else
      var shown := if |lanes| < 4 then lanes else lanes[..4];
      [VertexCell("legend", "Legend", LegendTitleStyle, Geo(width - 200, DiagramMargin, 80, 20))]
      + LegendEntries(shown, width - 200)
  }

  method EmitLegendCells(legend: Option<bool>, lanes: seq<string>, width: int) returns (cells: seq<Cell>)
    ensures cells == LegendCells(legend, lanes, width)
  {
    if !legend.GetOr(true) {
      return [];
    }
    var legendX := width - 200;
    var title := VertexCell("legend", "Legend", LegendTitleStyle, Geo(legendX, DiagramMargin, 80, 20));
    cells := [title];
    var shown := if |lanes| < 4 then lanes else lanes[..4];
    assert shown[..0] == [];
    for k := 0 to |shown|
      invariant cells == [title] + LegendEntries(shown[..k], legendX)
    {
      assert shown[..k + 1][..k] == shown[..k];
      cells := cells + LegendEntry(shown[k], legendX, k);
    }
    assert shown[..|shown|] == shown;
  }

  // The whole document

  /** `plan_to_mxgraph`: the root cells, the title, the lane bands, the groups, the nodes,
      the edges with their labels, and the legend, in that order. */
  ghost function Compile(plan: Plan): Result<Diagram, CompileError> {
    var lanes := LanesOrDefault(plan.lanes);
    var laneY := LaneY(lanes);
    match Layout(plan.nodes, laneY)
    case Failure(e) => Failure(e)
    case Success(positions) =>
      var (width, height) := DiagramSize(positions, |lanes|);
      Success(Diagram(width, height, Assemble(plan, lanes, laneY, positions, width)))
  }

  /** The cells, once the lanes are placed, the nodes laid out and the width known. */
  function Assemble(plan: Plan, lanes: seq<string>, laneY: map<string, int>, positions: Positions, width: int): seq<Cell> {
    var (gcells, gids) := EmitGroups(plan.groups, plan.nodes, positions, laneY);
    var (ncells, nids) := EmitNodes(plan.nodes, positions, gids);
    var (ecells, _) := EmitEdges(plan.edges, nids, positions);
    Roots() + [TitleCell(plan.title)] + LaneCells(lanes, laneY, width) + gcells + ncells + ecells
    + LegendCells(plan.legend, lanes, width)
  }

  method PlanToMxGraph(plan: Plan) returns (r: Result<Diagram, CompileError>)
    ensures r == Compile(plan)
  {
    var lanes := LanesOrDefault(plan.lanes);
    var laneY := LanePositions(lanes);
    var layout := LayoutNodesInLanes(plan.nodes, laneY);
    if layout.Failure? {
      return Failure(layout.error);
    }
    var positions := layout.value;
    var width, height := CalculateDiagramSize(positions, |lanes|);
    var laneCells := EmitLaneCells(lanes, laneY, width);
    var groupCells, groupIds := EmitGroupCells(plan.groups, plan.nodes, positions, laneY);
    var nodeCells, nodeIds := EmitNodeCells(plan.nodes, positions, groupIds);
    var edgeCells, _ := EmitEdgeCells(plan.edges, nodeIds, positions);
    var legendCells := EmitLegendCells(plan.legend, lanes, width);
    r := Success(Diagram(width, height,
      Roots() + [TitleCell(plan.title)] + laneCells + groupCells + nodeCells + edgeCells + legendCells));
    assert r.value.cells == Assemble(plan, lanes, laneY, positions, width);
  }

  /** The document always starts with the root "0" and the layer "1" under it. */
  lemma CompileStartsWithRoots(plan: Plan)
    requires Compile(plan).Success?
    ensures var cells := Compile(plan).value.cells;
      |cells| >= 3 && cells[0].id == Some("0") && cells[1].id == Some("1") && cells[1].parent == Some("0")
  {
    var lanes := LanesOrDefault(plan.lanes);
    var laneY := LaneY(lanes);
    var positions := Layout(plan.nodes, laneY).value;
    var width := DiagramSize(positions, |lanes|).0;
    AssembleStartsWithRoots(plan, lanes, laneY, positions, width);
  }

  lemma AssembleStartsWithRoots(plan: Plan, lanes: seq<string>, laneY: map<string, int>, positions: Positions, width: int)
    ensures var cells := Assemble(plan, lanes, laneY, positions, width);
      |cells| >= 3 && cells[0].id == Some("0") && cells[1].id == Some("1") && cells[1].parent == Some("0")
  {
    var cells := Assemble(plan, lanes, laneY, positions, width);
    var rest := cells[3..];
    assert cells == Roots() + [TitleCell(plan.title)] + rest;
  }

  /** Compilation fails exactly when some node has no id. */
  lemma CompileFailsIffMissingId(plan: Plan)
    ensures Compile(plan).Failure? <==> !AllIds(plan.nodes)
  {
    LayoutFailsIffMissingId(plan.nodes, LaneY(LanesOrDefault(plan.lanes)));
  }
}
