/** How the three readers of a draw.io document relate: the compiler of
    plan_to_drawio.py writes it, validate.py judges it and render.py draws
    it.  These lemmas follow the compiler's cells through the validator and
    compare the three darkness tests. */
module Pipeline {
  import opened Wrappers
  import opened Plans
  import opened Document
  import opened Colors
  import opened Text
  import P = PlanToDrawio
  import V = Validate
  import R = Render

  // ---------------------------------------------------------------------
  // The compiler's edges and the validator's arrow check

  /** No cell but a compiled connector is an edge, and every connector has the compiler's edge style. */
  predicate EdgesStyled(cells: seq<Cell>) {
    forall i :: 0 <= i < |cells| && cells[i].edge ==> cells[i].style == P.EdgeStyle
  }

  lemma EdgesStyledAppend(a: seq<Cell>, b: seq<Cell>)
    requires EdgesStyled(a) && EdgesStyled(b)
    ensures EdgesStyled(a + b)
  {
    forall i | 0 <= i < |a + b| && (a + b)[i].edge ensures (a + b)[i].style == P.EdgeStyle {
      if i >= |a| { assert (a + b)[i] == b[i - |a|]; }
    }
  }

  lemma {:induction false} EmittedEdgesStyled(es: seq<Edge>, nodeIds: set<string>, positions: P.Positions)
    ensures EdgesStyled(P.EmitEdges(es, nodeIds, positions).0)
  {
    if |es| > 0 {
      var e := es[|es| - 1];
      EmittedEdgesStyled(es[..|es| - 1], nodeIds, positions);
      var src, tgt := e.from.GetOr(""), e.to.GetOr("");
      var cells := P.EmitEdges(es[..|es| - 1], nodeIds, positions).0;
      EdgesStyledAppend(cells, P.EdgeCells(src, tgt, e.labelText.GetOr(""), nodeIds, positions));
    }
  }

  /** The group, node, lane and legend cells are all vertices. */
  lemma {:induction false} EmittedGroupsStyled(gs: seq<Group>, nodes: seq<Node>, positions: P.Positions, laneY: map<string, int>)
    ensures EdgesStyled(P.EmitGroups(gs, nodes, positions, laneY).0)
  {
    if |gs| > 0 {
      EmittedGroupsStyled(gs[..|gs| - 1], nodes, positions, laneY);
      var g := gs[|gs| - 1];
      if Truthy(g.id) {
        EdgesStyledAppend(P.EmitGroups(gs[..|gs| - 1], nodes, positions, laneY).0, [P.GroupCell(g.id.value, g, nodes, positions, laneY)]);
      }
    }
  }

  lemma {:induction false} EmittedNodesStyled(ns: seq<Node>, positions: P.Positions, groupIds: set<string>)
    ensures EdgesStyled(P.EmitNodes(ns, positions, groupIds).0)
  {
    if |ns| > 0 {
      EmittedNodesStyled(ns[..|ns| - 1], positions, groupIds);
      var n := ns[|ns| - 1];
      if Truthy(n.id) && n.id.value in positions {
        EdgesStyledAppend(P.EmitNodes(ns[..|ns| - 1], positions, groupIds).0, [P.NodeCell(n.id.value, n, positions[n.id.value], groupIds)]);
      }
    }
  }

  lemma {:induction false} LaneCellsStyled(lanes: seq<string>, laneY: map<string, int>, width: int)
    ensures EdgesStyled(P.LaneCells(lanes, laneY, width))
  {
    if |lanes| > 0 {
      LaneCellsStyled(lanes[..|lanes| - 1], laneY, width);
      EdgesStyledAppend(P.LaneCells(lanes[..|lanes| - 1], laneY, width), P.LaneBand(lanes, laneY, width, |lanes| - 1));
    }
  }

  lemma {:induction false} LegendEntriesStyled(lanes: seq<string>, legendX: int)
    ensures EdgesStyled(P.LegendEntries(lanes, legendX))
  {
    if |lanes| > 0 {
      LegendEntriesStyled(lanes[..|lanes| - 1], legendX);
      EdgesStyledAppend(P.LegendEntries(lanes[..|lanes| - 1], legendX), P.LegendEntry(lanes[|lanes| - 1], legendX, |lanes| - 1));
    }
  }

  /** In a compiled document every edge cell carries `endArrow=blockThin`. */
  lemma AssembledEdgesStyled(plan: Plan, lanes: seq<string>, laneY: map<string, int>, positions: P.Positions, width: int)
    ensures EdgesStyled(P.Assemble(plan, lanes, laneY, positions, width))
  {
    var (gcells, gids) := P.EmitGroups(plan.groups, plan.nodes, positions, laneY);
    var (ncells, nids) := P.EmitNodes(plan.nodes, positions, gids);
    var ecells := P.EmitEdges(plan.edges, nids, positions).0;
    EmittedGroupsStyled(plan.groups, plan.nodes, positions, laneY);
    EmittedNodesStyled(plan.nodes, positions, gids);
    EmittedEdgesStyled(plan.edges, nids, positions);
    LaneCellsStyled(lanes, laneY, width);
    LegendCellsStyled(plan.legend, lanes, width);
    var head := P.Roots() + [P.TitleCell(plan.title)];
    HeadStyled(plan.title);
    var legend := P.LegendCells(plan.legend, lanes, width);
    SixStyled(head, P.LaneCells(lanes, laneY, width), gcells, ncells, ecells, legend);
  }

  lemma HeadStyled(title: Option<string>)
    ensures EdgesStyled(P.Roots() + [P.TitleCell(title)])
  {
  }

  lemma LegendCellsStyled(legend: Option<bool>, lanes: seq<string>, width: int)
    ensures EdgesStyled(P.LegendCells(legend, lanes, width))
  {
    var shown := if |lanes| < 4 then lanes else lanes[..4];
    LegendEntriesStyled(shown, width - 200);
    if legend.GetOr(true) {
      EdgesStyledAppend([P.VertexCell("legend", "Legend", P.LegendTitleStyle, P.Geo(width - 200, P.DiagramMargin, 80, 20))],
                        P.LegendEntries(shown, width - 200));
    }
  }

  lemma SixStyled(a: seq<Cell>, b: seq<Cell>, c: seq<Cell>, d: seq<Cell>, e: seq<Cell>, f: seq<Cell>)
    requires EdgesStyled(a) && EdgesStyled(b) && EdgesStyled(c) && EdgesStyled(d) && EdgesStyled(e) && EdgesStyled(f)
    ensures EdgesStyled(a + b + c + d + e + f)
  {
    EdgesStyledAppend(a, b);
    EdgesStyledAppend(a + b, c);
    EdgesStyledAppend(a + b + c, d);
    EdgesStyledAppend(a + b + c + d, e);
    EdgesStyledAppend(a + b + c + d + e, f);
  }

  /** The validator sees the compiler's edge style on every edge record. */
  lemma {:induction false} EdgeRecordsStyled(cells: seq<Cell>)
    requires EdgesStyled(cells)
    ensures forall i :: 0 <= i < |V.EdgesOf(cells)| ==> V.EdgesOf(cells)[i].style == P.EdgeStyle
  {
    if |cells| > 0 {
      var p := cells[..|cells| - 1];
      assert EdgesStyled(p) by {
        forall i | 0 <= i < |p| && p[i].edge ensures p[i].style == P.EdgeStyle { assert p[i] == cells[i]; }
      }
      EdgeRecordsStyled(p);
    }
  }

  /** A document whose edges all carry the compiler's edge style has a
      structural issue: "No edges found", or one arrow issue per edge. */
  lemma StyledCellsFlagged(cells: seq<Cell>)
    requires EdgesStyled(cells)
    ensures |V.ArrowIssues(V.EdgesOf(cells))| == |V.EdgesOf(cells)|
    ensures |V.StructuralIssues(V.NodesOf(cells), V.EdgesOf(cells))| > 0
  {
    EdgeRecordsStyled(cells);
    assert !V.ArrowOk(P.EdgeStyle);
    V.ArrowIssuesAllFlagged(V.EdgesOf(cells));
  }

  /** Any structural issue makes a parsed document fail validation. */
  lemma StructuralIssueRejects(doc: Doc, goal: string)
    requires |V.StructuralIssues(V.NodesOf(doc.cells), V.EdgesOf(doc.cells))| > 0
    ensures !V.Validation(Parsed(doc), goal).ok
  {
  }

  /** The validator rejects every document the compiler produces: without
      edges it reports "No edges found", and otherwise the `blockThin`
      arrow of each edge is reported, one issue per edge. */
  lemma CompiledDiagramRejected(plan: Plan, goal: string)
    requires P.Compile(plan).Success?
    ensures var cells := P.Compile(plan).value.cells;
      |V.ArrowIssues(V.EdgesOf(cells))| == |V.EdgesOf(cells)| &&
      !V.Validation(Parsed(P.AsDoc(P.Compile(plan).value)), goal).ok
  {
    var lanes := LanesOrDefault(plan.lanes);
    var laneY := P.LaneY(lanes);
    var positions := P.Layout(plan.nodes, laneY).value;
    var width := P.DiagramSize(positions, |lanes|).0;
    var d := P.Compile(plan).value;
    assert d.cells == P.Assemble(plan, lanes, laneY, positions, width);
    AssembledEdgesStyled(plan, lanes, laneY, positions, width);
    StyledCellsFlagged(d.cells);
    StructuralIssueRejects(P.AsDoc(d), goal);
  }

  // ---------------------------------------------------------------------
  // Contrast: the compiler's 0.5 against the validator's 0.45

  /** `#1a9898` is dark at 0.5 for the compiler and the renderer, light at 0.45 for the validator. */
  lemma ApplicationFillBetween()
    ensures P.IsDark("#1a9898") && R.IsDarkHex("#1a9898") && !V.IsDark45("#1a9898")
  {
    TealCompilerDark();
    TealValidatorLight();
    R.IsDarkHexOfDigits("#1a9898");
  }

  lemma TealCompilerDark()
    ensures MatchesHexColor("#1a9898") && P.IsDark("#1a9898")
  {
    assert MatchesHexColor("#1a9898") && Luminance("#1a9898") == 1252124;
  }

  lemma TealValidatorLight()
    ensures !V.IsDark45("#1a9898")
  {
    assert MatchesHexColor("#1a9898") && Luminance("#1a9898") == 1252124;
  }

  lemma WhiteIsLightFont()
    ensures V.LightFont("#ffffff")
  {
    var w := "#ffffff";
    assert forall i :: 0 <= i < |w| ==> Lower(w)[i] == w[i];
    assert Lower(w) == w;
  }

  /** The compiled style of a non-external Application node. */
  lemma ApplicationStyle(n: Node)
    requires !P.IsExternal(n) && P.LaneOf(n) == "Application"
    ensures var st := P.NodeStyle(n);
      Lookup(st, "fillColor") == Some("#1a9898") && Lookup(st, "fontColor") == Some("#ffffff") &&
      Lookup(st, "strokeColor") == Some("#147a7a") && Lookup(st, "text").None? && Lookup(st, "shape") != Some("text")
  {
    TealCompilerDark();
    P.LaneNodeColors(n);
    NodeStyleNotText(n);
  }

  /** No compiled node style has a `text` key or the `text` shape. */
  lemma NodeStyleNotText(n: Node)
    ensures Lookup(P.NodeStyle(n), "text").None? && Lookup(P.NodeStyle(n), "shape") != Some("text")
  {
    P.NodeShapes(n);
  }

  /** A boxed vertex with fill `#1a9898`, white text and a visible stroke
      is a validator node flagged light on light. */
  lemma TealWhiteFlagged(c: Cell)
    requires c.vertex && c.geometry.Some?
    requires Lookup(c.style, "fillColor") == Some("#1a9898") && Lookup(c.style, "fontColor") == Some("#ffffff")
    requires Lookup(c.style, "strokeColor") == Some("#147a7a") && Lookup(c.style, "text").None? && Lookup(c.style, "shape") != Some("text")
    ensures V.IsNodeCell(c) && V.LightOnLight(c.id) in V.NodeContrastIssues(V.NodeRecOf(c))
  {
    TealValidatorLight();
    WhiteIsLightFont();
    var rec := V.NodeRecOf(c);
    V.NodeContrastCases(rec);
  }

  /** A compiled node is a node to the validator (not a text label), and on
      a non-external Application node, whose fill `#1a9898` both the
      compiler and the renderer call dark, the validator reads the fill as
      light and reports the compiler's white text as light on light. */
  lemma ApplicationNodeFlagged(nid: string, n: Node, p: P.Pos, groupIds: set<string>)
    requires !P.IsExternal(n) && P.LaneOf(n) == "Application"
    ensures var c := P.NodeCell(nid, n, p, groupIds);
      V.IsNodeCell(c) && V.LightOnLight(c.id) in V.NodeContrastIssues(V.NodeRecOf(c))
  {
    ApplicationStyle(n);
    TealWhiteFlagged(P.NodeCell(nid, n, p, groupIds));
  }

  /** On `#rrggbb` the compiler's and the renderer's darkness tests agree,
      and the validator's is stricter than both; without the `#` the
      compiler and the validator put it back and give the same answer,
      while the renderer never calls the colour dark. */
  lemma DarkTestsAgree(c: string)
    requires |c| == 7 && c[0] == '#' && HexDigitsAt(c, 1, 6)
    ensures P.IsDark(c) <==> R.IsDarkHex(c)
    ensures V.IsDark45(c) ==> P.IsDark(c) && R.IsDarkHex(c)
    ensures c[1..] != "" && (P.IsDark(c[1..]) <==> P.IsDark(c)) && !R.IsDarkHex(c[1..])
    ensures V.IsDark45(c[1..]) <==> V.IsDark45(c)
  {
    assert WithHash(c) == c;
    assert "#" + c[1..] == c;
    assert WithHash(c[1..]) == c;
    P.IsDarkIgnoresHash(c[1..]);
    R.IsDarkHexOfDigits(c);
  }
}
