/** validate.py: the structural, contrast and goal checks run on a draw.io
    document.  The document arrives parsed (`Document.Parse`); each cell's
    style map is what `ParseStyle` below makes of its style attribute. */
module Validate {
  import opened Wrappers
  import opened Text
  import opened Colors
  import opened Document

  // ---------------------------------------------------------------------
  // `_parse_style`

  /** One non-empty `;`-part: split at the first `=`, both sides stripped;
      a part without `=` is a flag whose stripped text maps to "1". */
  function PartEntry(part: string): (string, string) {
    var k := IndexOf(part, '=');
    if k >= 0 then (Strip(part[..k]), Strip(part[k + 1..])) else (Strip(part), "1")
  }

  /** The dictionary the parts denote: empty parts skipped, later keys win. */
  function StyleParts(parts: seq<string>): Style {
    if |parts| == 0 then map[]
    else
      var out := StyleParts(parts[..|parts| - 1]);
      var part := parts[|parts| - 1];
      if part == "" then out else out[PartEntry(part).0 := PartEntry(part).1]
  }

  /** `_parse_style(style)`; a missing attribute is passed as "". */
  method ParseStyle(style: string) returns (out: Style)
    ensures out == StyleParts(Split(style, ';'))
  {
    var parts := Split(style, ';');
    out := map[];
    for i := 0 to |parts|
      invariant out == StyleParts(parts[..i])
    {
      assert parts[..i + 1][..i] == parts[..i];
      var part := parts[i];
      if part != "" {
        var (k, v) := PartEntry(part);
        out := out[k := v];
      }
    }
    assert parts[..|parts|] == parts;
  }

  /** A well-formed entry's text parses back to its own key and value. */
  lemma PartEntryOfPrinted(e: StyleEntry)
    requires WellFormedEntry(e)
    ensures PrintEntry(e) != "" && PartEntry(PrintEntry(e)) == (EntryKey(e), EntryValue(e))
  {
    var s := PrintEntry(e);
    var k := EntryKey(e);
    StripOfStripped(k);
    if e.Setting? {
      assert s == k + "=" + e.val;
      assert s[|k|] == '=';
      assert forall j :: 0 <= j < |k| ==> s[j] == k[j];
      assert IndexOf(s, '=') == |k|;
      assert s[..|k|] == k && s[|k| + 1..] == e.val;
      StripOfStripped(e.val);
    } else {
      assert IndexOf(s, '=') == -1;
    }
  }

  lemma EntryTextsSnoc(es: seq<StyleEntry>)
    requires |es| > 0
    ensures EntryTexts(es) == EntryTexts(es[..|es| - 1]) + [PrintEntry(es[|es| - 1])]
  {
    var a, b := EntryTexts(es), EntryTexts(es[..|es| - 1]) + [PrintEntry(es[|es| - 1])];
    assert |a| == |b|;
    forall i | 0 <= i < |a| ensures a[i] == b[i] {
      if i < |es| - 1 { assert es[..|es| - 1][i] == es[i]; }
    }
  }

  lemma {:induction false} StylePartsOfTexts(es: seq<StyleEntry>)
    requires WellFormedStyle(es)
    ensures StyleParts(EntryTexts(es)) == StyleOf(es)
  {
    if |es| > 0 {
      var p := es[..|es| - 1];
      assert WellFormedStyle(p) by {
        forall i | 0 <= i < |p| ensures WellFormedEntry(p[i]) { assert p[i] == es[i]; }
      }
      StylePartsOfTexts(p);
      EntryTextsSnoc(es);
      PartEntryOfPrinted(es[|es| - 1]);
      var ts := EntryTexts(es);
      assert ts[..|ts| - 1] == EntryTexts(p);
    }
  }

  /** The style text plan_to_drawio.py prints for well-formed entries parses
      back to the map those entries denote. */
  lemma ParsePrintedStyle(es: seq<StyleEntry>)
    requires WellFormedStyle(es)
    ensures StyleParts(Split(PrintStyle(es), ';')) == StyleOf(es)
  {
    SplitPrintStyle(es);
    var ts := EntryTexts(es);
    assert (ts + [""])[..|ts|] == ts;
    StylePartsOfTexts(es);
  }

  // ---------------------------------------------------------------------
  // `_bbox` and `_overlap`

  /** `(x1, y1, x2, y2)`. */
  datatype Box = Box(x1: real, y1: real, x2: real, y2: real)

  /** `float(geom.get(attr) or 0)`. */
  function Num(o: Option<real>): real {
    o.GetOr(0.0)
  }

  function BBox(g: Geometry): Box {
    Box(Num(g.x), Num(g.y), Num(g.x) + Num(g.width), Num(g.y) + Num(g.height))
  }

  /** Strict overlap: boxes that only share an edge do not overlap. */
  predicate Overlap(a: Box, b: Box) {
    !(a.x2 <= b.x1 || b.x2 <= a.x1 || a.y2 <= b.y1 || b.y2 <= a.y1)
  }

  predicate StrictlyInside(px: real, py: real, b: Box) {
    b.x1 < px < b.x2 && b.y1 < py < b.y2
  }

  function MaxR(a: real, b: real): real { if a < b then b else a }
  function MinR(a: real, b: real): real { if a < b then a else b }

  /** Two boxes of positive width and height overlap exactly when some point
      lies strictly inside both. */
  lemma OverlapIsCommonInterior(a: Box, b: Box)
    requires a.x1 < a.x2 && a.y1 < a.y2 && b.x1 < b.x2 && b.y1 < b.y2
    ensures Overlap(a, b) <==> exists px, py :: StrictlyInside(px, py, a) && StrictlyInside(px, py, b)
  {
    if Overlap(a, b) {
      var px := (MaxR(a.x1, b.x1) + MinR(a.x2, b.x2)) / 2.0;
      var py := (MaxR(a.y1, b.y1) + MinR(a.y2, b.y2)) / 2.0;
      assert StrictlyInside(px, py, a) && StrictlyInside(px, py, b);
    }
  }

  /** `_overlap` is symmetric, and touching boxes do not overlap. */
  lemma OverlapSymmetricTouching(a: Box, b: Box)
    ensures Overlap(a, b) == Overlap(b, a)
    ensures a.x2 == b.x1 || a.y2 == b.y1 ==> !Overlap(a, b)
  {
  }

  // ---------------------------------------------------------------------
  // Classification of cells

  /** A vertex with geometry counts as text when its style has a truthy `text`,
      or `shape=text`, or it has a value and `strokeColor=none`. */
  predicate IsTextCell(c: Cell) {
    Truthy(Lookup(c.style, "text")) || Lookup(c.style, "shape") == Some("text")
    || (Truthy(c.value) && Lookup(c.style, "strokeColor") == Some("none"))
  }

  predicate IsBoxed(c: Cell) {
    c.vertex && c.geometry.Some?
  }

  predicate IsNodeCell(c: Cell) { IsBoxed(c) && !IsTextCell(c) }
  predicate IsTextLabel(c: Cell) { IsBoxed(c) && IsTextCell(c) }

  /** The `nodes` entries: id, box, style and `value or ''`. */
  datatype NodeRec = NodeRec(id: Option<string>, box: Box, style: Style, value: string)

  /** The `texts` entries.  validate.py stores only the id and the box; the
      value is kept here for the corrected goal check (see `GoalIssues`). */
  datatype TextRec = TextRec(id: Option<string>, box: Box, value: string)

  datatype EdgeRec = EdgeRec(id: Option<string>, style: Style)

  function NodeRecOf(c: Cell): NodeRec
    requires c.geometry.Some?
  {
    NodeRec(c.id, BBox(c.geometry.value), c.style, c.value.GetOr(""))
  }

  function TextRecOf(c: Cell): TextRec
    requires c.geometry.Some?
  {
    TextRec(c.id, BBox(c.geometry.value), c.value.GetOr(""))
  }

  function NodesOf(cells: seq<Cell>): seq<NodeRec> {
    if |cells| == 0 then []
    else
      var c := cells[|cells| - 1];
      NodesOf(cells[..|cells| - 1]) + if IsNodeCell(c) then [NodeRecOf(c)] else []
  }

  function TextsOf(cells: seq<Cell>): seq<TextRec> {
    if |cells| == 0 then []
    else
      var c := cells[|cells| - 1];
      TextsOf(cells[..|cells| - 1]) + if IsTextLabel(c) then [TextRecOf(c)] else []
  }

  function EdgesOf(cells: seq<Cell>): seq<EdgeRec> {
    if |cells| == 0 then []
    else
      var c := cells[|cells| - 1];
      EdgesOf(cells[..|cells| - 1]) + if c.edge then [EdgeRec(c.id, c.style)] else []
  }

  /** The number of vertices with geometry. */
  function CountBoxed(cells: seq<Cell>): nat {
    if |cells| == 0 then 0 else CountBoxed(cells[..|cells| - 1]) + if IsBoxed(cells[|cells| - 1]) then 1 else 0
  }

  /** Every vertex with geometry becomes exactly one node or one text entry. */
  lemma {:induction false} NodesAndTextsPartition(cells: seq<Cell>)
    ensures |NodesOf(cells)| + |TextsOf(cells)| == CountBoxed(cells)
  {
    if |cells| > 0 {
      NodesAndTextsPartition(cells[..|cells| - 1]);
    }
  }

  /** The loop over `root.findall('.//mxCell')` that fills `nodes`, `texts` and `edges`. */
  method ClassifyCells(cells: seq<Cell>) returns (nodes: seq<NodeRec>, texts: seq<TextRec>, edges: seq<EdgeRec>)
    ensures nodes == NodesOf(cells) && texts == TextsOf(cells) && edges == EdgesOf(cells)
  {
    nodes, texts, edges := [], [], [];
    for i := 0 to |cells|
      invariant nodes == NodesOf(cells[..i]) && texts == TextsOf(cells[..i]) && edges == EdgesOf(cells[..i])
    {
      assert cells[..i + 1][..i] == cells[..i];
      var c := cells[i];
      if c.vertex && c.geometry.Some? {
        if IsTextCell(c) {
          texts := texts + [TextRecOf(c)];
        } else {
          nodes := nodes + [NodeRecOf(c)];
        }
      }
      if c.edge {
        edges := edges + [EdgeRec(c.id, c.style)];
      }
    }
    assert cells[..|cells|] == cells;
  }

  // ---------------------------------------------------------------------
  // Issues

  datatype Issue =
    | ParseError(message: string)
    | RootNotModel
    | NoNodes
    | NoEdges
    | MissingEndArrow(edge: Option<string>)
    | Overlapping(first: Option<string>, second: Option<string>)
    | MissingFill(node: Option<string>)
    | DarkOnDark(node: Option<string>)
    | LightOnLight(node: Option<string>)
    | MissingEvents
    | MissingApi
    | MissingMonitoring
    | MissingSecurity

  /** How Python formats an id in an f-string: `None` when it is missing. */
  function IdText(o: Option<string>): string {
    if o.Some? then o.value else "None"
  }

  /** The text of each issue as validate.py reports it. */
  function Message(i: Issue): string {
    match i
    case ParseError(m) => "XML parse error: " + m
    case RootNotModel => "Root is not mxGraphModel"
    case NoNodes => "No nodes found"
    case NoEdges => "No edges found"
    case MissingEndArrow(e) => "Edge " + IdText(e) + " missing endArrow"
    case Overlapping(a, b) => "Overlap: " + IdText(a) + " with " + IdText(b)
    case MissingFill(n) => "Node " + IdText(n) + " missing fillColor"
    case DarkOnDark(n) => "Low contrast text on " + IdText(n) + " (dark fill + dark font)"
    case LightOnLight(n) => "Low contrast text on " + IdText(n) + " (light fill + light font)"
    case MissingEvents => "Missing Events label or node"
    case MissingApi => "Missing API label or node"
    case MissingMonitoring => "Missing Monitoring node/label"
    case MissingSecurity => "Missing Security boundary/label"
  }

  /** An `endArrow` the validator accepts. */
  predicate ArrowOk(st: Style) {
    var a := Lookup(st, "endArrow");
    a == Some("block") || a == Some("classic") || a == Some("open")
  }

  function ArrowIssues(edges: seq<EdgeRec>): seq<Issue> {
    if |edges| == 0 then []
    else
      var e := edges[|edges| - 1];
      ArrowIssues(edges[..|edges| - 1]) + if ArrowOk(e.style) then [] else [MissingEndArrow(e.id)]
  }

  /** No arrow issue exactly when every edge has an accepted `endArrow`. */
  lemma {:induction false} ArrowIssuesNoneIff(edges: seq<EdgeRec>)
    ensures ArrowIssues(edges) == [] <==> forall i :: 0 <= i < |edges| ==> ArrowOk(edges[i].style)
  {
    if |edges| > 0 {
      var p := edges[..|edges| - 1];
      ArrowIssuesNoneIff(p);
      assert forall i :: 0 <= i < |p| ==> p[i] == edges[i];
    }
  }

  /** When no edge has an accepted `endArrow`, each edge gets its own issue, in order. */
  lemma {:induction false} ArrowIssuesAllFlagged(edges: seq<EdgeRec>)
    requires forall i :: 0 <= i < |edges| ==> !ArrowOk(edges[i].style)
    ensures |ArrowIssues(edges)| == |edges|
    ensures forall i :: 0 <= i < |edges| ==> ArrowIssues(edges)[i] == MissingEndArrow(edges[i].id)
  {
    if |edges| > 0 {
      var p := edges[..|edges| - 1];
      assert forall i :: 0 <= i < |p| ==> p[i] == edges[i];
      ArrowIssuesAllFlagged(p);
    }
  }

  method EdgeArrowIssues(edges: seq<EdgeRec>) returns (issues: seq<Issue>)
    ensures issues == ArrowIssues(edges)
  {
    issues := [];
    for i := 0 to |edges|
      invariant issues == ArrowIssues(edges[..i])
    {
      assert edges[..i + 1][..i] == edges[..i];
      if !ArrowOk(edges[i].style) {
        issues := issues + [MissingEndArrow(edges[i].id)];
      }
    }
    assert edges[..|edges|] == edges;
  }

  /** "No nodes found", then "No edges found" or the arrow issues. */
  function StructuralIssues(nodes: seq<NodeRec>, edges: seq<EdgeRec>): seq<Issue> {
    (if |nodes| == 0 then [NoNodes] else [])
    + if |edges| == 0 then [NoEdges] else ArrowIssues(edges)
  }

  /** The issues of the inner loop for node `i` against nodes `i+1 .. j-1`. */
  function PairIssues(ns: seq<NodeRec>, i: nat, j: nat): seq<Issue>
    requires i < |ns| && j <= |ns|
  {
    if j <= i + 1 then []
    else PairIssues(ns, i, j - 1) + if Overlap(ns[i].box, ns[j - 1].box) then [Overlapping(ns[i].id, ns[j - 1].id)] else []
  }

  /** The issues of the outer loop's first `n` rounds. */
  function OverlapRounds(ns: seq<NodeRec>, n: nat): seq<Issue>
    requires n <= |ns|
  {
    if n == 0 then [] else OverlapRounds(ns, n - 1) + PairIssues(ns, n - 1, |ns|)
  }

  function OverlapIssues(ns: seq<NodeRec>): seq<Issue> {
    OverlapRounds(ns, |ns|)
  }

  predicate PairwiseDisjoint(ns: seq<NodeRec>) {
    forall i, j :: 0 <= i < j < |ns| ==> !Overlap(ns[i].box, ns[j].box)
  }

  /** Node `i` overlaps none of the nodes `i+1 .. j-1`. */
  predicate RowDisjoint(ns: seq<NodeRec>, i: nat, j: nat)
    requires i < |ns| && j <= |ns|
  {
    forall k :: i < k < j ==> !Overlap(ns[i].box, ns[k].box)
  }

  /** None of the first `n` nodes overlaps a later one. */
  predicate RoundsDisjoint(ns: seq<NodeRec>, n: nat)
    requires n <= |ns|
  {
    forall i, j :: 0 <= i < n && i < j < |ns| ==> !Overlap(ns[i].box, ns[j].box)
  }

  lemma {:induction false} PairIssuesEmpty(ns: seq<NodeRec>, i: nat, j: nat)
    requires i < |ns| && j <= |ns| && RowDisjoint(ns, i, j)
    ensures PairIssues(ns, i, j) == []
    decreases j
  {
    if j > i + 1 {
      PairIssuesEmpty(ns, i, j - 1);
    }
  }

  lemma {:induction false} PairIssuesReport(ns: seq<NodeRec>, i: nat, j: nat, k: nat)
    requires i < k < j <= |ns| && Overlap(ns[i].box, ns[k].box)
    ensures Overlapping(ns[i].id, ns[k].id) in PairIssues(ns, i, j)
    decreases j
  {
    if k < j - 1 {
      PairIssuesReport(ns, i, j - 1, k);
    }
  }

  lemma {:induction false} OverlapRoundsEmpty(ns: seq<NodeRec>, n: nat)
    requires n <= |ns| && RoundsDisjoint(ns, n)
    ensures OverlapRounds(ns, n) == []
  {
    if n > 0 {
      assert RoundsDisjoint(ns, n - 1);
      OverlapRoundsEmpty(ns, n - 1);
      assert RowDisjoint(ns, n - 1, |ns|);
      PairIssuesEmpty(ns, n - 1, |ns|);
    }
  }

  /** No overlap issue exactly when the nodes are pairwise disjoint. */
  lemma OverlapIssuesNoneIff(ns: seq<NodeRec>)
    ensures OverlapIssues(ns) == [] <==> PairwiseDisjoint(ns)
  {
    if PairwiseDisjoint(ns) {
      OverlapRoundsEmpty(ns, |ns|);
    } else {
      var i, j :| 0 <= i < j < |ns| && Overlap(ns[i].box, ns[j].box);
      OverlapIssuesReportPair(ns, i, j);
    }
  }

  /** Every overlapping pair `i < j` is reported as `Overlap: <id i> with <id j>`. */
  lemma {:induction false} OverlapIssuesReportPair(ns: seq<NodeRec>, i: nat, j: nat)
    requires i < j < |ns| && Overlap(ns[i].box, ns[j].box)
    ensures Overlapping(ns[i].id, ns[j].id) in OverlapIssues(ns)
  {
    OverlapRoundsReport(ns, |ns|, i, j);
  }

  lemma {:induction false} OverlapRoundsReport(ns: seq<NodeRec>, n: nat, i: nat, j: nat)
    requires i < n <= |ns| && i < j < |ns| && Overlap(ns[i].box, ns[j].box)
    ensures Overlapping(ns[i].id, ns[j].id) in OverlapRounds(ns, n)
  {
    if i == n - 1 {
      PairIssuesReport(ns, i, |ns|, j);
    } else {
      OverlapRoundsReport(ns, n - 1, i, j);
    }
  }

  /** The "No nodes found", "No edges found" and `endArrow` checks. */
  method StructuralChecks(nodes: seq<NodeRec>, edges: seq<EdgeRec>) returns (issues: seq<Issue>)
    ensures issues == StructuralIssues(nodes, edges)
  {
    issues := [];
    if |nodes| == 0 {
      issues := issues + [NoNodes];
    }
    if |edges| == 0 {
      issues := issues + [NoEdges];
    } else {
      var arrows := EdgeArrowIssues(edges);
      issues := issues + arrows;
    }
  }

  /** The nested `for i` / `for j in range(i + 1, ...)` loop. */
  method OverlapChecks(ns: seq<NodeRec>) returns (issues: seq<Issue>)
    ensures issues == OverlapIssues(ns)
  {
    issues := [];
    for i := 0 to |ns|
      invariant issues == OverlapRounds(ns, i)
    {
      for j := i + 1 to |ns|
        invariant issues == OverlapRounds(ns, i) + PairIssues(ns, i, j)
      {
        if Overlap(ns[i].box, ns[j].box) {
          issues := issues + [Overlapping(ns[i].id, ns[j].id)];
        }
      }
    }
  }

  /** The inner `_is_dark`: a missing `#` is put in front, anything but six
      hex digits is not dark, and otherwise luminance < 0.45. */
  predicate IsDark45(c: string) {
    var h := WithHash(c);
    MatchesHexColor(h) && Luminance(h) < FortyFiveHundredths
  }

  /** The fonts read as dark on a dark fill. */
  predicate DarkFont(font: string) {
    font == "" || Lower(font) in {"#000", "#000000", "#333", "#222"}
  }

  predicate LightFont(font: string) {
    Lower(font) in {"#fff", "#ffffff"}
  }

  /** `st.get('fillColor', '#ffffff')` and `st.get('fontColor', '#111111')`. */
  function FillOf(st: Style): string { Lookup(st, "fillColor").GetOr("#ffffff") }
  function FontOf(st: Style): string { Lookup(st, "fontColor").GetOr("#111111") }

  function NodeContrastIssues(n: NodeRec): seq<Issue> {
    var fc, font := FillOf(n.style), FontOf(n.style);
    (if "fillColor" !in n.style then [MissingFill(n.id)] else [])
    + (if IsDark45(fc) && DarkFont(font) then [DarkOnDark(n.id)] else [])
    + (if !IsDark45(fc) && LightFont(font) then [LightOnLight(n.id)] else [])
  }

  /** The per-node issues of `f`, node after node. */
  function ConcatMap<T>(xs: seq<T>, f: T -> seq<Issue>): seq<Issue> {
    if |xs| == 0 then [] else ConcatMap(xs[..|xs| - 1], f) + f(xs[|xs| - 1])
  }

  lemma {:induction false} ConcatMapAppend<T>(a: seq<T>, b: seq<T>, f: T -> seq<Issue>)
    ensures ConcatMap(a + b, f) == ConcatMap(a, f) + ConcatMap(b, f)
    decreases |b|
  {
    if |b| == 0 {
      assert a + b == a;
    } else {
      assert (a + b)[..|a + b| - 1] == a + b[..|b| - 1];
      ConcatMapAppend(a, b[..|b| - 1], f);
    }
  }

  /** Every element's issues appear in the list. */
  lemma ConcatMapCovers<T>(xs: seq<T>, f: T -> seq<Issue>, k: nat, x: Issue)
    requires k < |xs| && x in f(xs[k])
    ensures x in ConcatMap(xs, f)
  {
    assert xs == xs[..k] + [xs[k]] + xs[k + 1..];
    ConcatMapAppend(xs[..k] + [xs[k]], xs[k + 1..], f);
    ConcatMapAppend(xs[..k], [xs[k]], f);
    assert ConcatMap([xs[k]], f) == f(xs[k]) by { assert [xs[k]][..0] == []; }
  }

  /** Every issue in the list is one of some element's issues. */
  lemma {:induction false} ConcatMapFrom<T>(xs: seq<T>, f: T -> seq<Issue>, x: Issue) returns (k: nat)
    requires x in ConcatMap(xs, f)
    ensures k < |xs| && x in f(xs[k])
  {
    var p := xs[..|xs| - 1];
    if x in ConcatMap(p, f) {
      k := ConcatMapFrom(p, f, x);
      assert p[k] == xs[k];
    } else {
      k := |xs| - 1;
    }
  }

  /** A node never gets both contrast issues; it gets each one exactly when its
      fill and font call for it. */
  lemma NodeContrastCases(n: NodeRec)
    ensures !(DarkOnDark(n.id) in NodeContrastIssues(n) && LightOnLight(n.id) in NodeContrastIssues(n))
    ensures LightOnLight(n.id) in NodeContrastIssues(n) <==> !IsDark45(FillOf(n.style)) && LightFont(FontOf(n.style))
    ensures DarkOnDark(n.id) in NodeContrastIssues(n) <==> IsDark45(FillOf(n.style)) && DarkFont(FontOf(n.style))
  {
    var fc, font := FillOf(n.style), FontOf(n.style);
    var missing := if "fillColor" !in n.style then [MissingFill(n.id)] else [];
    var dark := if IsDark45(fc) && DarkFont(font) then [DarkOnDark(n.id)] else [];
    var light := if !IsDark45(fc) && LightFont(font) then [LightOnLight(n.id)] else [];
    assert NodeContrastIssues(n) == missing + dark + light;
    assert DarkOnDark(n.id) !in missing + light;
    assert LightOnLight(n.id) !in missing + dark;
  }

  function ContrastIssues(ns: seq<NodeRec>): seq<Issue> {
    ConcatMap(ns, NodeContrastIssues)
  }

  /** Every node gets its own contrast issues, and every contrast issue comes from some node. */
  lemma ContrastIssuesExactly(ns: seq<NodeRec>, x: Issue)
    ensures x in ContrastIssues(ns) <==> exists k :: 0 <= k < |ns| && x in NodeContrastIssues(ns[k])
  {
    if x in ContrastIssues(ns) {
      var k := ConcatMapFrom(ns, NodeContrastIssues, x);
    }
    if k :| 0 <= k < |ns| && x in NodeContrastIssues(ns[k]) {
      ConcatMapCovers(ns, NodeContrastIssues, k, x);
    }
  }

  /** The three contrast checks of one node. */
  method NodeContrast(n: NodeRec) returns (found: seq<Issue>)
    ensures found == NodeContrastIssues(n)
  {
    found := [];
    var st := n.style;
    if "fillColor" !in st {
      found := found + [MissingFill(n.id)];
    }
    var fc := Lookup(st, "fillColor").GetOr("#ffffff");
    var font := Lookup(st, "fontColor").GetOr("#111111");
    var dark := IsDark45(fc);
    if dark && DarkFont(font) {
      found := found + [DarkOnDark(n.id)];
    }
    if !dark && LightFont(font) {
      found := found + [LightOnLight(n.id)];
    }
  }

  method ContrastChecks(ns: seq<NodeRec>) returns (issues: seq<Issue>)
    ensures issues == ContrastIssues(ns)
  {
    issues := [];
    for i := 0 to |ns|
      invariant issues == ConcatMap(ns[..i], NodeContrastIssues)
    {
      assert ns[..i + 1][..i] == ns[..i];
      var found := NodeContrast(ns[i]);
      issues := issues + found;
    }
    assert ns[..|ns|] == ns;
  }

  /** Dark at 0.45 implies dark at 0.5, the threshold of the other two darkness tests. */
  lemma IsDark45Stricter(c: string)
    requires IsDark45(c)
    ensures MatchesHexColor(WithHash(c)) && Luminance(WithHash(c)) < Half
  {
  }

  // ---------------------------------------------------------------------
  // Goal keywords

  /** Some label, lower-cased, contains `word`. */
  predicate Mentions(labels: seq<string>, word: string) {
    exists i :: 0 <= i < |labels| && Contains(Lower(labels[i]), word)
  }

  /** The four keyword checks over the labels considered. */
  function GoalIssuesFor(goal: string, labels: seq<string>): seq<Issue> {
    var g := Lower(goal);
    (if Contains(g, "event") && !Mentions(labels, "event") then [MissingEvents] else [])
    + (if Contains(g, "api") && !Mentions(labels, "api") then [MissingApi] else [])
    + (if Contains(g, "monitor") && !Mentions(labels, "monitor") then [MissingMonitoring] else [])
    + (if Contains(g, "security") && !Mentions(labels, "secur") then [MissingSecurity] else [])
  }

  function NodeValues(ns: seq<NodeRec>): (vs: seq<string>)
    ensures |vs| == |ns| && forall i :: 0 <= i < |ns| ==> vs[i] == ns[i].value
  {
    seq(|ns|, i requires 0 <= i < |ns| => ns[i].value)
  }

  function TextValues(ts: seq<TextRec>): (vs: seq<string>)
    ensures |vs| == |ts| && forall i :: 0 <= i < |ts| ==> vs[i] == ts[i].value
  {
    seq(|ts|, i requires 0 <= i < |ts| => ts[i].value)
  }

  /** As validate.py is written: the `texts` entries hold no `value`, so each
      contributes `''` to `nodes + texts`. */
  function GoalIssuesAsWritten(goal: string, nodes: seq<NodeRec>, texts: seq<TextRec>): seq<Issue> {
    GoalIssuesFor(goal, NodeValues(nodes) + seq(|texts|, _ => ""))
  }

  /** As intended: node values and text labels both count. */
  function GoalIssues(goal: string, nodes: seq<NodeRec>, texts: seq<TextRec>): seq<Issue> {
    GoalIssuesFor(goal, NodeValues(nodes) + TextValues(texts))
  }

  lemma MentionsAppend(a: seq<string>, b: seq<string>, word: string)
    ensures Mentions(a + b, word) <==> Mentions(a, word) || Mentions(b, word)
  {
    var ab := a + b;
    if Mentions(ab, word) {
      var i :| 0 <= i < |ab| && Contains(Lower(ab[i]), word);
      if i < |a| { assert ab[i] == a[i]; } else { assert ab[i] == b[i - |a|]; }
    }
    if Mentions(a, word) {
      var i :| 0 <= i < |a| && Contains(Lower(a[i]), word);
      assert ab[i] == a[i];
    }
    if Mentions(b, word) {
      var i :| 0 <= i < |b| && Contains(Lower(b[i]), word);
      assert ab[|a| + i] == b[i];
    }
  }

  /** Some value among the nodes and text labels, lower-cased, contains `word`. */
  lemma MentionsNodesOrTexts(nodes: seq<NodeRec>, texts: seq<TextRec>, word: string)
    ensures Mentions(NodeValues(nodes) + TextValues(texts), word) <==>
      (exists i :: 0 <= i < |nodes| && Contains(Lower(nodes[i].value), word))
      || (exists i :: 0 <= i < |texts| && Contains(Lower(texts[i].value), word))
  {
    MentionsAppend(NodeValues(nodes), TextValues(texts), word);
  }

  /** Each keyword issue is reported exactly when the goal has the keyword and no label has its stem. */
  lemma GoalIssuesForIff(goal: string, labels: seq<string>)
    ensures MissingEvents in GoalIssuesFor(goal, labels) <==> Contains(Lower(goal), "event") && !Mentions(labels, "event")
    ensures MissingApi in GoalIssuesFor(goal, labels) <==> Contains(Lower(goal), "api") && !Mentions(labels, "api")
    ensures MissingMonitoring in GoalIssuesFor(goal, labels) <==> Contains(Lower(goal), "monitor") && !Mentions(labels, "monitor")
    ensures MissingSecurity in GoalIssuesFor(goal, labels) <==> Contains(Lower(goal), "security") && !Mentions(labels, "secur")
  {
  }

  /** The corrected check: "Missing Events label or node" is reported exactly when
      the goal mentions events and no node value or text label does. */
  lemma GoalEventsIff(goal: string, nodes: seq<NodeRec>, texts: seq<TextRec>)
    ensures MissingEvents in GoalIssues(goal, nodes, texts) <==>
      Contains(Lower(goal), "event")
      && !(exists i :: 0 <= i < |nodes| && Contains(Lower(nodes[i].value), "event"))
      && !(exists i :: 0 <= i < |texts| && Contains(Lower(texts[i].value), "event"))
  {
    GoalIssuesForIff(goal, NodeValues(nodes) + TextValues(texts));
    MentionsNodesOrTexts(nodes, texts, "event");
  }

  /** Without a goal keyword there is no goal issue. */
  lemma GoalIssuesNeedKeywords(goal: string, labels: seq<string>)
    requires !Contains(Lower(goal), "event") && !Contains(Lower(goal), "api")
    requires !Contains(Lower(goal), "monitor") && !Contains(Lower(goal), "security")
    ensures GoalIssuesFor(goal, labels) == []
  {
  }

  /** The discrepancy: a text label reading "Events" satisfies the intended
      check but not the one written, which reports the label as missing. */
  lemma GoalIssuesAsWrittenIgnoresTexts(goal: string, nodes: seq<NodeRec>, texts: seq<TextRec>, k: nat)
    requires Contains(Lower(goal), "event")
    requires forall i :: 0 <= i < |nodes| ==> !Contains(Lower(nodes[i].value), "event")
    requires k < |texts| && Contains(Lower(texts[k].value), "event")
    ensures MissingEvents in GoalIssuesAsWritten(goal, nodes, texts)
    ensures MissingEvents !in GoalIssues(goal, nodes, texts)
  {
    var written := NodeValues(nodes) + seq(|texts|, _ => "");
    forall i | 0 <= i < |written| ensures !Contains(Lower(written[i]), "event") {
      if i >= |nodes| {
        assert written[i] == "";
      }
    }
    var labels := NodeValues(nodes) + TextValues(texts);
    assert labels[|nodes| + k] == texts[k].value;
  }

  /** A concrete instance: goal "events", no node, one text cell "Events". */
  lemma GoalIssuesAsWrittenExample()
    ensures var t := TextRec(Some("t1"), Box(0.0, 0.0, 100.0, 20.0), "Events");
      MissingEvents in GoalIssuesAsWritten("events", [], [t]) && MissingEvents !in GoalIssues("events", [], [t])
  {
    var t := TextRec(Some("t1"), Box(0.0, 0.0, 100.0, 20.0), "Events");
    EventsMentionsEvent();
    GoalIssuesAsWrittenIgnoresTexts("events", [], [t], 0);
  }

  lemma EventsMentionsEvent()
    ensures Contains(Lower("events"), "event") && Contains(Lower("Events"), "event")
  {
    LowerEvents();
    assert MatchAt("events", "event", 0);
  }

  lemma LowerEvents()
    ensures Lower("events") == "events" && Lower("Events") == "events"
  {
    assert forall i :: 0 <= i < 6 ==> LowerChar("Events"[i]) == "events"[i];
    assert forall i :: 0 <= i < 6 ==> LowerChar("events"[i]) == "events"[i];
  }

  // ---------------------------------------------------------------------
  // validate_xml

  /** `{"ok": ..., "issues": ...}`. */
  datatype Report = Report(ok: bool, issues: seq<Issue>)

  /** The checks that do not depend on the goal: root tag, structure, overlap, contrast. */
  function CellIssues(doc: Doc): seq<Issue> {
    var nodes, edges := NodesOf(doc.cells), EdgesOf(doc.cells);
    (if doc.tag != "mxGraphModel" then [RootNotModel] else [])
    + StructuralIssues(nodes, edges) + OverlapIssues(nodes) + ContrastIssues(nodes)
  }

  /** The issues as validate.py computes them: the goal check sees node values only. */
  function Issues(doc: Doc, goal: string): seq<Issue> {
    CellIssues(doc) + GoalIssuesAsWritten(goal, NodesOf(doc.cells), TextsOf(doc.cells))
  }

  /** The issues with the corrected goal check, where text labels count too. */
  function IssuesCorrected(doc: Doc, goal: string): seq<Issue> {
    CellIssues(doc) + GoalIssues(goal, NodesOf(doc.cells), TextsOf(doc.cells))
  }

  function Validation(p: Parse, goal: string): Report {
    match p
    case Malformed(m) => Report(false, [ParseError(m)])
    case Parsed(doc) => var found := Issues(doc, goal); Report(|found| == 0, found)
  }

  function ValidationCorrected(p: Parse, goal: string): Report {
    match p
    case Malformed(m) => Report(false, [ParseError(m)])
    case Parsed(doc) => var found := IssuesCorrected(doc, goal); Report(|found| == 0, found)
  }

  /** `validate_xml(xml_text, user_goal)` on the parse of `xml_text`. */
  method ValidateXml(p: Parse, goal: string) returns (r: Report)
    ensures r == Validation(p, goal)
  {
    if p.Malformed? {
      return Report(false, [ParseError(p.message)]);
    }
    var doc := p.doc;
    var root := if doc.tag != "mxGraphModel" then [RootNotModel] else [];
    var nodes, texts, edges := ClassifyCells(doc.cells);
    var structural := StructuralChecks(nodes, edges);
    var overlaps := OverlapChecks(nodes);
    var contrast := ContrastChecks(nodes);
    var issues := root + structural + overlaps + contrast + GoalIssuesAsWritten(goal, nodes, texts);
    r := Report(|issues| == 0, issues);
  }

  /** ok is true exactly when there is no issue; a parse failure is one issue. */
  lemma ValidationVerdict(p: Parse, goal: string)
    ensures Validation(p, goal).ok <==> |Validation(p, goal).issues| == 0
    ensures p.Malformed? ==> Validation(p, goal).issues == [ParseError(p.message)] && !Validation(p, goal).ok
  {
  }

  /** Some node value, lower-cased, contains `word`. */
  predicate NodesMention(nodes: seq<NodeRec>, word: string) {
    exists i :: 0 <= i < |nodes| && Contains(Lower(nodes[i].value), word)
  }

  /** Every keyword the goal names has its stem in some node value. */
  predicate GoalMetByNodes(goal: string, nodes: seq<NodeRec>) {
    var g := Lower(goal);
    (Contains(g, "event") ==> NodesMention(nodes, "event"))
    && (Contains(g, "api") ==> NodesMention(nodes, "api"))
    && (Contains(g, "monitor") ==> NodesMention(nodes, "monitor"))
    && (Contains(g, "security") ==> NodesMention(nodes, "secur"))
  }

  /** The blank entries the text cells contribute never mention a non-empty word. */
  lemma MentionsAsWritten(nodes: seq<NodeRec>, texts: seq<TextRec>, word: string)
    requires |word| > 0
    ensures Mentions(NodeValues(nodes) + seq(|texts|, _ => ""), word) <==> NodesMention(nodes, word)
  {
    var blanks: seq<string> := seq(|texts|, _ => "");
    MentionsAppend(NodeValues(nodes), blanks, word);
    if NodesMention(nodes, word) {
      var i :| 0 <= i < |nodes| && Contains(Lower(nodes[i].value), word);
      assert NodeValues(nodes)[i] == nodes[i].value;
    }
  }

  /** As written, the goal check passes exactly when every goal keyword is met by a node value. */
  lemma GoalIssuesAsWrittenNone(goal: string, nodes: seq<NodeRec>, texts: seq<TextRec>)
    ensures GoalIssuesAsWritten(goal, nodes, texts) == [] <==> GoalMetByNodes(goal, nodes)
  {
    MentionsAsWritten(nodes, texts, "event");
    MentionsAsWritten(nodes, texts, "api");
    MentionsAsWritten(nodes, texts, "monitor");
    MentionsAsWritten(nodes, texts, "secur");
  }

  /** No contrast issue exactly when no node's own check reports one. */
  lemma ContrastIssuesNone(ns: seq<NodeRec>)
    ensures ContrastIssues(ns) == [] <==> forall k :: 0 <= k < |ns| ==> NodeContrastIssues(ns[k]) == []
  {
    if ContrastIssues(ns) != [] {
      ContrastIssuesExactly(ns, ContrastIssues(ns)[0]);
    }
    if k :| 0 <= k < |ns| && NodeContrastIssues(ns[k]) != [] {
      ContrastIssuesExactly(ns, NodeContrastIssues(ns[k])[0]);
    }
  }

  /** The goal-independent checks pass exactly when the root is `mxGraphModel`,
      there are nodes and edges, every arrow is accepted, no two node boxes
      overlap and no node has a contrast issue. */
  lemma CellIssuesNone(doc: Doc, nodes: seq<NodeRec>, edges: seq<EdgeRec>)
    requires nodes == NodesOf(doc.cells) && edges == EdgesOf(doc.cells)
    ensures CellIssues(doc) == [] <==>
      doc.tag == "mxGraphModel" && |nodes| > 0 && |edges| > 0
      && (forall i :: 0 <= i < |edges| ==> ArrowOk(edges[i].style))
      && PairwiseDisjoint(nodes)
      && (forall k :: 0 <= k < |nodes| ==> NodeContrastIssues(nodes[k]) == [])
  {
    ArrowIssuesNoneIff(edges);
    OverlapIssuesNoneIff(nodes);
    ContrastIssuesNone(nodes);
  }

  /** A parsed document is accepted exactly when the goal-independent checks
      pass and every goal keyword is met by a node value: text labels play no part. */
  lemma ValidationAccepts(doc: Doc, goal: string, nodes: seq<NodeRec>, edges: seq<EdgeRec>)
    requires nodes == NodesOf(doc.cells) && edges == EdgesOf(doc.cells)
    ensures Validation(Parsed(doc), goal).ok <==>
      doc.tag == "mxGraphModel" && |nodes| > 0 && |edges| > 0
      && (forall i :: 0 <= i < |edges| ==> ArrowOk(edges[i].style))
      && PairwiseDisjoint(nodes)
      && (forall k :: 0 <= k < |nodes| ==> NodeContrastIssues(nodes[k]) == [])
      && GoalMetByNodes(goal, nodes)
  {
    CellIssuesNone(doc, nodes, edges);
    GoalIssuesAsWrittenNone(goal, nodes, TextsOf(doc.cells));
  }

  /** The corrected validator accepts everything the written one does, and the
      two agree on documents without text cells. */
  lemma ValidationCorrectedRelaxes(p: Parse, goal: string)
    ensures Validation(p, goal).ok ==> ValidationCorrected(p, goal).ok
    ensures p.Parsed? && |TextsOf(p.doc.cells)| == 0 ==> ValidationCorrected(p, goal) == Validation(p, goal)
  {
    if p.Parsed? {
      var nodes, texts := NodesOf(p.doc.cells), TextsOf(p.doc.cells);
      if GoalIssuesAsWritten(goal, nodes, texts) == [] {
        GoalIssuesAsWrittenNone(goal, nodes, texts);
        GoalIssuesCorrectedNone(goal, nodes, texts);
      }
      if |texts| == 0 {
        assert NodeValues(nodes) + seq(|texts|, _ => "") == NodeValues(nodes) + TextValues(texts);
      }
    }
  }

  /** Node values meeting every goal keyword satisfy the corrected goal check too. */
  lemma GoalIssuesCorrectedNone(goal: string, nodes: seq<NodeRec>, texts: seq<TextRec>)
    requires GoalMetByNodes(goal, nodes)
    ensures GoalIssues(goal, nodes, texts) == []
  {
    MentionsNodesOrTexts(nodes, texts, "event");
    MentionsNodesOrTexts(nodes, texts, "api");
    MentionsNodesOrTexts(nodes, texts, "monitor");
    MentionsNodesOrTexts(nodes, texts, "secur");
  }

  /** "No edges found" is reported exactly when the document has no edge, and
      otherwise every edge's `endArrow` outside {block, classic, open} is. */
  lemma StructuralEdgeIssues(nodes: seq<NodeRec>, edges: seq<EdgeRec>)
    ensures NoEdges in StructuralIssues(nodes, edges) <==> |edges| == 0
    ensures NoNodes in StructuralIssues(nodes, edges) <==> |nodes| == 0
  {
    if |edges| > 0 {
      assert NoEdges !in ArrowIssues(edges) && NoNodes !in ArrowIssues(edges) by { ArrowIssuesKinds(edges); }
    }
  }

  lemma {:induction false} ArrowIssuesKinds(edges: seq<EdgeRec>)
    ensures forall x :: x in ArrowIssues(edges) ==> x.MissingEndArrow?
  {
    if |edges| > 0 {
      ArrowIssuesKinds(edges[..|edges| - 1]);
    }
  }
}
