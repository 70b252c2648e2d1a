/** render.py: the preview renderer's geometry.  It starts from the parsed
    document, collects vertices (by id, in first-appearance order) and edges,
    frames them on a canvas with a 30-unit margin, and emits drawing
    primitives: all connectors first, then the vertices in z-order. */
module Render {
  import opened Wrappers
  import opened Text
  import opened Colors
  import opened Dicts
  import opened Sorting
  import opened Document

  // ---------------------------------------------------------------------
  // `_parse_style`

  /** A stripped, non-empty part: split at the first `=`, both sides stripped; a
      part without `=` maps to "1". */
  function RenderPart(p: string): (string, string) {
    var k := IndexOf(p, '=');
    if k >= 0 then (Strip(p[..k]), Strip(p[k + 1..])) else (p, "1")
  }

  /** A raw part is stripped first; a blank one is skipped. */
  function RenderEntry(part: string): Option<(string, string)> {
    var p := Strip(part);
    if p == "" then None else Some(RenderPart(p))
  }

  /** The map the parts denote; later keys win. */
  function RenderStyleParts(parts: seq<string>): Style {
    if |parts| == 0 then map[]
    else
      var out := RenderStyleParts(parts[..|parts| - 1]);
      match RenderEntry(parts[|parts| - 1])
      case None => out
      case Some((k, v)) => out[k := v]
  }

  method ParseStyle(style: string) returns (out: Style)
    ensures out == RenderStyleParts(Split(style, ';'))
  {
    out := map[];
    if style == "" {
      return;
    }
    var parts := Split(style, ';');
    for i := 0 to |parts|
      invariant out == RenderStyleParts(parts[..i])
    {
      assert parts[..i + 1][..i] == parts[..i];
      var e := RenderEntry(parts[i]);
      if e.Some? {
        out := out[e.value.0 := e.value.1];
      }
    }
    assert parts[..|parts|] == parts;
  }

  /** A well-formed entry prints with no whitespace at either end. */
  lemma PrintEntryStripped(e: StyleEntry)
    requires WellFormedEntry(e)
    ensures IsStripped(PrintEntry(e)) && PrintEntry(e) != ""
  {
    var s := PrintEntry(e);
    var k := EntryKey(e);
    if e.Setting? {
      assert s == k + "=" + e.val;
      assert s[0] == k[0];
      if |e.val| > 0 { assert s[|s| - 1] == e.val[|e.val| - 1]; } else { assert s[|s| - 1] == '='; }
    }
  }

  lemma RenderPartOfPrinted(e: StyleEntry)
    requires WellFormedEntry(e)
    ensures RenderPart(PrintEntry(e)) == (EntryKey(e), EntryValue(e))
  {
    var s := PrintEntry(e);
    var k := EntryKey(e);
    if e.Setting? {
      assert s == k + "=" + e.val;
      assert s[|k|] == '=';
      assert forall j :: 0 <= j < |k| ==> s[j] == k[j];
      assert IndexOf(s, '=') == |k|;
      assert s[..|k|] == k && s[|k| + 1..] == e.val;
      StripOfStripped(k);
      StripOfStripped(e.val);
    } else {
      assert IndexOf(s, '=') == -1;
    }
  }

  lemma {:induction false} RenderPartsOfTexts(es: seq<StyleEntry>)
    requires WellFormedStyle(es)
    ensures RenderStyleParts(EntryTexts(es)) == StyleOf(es)
  {
    if |es| > 0 {
      var p := es[..|es| - 1];
      var e := es[|es| - 1];
      assert WellFormedStyle(p) by {
        forall i | 0 <= i < |p| ensures WellFormedEntry(p[i]) { assert p[i] == es[i]; }
      }
      RenderPartsOfTexts(p);
      var ts := EntryTexts(es);
      assert ts[..|ts| - 1] == EntryTexts(p) by {
        forall i | 0 <= i < |p| ensures ts[..|ts| - 1][i] == EntryTexts(p)[i] { assert p[i] == es[i]; }
      }
      PrintEntryStripped(e);
      StripOfStripped(PrintEntry(e));
      RenderPartOfPrinted(e);
    }
  }

  /** The renderer, too, reads back the style plan_to_drawio.py prints. */
  lemma RenderParsePrinted(es: seq<StyleEntry>)
    requires WellFormedStyle(es)
    ensures RenderStyleParts(Split(PrintStyle(es), ';')) == StyleOf(es)
  {
    SplitPrintStyle(es);
    var ts := EntryTexts(es);
    assert (ts + [""])[..|ts|] == ts;
    assert Strip("") == "";
    RenderPartsOfTexts(es);
  }

  // ---------------------------------------------------------------------
  // Colours

  /** The named colours `_normalize_color` knows, looked up in lower case. */
  function NamedColor(name: string, default: string): string {
    if name == "white" then "#ffffff"
    else if name == "black" then "#000000"
    else if name == "red" then "#ff0000"
    else if name == "green" then "#00ff00"
    else if name == "blue" then "#0000ff"
    else if name == "gray" then "#888888"
    else if name == "none" then "none"
    else default
  }

  /** `_normalize_color(v, default)`. */
  function NormalizeColor(v: string, default: string): string {
    if v == "" then default
    else
      var s := Strip(v);
      if |s| > 0 && s[0] == '#' then s
      else if |s| == 6 && HexDigitsAt(s, 0, 6) then "#" + s
      else NamedColor(Lower(s), default)
  }

  /** The result is the default, `none`, or starts with `#`; six hex digits get a `#`,
      and a value already starting with `#` is only stripped. */
  lemma NormalizeColorCases(v: string, default: string)
    ensures var r := NormalizeColor(v, default);
      r == default || r == "none" || (|r| > 0 && r[0] == '#')
    ensures v == "" ==> NormalizeColor(v, default) == default
    ensures v != "" && |Strip(v)| > 0 && Strip(v)[0] == '#' ==> NormalizeColor(v, default) == Strip(v)
    ensures v != "" && |Strip(v)| == 6 && HexDigitsAt(Strip(v), 0, 6) ==> NormalizeColor(v, default) == "#" + Strip(v)
  {
    if v != "" && |Strip(v)| == 6 && HexDigitsAt(Strip(v), 0, 6) {
      assert !IsHexDigit('#');
    }
  }

  /** Named colours are matched in any letter case. */
  lemma NormalizeNamedColor(v: string, default: string)
    requires v != "" && (|Strip(v)| == 0 || Strip(v)[0] != '#') && !(|Strip(v)| == 6 && HexDigitsAt(Strip(v), 0, 6))
    ensures NormalizeColor(v, default) == NamedColor(Lower(Strip(v)), default)
  {
  }

  /** Python's `int(s, 16)` on a two-character slice: whitespace around the
      number is dropped, one sign may lead, and what remains must be hex
      digits; anything else raises `ValueError` (here `None`). */
  function HexPair(s: string): (v: Option<int>)
    requires |s| == 2
    ensures v.Some? ==> -16 < v.value < 256
  {
    var t := Strip(s);
    if |t| == 2 && IsHexDigit(t[0]) && IsHexDigit(t[1]) then Some(16 * HexValue(t[0]) + HexValue(t[1]))
    else if |t| == 2 && t[0] == '+' && IsHexDigit(t[1]) then Some(HexValue(t[1]))
    else if |t| == 2 && t[0] == '-' && IsHexDigit(t[1]) then Some(-(HexValue(t[1]) as int))
    else if |t| == 1 && IsHexDigit(t[0]) then Some(HexValue(t[0]))
    else None
  }

  /** `_is_dark`: a value of 7 characters starting with `#` whose three
      channel slices all convert with `int(…, 16)`; then luminance < 0.5. A
      conversion error reads as not dark. */
  predicate IsDarkHex(c: string) {
    |c| == 7 && c[0] == '#'
    && var r, g, b := HexPair(c[1..3]), HexPair(c[3..5]), HexPair(c[5..7]);
      r.Some? && g.Some? && b.Some? && 2126 * r.value + 7152 * g.value + 722 * b.value < Half
  }

  /** Two hex digits convert to their channel value. */
  lemma HexPairDigits(c: string, i: nat)
    requires HexDigitsAt(c, i, 2)
    ensures HexPair(c[i..i + 2]) == Some(Channel(c, i))
  {
    var s := c[i..i + 2];
    assert IsHexDigit(s[0]) && IsHexDigit(s[1]);
    StripOfStripped(s);
  }

  /** A signed digit converts with its sign. */
  lemma HexPairSigned(s: string)
    requires |s| == 2 && (s[0] == '+' || s[0] == '-') && IsHexDigit(s[1])
    ensures HexPair(s) == Some(if s[0] == '-' then -(HexValue(s[1]) as int) else HexValue(s[1]))
  {
    StripOfStripped(s);
  }

  /** A digit with whitespace on either side converts to its value. */
  lemma HexPairPadded(s: string)
    requires |s| == 2 && ((IsSpace(s[0]) && IsHexDigit(s[1])) || (IsHexDigit(s[0]) && IsSpace(s[1])))
    ensures HexPair(s) == Some(HexValue(if IsSpace(s[0]) then s[1] else s[0]))
  {
    var d := if IsSpace(s[0]) then s[1..] else s[..1];
    assert IsStripped(d);
    if IsSpace(s[0]) {
      assert TrimLeft(s[1..]) == s[1..];
      assert TrimLeft(s) == s[1..];
      assert TrimRight(s[1..]) == s[1..];
    } else {
      assert TrimLeft(s) == s;
      assert s[..1] == s[..2][..1];
      assert TrimRight(s[..1]) == s[..1];
      assert TrimRight(s) == s[..1];
    }
  }

  /** On `#` and six hex digits, `_is_dark` is the luminance test. */
  lemma IsDarkHexOfDigits(c: string)
    requires |c| == 7 && c[0] == '#' && HexDigitsAt(c, 1, 6)
    ensures IsDarkHex(c) <==> Luminance(c) < Half
  {
    assert HexDigitsAt(c, 1, 2) && HexDigitsAt(c, 3, 2) && HexDigitsAt(c, 5, 2);
    HexPairDigits(c, 1);
    HexPairDigits(c, 3);
    HexPairDigits(c, 5);
    assert Luminance(c) == 2126 * Channel(c, 1) + 7152 * Channel(c, 3) + 722 * Channel(c, 5);
  }

  /** `_is_dark` is not guarded by the hex regex: `#+f+f+f` converts each channel
      to 15 and reads as dark, though it is no `#rrggbb` colour. */
  lemma IsDarkHexSignedChannels(c: string)
    requires c == "#+f+f+f"
    ensures IsDarkHex(c) && !HexDigitsAt(c, 1, 6)
  {
    assert c[1..3] == "+f" && c[3..5] == "+f" && c[5..7] == "+f";
    HexPairSigned(c[1..3]);
  }

  function TextColorForBg(bg: string): (fc: string)
    ensures fc == "#ffffff" || fc == "#1a1a1a"
  {
    if IsDarkHex(bg) then "#ffffff" else "#1a1a1a"
  }

  /** White text exactly on a dark background; `none`, the empty string and short forms like `#333` are light. */
  lemma TextColorContrast(bg: string)
    ensures TextColorForBg(bg) == "#ffffff" <==> IsDarkHex(bg)
    ensures |bg| != 7 || bg[0] != '#' ==> TextColorForBg(bg) == "#1a1a1a"
  {
  }

  // ---------------------------------------------------------------------
  // Cells

  /** A vertex entry; `x`, `y` default to 0, `w` to 120 and `h` to 60. */
  datatype Vertex = Vertex(id: string, x: real, y: real, w: real, h: real, value: string, style: Style)

  datatype Link = Link(id: string, source: Option<string>, target: Option<string>, style: Style)

  predicate IsVertexCell(c: Cell) { c.vertex && c.geometry.Some? }

  function VertexOf(c: Cell): Vertex
    requires c.geometry.Some?
  {
    var g := c.geometry.value;
    Vertex(c.id.GetOr(""), g.x.GetOr(0.0), g.y.GetOr(0.0), g.width.GetOr(120.0), g.height.GetOr(60.0),
      c.value.GetOr(""), c.style)
  }

  /** The `vertices` dict: a repeated id replaces the earlier entry at its original place. */
  function VerticesOf(cells: seq<Cell>): (d: Dict<string, Vertex>)
    ensures KeysUnique(d)
  {
    if |cells| == 0 then []
    else
      var d := VerticesOf(cells[..|cells| - 1]);
      var c := cells[|cells| - 1];
      if IsVertexCell(c) then Put(d, c.id.GetOr(""), VertexOf(c)) else d
  }

  function LinkOf(c: Cell): Link { Link(c.id.GetOr(""), c.source, c.target, c.style) }

  /** The `edges` list: edge cells that are not also vertices with geometry. */
  function LinksOf(cells: seq<Cell>): seq<Link> {
    if |cells| == 0 then []
    else
      var c := cells[|cells| - 1];
      LinksOf(cells[..|cells| - 1]) + if !IsVertexCell(c) && c.edge then [LinkOf(c)] else []
  }

  /** A vertex cell's id is a key of the dict, and only vertex cells' ids are. */
  lemma {:induction false} VerticesOfKeys(cells: seq<Cell>, id: string)
    ensures HasKey(VerticesOf(cells), id) <==> exists i :: 0 <= i < |cells| && IsVertexCell(cells[i]) && cells[i].id.GetOr("") == id
  {
    if |cells| > 0 {
      var p := cells[..|cells| - 1];
      var c := cells[|cells| - 1];
      VerticesOfKeys(p, id);
      assert forall i :: 0 <= i < |p| ==> p[i] == cells[i];
      var d := VerticesOf(p);
      if IsVertexCell(c) {
        HasKeyPut(d, c.id.GetOr(""), VertexOf(c), id);
      }
    }
  }

  lemma HasKeyPut(d: Dict<string, Vertex>, k: string, v: Vertex, id: string)
    ensures HasKey(Put(d, k, v), id) <==> HasKey(d, id) || id == k
  {
    assert Keys(Put(d, k, v)) == if HasKey(d, k) then Keys(d) else Keys(d) + [k];
    KeysHasKey(d, id);
    KeysHasKey(d, k);
    KeysHasKey(Put(d, k, v), id);
  }

  lemma KeysHasKey(d: Dict<string, Vertex>, k: string)
    ensures HasKey(d, k) <==> k in Keys(d)
  {
    if k in Keys(d) {
      var i :| 0 <= i < |Keys(d)| && Keys(d)[i] == k;
      assert d[i].0 == k;
    }
  }

  /** One step of the cell loop. */
  lemma CollectStep(cells: seq<Cell>, i: int)
    requires 0 <= i < |cells|
    ensures VerticesOf(cells[..i + 1]) == if IsVertexCell(cells[i]) then Put(VerticesOf(cells[..i]), cells[i].id.GetOr(""), VertexOf(cells[i])) else VerticesOf(cells[..i])
    ensures LinksOf(cells[..i + 1]) == LinksOf(cells[..i]) + if !IsVertexCell(cells[i]) && cells[i].edge then [LinkOf(cells[i])] else []
  {
    assert cells[..i + 1][..i] == cells[..i];
  }

  method CollectCells(cells: seq<Cell>) returns (vertices: Dict<string, Vertex>, links: seq<Link>)
    ensures vertices == VerticesOf(cells) && links == LinksOf(cells)
  {
    vertices, links := [], [];
    for i := 0 to |cells|
      invariant vertices == VerticesOf(cells[..i]) && links == LinksOf(cells[..i])
    {
      CollectStep(cells, i);
      var c := cells[i];
      if IsVertexCell(c) {
        vertices := Put(vertices, c.id.GetOr(""), VertexOf(c));
      } else if c.edge {
        links := links + [LinkOf(c)];
      }
    }
    assert cells[..|cells|] == cells;
  }

  // ---------------------------------------------------------------------
  // Canvas

  const Margin: real := 30.0

  function MinOf(xs: seq<real>): real
    requires |xs| > 0
  {
    if |xs| == 1 then xs[0]
    else
      var m := MinOf(xs[..|xs| - 1]);
      if xs[|xs| - 1] < m then xs[|xs| - 1] else m
  }

  function MaxOf(xs: seq<real>): real
    requires |xs| > 0
  {
    if |xs| == 1 then xs[0]
    else
      var m := MaxOf(xs[..|xs| - 1]);
      if xs[|xs| - 1] > m then xs[|xs| - 1] else m
  }

  lemma {:induction false} MinMaxBound(xs: seq<real>, i: int)
    requires 0 <= i < |xs|
    ensures MinOf(xs) <= xs[i] <= MaxOf(xs)
  {
    if |xs| > 1 && i < |xs| - 1 {
      MinMaxBound(xs[..|xs| - 1], i);
    }
  }

  function Lefts(vs: seq<Vertex>): (r: seq<real>)
    ensures |r| == |vs| && forall i :: 0 <= i < |vs| ==> r[i] == vs[i].x
  { seq(|vs|, i requires 0 <= i < |vs| => vs[i].x) }

  function Tops(vs: seq<Vertex>): (r: seq<real>)
    ensures |r| == |vs| && forall i :: 0 <= i < |vs| ==> r[i] == vs[i].y
  { seq(|vs|, i requires 0 <= i < |vs| => vs[i].y) }

  function Rights(vs: seq<Vertex>): (r: seq<real>)
    ensures |r| == |vs| && forall i :: 0 <= i < |vs| ==> r[i] == vs[i].x + vs[i].w
  { seq(|vs|, i requires 0 <= i < |vs| => vs[i].x + vs[i].w) }

  function Bottoms(vs: seq<Vertex>): (r: seq<real>)
    ensures |r| == |vs| && forall i :: 0 <= i < |vs| ==> r[i] == vs[i].y + vs[i].h
  { seq(|vs|, i requires 0 <= i < |vs| => vs[i].y + vs[i].h) }

  function RMax(a: real, b: real): real { if a < b then b else a }

  /** The translation origin and the canvas size in whole units. */
  datatype Frame = Frame(minX: real, minY: real, width: int, height: int)

  /** `int(max(400, span + 2 * margin))`; `int` truncates, which is `Floor` on these positive values. */
  function FrameOf(vs: seq<Vertex>): Frame
    requires |vs| > 0
  {
    var minX, minY := MinOf(Lefts(vs)), MinOf(Tops(vs));
    var spanX, spanY := MaxOf(Rights(vs)) - minX, MaxOf(Bottoms(vs)) - minY;
    Frame(minX, minY, RMax(400.0, spanX + 2.0 * Margin).Floor, RMax(300.0, spanY + 2.0 * Margin).Floor)
  }

  function TX(f: Frame, x: real): real { x - f.minX + Margin }
  function TY(f: Frame, y: real): real { y - f.minY + Margin }

  function Center(f: Frame, v: Vertex): (real, real) {
    (TX(f, v.x) + v.w / 2.0, TY(f, v.y) + v.h / 2.0)
  }

  /** Every translated vertex lies inside the canvas with the 30-unit margin
      before it; the canvas is at least 400 by 300. */
  lemma CanvasFits(vs: seq<Vertex>, i: int)
    requires 0 <= i < |vs|
    ensures var f := FrameOf(vs);
      f.width >= 400 && f.height >= 300
      && TX(f, vs[i].x) >= Margin && TX(f, vs[i].x) + vs[i].w <= f.width as real
      && TY(f, vs[i].y) >= Margin && TY(f, vs[i].y) + vs[i].h <= f.height as real
  {
    MinMaxBound(Lefts(vs), i);
    MinMaxBound(Tops(vs), i);
    MinMaxBound(Rights(vs), i);
    MinMaxBound(Bottoms(vs), i);
  }

  // ---------------------------------------------------------------------
  // z-order

  /** `vertex_order`: backgrounds 0, groups 1, labels 2, nodes 3, tested in that order. */
  function VertexOrder(v: Vertex): int {
    var st := v.style;
    if Truthy(Lookup(st, "opacity")) || Truthy(Lookup(st, "fillOpacity")) then 0
    else if Truthy(Lookup(st, "dashed")) then 1
    else if "text" in st || Lookup(st, "strokeColor") == Some("none") then 2
    else 3
  }

  function IntLess(a: int, b: int): bool { a < b }

  lemma IntLessIsStrictTotalOrder()
    ensures StrictTotalOrder(IntLess)
  {
  }

  /** `sorted(vertices.values(), key=vertex_order)`. */
  function DrawOrder(vs: seq<Vertex>): seq<Vertex> {
    SortBy(vs, VertexOrder, IntLess)
  }

  /** The vertices are drawn each once, lower classes first, in document order within a class. */
  lemma DrawOrderProperties(vs: seq<Vertex>, k: int)
    ensures multiset(DrawOrder(vs)) == multiset(vs)
    ensures forall i, j :: 0 <= i < j < |vs| ==> VertexOrder(DrawOrder(vs)[i]) <= VertexOrder(DrawOrder(vs)[j])
    ensures WithKey(DrawOrder(vs), VertexOrder, k) == WithKey(vs, VertexOrder, k)
  {
    IntLessIsStrictTotalOrder();
    SortByPermutes(vs, VertexOrder, IntLess);
    SortByIsSorted(vs, VertexOrder, IntLess);
    SortByStable(vs, VertexOrder, IntLess, k);
  }

  // ---------------------------------------------------------------------
  // Primitives

  /** What the SVG header and parts describe, without the number formatting. */
  datatype Prim =
    | Line(x1: real, y1: real, x2: real, y2: real, stroke: string, strokeWidth: string)
    | Rect(x: real, y: real, w: real, h: real, rx: int, fill: string, stroke: string,
           opacity: real, fillOpacity: real, dashed: bool, shadow: bool)
    | Ellipse(cx: real, cy: real, erx: real, ery: real, fill: string, stroke: string, opacity: real, fillOpacity: real)
    | Polygon(points: seq<(real, real)>, fill: string, stroke: string, opacity: real, fillOpacity: real)
    | LaneText(tx: real, ty: real, color: string, fontSize: string, weight: string, text: string)
    | NodeText(tx: real, ty: real, color: string, fontSize: string, text: string)

  datatype Svg =
    | ErrorSvg(message: string)
    | EmptySvg
    | Drawing(width: int, height: int, prims: seq<Prim>)

  datatype RenderError = UnsupportedRoot | BadNumber(text: string)

  /** `vertices.get(id or "")`. */
  function Endpoint(vertices: Dict<string, Vertex>, id: Option<string>): Option<Vertex> {
    Get(vertices, id.GetOr(""))
  }

  predicate Connected(vertices: Dict<string, Vertex>, l: Link) {
    Endpoint(vertices, l.source).Some? && Endpoint(vertices, l.target).Some?
  }

  function EdgeLine(f: Frame, src: Vertex, tgt: Vertex, st: Style): Prim {
    var (sx, sy) := Center(f, src);
    var (ex, ey) := Center(f, tgt);
    Line(sx, sy, ex, ey, NormalizeColor(Lookup(st, "strokeColor").GetOr("#333"), "#333"), Lookup(st, "strokeWidth").GetOr("2"))
  }

  /** One line per edge whose two ends are vertices, in edge order. */
  function EdgeLines(links: seq<Link>, vertices: Dict<string, Vertex>, f: Frame): seq<Prim> {
    if |links| == 0 then []
    else
      var l := links[|links| - 1];
      EdgeLines(links[..|links| - 1], vertices, f)
      + if Connected(vertices, l) then [EdgeLine(f, Endpoint(vertices, l.source).value, Endpoint(vertices, l.target).value, l.style)] else []
  }

  function CountConnected(links: seq<Link>, vertices: Dict<string, Vertex>): nat {
    if |links| == 0 then 0
    else CountConnected(links[..|links| - 1], vertices) + if Connected(vertices, links[|links| - 1]) then 1 else 0
  }

  /** Exactly the connected edges are drawn, each as a line. */
  lemma {:induction false} EdgeLinesDrawn(links: seq<Link>, vertices: Dict<string, Vertex>, f: Frame)
    ensures |EdgeLines(links, vertices, f)| == CountConnected(links, vertices)
    ensures forall i :: 0 <= i < |EdgeLines(links, vertices, f)| ==> EdgeLines(links, vertices, f)[i].Line?
  {
    if |links| > 0 {
      EdgeLinesDrawn(links[..|links| - 1], vertices, f);
    }
  }

  method DrawEdges(links: seq<Link>, vertices: Dict<string, Vertex>, f: Frame) returns (parts: seq<Prim>)
    ensures parts == EdgeLines(links, vertices, f)
  {
    parts := [];
    for i := 0 to |links|
      invariant parts == EdgeLines(links[..i], vertices, f)
    {
      assert links[..i + 1][..i] == links[..i];
      var src := Get(vertices, links[i].source.GetOr(""));
      var tgt := Get(vertices, links[i].target.GetOr(""));
      if src.Some? && tgt.Some? {
        parts := parts + [EdgeLine(f, src.value, tgt.value, links[i].style)];
      }
    }
    assert links[..|links|] == links;
  }

  /** Styles drawn as bare text: a `text` key, or `strokeColor=none`. */
  predicate IsLabelStyle(st: Style) {
    "text" in st || Lookup(st, "strokeColor") == Some("none")
  }

  /** `float(opacity) / 100` and `float(fill_opacity) / 100`, both 1.0 when either does not parse. */
  function Opacities(st: Style, toReal: string -> Option<real>): (real, real) {
    var op, fop := toReal(Lookup(st, "opacity").GetOr("100")), toReal(Lookup(st, "fillOpacity").GetOr("100"));
    if op.Some? && fop.Some? then (op.value / 100.0, fop.value / 100.0) else (1.0, 1.0)
  }

  /** The six corners of the hexagon drawn in a `w` by `h` box at `(x, y)`. */
  function HexagonPoints(x: real, y: real, w: real, h: real): seq<(real, real)> {
    [(x + w * 0.25, y), (x + w * 0.75, y), (x + w, y + h / 2.0),
     (x + w * 0.75, y + h), (x + w * 0.25, y + h), (x, y + h / 2.0)]
  }

  lemma HexagonInsideBox(x: real, y: real, w: real, h: real)
    requires w >= 0.0 && h >= 0.0
    ensures var ps := HexagonPoints(x, y, w, h);
      |ps| == 6 && forall i :: 0 <= i < 6 ==> x <= ps[i].0 <= x + w && y <= ps[i].1 <= y + h
  {
  }

  /** Labels over 25 characters keep 22 and gain "...". */
  function Truncate(value: string): string {
    if |value| <= 25 then value else value[..22] + "..."
  }

  lemma TruncateBounds(value: string)
    ensures |Truncate(value)| <= 25
    ensures |value| <= 25 ==> Truncate(value) == value
    ensures |value| > 25 ==> |Truncate(value)| == 25 && Truncate(value)[..22] == value[..22] && Truncate(value)[22..] == "..."
  {
  }

  /** The shape of a non-text vertex: a cylinder, a hexagon or a rectangle. */
  function ShapePrims(x: real, y: real, v: Vertex, fill: string, stroke: string, op: real, fop: real): seq<Prim> {
    var st := v.style;
    var shape := Lookup(st, "shape").GetOr("");
    if Contains(shape, "cylinder") then
      [Rect(x, y + 10.0, v.w, v.h - 10.0, 3, fill, stroke, op, fop, false, false),
       Ellipse(x + v.w / 2.0, y + 12.0, v.w / 2.0, 10.0, fill, stroke, op, fop)]
    else if Contains(shape, "hexagon") then
      [Polygon(HexagonPoints(x, y, v.w, v.h), fill, stroke, op, fop)]
    else
      [Rect(x, y, v.w, v.h, if Lookup(st, "rounded") == Some("1") then 8 else 3, fill, stroke, op, fop,
            Lookup(st, "dashed") == Some("1"), op >= 0.8)]
  }

  /** The label colour: the fill's contrast colour when `fontColor` is missing or empty. */
  function LabelColor(st: Style, fill: string): string {
    var fc := Lookup(st, "fontColor");
    if !Truthy(fc) then TextColorForBg(fill) else NormalizeColor(fc.value, "#333")
  }

  /** A bare-text vertex: one text at the top-left, bold when `fontStyle=1`, nothing for an empty value. */
  function TextParts(x: real, y: real, v: Vertex, toReal: string -> Option<real>): Result<seq<Prim>, RenderError> {
    var st := v.style;
    var fontSize := FontSize(st);
    match toReal(fontSize)
    case None => Failure(BadNumber(fontSize))
    case Some(fs) =>
      if v.value == "" then Success([])
      else Success([LaneText(x + 4.0, y + fs + 4.0, NormalizeColor(Lookup(st, "fontColor").GetOr("#333"), "#333"),
        fontSize, if Lookup(st, "fontStyle") == Some("1") then "700" else "400", v.value)])
  }

  /** A boxed vertex's shape, in its normalised fill and stroke colours and its opacities. */
  function BoxBody(x: real, y: real, v: Vertex, toReal: string -> Option<real>): seq<Prim> {
    var st := v.style;
    var (op, fop) := Opacities(st, toReal);
    ShapePrims(x, y, v, FillColor(st), NormalizeColor(Lookup(st, "strokeColor").GetOr("#333"), "#333"), op, fop)
  }

  function FillColor(st: Style): string {
    NormalizeColor(Lookup(st, "fillColor").GetOr("#f5f5f5"), "#f5f5f5")
  }

  function FontSize(st: Style): string { Lookup(st, "fontSize").GetOr("12") }

  /** A boxed vertex is labelled when it has a value and its fill opacity exceeds 0.3. */
  predicate HasCaption(v: Vertex, toReal: string -> Option<real>) {
    v.value != "" && Opacities(v.style, toReal).1 > 0.3
  }

  /** The centred label, a third of the font size below the middle. */
  function Caption(x: real, y: real, v: Vertex, fs: real): Prim {
    NodeText(x + v.w / 2.0, y + v.h / 2.0 + fs / 3.0, LabelColor(v.style, FillColor(v.style)), FontSize(v.style), Truncate(v.value))
  }

  /** A boxed vertex: its shape, then its caption. */
  function BoxParts(x: real, y: real, v: Vertex, toReal: string -> Option<real>): Result<seq<Prim>, RenderError> {
    if HasCaption(v, toReal) then
      match toReal(FontSize(v.style))
      case None => Failure(BadNumber(FontSize(v.style)))
      case Some(fs) => Success(BoxBody(x, y, v, toReal) + [Caption(x, y, v, fs)])
    else Success(BoxBody(x, y, v, toReal))
  }

  /** The parts one vertex adds; `float(font_size)` failing raises. */
  function VertexParts(f: Frame, v: Vertex, toReal: string -> Option<real>): Result<seq<Prim>, RenderError> {
    if IsLabelStyle(v.style) then TextParts(TX(f, v.x), TY(f, v.y), v, toReal)
    else BoxParts(TX(f, v.x), TY(f, v.y), v, toReal)
  }

  /** A shape is one to two rectangles, ellipses or polygons. */
  lemma ShapePrimsKinds(x: real, y: real, v: Vertex, fill: string, stroke: string, op: real, fop: real)
    ensures var ps := ShapePrims(x, y, v, fill, stroke, op, fop);
      1 <= |ps| <= 2 && forall i :: 0 <= i < |ps| ==> ps[i].Rect? || ps[i].Ellipse? || ps[i].Polygon?
  {
  }

  lemma BoxBodyKinds(x: real, y: real, v: Vertex, toReal: string -> Option<real>)
    ensures var ps := BoxBody(x, y, v, toReal);
      1 <= |ps| <= 2 && forall i :: 0 <= i < |ps| ==> ps[i].Rect? || ps[i].Ellipse? || ps[i].Polygon?
  {
    var st := v.style;
    var (op, fop) := Opacities(st, toReal);
    ShapePrimsKinds(x, y, v, FillColor(st), NormalizeColor(Lookup(st, "strokeColor").GetOr("#333"), "#333"), op, fop);
  }

  /** A node's label is drawn only when it has a value and its fill opacity exceeds 0.3,
      last, truncated to at most 25 characters; a boxed vertex draws no line. */
  lemma BoxPartsLabel(x: real, y: real, v: Vertex, toReal: string -> Option<real>)
    requires BoxParts(x, y, v, toReal).Success?
    ensures var ps := BoxParts(x, y, v, toReal).value;
      (forall i :: 0 <= i < |ps| ==> !ps[i].Line? && !ps[i].LaneText?)
      && (forall i :: 0 <= i < |ps| && ps[i].NodeText? ==>
            i == |ps| - 1 && HasCaption(v, toReal) && ps[i].text == Truncate(v.value) && |ps[i].text| <= 25)
  {
    var body := BoxBody(x, y, v, toReal);
    BoxBodyKinds(x, y, v, toReal);
    TruncateBounds(v.value);
    if HasCaption(v, toReal) {
      var fs := toReal(FontSize(v.style)).value;
      var ps := body + [Caption(x, y, v, fs)];
      assert BoxParts(x, y, v, toReal).value == ps;
      forall i | 0 <= i < |ps|
        ensures !ps[i].Line? && !ps[i].LaneText?
        ensures ps[i].NodeText? ==> i == |ps| - 1 && ps[i].text == Truncate(v.value)
      {
        if i < |body| { assert ps[i] == body[i]; } else { assert ps[i] == Caption(x, y, v, fs); }
      }
    }
  }

  /** A vertex never adds a line. */
  lemma VertexPartsNoLine(f: Frame, v: Vertex, toReal: string -> Option<real>)
    requires VertexParts(f, v, toReal).Success?
    ensures forall i :: 0 <= i < |VertexParts(f, v, toReal).value| ==> !VertexParts(f, v, toReal).value[i].Line?
  {
    if !IsLabelStyle(v.style) {
      BoxPartsLabel(TX(f, v.x), TY(f, v.y), v, toReal);
    }
  }

  /** The vertex loop: parts in draw order, stopping at the first failure. */
  function VertexPrims(vs: seq<Vertex>, f: Frame, toReal: string -> Option<real>): Result<seq<Prim>, RenderError> {
    if |vs| == 0 then Success([])
    else
      match VertexPrims(vs[..|vs| - 1], f, toReal)
      case Failure(e) => Failure(e)
      case Success(ps) =>
        match VertexParts(f, vs[|vs| - 1], toReal)
        case Failure(e) => Failure(e)
        case Success(qs) => Success(ps + qs)
  }

  method DrawVertices(vs: seq<Vertex>, f: Frame, toReal: string -> Option<real>) returns (r: Result<seq<Prim>, RenderError>)
    ensures r == VertexPrims(vs, f, toReal)
  {
    var parts: seq<Prim> := [];
    for i := 0 to |vs|
      invariant VertexPrims(vs[..i], f, toReal) == Success(parts)
    {
      assert vs[..i + 1][..i] == vs[..i];
      var q := VertexParts(f, vs[i], toReal);
      if q.Failure? {
        VertexPrimsFailure(vs, i + 1, f, toReal);
        return q;
      }
      parts := parts + q.value;
    }
    assert vs[..|vs|] == vs;
    r := Success(parts);
  }

  /** Once a prefix fails, the whole loop fails with the same error. */
  lemma {:induction false} VertexPrimsFailure(vs: seq<Vertex>, n: int, f: Frame, toReal: string -> Option<real>)
    requires 0 < n <= |vs| && VertexPrims(vs[..n], f, toReal).Failure?
    ensures VertexPrims(vs, f, toReal) == VertexPrims(vs[..n], f, toReal)
    decreases |vs| - n
  {
    if n < |vs| {
      assert vs[..n + 1][..n] == vs[..n];
      VertexPrimsFailure(vs, n + 1, f, toReal);
    } else {
      assert vs[..n] == vs;
    }
  }

  lemma {:induction false} VertexPrimsNoLines(vs: seq<Vertex>, f: Frame, toReal: string -> Option<real>)
    requires VertexPrims(vs, f, toReal).Success?
    ensures forall i :: 0 <= i < |VertexPrims(vs, f, toReal).value| ==> !VertexPrims(vs, f, toReal).value[i].Line?
  {
    if |vs| > 0 {
      VertexPrimsNoLines(vs[..|vs| - 1], f, toReal);
      VertexPartsNoLine(f, vs[|vs| - 1], toReal);
    }
  }

  // ---------------------------------------------------------------------
  // drawio_xml_to_svg

  /** The drawing of a `mxGraphModel` document's cells. */
  function Draw(cells: seq<Cell>, toReal: string -> Option<real>): Result<Svg, RenderError> {
    var vertices := VerticesOf(cells);
    if |vertices| == 0 then Success(EmptySvg)
    else
      var vs := Values(vertices);
      var f := FrameOf(vs);
      match VertexPrims(DrawOrder(vs), f, toReal)
      case Failure(e) => Failure(e)
      case Success(ps) => Success(Drawing(f.width, f.height, EdgeLines(LinksOf(cells), vertices, f) + ps))
  }

  /** A parse error gives the error picture; an `mxfile` is rendered through its
      first diagram; any other root that is not `mxGraphModel` is an error. */
  function RenderDoc(p: Parse, toReal: string -> Option<real>): Result<Svg, RenderError>
    decreases p
  {
    match p
    case Malformed(m) => Success(ErrorSvg(m))
    case Parsed(doc) =>
      if doc.tag == "mxGraphModel" then Draw(doc.cells, toReal)
      else if doc.tag == "mxfile" && doc.diagram.Some? then RenderDoc(doc.diagram.value, toReal)
      else Failure(UnsupportedRoot)
  }

  /** `drawio_xml_to_svg` on the parse of its (sanitised) input; `toReal` is Python's `float`. */
  method DrawioXmlToSvg(p: Parse, toReal: string -> Option<real>) returns (r: Result<Svg, RenderError>)
    ensures r == RenderDoc(p, toReal)
    decreases p
  {
    if p.Malformed? {
      return Success(ErrorSvg(p.message));
    }
    var doc := p.doc;
    if doc.tag != "mxGraphModel" {
      if doc.tag == "mxfile" && doc.diagram.Some? {
        r := DrawioXmlToSvg(doc.diagram.value, toReal);
        return;
      }
      return Failure(UnsupportedRoot);
    }
    var vertices, links := CollectCells(doc.cells);
    if |vertices| == 0 {
      return Success(EmptySvg);
    }
    var vs := Values(vertices);
    var f := FrameOf(vs);
    var lines := DrawEdges(links, vertices, f);
    var drawn := DrawVertices(DrawOrder(vs), f, toReal);
    if drawn.Failure? {
      return Failure(drawn.error);
    }
    r := Success(Drawing(f.width, f.height, lines + drawn.value));
  }

  /** The special outputs: an error picture for a parse error, the fixed empty
      picture when no vertex has geometry, and an error for an unknown root. */
  lemma SpecialOutputs(p: Parse, toReal: string -> Option<real>)
    ensures p.Malformed? ==> RenderDoc(p, toReal) == Success(ErrorSvg(p.message))
    ensures p.Parsed? && p.doc.tag == "mxGraphModel" && (forall i :: 0 <= i < |p.doc.cells| ==> !IsVertexCell(p.doc.cells[i]))
      ==> RenderDoc(p, toReal) == Success(EmptySvg)
    ensures p.Parsed? && p.doc.tag != "mxGraphModel" && p.doc.tag != "mxfile" ==> RenderDoc(p, toReal) == Failure(UnsupportedRoot)
  {
    if p.Parsed? && p.doc.tag == "mxGraphModel" && (forall i :: 0 <= i < |p.doc.cells| ==> !IsVertexCell(p.doc.cells[i])) {
      var d := VerticesOf(p.doc.cells);
      if |d| > 0 {
        VerticesOfKeys(p.doc.cells, d[0].0);
        assert HasKey(d, d[0].0);
      }
    }
  }

  /** In a drawing, every line (edge) comes before every vertex part, and the
      lines are exactly the edges whose two ends are vertices. */
  lemma EdgesBeneathVertices(cells: seq<Cell>, toReal: string -> Option<real>)
    requires Draw(cells, toReal).Success? && Draw(cells, toReal).value.Drawing?
    ensures var vertices := VerticesOf(cells); var ps := Draw(cells, toReal).value.prims;
      (forall i, j :: 0 <= i < j < |ps| && ps[j].Line? ==> ps[i].Line?)
      && CountLines(ps) == CountConnected(LinksOf(cells), vertices)
  {
    var vertices := VerticesOf(cells);
    var vs := Values(vertices);
    var f := FrameOf(vs);
    var lines := EdgeLines(LinksOf(cells), vertices, f);
    var rest := VertexPrims(DrawOrder(vs), f, toReal).value;
    EdgeLinesDrawn(LinksOf(cells), vertices, f);
    VertexPrimsNoLines(DrawOrder(vs), f, toReal);
    var ps := lines + rest;
    forall i, j | 0 <= i < j < |ps| && ps[j].Line? ensures ps[i].Line? {
      assert j < |lines|;
    }
    CountLinesAppend(lines, rest);
    CountLinesAll(lines);
    CountLinesNone(rest);
  }

  function CountLines(ps: seq<Prim>): nat {
    if |ps| == 0 then 0 else CountLines(ps[..|ps| - 1]) + if ps[|ps| - 1].Line? then 1 else 0
  }

  lemma {:induction false} CountLinesAppend(a: seq<Prim>, b: seq<Prim>)
    ensures CountLines(a + b) == CountLines(a) + CountLines(b)
    decreases |b|
  {
    if |b| == 0 {
      assert a + b == a;
    } else {
      assert (a + b)[..|a + b| - 1] == a + b[..|b| - 1];
      CountLinesAppend(a, b[..|b| - 1]);
    }
  }

  lemma {:induction false} CountLinesAll(ps: seq<Prim>)
    requires forall i :: 0 <= i < |ps| ==> ps[i].Line?
    ensures CountLines(ps) == |ps|
  {
    if |ps| > 0 {
      CountLinesAll(ps[..|ps| - 1]);
    }
  }

  lemma {:induction false} CountLinesNone(ps: seq<Prim>)
    requires forall i :: 0 <= i < |ps| ==> !ps[i].Line?
    ensures CountLines(ps) == 0
  {
    if |ps| > 0 {
      CountLinesNone(ps[..|ps| - 1]);
    }
  }
}
