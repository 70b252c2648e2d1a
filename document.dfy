/** The draw.io document as its two consumers see it after XML parsing: a
    root tag and the `mxCell` elements in document order, each with its
    attributes and its style already split into a key/value map.  The
    textual style (`key=value;flag;...`) is modelled by `StyleEntry`
    lists and `PrintStyle`; the parsers of validate.py and render.py read
    it back. */
module Document {
  import opened Wrappers
  import opened Text

  /** A parsed style: each key once, a bare key mapped to "1". */
  type Style = map<string, string>

  /** `style.get(k)`. */
  function Lookup(st: Style, k: string): (r: Option<string>)
    ensures r.Some? <==> k in st
    ensures r.Some? ==> r.value == st[k]
  {
    if k in st then Some(st[k]) else None
  }

  /** Python truthiness of an optional string: present and non-empty. */
  predicate Truthy(o: Option<string>) {
    o.Some? && o.value != ""
  }

  /** An `mxGeometry` element: each numeric attribute, or None when it is missing or empty. */
  datatype Geometry = Geometry(x: Option<real>, y: Option<real>, width: Option<real>, height: Option<real>)

  /** An `mxCell` element.  `vertex` and `edge` say whether the attribute equals "1". */
  datatype Cell = Cell(
    id: Option<string>,
    value: Option<string>,
    style: Style,
    vertex: bool,
    edge: bool,
    parent: Option<string>,
    source: Option<string>,
    target: Option<string>,
    geometry: Option<Geometry>)

  /** The parsed XML root: its tag, every `mxCell` below it in document order,
      and for an `mxfile` root the parse of the first `diagram` element's text
      (None when there is no such element or its text is empty). */
  datatype Doc = Doc(tag: string, cells: seq<Cell>, diagram: Option<Parse>)

  /** The outcome of `ET.fromstring`. */
  datatype Parse = Malformed(message: string) | Parsed(doc: Doc)

  /** One `;`-separated part of a style string. */
  datatype StyleEntry = Setting(key: string, val: string) | Flag(name: string)

  function EntryKey(e: StyleEntry): string {
    match e
    case Setting(k, _) => k
    case Flag(k) => k
  }

  function EntryValue(e: StyleEntry): string {
    match e
    case Setting(_, v) => v
    case Flag(_) => "1"
  }

  function PrintEntry(e: StyleEntry): string {
    match e
    case Setting(k, v) => k + "=" + v
    case Flag(k) => k
  }

  /** The style text, each entry followed by `;`, as plan_to_drawio.py writes it. */
  function PrintStyle(es: seq<StyleEntry>): string {
    if |es| == 0 then "" else PrintEntry(es[0]) + ";" + PrintStyle(es[1..])
  }

  /** The map the entries denote: later entries win. */
  function StyleOf(es: seq<StyleEntry>): Style {
    if |es| == 0 then map[]
    else StyleOf(es[..|es| - 1])[EntryKey(es[|es| - 1]) := EntryValue(es[|es| - 1])]
  }

  /** An entry that prints and parses back unchanged: a non-empty, trimmed key
      without `;` or `=`, and a trimmed value without `;`. */
  predicate WellFormedEntry(e: StyleEntry) {
    var k := EntryKey(e);
    |k| > 0 && IsStripped(k) && ';' !in k && '=' !in k
    && (e.Setting? ==> IsStripped(e.val) && ';' !in e.val)
  }

  predicate WellFormedStyle(es: seq<StyleEntry>) {
    forall i :: 0 <= i < |es| ==> WellFormedEntry(es[i])
  }

  /** The printed parts of a style string, in order. */
  function EntryTexts(es: seq<StyleEntry>): (ps: seq<string>)
    ensures |ps| == |es| && forall i :: 0 <= i < |es| ==> ps[i] == PrintEntry(es[i])
  {
    seq(|es|, i requires 0 <= i < |es| => PrintEntry(es[i]))
  }

  lemma PrintEntryNoSeparator(e: StyleEntry)
    requires WellFormedEntry(e)
    ensures ';' !in PrintEntry(e)
  {
    if e.Setting? {
      var t := e.key + "=" + e.val;
      forall i | 0 <= i < |t| ensures t[i] != ';' {
        if i < |e.key| { assert t[i] == e.key[i]; }
        else if i > |e.key| { assert t[i] == e.val[i - |e.key| - 1]; }
      }
    }
  }

  lemma WellFormedTail(es: seq<StyleEntry>)
    requires |es| > 0 && WellFormedStyle(es)
    ensures WellFormedEntry(es[0]) && WellFormedStyle(es[1..])
  {
    assert WellFormedEntry(es[0]);
    forall i | 0 <= i < |es[1..]| ensures WellFormedEntry(es[1..][i]) { assert es[1..][i] == es[i + 1]; }
  }

  /** Splitting printed well-formed entries at `;` gives back each entry's text,
      followed by the empty part after the final `;`. */
  lemma {:induction false} SplitPrintStyle(es: seq<StyleEntry>)
    requires WellFormedStyle(es)
    ensures Split(PrintStyle(es), ';') == EntryTexts(es) + [""]
  {
    if |es| == 0 {
      assert IndexOf("", ';') == -1;
    } else {
      var head := PrintEntry(es[0]);
      WellFormedTail(es);
      PrintEntryNoSeparator(es[0]);
      SplitPrintStyle(es[1..]);
      SplitAppend(head, ';', PrintStyle(es[1..]));
      assert PrintStyle(es) == head + [';'] + PrintStyle(es[1..]);
      EntryTextsCons(es);
      assert [head] + (EntryTexts(es[1..]) + [""]) == ([head] + EntryTexts(es[1..])) + [""];
    }
  }

  lemma EntryTextsCons(es: seq<StyleEntry>)
    requires |es| > 0
    ensures EntryTexts(es) == [PrintEntry(es[0])] + EntryTexts(es[1..])
  {
    var a, b := EntryTexts(es), [PrintEntry(es[0])] + EntryTexts(es[1..]);
    assert |a| == |b|;
    forall i | 0 <= i < |a| ensures a[i] == b[i] {
      if i > 0 { assert es[1..][i - 1] == es[i]; }
    }
  }
}
