/** agent.py's text helpers: the cleanup applied to model output before it is
    treated as XML or as a JSON plan, the test that a reply is draw.io XML,
    and the reading of the reviewer's verdict.  render.py carries an
    identical copy of `_strip_code_fences`. */
module Agent {
  import opened Wrappers
  import opened Text

  // ---------------------------------------------------------------------
  // `_strip_code_fences`

  const Fence: string := "```"

  /** Drop a leading fence line (with its language tag) and a closing fence line. */
  function StripCodeFences(text: string): (r: string)
    ensures IsStripped(r)
  {
    var t := Strip(text);
    if StartsWith(t, Fence) then
      var lines := Split(t, '\n');
      var body := if StartsWith(lines[0], Fence) then lines[1..] else lines;
      var inner := if |body| > 0 && Strip(body[|body| - 1]) == Fence then body[..|body| - 1] else body;
      Strip(Join(inner, '\n'))
    else Strip(t)
  }

  /** Text that does not open with a fence is only trimmed. */
  lemma UnfencedText(text: string)
    requires !StartsWith(Strip(text), Fence)
    ensures StripCodeFences(text) == Strip(text)
  {
    StripIdempotent(text);
  }

  /** A fenced block, with or without a language tag, yields its trimmed body. */
  lemma FencedBlock(lang: string, body: string)
    requires '\n' !in lang
    ensures StripCodeFences(Fence + lang + "\n" + body + "\n" + Fence) == Strip(body)
  {
    var first := Fence + lang;
    var text := Fence + lang + "\n" + body + "\n" + Fence;
    assert text[0] == '`' && text[|text| - 1] == '`';
    StripOfStripped(text);
    assert StartsWith(text, Fence) by { assert text[..3] == Fence; }
    assert '\n' !in first by {
      forall i | 0 <= i < |first| ensures first[i] != '\n' {
        if i >= 3 { assert first[i] == lang[i - 3]; }
      }
    }
    assert text == first + ['\n'] + (body + ['\n'] + Fence);
    SplitAppend(first, '\n', body + ['\n'] + Fence);
    SplitSnoc(body, '\n', Fence);
    var lines := Split(text, '\n');
    assert lines == [first] + (Split(body, '\n') + [Fence]);
    assert StartsWith(lines[0], Fence) by { assert first[..3] == Fence; }
    var rest := lines[1..];
    assert rest == Split(body, '\n') + [Fence];
    StripOfStripped(Fence);
    assert rest[..|rest| - 1] == Split(body, '\n');
    JoinSplit(body, '\n');
  }

  // ---------------------------------------------------------------------
  // `_fix_ampersands`

  /** What may follow `&` up to the `;` of a character reference: letters, or
      `#` and decimal digits, or `#x` and hex digits. */
  predicate RefBody(b: string) {
    (|b| > 0 && forall i :: 0 <= i < |b| ==> IsLetter(b[i]))
    || (|b| > 1 && b[0] == '#' && forall i :: 1 <= i < |b| ==> IsDigit(b[i]))
    || (|b| > 2 && b[0] == '#' && b[1] == 'x' && forall i :: 2 <= i < |b| ==> IsHexDigit(b[i]))
  }

  /** `s` (which starts with `&`) opens a named, decimal or hex entity: the
      lookahead `[a-zA-Z]+;|#\d+;|#x[0-9A-Fa-f]+;` matches after the `&`. */
  predicate OpensEntity(s: string) {
    exists e :: 1 < e < |s| && s[e] == ';' && RefBody(s[1..e])
  }

  /** `re.sub(r"&(?!...)", "&amp;", s)`: every `&` that does not open an entity
      becomes `&amp;`; the lookahead reads the input. */
  function FixAmpersands(s: string): string
    decreases |s|
  {
    if |s| == 0 then ""
    else (if s[0] == '&' && !OpensEntity(s) then "&amp;" else [s[0]]) + FixAmpersands(s[1..])
  }

  /** Every `&` opens an entity. */
  predicate EntitiesOnly(r: string) {
    forall i :: 0 <= i < |r| && r[i] == '&' ==> OpensEntity(r[i..])
  }

  lemma RefBodyNoAmpersand(b: string)
    requires RefBody(b)
    ensures '&' !in b
  {
    forall i | 0 <= i < |b| ensures b[i] != '&' {
      assert IsLetter(b[i]) || IsDigit(b[i]) || IsHexDigit(b[i]) || b[i] == '#' || b[i] == 'x';
    }
  }

  /** A prefix without `&` passes through unchanged. */
  lemma {:induction false} FixAmpersandsPrefix(t: string, n: nat)
    requires n <= |t| && '&' !in t[..n]
    ensures |FixAmpersands(t)| >= n && FixAmpersands(t)[..n] == t[..n]
  {
    if n > 0 {
      assert t[0] == t[..n][0];
      assert '&' !in t[1..][..n - 1] by { assert t[1..][..n - 1] == t[..n][1..]; }
      FixAmpersandsPrefix(t[1..], n - 1);
      assert FixAmpersands(t) == [t[0]] + FixAmpersands(t[1..]);
    }
  }

  /** After the fix, every `&` begins a named, decimal or hex entity. */
  lemma {:induction false} FixAmpersandsEscapes(s: string)
    ensures EntitiesOnly(FixAmpersands(s))
    decreases |s|
  {
    if |s| > 0 {
      var tail := FixAmpersands(s[1..]);
      FixAmpersandsEscapes(s[1..]);
      var h := if s[0] == '&' && !OpensEntity(s) then "&amp;" else [s[0]];
      var r := h + tail;
      assert r == FixAmpersands(s);
      forall i | 0 <= i < |r| && r[i] == '&' ensures OpensEntity(r[i..]) {
        if i >= |h| {
          assert r[i..] == tail[i - |h|..];
        } else if h == "&amp;" {
          assert i == 0;
          AmpOpensEntity(tail);
        } else {
          assert i == 0 && s[0] == '&' && OpensEntity(s);
          KeptEntityOpens(s);
        }
      }
    }
  }

  /** The replacement `&amp;` opens an entity whatever follows it. */
  lemma AmpOpensEntity(tail: string)
    ensures OpensEntity("&amp;" + tail)
  {
    var r := "&amp;" + tail;
    assert r[4] == ';' && r[1..4] == "amp";
    assert RefBody(r[1..4]) by { assert forall j :: 0 <= j < 3 ==> IsLetter("amp"[j]); }
  }

  /** An `&` that opens an entity still does so once the rest is fixed. */
  lemma KeptEntityOpens(s: string)
    requires |s| > 0 && s[0] == '&' && OpensEntity(s)
    ensures OpensEntity([s[0]] + FixAmpersands(s[1..]))
  {
    var tail := FixAmpersands(s[1..]);
    var r := [s[0]] + tail;
    var e :| 1 < e < |s| && s[e] == ';' && RefBody(s[1..e]);
    RefBodyNoAmpersand(s[1..e]);
    assert s[1..][..e] == s[1..e] + [';'];
    FixAmpersandsPrefix(s[1..], e);
    assert r[1..] == tail;
    assert tail[..e] == s[1..e] + [';'];
    assert r[e] == tail[e - 1] == ';';
    assert r[1..e] == tail[..e - 1] == s[1..e];
  }

  /** Text whose every `&` opens an entity is left alone. */
  lemma {:induction false} FixAmpersandsKeeps(r: string)
    requires EntitiesOnly(r)
    ensures FixAmpersands(r) == r
    decreases |r|
  {
    if |r| > 0 {
      assert r[0] == '&' ==> OpensEntity(r[0..]);
      assert r[0..] == r;
      assert EntitiesOnly(r[1..]) by {
        forall i | 0 <= i < |r[1..]| && r[1..][i] == '&' ensures OpensEntity(r[1..][i..]) {
          assert r[1..][i..] == r[i + 1..];
        }
      }
      FixAmpersandsKeeps(r[1..]);
    }
  }

  /** The fix changes nothing exactly when every `&` already opens an entity,
      so applying it twice is the same as once. */
  lemma FixAmpersandsIdempotent(s: string)
    ensures FixAmpersands(s) == s <==> EntitiesOnly(s)
    ensures FixAmpersands(FixAmpersands(s)) == FixAmpersands(s)
  {
    FixAmpersandsEscapes(s);
    if EntitiesOnly(s) { FixAmpersandsKeeps(s); }
    FixAmpersandsKeeps(FixAmpersands(s));
  }

  /** `sanitize_llm_xml`: fences first, then ampersands. */
  function SanitizeLlmXml(text: string): string {
    FixAmpersands(StripCodeFences(text))
  }

  lemma SanitizedEntitiesOnly(text: string)
    ensures EntitiesOnly(SanitizeLlmXml(text))
  {
    FixAmpersandsEscapes(StripCodeFences(text));
  }

  // ---------------------------------------------------------------------
  // `is_drawio_xml`

  predicate IsDrawioXml(txt: string) {
    var t := Strip(txt);
    if StartsWith(t, "<?xml") then Contains(t, "mxGraphModel") || Contains(t, "mxfile")
    else StartsWith(t, "<mxGraphModel") || StartsWith(t, "<mxfile")
  }

  /** A draw.io reply opens with one of the two root tags, or with an XML
      declaration and names one of them somewhere. */
  lemma IsDrawioXmlIff(txt: string)
    ensures var t := Strip(txt);
      IsDrawioXml(txt) <==>
        StartsWith(t, "<mxGraphModel") || StartsWith(t, "<mxfile")
        || (StartsWith(t, "<?xml") && (Contains(t, "mxGraphModel") || Contains(t, "mxfile")))
  {
    var t := Strip(txt);
    if StartsWith(t, "<?xml") {
      assert t[1] == '?' by { assert t[..5][1] == t[1]; }
      assert !StartsWith(t, "<mxGraphModel") by { if |t| >= 13 { assert t[..13][1] == t[1]; } }
      assert !StartsWith(t, "<mxfile") by { if |t| >= 7 { assert t[..7][1] == t[1]; } }
    }
  }

  /** A reply opening with `<mxfile` after any whitespace is accepted. */
  lemma DrawioRootAccepted(pad: string, rest: string)
    requires forall i :: 0 <= i < |pad| ==> IsSpace(pad[i])
    requires |rest| > 0 && !IsSpace(rest[|rest| - 1])
    ensures IsDrawioXml(pad + ("<mxfile" + rest))
  {
    var u := "<mxfile" + rest;
    assert u[0] == '<' && u[|u| - 1] == rest[|rest| - 1];
    TrimLeftOfPadded(pad, u);
    assert TrimRight(u) == u;
    assert Strip(pad + u) == u;
    assert u[..7] == "<mxfile";
    assert !StartsWith(u, "<?xml") by { assert u[..5][1] == u[1] == 'm'; }
  }

  lemma {:induction false} TrimLeftOfPadded(pad: string, u: string)
    requires forall i :: 0 <= i < |pad| ==> IsSpace(pad[i])
    requires |u| > 0 && !IsSpace(u[0])
    ensures TrimLeft(pad + u) == u
  {
    if |pad| > 0 {
      assert (pad + u)[1..] == pad[1..] + u;
      TrimLeftOfPadded(pad[1..], u);
    } else {
      assert pad + u == u;
    }
  }

  // ---------------------------------------------------------------------
  // `self_check`'s verdict

  /** `verdict.strip().upper().startswith("OK") or ("compliant" in
      verdict.lower() and "not" not in verdict.lower())`, as written. */
  predicate VerdictOk(verdict: string) {
    StartsWith(Upper(Strip(verdict)), "OK")
    || (Contains(Lower(verdict), "compliant") && !Contains(Lower(verdict), "not"))
  }

  /** A reply opening with "ok" in any letter case is accepted. */
  lemma VerdictOkPrefix(verdict: string)
    requires |Strip(verdict)| >= 2 && Lower(Strip(verdict)[..2]) == "ok"
    ensures VerdictOk(verdict)
  {
    var t := Strip(verdict);
    assert LowerChar(t[0]) == 'o' && LowerChar(t[1]) == 'k';
    assert Upper(t)[..2] == [UpperChar(t[0]), UpperChar(t[1])];
  }

  /** A reply mentioning "not" anywhere is accepted only when it opens with "OK". */
  lemma VerdictNotRejects(verdict: string)
    requires Contains(Lower(verdict), "not") && !StartsWith(Upper(Strip(verdict)), "OK")
    ensures !VerdictOk(verdict)
  {
  }

  /** Any verdict naming itself "noncompliant" without a "not" is accepted as written. */
  lemma VerdictNoncompliantAccepted(verdict: string)
    requires Contains(Lower(verdict), "noncompliant") && !Contains(Lower(verdict), "not")
    ensures VerdictOk(verdict)
  {
    var l := Lower(verdict);
    var i :| 0 <= i <= |l| && MatchAt(l, "noncompliant", i);
    assert l[i + 3..i + 12] == l[i..i + 12][3..12] == "compliant";
    assert MatchAt(l, "compliant", i + 3);
  }

  /** "noncompliant" holds a `t` only at its end, after `an`. */
  lemma NoNotInNoncompliant()
    ensures !Contains("noncompliant", "not") && Contains("noncompliant", "noncompliant")
  {
    var l := "noncompliant";
    forall i | 0 <= i <= |l| ensures !MatchAt(l, "not", i) {
      if i + 3 <= |l| {
        assert l[i..i + 3][2] == l[i + 2];
        assert l[i..i + 3][1] == l[i + 1];
      }
    }
    assert MatchAt(l, l, 0);
  }

  /** The verdict "noncompliant" is taken as approval. */
  lemma VerdictAcceptsNoncompliant()
    ensures VerdictOk("noncompliant")
  {
    LowerOfLower("noncompliant");
    NoNotInNoncompliant();
    VerdictNoncompliantAccepted("noncompliant");
  }

  lemma LowerOfLower(s: string)
    requires forall i :: 0 <= i < |s| ==> !('A' <= s[i] <= 'Z')
    ensures Lower(s) == s
  {
  }

  /** The evidently intended reading: a verdict that says "noncompliant" or
      "non-compliant" is no approval unless it opens with "OK". */
  predicate VerdictOkCorrected(verdict: string) {
    var l := Lower(verdict);
    StartsWith(Upper(Strip(verdict)), "OK")
    || (Contains(l, "compliant") && !Contains(l, "not") && !Contains(l, "noncompliant") && !Contains(l, "non-compliant"))
  }

  lemma VerdictCorrectedRejectsNoncompliant(verdict: string)
    requires Contains(Lower(verdict), "noncompliant") || Contains(Lower(verdict), "non-compliant")
    requires !StartsWith(Upper(Strip(verdict)), "OK")
    ensures !VerdictOkCorrected(verdict)
  {
  }

  lemma NoncompliantNotOk()
    ensures !StartsWith(Upper(Strip("noncompliant")), "OK")
  {
    var v := "noncompliant";
    assert v[0] == 'n' && IsStripped(v);
    LowerNNotOk(v);
  }

  /** A stripped reply starting with `n` does not read as "OK". */
  lemma LowerNNotOk(v: string)
    requires |v| > 0 && v[0] == 'n' && IsStripped(v)
    ensures !StartsWith(Upper(Strip(v)), "OK")
  {
    StripOfStripped(v);
    assert Upper(v)[0] == UpperChar(v[0]);
    UpperOfN();
    NotStartingWithO(Upper(v));
  }

  lemma UpperOfN()
    ensures UpperChar('n') == 'N'
  {
  }

  lemma NotStartingWithO(u: string)
    requires |u| > 0 && u[0] != 'O'
    ensures !StartsWith(u, "OK")
  {
    if |u| >= 2 { assert u[..2][0] == u[0]; }
  }

  /** The correction only ever withholds approval and keeps replies opening with "OK". */
  lemma VerdictCorrectedRefines(verdict: string)
    ensures VerdictOkCorrected(verdict) ==> VerdictOk(verdict)
    ensures StartsWith(Upper(Strip(verdict)), "OK") ==> VerdictOkCorrected(verdict)
  {
  }

  /** The corrected reading rejects "noncompliant", which the source accepts. */
  lemma VerdictCorrectedExample()
    ensures !VerdictOkCorrected("noncompliant")
  {
    LowerOfLower("noncompliant");
    NoNotInNoncompliant();
    NoncompliantNotOk();
    VerdictCorrectedRejectsNoncompliant("noncompliant");
  }

  // ---------------------------------------------------------------------
  // `parse_plan_json`

  /** The lead-ins removed, in this order, each compared case-insensitively. */
  const PlanPrefixes: seq<string> := ["PLAN:", "Here is the plan:", "Plan:", "Here's the plan:"]

  function DropPrefix(s: string, p: string): string {
    if StartsWith(Lower(s), Lower(p)) then Strip(s[|p|..]) else s
  }

  /** The prefix loop: each prefix is tried once, on the text left by the previous ones. */
  function DropPrefixes(s: string, ps: seq<string>): string {
    if |ps| == 0 then s else DropPrefix(DropPrefixes(s, ps[..|ps| - 1]), ps[|ps| - 1])
  }

  lemma DropPrefixesStep(s: string, ps: seq<string>, i: int)
    requires 0 <= i < |ps|
    ensures DropPrefixes(s, ps[..i + 1]) == DropPrefix(DropPrefixes(s, ps[..i]), ps[i])
  {
    assert ps[..i + 1][..i] == ps[..i];
  }

  /** `s[s.find('{') : s.rfind('}') + 1]` when both exist in that order. */
  function JsonSpan(s: string): Option<string> {
    var start, end := IndexOf(s, '{'), LastIndexOf(s, '}');
    if start != -1 && end != -1 && end > start then Some(s[start..end + 1]) else None
  }

  /** The span exists exactly when some `{` precedes some `}`; it then runs from
      the first `{` to the last `}`, both included. */
  lemma JsonSpanBounds(s: string)
    ensures JsonSpan(s).Some? <==> exists i, j :: 0 <= i < j < |s| && s[i] == '{' && s[j] == '}'
    ensures JsonSpan(s).Some? ==>
      var c := JsonSpan(s).value; var i := IndexOf(s, '{');
      |c| >= 2 && c[0] == '{' && c[|c| - 1] == '}' && c == s[i..i + |c|]
      && '{' !in s[..i] && '}' !in s[i + |c|..]
  {
    JsonSpanExists(s);
    if JsonSpan(s).Some? {
      JsonSpanShape(s);
    }
  }

  lemma JsonSpanExists(s: string)
    ensures JsonSpan(s).Some? <==> exists i, j :: 0 <= i < j < |s| && s[i] == '{' && s[j] == '}'
  {
    var start, end := IndexOf(s, '{'), LastIndexOf(s, '}');
    if exists i, j :: 0 <= i < j < |s| && s[i] == '{' && s[j] == '}' {
      var i, j :| 0 <= i < j < |s| && s[i] == '{' && s[j] == '}';
      assert start != -1 && start <= i;
      assert end != -1 && end >= j;
    }
    if JsonSpan(s).Some? {
      assert s[start] == '{' && s[end] == '}';
    }
  }

  lemma JsonSpanBraces(s: string)
    requires JsonSpan(s).Some?
    ensures var c := JsonSpan(s).value; |c| >= 2 && c[0] == '{' && c[|c| - 1] == '}'
  {
    var start, end := IndexOf(s, '{'), LastIndexOf(s, '}');
    var c := s[start..end + 1];
    assert c[0] == s[start] && c[|c| - 1] == s[end];
  }

  lemma JsonSpanShape(s: string)
    requires JsonSpan(s).Some?
    ensures var c := JsonSpan(s).value; var i := IndexOf(s, '{');
      |c| >= 2 && c[0] == '{' && c[|c| - 1] == '}' && c == s[i..i + |c|]
      && '{' !in s[..i] && '}' !in s[i + |c|..]
  {
    var start, end := IndexOf(s, '{'), LastIndexOf(s, '}');
    var c := s[start..end + 1];
    assert c[0] == s[start] && c[|c| - 1] == s[end];
    forall k | 0 <= k < |s[..start]| ensures s[..start][k] != '{' { assert s[..start][k] == s[k]; }
    var after := s[end + 1..];
    assert s[start + |c|..] == after;
    forall k | 0 <= k < |after| ensures after[k] != '}' { assert after[k] == s[end + 1 + k]; }
  }

  /** `re.sub(r',\s*' + close, close, s)`: a comma followed by whitespace and then
      `close` is replaced, with that whitespace, by `close` alone. */
  function DropTrailingCommas(s: string, close: char): string
    decreases |s|
  {
    if |s| == 0 then ""
    else if s[0] == ',' then
      var e := SpaceEnd(s, 1);
      if e < |s| && s[e] == close then [close] + DropTrailingCommas(s[e + 1..], close)
      else [','] + DropTrailingCommas(s[1..], close)
    else [s[0]] + DropTrailingCommas(s[1..], close)
  }

  /** The first position at or after `i` that is not whitespace. */
  function SpaceEnd(s: string, i: nat): (e: nat)
    requires i <= |s|
    ensures i <= e <= |s| && (e < |s| ==> !IsSpace(s[e]))
    ensures forall k :: i <= k < e ==> IsSpace(s[k])
    decreases |s| - i
  {
    if i < |s| && IsSpace(s[i]) then SpaceEnd(s, i + 1) else i
  }

  /** `s` without its commas and whitespace. */
  function Essentials(s: string): string {
    if |s| == 0 then ""
    else (if s[0] == ',' || IsSpace(s[0]) then "" else [s[0]]) + Essentials(s[1..])
  }

  lemma {:induction false} EssentialsOfBlank(s: string, i: nat, e: nat)
    requires i <= e <= |s| && forall k :: i <= k < e ==> IsSpace(s[k])
    ensures Essentials(s[i..]) == Essentials(s[e..])
    decreases e - i
  {
    if i < e {
      assert s[i..][1..] == s[i + 1..];
      EssentialsOfBlank(s, i + 1, e);
    }
  }

  /** Only commas and whitespace are removed; every other character is kept, in order. */
  lemma {:induction false} DropTrailingCommasKeeps(s: string, close: char)
    requires close != ',' && !IsSpace(close)
    ensures Essentials(DropTrailingCommas(s, close)) == Essentials(s)
    ensures |DropTrailingCommas(s, close)| <= |s|
    decreases |s|
  {
    if |s| > 0 {
      if s[0] == ',' {
        var e := SpaceEnd(s, 1);
        if e < |s| && s[e] == close {
          DropTrailingCommasKeeps(s[e + 1..], close);
          EssentialsOfBlank(s, 1, e);
          assert s[1..] == s[1..][..0] + s[1..];
          assert Essentials(s) == Essentials(s[1..]);
          assert Essentials(s[1..]) == Essentials(s[e..]);
          assert s[e..][1..] == s[e + 1..];
          assert Essentials(s[e..]) == [close] + Essentials(s[e + 1..]);
          var r := [close] + DropTrailingCommas(s[e + 1..], close);
          assert r[1..] == DropTrailingCommas(s[e + 1..], close);
        } else {
          DropTrailingCommasKeeps(s[1..], close);
        }
      } else {
        DropTrailingCommasKeeps(s[1..], close);
      }
    }
  }

  /** A comma, any whitespace and `close` collapse to `close`. */
  lemma DropTrailingComma(w: string, close: char, rest: string)
    requires forall k :: 0 <= k < |w| ==> IsSpace(w[k])
    requires !IsSpace(close)
    ensures DropTrailingCommas([','] + w + [close] + rest, close) == [close] + DropTrailingCommas(rest, close)
  {
    var s := [','] + w + [close] + rest;
    SpaceEndAt(s, 1, |w| + 1);
    assert s[|w| + 1] == close;
    assert s[|w| + 2..] == rest;
  }

  lemma {:induction false} SpaceEndAt(s: string, i: nat, e: nat)
    requires i <= e < |s| && (forall k :: i <= k < e ==> IsSpace(s[k])) && !IsSpace(s[e])
    ensures SpaceEnd(s, i) == e
    decreases e - i
  {
    if i < e {
      SpaceEndAt(s, i + 1, e);
    }
  }

  /** A character other than `close` that is absent stays absent. */
  lemma {:induction false} DropTrailingCommasAbsent(s: string, close: char, c: char)
    requires c !in s && c != close
    ensures c !in DropTrailingCommas(s, close)
    decreases |s|
  {
    if |s| > 0 {
      if s[0] == ',' {
        var e := SpaceEnd(s, 1);
        if e < |s| && s[e] == close {
          NotInSuffix(s, c, e + 1);
          DropTrailingCommasAbsent(s[e + 1..], close, c);
        } else {
          NotInSuffix(s, c, 1);
          DropTrailingCommasAbsent(s[1..], close, c);
        }
      } else {
        NotInSuffix(s, c, 1);
        DropTrailingCommasAbsent(s[1..], close, c);
      }
    }
  }

  lemma NotInSuffix(s: string, c: char, k: nat)
    requires c !in s && k <= |s|
    ensures c !in s[k..]
  {
    forall j | 0 <= j < |s[k..]| ensures s[k..][j] != c { assert s[k..][j] == s[k + j]; }
  }

  /** The heuristic repair: single quotes become double quotes, then trailing
      commas go before `}` and then before `]`. */
  function RepairJson(s: string): string {
    DropTrailingCommas(DropTrailingCommas(ReplaceChar(s, '\'', '"'), '}'), ']')
  }

  /** The repair leaves no single quote and removes only commas and whitespace
      from the quote-replaced text. */
  lemma RepairJsonProperties(s: string)
    ensures '\'' !in RepairJson(s)
    ensures Essentials(RepairJson(s)) == Essentials(ReplaceChar(s, '\'', '"'))
  {
    var q := ReplaceChar(s, '\'', '"');
    assert '\'' !in q;
    DropTrailingCommasAbsent(q, '}', '\'');
    DropTrailingCommasAbsent(DropTrailingCommas(q, '}'), ']', '\'');
    DropTrailingCommasKeeps(q, '}');
    DropTrailingCommasKeeps(DropTrailingCommas(q, '}'), ']');
  }

  /** The text the stages start from: fences and lead-ins removed. */
  function PlanText(raw: string): string {
    DropPrefixes(Strip(StripCodeFences(raw)), PlanPrefixes)
  }

  /** The strings handed to `json.loads`, in the order they are tried. */
  function Candidates(s: string): seq<string> {
    [s]
    + (if JsonSpan(s).Some? then [JsonSpan(s).value] else [])
    + (if JsonSpan(RepairJson(s)).Some? then [JsonSpan(RepairJson(s)).value] else [])
  }

  const PlanParseError: string := "Could not parse PLAN JSON from LLM output"

  /** The first candidate `loads` accepts. */
  function FirstLoaded<J>(cs: seq<string>, loads: string -> Option<J>): Result<J, string> {
    if |cs| == 0 then Failure(PlanParseError)
    else match loads(cs[0])
      case Some(j) => Success(j)
      case None => FirstLoaded(cs[1..], loads)
  }

  /** The three stages, each tried only when the previous one failed. */
  function ParseStages<J>(s: string, loads: string -> Option<J>): Result<J, string> {
    if loads(s).Some? then Success(loads(s).value)
    else if JsonSpan(s).Some? && loads(JsonSpan(s).value).Some? then Success(loads(JsonSpan(s).value).value)
    else if JsonSpan(RepairJson(s)).Some? && loads(JsonSpan(RepairJson(s)).value).Some? then
      Success(loads(JsonSpan(RepairJson(s)).value).value)
    else Failure(PlanParseError)
  }

  /** `parse_plan_json`, with `json.loads` as `loads` (None for a decode error). */
  function PlanJson<J>(raw: string, loads: string -> Option<J>): Result<J, string> {
    ParseStages(PlanText(raw), loads)
  }

  lemma FirstLoadedCons<J>(x: string, rest: seq<string>, loads: string -> Option<J>)
    ensures FirstLoaded([x] + rest, loads) == if loads(x).Some? then Success(loads(x).value) else FirstLoaded(rest, loads)
  {
    assert ([x] + rest)[0] == x && ([x] + rest)[1..] == rest;
  }

  /** The stages try the candidates in order and return the first one `loads` accepts. */
  lemma ParseStagesInOrder<J>(s: string, loads: string -> Option<J>)
    ensures ParseStages(s, loads) == FirstLoaded(Candidates(s), loads)
  {
    var c1 := if JsonSpan(s).Some? then [JsonSpan(s).value] else [];
    var c2 := if JsonSpan(RepairJson(s)).Some? then [JsonSpan(RepairJson(s)).value] else [];
    assert Candidates(s) == [s] + (c1 + c2);
    FirstLoadedCons(s, c1 + c2, loads);
    if |c1| == 1 {
      assert c1 + c2 == [c1[0]] + c2;
      FirstLoadedCons(c1[0], c2, loads);
    } else {
      assert c1 + c2 == c2;
    }
    if |c2| == 1 {
      assert c2 == [c2[0]] + [];
      FirstLoadedCons(c2[0], [], loads);
    }
  }

  /** The result is what `loads` gives on the first accepted candidate; failure
      means every candidate was rejected. */
  lemma {:induction false} FirstLoadedIff<J>(cs: seq<string>, loads: string -> Option<J>)
    ensures FirstLoaded(cs, loads).Failure? <==> forall i :: 0 <= i < |cs| ==> loads(cs[i]).None?
    ensures FirstLoaded(cs, loads).Failure? ==> FirstLoaded(cs, loads).error == PlanParseError
    ensures FirstLoaded(cs, loads).Success? ==>
      exists i :: 0 <= i < |cs| && loads(cs[i]) == Some(FirstLoaded(cs, loads).value)
        && forall k :: 0 <= k < i ==> loads(cs[k]).None?
  {
    if |cs| > 0 {
      FirstLoadedIff(cs[1..], loads);
      if loads(cs[0]).None? {
        assert forall i :: 1 <= i < |cs| ==> cs[i] == cs[1..][i - 1];
        if FirstLoaded(cs, loads).Success? {
          var i :| 0 <= i < |cs[1..]| && loads(cs[1..][i]) == Some(FirstLoaded(cs, loads).value)
            && forall k :: 0 <= k < i ==> loads(cs[1..][k]).None?;
          assert loads(cs[i + 1]) == Some(FirstLoaded(cs, loads).value);
          assert forall k :: 0 <= k < i + 1 ==> loads(cs[k]).None? by {
            forall k | 0 <= k < i + 1 ensures loads(cs[k]).None? {
              if k > 0 { assert cs[k] == cs[1..][k - 1]; }
            }
          }
        }
      }
    }
  }

  /** Every candidate after the first is a `{ ... }` span: of the cleaned text,
      or of its repaired form. */
  lemma CandidatesShape(s: string, i: int)
    requires 0 < i < |Candidates(s)|
    ensures var c := Candidates(s)[i];
      (JsonSpan(s) == Some(c) || JsonSpan(RepairJson(s)) == Some(c)) && |c| >= 2 && c[0] == '{' && c[|c| - 1] == '}'
  {
    var sp, rp := JsonSpan(s), JsonSpan(RepairJson(s));
    var a := if sp.Some? then [sp.value] else [];
    var b := if rp.Some? then [rp.value] else [];
    assert Candidates(s) == [s] + a + b;
    var c := Candidates(s)[i];
    if i <= |a| {
      assert c == sp.value;
      JsonSpanBraces(s);
      assert JsonSpan(s) == Some(c);
    } else {
      assert c == rp.value;
      JsonSpanBraces(RepairJson(s));
      assert JsonSpan(RepairJson(s)) == Some(c);
    }
  }

  /** The prefix loop of `parse_plan_json`, over the lead-ins `ps`. */
  method DropLeadIns(s0: string, ps: seq<string>) returns (s: string)
    ensures s == DropPrefixes(s0, ps)
  {
    s := s0;
    for i := 0 to |ps|
      invariant s == DropPrefixes(s0, ps[..i])
    {
      DropPrefixesStep(s0, ps, i);
      s := DropPrefix(s, ps[i]);
    }
    assert ps[..|ps|] == ps;
  }

  /** The direct parse, the `{ ... }` span, and the span of the repaired text. */
  method TryStages<J>(s: string, loads: string -> Option<J>) returns (r: Result<J, string>)
    ensures r == ParseStages(s, loads)
  {
    var direct := loads(s);
    if direct.Some? {
      return Success(direct.value);
    }
    var span := JsonSpan(s);
    if span.Some? {
      var j := loads(span.value);
      if j.Some? {
        return Success(j.value);
      }
    }
    var s2 := RepairJson(s);
    var span2 := JsonSpan(s2);
    if span2.Some? {
      var j := loads(span2.value);
      if j.Some? {
        return Success(j.value);
      }
    }
    return Failure(PlanParseError);
  }

  method ParsePlanJson<J>(raw: string, loads: string -> Option<J>) returns (r: Result<J, string>)
    ensures r == PlanJson(raw, loads)
  {
    var s := DropLeadIns(Strip(StripCodeFences(raw)), PlanPrefixes);
    r := TryStages(s, loads);
  }
}
