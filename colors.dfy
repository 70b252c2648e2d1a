/** Hex colours and their relative luminance, shared by the three darkness
    tests.  Luminance `0.2126 r + 0.7152 g + 0.0722 b` over channels scaled to
    [0, 1] is kept as the integer `2126 r + 7152 g + 722 b` over 0..255
    channels, so `lum < t` becomes a comparison with `t · 255 · 10000`. */
module Colors {
  import opened Text

  predicate HexDigitsAt(c: string, i: nat, n: nat) {
    i + n <= |c| && forall j :: i <= j < i + n ==> IsHexDigit(c[j])
  }

  /** `int(c[i:i+2], 16)`. */
  function Channel(c: string, i: nat): (v: nat)
    requires HexDigitsAt(c, i, 2)
    ensures v < 256
  {
    16 * HexValue(c[i]) + HexValue(c[i + 1])
  }

  /** The luminance of `#rrggbb...`, scaled by 255 · 10000. */
  function Luminance(c: string): (l: nat)
    requires HexDigitsAt(c, 1, 6)
    ensures l <= 10000 * 255
  {
    assert HexDigitsAt(c, 3, 2) && HexDigitsAt(c, 5, 2);
    2126 * Channel(c, 1) + 7152 * Channel(c, 3) + 722 * Channel(c, 5)
  }

  /** 0.5 and 0.45 on the scaled axis. */
  const Half: nat := 1275000
  const FortyFiveHundredths: nat := 1147500

  /** `re.match(r'^#[0-9a-fA-F]{6}$', c)`: Python's `$` also matches just
      before a newline that ends the string. */
  predicate MatchesHexColor(c: string) {
    (|c| == 7 || (|c| == 8 && c[7] == '\n')) && c[0] == '#' && HexDigitsAt(c, 1, 6)
  }

  /** `c` with a `#` put in front unless it already starts with one. */
  function WithHash(c: string): (r: string)
    ensures |r| > 0 && r[0] == '#'
  {
    if |c| > 0 && c[0] == '#' then c else "#" + c
  }
}
