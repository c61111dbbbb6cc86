/**
 A plain reference lexer for migration text: it reads forward only, one token at a time, and knows
 nothing of what has been written so far. A semicolon ends a statement exactly where this lexer
 is at top level.
 */
module SqlLexer {

  datatype Mode = Top | Single | Double | Comment | Dollar(tag: string)

  /** A dollar-quote tag is spelled like an identifier, so a digit may not lead it. */
  predicate IsTagRune(r: char, first: bool) {
    || 'a' <= r <= 'z'
    || 'A' <= r <= 'Z'
    || r == '_'
    || ('0' <= r <= '9' && !first)
  }

  /** "$$" or "$tag$" (PostgreSQL manual, section 4.1.2.4). */
  predicate IsDelimiter(s: string) {
    && 2 <= |s|
    && s[0] == '$'
    && s[|s| - 1] == '$'
    && forall j :: 1 <= j < |s| - 1 ==> IsTagRune(s[j], j == 1)
  }

  predicate HasPrefixAt(text: string, i: nat, s: string)
    requires i <= |text|
  {
    i + |s| <= |text| && text[i..i + |s|] == s
  }

  /** The index just past the delimiter that opens at `start`, or 0 when `start` opens none. */
  function ScanTag(text: string, start: nat, j: nat): (end: nat)
    requires start < j <= |text|
    ensures end == 0 || j < end <= |text|
    decreases |text| - j
  {
    if j == |text| then 0
    else if text[j] == '$' then j + 1
    else if !IsTagRune(text[j], j == start + 1) then 0
    else ScanTag(text, start, j + 1)
  }

  /** How many runes the delimiter at `i` spans, 0 when there is none. */
  function TagWidth(text: string, i: nat): (width: nat)
    requires i < |text|
    ensures i + width <= |text|
  {
    if text[i] != '$' then 0
    else
      var end := ScanTag(text, i, i + 1);
      if end == 0 then 0 else end - i
  }

  /** text[i..end] is a delimiter. */
  predicate DelimiterAt(text: string, i: nat, end: nat) {
    i <= end <= |text| && IsDelimiter(text[i..end])
  }

  lemma DelimiterRunes(text: string, i: nat, end: nat)
    requires DelimiterAt(text, i, end)
    ensures i + 2 <= end && text[i] == '$' && text[end - 1] == '$'
    ensures forall k :: i < k < end - 1 ==> IsTagRune(text[k], k == i + 1)
  {
    var d := text[i..end];
    assert text[i] == d[0] && text[end - 1] == d[|d| - 1];
    forall k | i < k < end - 1
      ensures IsTagRune(text[k], k == i + 1)
    {
      assert text[k] == d[k - i];
    }
  }

  lemma {:induction false} ScanTagFindsFirst(text: string, start: nat, j: nat)
    requires start < j <= |text| && text[start] == '$'
    requires forall k :: start < k < j ==> IsTagRune(text[k], k == start + 1)
    ensures var end := ScanTag(text, start, j);
            if end != 0 then DelimiterAt(text, start, end)
            else forall e: nat :: !DelimiterAt(text, start, e)
    decreases |text| - j
  {
    if j < |text| && text[j] == '$' {
      var d := text[start..j + 1];
      forall k | 1 <= k < |d| - 1
        ensures IsTagRune(d[k], k == 1)
      {
        assert d[k] == text[start + k];
      }
    } else if j < |text| && IsTagRune(text[j], j == start + 1) {
      ScanTagFindsFirst(text, start, j + 1);
    } else {
      forall e: nat | DelimiterAt(text, start, e)
        ensures false
      {
        DelimiterRunes(text, start, e);
      }
    }
  }

  /** Two delimiters opening at the same rune are the same one. */
  lemma DelimiterUnique(text: string, i: nat, d: nat, e: nat)
    requires DelimiterAt(text, i, d) && DelimiterAt(text, i, e)
    ensures d == e
  {
    DelimiterRunes(text, i, d);
    DelimiterRunes(text, i, e);
  }

  /** TagWidth finds a delimiter exactly when one opens at `i`, and then that one. */
  lemma TagWidthIsTheDelimiter(text: string, i: nat)
    requires i < |text|
    ensures TagWidth(text, i) > 0 ==> DelimiterAt(text, i, i + TagWidth(text, i))
    ensures forall e: nat :: DelimiterAt(text, i, e) ==> e == i + TagWidth(text, i)
  {
    if text[i] == '$' {
      ScanTagFindsFirst(text, i, i + 1);
    }
    forall e: nat | DelimiterAt(text, i, e)
      ensures e == i + TagWidth(text, i)
    {
      assert text[i..e][0] == text[i];
      if TagWidth(text, i) > 0 {
        DelimiterUnique(text, i, e, i + TagWidth(text, i));
      }
    }
  }

  /** The mode after the token at `i`, and how many runes that token spans. */
  function Next(text: string, i: nat, mode: Mode): (r: (Mode, nat))
    requires i < |text|
    ensures 0 < r.1 && i + r.1 <= |text|
  {
    match mode
    case Top =>
      if HasPrefixAt(text, i, "--") then (Comment, 2)
      else if text[i] == '\'' then (Single, 1)
      else if text[i] == '"' then (Double, 1)
      else if TagWidth(text, i) > 0 then (Dollar(text[i..i + TagWidth(text, i)]), TagWidth(text, i))
      else (Top, 1)
    case Single => (if text[i] == '\'' then Top else Single, 1)
    case Double => (if text[i] == '"' then Top else Double, 1)
    case Comment => (if text[i] == '\n' then Top else Comment, 1)
    case Dollar(tag) =>
      if 0 < |tag| && HasPrefixAt(text, i, tag) then (Top, |tag|) else (mode, 1)
  }

  /** The mode in force at every rune from `i` on, and last the mode the text ends in. */
  function Modes(text: string, i: nat, mode: Mode): (modes: seq<Mode>)
    requires i <= |text|
    ensures |modes| == |text| - i + 1
    decreases |text| - i
  {
    if i == |text| then [mode]
    else
      var (mode', width) := Next(text, i, mode);
      seq(width, _ => mode) + Modes(text, i + width, mode')
  }

  /** A top-level "--" whose comment is empty: the newline follows it at once. */
  predicate HasBareComment(text: string, i: nat, mode: Mode)
    requires i <= |text|
    decreases |text| - i
  {
    i < |text| &&
    var (mode', width) := Next(text, i, mode);
    || (mode == Top && mode' == Comment && i + width < |text| && text[i + width] == '\n')
    || HasBareComment(text, i + width, mode')
  }

  /** The statements' raw text: `text` cut at each semicolon that stands at top level. */
  function CutAt(text: string, modes: seq<Mode>, i: nat, current: string): (pieces: seq<string>)
    requires i <= |text| < |modes|
    ensures 0 < |pieces|
    decreases |text| - i
  {
    if i == |text| then [current]
    else if text[i] == ';' && modes[i] == Top then [current] + CutAt(text, modes, i + 1, "")
    else CutAt(text, modes, i + 1, current + [text[i]])
  }

  function Pieces(text: string): seq<string> {
    CutAt(text, Modes(text, 0, Top), 0, "")
  }
}
