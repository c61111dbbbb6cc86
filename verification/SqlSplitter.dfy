/**
 The migration splitter. It walks the text one rune at a time and finds comments by looking back
 at the statement written so far. The class is the program; Lexer and Step say, on values, what
 each of its methods does to its fields.
 */
module SqlSplitter {
  import opened SqlLexer
  import opened Text

  // ----- what the class computes, on values -----

  predicate EndsWith(s: string, suffix: string) {
    |suffix| <= |s| && s[|s| - |suffix|..] == suffix
  }

  datatype Lexer = Lexer(
    pieces: seq<string>, current: string, inSingle: bool, inDouble: bool, inLineComment: bool, dollarTag: string)
  {
    /** At most one context is open, and an open dollar quote holds a well-formed tag. */
    predicate Valid() {
      && !(inSingle && inDouble)
      && (inLineComment ==> !inSingle && !inDouble)
      && (dollarTag != "" ==> !inSingle && !inDouble && !inLineComment && IsDelimiter(dollarTag))
    }

    /** The context a rune is read in; "--" at the end of the statement already means a comment. */
    function Mode(): Mode {
      if dollarTag != "" then Dollar(dollarTag)
      else if inLineComment then Comment
      else if inSingle then Single
      else if inDouble then Double
      else if EndsWith(current, "--") then Comment
      else Top
    }

    function Write(s: string): Lexer { this.(current := current + s) }

    function Flush(): Lexer { this.(pieces := pieces + [current], current := "") }
  }

  const START := Lexer([], "", false, false, false, "")

  function InsideLiteral(text: string, i: nat, s: Lexer): (r: (Lexer, nat, bool))
    requires i < |text|
  {
    var width := TagWidth(text, i);
    if s.dollarTag != "" then
      if text[i..i + width] == s.dollarTag then (s.Write(s.dollarTag).(dollarTag := ""), width - 1, true)
      else (s.Write([text[i]]), 0, true)
    else if s.inLineComment then
      (s.Write([text[i]]).(inLineComment := text[i] != '\n'), 0, true)
    else if !s.inSingle && !s.inDouble && EndsWith(s.current, "--") then
      (s.Write([text[i]]).(inLineComment := true), 0, true)
    else (s, 0, false)
  }

  /** One rune, or one whole tag: the next state and how many further runes were taken. */
  function After(text: string, i: nat, s: Lexer): (r: (Lexer, nat))
    requires i < |text|
    ensures i + r.1 < |text|
  {
    var (inside, consumed, handled) := InsideLiteral(text, i, s);
    var quoted := s.inSingle || s.inDouble;
    if handled then (inside, consumed)
    else if text[i] == '$' && !quoted && TagWidth(text, i) > 0 then
      var tag := text[i..i + TagWidth(text, i)];
      (s.Write(tag).(dollarTag := tag), TagWidth(text, i) - 1)
    else if text[i] == '\'' && !s.inDouble then (s.Write([text[i]]).(inSingle := !s.inSingle), 0)
    else if text[i] == '"' && !s.inSingle then (s.Write([text[i]]).(inDouble := !s.inDouble), 0)
    else if text[i] == ';' && !quoted then (s.Flush(), 0)
    else (s.Write([text[i]]), 0)
  }

  function Scan(text: string, i: nat, s: Lexer): Lexer
    requires i <= |text|
    decreases |text| - i
  {
    if i == |text| then s
    else
      var (s', consumed) := After(text, i, s);
      Scan(text, i + consumed + 1, s')
  }

  /** The statements as written, before comments are stripped. */
  function RawPieces(text: string): seq<string> {
    Scan(text, 0, START).Flush().pieces
  }

  /** The context each rune is read in, as the splitter sees it, and last the one it ends in. */
  function SplitterModes(text: string, i: nat, s: Lexer): (modes: seq<Mode>)
    requires i <= |text|
    ensures |modes| == |text| - i + 1
    decreases |text| - i
  {
    if i == |text| then [s.Mode()]
    else
      var (s', consumed) := After(text, i, s);
      seq(consumed + 1, _ => s.Mode()) + SplitterModes(text, i + consumed + 1, s')
  }

  // ----- stripping comment lines -----

  /** Unicode white space, as Go's strings.TrimSpace knows it. */
  predicate IsSpace(c: char) {
    || c in "\t\n\r "
    || c == '\U{0B}' || c == '\U{0C}' || c == '\U{85}' || c == '\U{A0}' || c == '\U{1680}'
    || '\U{2000}' <= c <= '\U{200A}'
    || c == '\U{2028}' || c == '\U{2029}' || c == '\U{202F}' || c == '\U{205F}' || c == '\U{3000}'
  }

  function TrimLeft(s: string): string {
    if s != "" && IsSpace(s[0]) then TrimLeft(s[1..]) else s
  }

  function TrimRight(s: string): string {
    if s != "" && IsSpace(s[|s| - 1]) then TrimRight(s[..|s| - 1]) else s
  }

  function TrimSpace(s: string): string { TrimRight(TrimLeft(s)) }

  /** A line that holds no SQL: blank, or nothing but a comment. */
  predicate IsIdle(line: string) {
    var trimmed := TrimSpace(line);
    trimmed == "" || "--" <= trimmed
  }

  function KeptLines(lines: seq<string>): seq<string> {
    if lines == [] then []
    else (if IsIdle(lines[0]) then [] else [lines[0]]) + KeptLines(lines[1..])
  }

  function Strip(statement: string): string {
    TrimSpace(Join(KeptLines(Lines(statement)), "\n"))
  }

  function Statements(pieces: seq<string>): seq<string> {
    if pieces == [] then []
    else
      var statement := Strip(pieces[0]);
      (if statement == "" then [] else [statement]) + Statements(pieces[1..])
  }

  // ----- the program -----

  method ReadDollarTag(text: string, i: nat) returns (tag: string, width: nat)
    requires i < |text|
    ensures width == TagWidth(text, i)
    ensures tag == text[i..i + width]
  {
    if text[i] != '$' {
      return "", 0;
    }
    var j := i + 1;
    while j < |text|
      invariant i < j <= |text|
      invariant ScanTag(text, i, i + 1) == ScanTag(text, i, j)
    {
      if text[j] == '$' {
        return text[i..j + 1], j + 1 - i;
      }
      if !IsTagRune(text[j], j == i + 1) {
        return "", 0;
      }
      j := j + 1;
    }
    return "", 0;
  }

  lemma KeptLinesFrom(lines: seq<string>, n: nat)
    requires n < |lines|
    ensures KeptLines(lines[n..]) == (if IsIdle(lines[n]) then [] else [lines[n]]) + KeptLines(lines[n + 1..])
  {
    assert lines[n..][1..] == lines[n + 1..];
  }

  lemma KeptLinesEnd(lines: seq<string>)
    ensures KeptLines(lines[|lines|..]) == [] && lines[0..] == lines
  {
  }

  method StripComments(statement: string) returns (stripped: string)
    ensures stripped == Strip(statement)
  {
    hide TrimSpace, Lines, Join, KeptLines;
    var lines := Lines(statement);
    var kept: seq<string> := [];
    for n := 0 to |lines|
      invariant kept + KeptLines(lines[n..]) == KeptLines(lines)
    {
      KeptLinesFrom(lines, n);
      var trimmed := TrimSpace(lines[n]);
      if trimmed == "" || "--" <= trimmed {
        continue;
      }
      kept := kept + [lines[n]];
    }
    KeptLinesEnd(lines);
    assert kept == KeptLines(lines);
    return TrimSpace(Join(kept, "\n"));
  }

  lemma {:induction false} StatementsAppend(pieces: seq<string>, last: string)
    ensures Statements(pieces + [last]) == Statements(pieces) + Statements([last])
  {
    hide Strip;
    if pieces == [] {
    } else {
      assert (pieces + [last])[1..] == pieces[1..] + [last];
      StatementsAppend(pieces[1..], last);
    }
  }

  class Splitter {
    var statements: seq<string>
    var current: string
    var inSingle: bool
    var inDouble: bool
    var inLineComment: bool
    var dollarTag: string
    ghost var pieces: seq<string>

    ghost predicate Valid()
      reads this
    {
      View().Valid() && statements == Statements(pieces)
    }

    ghost function View(): Lexer
      reads this
    {
      Lexer(pieces, current, inSingle, inDouble, inLineComment, dollarTag)
    }

    constructor ()
      ensures Valid() && View() == START
    {
      statements, current, pieces := [], "", [];
      inSingle, inDouble, inLineComment, dollarTag := false, false, false, "";
    }

    method Flush()
      requires Valid()
      modifies this
      ensures Valid() && View() == old(View()).Flush()
    {
      StatementsAppend(pieces, current);
      var statement := StripComments(current);
      if statement != "" {
        statements := statements + [statement];
      }
      pieces := pieces + [current];
      current := "";
    }

    method StepInsideLiteral(text: string, i: nat) returns (consumed: nat, handled: bool)
      requires Valid() && i < |text|
      modifies this
      ensures Valid()
      ensures (View(), consumed, handled) == InsideLiteral(text, i, old(View()))
    {
      hide ScanTag, TagWidth, IsDelimiter, Statements, EndsWith;
      if dollarTag != "" {
        var tag, width := ReadDollarTag(text, i);
        if tag == dollarTag {
          current := current + tag;
          dollarTag := "";
          return width - 1, true;
        }
        current := current + [text[i]];
        return 0, true;
      }
      if inLineComment {
        if text[i] == '\n' {
          inLineComment := false;
        }
        current := current + [text[i]];
        return 0, true;
      }
      if !inSingle && !inDouble && EndsWith(current, "--") {
        inLineComment := true;
        current := current + [text[i]];
        return 0, true;
      }
      return 0, false;
    }

    method Step(text: string, i: nat) returns (consumed: nat)
      requires Valid() && i < |text|
      modifies this
      ensures Valid()
      ensures (View(), consumed) == After(text, i, old(View()))
    {
      hide ScanTag, IsDelimiter, Statements;
      var taken, handled := StepInsideLiteral(text, i);
      if handled {
        return taken;
      }
      TagWidthIsTheDelimiter(text, i);
      if text[i] == '$' {
        if !inSingle && !inDouble {
          var tag, width := ReadDollarTag(text, i);
          if tag != "" {
            current := current + tag;
            dollarTag := tag;
            return width - 1;
          }
        }
      } else if text[i] == '\'' {
        if !inDouble {
          inSingle := !inSingle;
        }
      } else if text[i] == '"' {
        if !inSingle {
          inDouble := !inDouble;
        }
      } else if text[i] == ';' {
        if !inSingle && !inDouble {
          Flush();
          return 0;
        }
      }
      current := current + [text[i]];
      return 0;
    }

    method Finish() returns (result: seq<string>)
      requires Valid()
      modifies this
      ensures Valid() && View() == old(View()).Flush() && result == statements
    {
      Flush();
      result := statements;
    }
  }

  lemma ScanUnfold(text: string, i: nat, s: Lexer, s': Lexer, consumed: nat)
    requires i < |text| && After(text, i, s) == (s', consumed)
    ensures Scan(text, i, s) == Scan(text, i + consumed + 1, s')
  {
    hide After;
  }

  lemma ScanEnds(text: string, s: Lexer)
    ensures Scan(text, |text|, s) == s
  {
  }

  /** The statements a migration file is executed as. */
  method SplitStatements(text: string) returns (statements: seq<string>)
    ensures statements == Statements(RawPieces(text))
  {
    var splitter := new Splitter();
    var i := 0;
    hide Scan, After, Statements;
    while i < |text|
      invariant i <= |text|
      invariant fresh(splitter) && splitter.Valid()
      invariant Scan(text, i, splitter.View()) == Scan(text, 0, START)
    {
      ghost var before := splitter.View();
      var consumed := splitter.Step(text, i);
      ScanUnfold(text, i, before, splitter.View(), consumed);
      i := i + consumed + 1;
    }
    ScanEnds(text, splitter.View());
    statements := splitter.Finish();
  }
}
