/** The terminal breaks long lines at its width; this puts them together again. */
module WrappedOutput {
  import opened Text

  /** The column the CLI wraps at. */
  const WIDTH := 80

  /** strings.ReplaceAll of "\r\n" by "\n". */
  function DropReturns(s: string): string {
    if |s| < 2 then s
    else if s[0] == '\r' && s[1] == '\n' then "\n" + DropReturns(s[2..])
    else [s[0]] + DropReturns(s[1..])
  }

  /** A line of exactly the width continues on the next one; any other ended there. */
  function Rejoined(lines: seq<string>): string
    requires lines != []
  {
    if |lines| == 1 then lines[0]
    else lines[0] + (if |lines[0]| != WIDTH then "\n" else "") + Rejoined(lines[1..])
  }

  method Unwrap(output: string) returns (text: string)
    ensures text == Rejoined(Lines(DropReturns(output)))
  {
    var lines := Lines(DropReturns(output));
    text := "";
    for n := 0 to |lines|
      invariant n < |lines| ==> text + Rejoined(lines[n..]) == Rejoined(lines)
      invariant n == |lines| ==> text == Rejoined(lines)
    {
      ghost var before := text;
      text := text + lines[n];
      if n == |lines| - 1 {
        assert lines[n..] == [lines[n]];
        continue;
      }
      if |lines[n]| != WIDTH {
        text := text + "\n";
      }
      assert lines[n..][1..] == lines[n + 1..];
      assert text + Rejoined(lines[n + 1..]) == before + Rejoined(lines[n..]);
    }
  }

  // ----- what the terminal does -----

  /** How a line of text comes out: in pieces of the width, the last one as long as is left. */
  function Pieces(line: string): (pieces: seq<string>)
    ensures pieces != []
  {
    if |line| <= WIDTH then [line] else [line[..WIDTH]] + Pieces(line[WIDTH..])
  }

  function Wrapped(lines: seq<string>): seq<string> {
    if lines == [] then [] else Pieces(lines[0]) + Wrapped(lines[1..])
  }

  /** A line whose last piece fills the width, so that it looks as though it went on. */
  predicate LooksUnfinished(line: string) {
    |line| > 0 && |line| % 80 == 0
  }

  function Unfinished(lines: seq<string>): nat {
    if |lines| <= 1 then 0 else (if LooksUnfinished(lines[0]) then 1 else 0) + Unfinished(lines[1..])
  }

  lemma RejoinedFirst(first: string, rest: seq<string>)
    requires rest != []
    ensures Rejoined([first] + rest) == first + (if |first| != WIDTH then "\n" else "") + Rejoined(rest)
  {
    assert ([first] + rest)[1..] == rest;
  }

  lemma UnfinishedTail(line: string, tail: string)
    requires |line| == |tail| + WIDTH && tail != ""
    ensures LooksUnfinished(line) == LooksUnfinished(tail)
  {
  }

  lemma {:induction false} PiecesRejoin(line: string, rest: seq<string>)
    ensures rest == [] ==> Rejoined(Pieces(line) + rest) == line
    ensures rest != [] ==>
              Rejoined(Pieces(line) + rest) == line + (if LooksUnfinished(line) then "" else "\n") + Rejoined(rest)
    decreases |line|
  {
    if |line| <= WIDTH {
      if rest != [] {
        RejoinedFirst(line, rest);
      }
    } else {
      var head, tail := line[..WIDTH], line[WIDTH..];
      PiecesRejoin(tail, rest);
      FirstPiece(line, rest);
      RejoinedFirst(head, Pieces(tail) + rest);
      UnfinishedTail(line, tail);
      hide Rejoined, Pieces, LooksUnfinished;
      Glue(head, tail, if LooksUnfinished(line) then "" else "\n", if rest == [] then "" else Rejoined(rest));
      assert head + tail == line;
    }
  }

  lemma FirstPiece(line: string, rest: seq<string>)
    requires |line| > WIDTH
    ensures Pieces(line) + rest == [line[..WIDTH]] + (Pieces(line[WIDTH..]) + rest)
  {
  }

  lemma Glue(head: string, tail: string, end: string, rest: string)
    ensures head + "" + (tail + end + rest) == head + tail + end + rest
    ensures head + "" + tail == head + tail
  {
  }

  /** Rejoining what was wrapped loses one newline for each line that looked unfinished, and is otherwise exact. */
  lemma {:induction false} WrappedRejoins(lines: seq<string>)
    requires lines != []
    ensures Wrapped(lines) != []
    ensures |Rejoined(Wrapped(lines))| + Unfinished(lines) == |Join(lines, "\n")|
    ensures Unfinished(lines) == 0 ==> Rejoined(Wrapped(lines)) == Join(lines, "\n")
  {
    PiecesRejoin(lines[0], Wrapped(lines[1..]));
    if |lines| > 1 {
      WrappedRejoins(lines[1..]);
    }
  }

  /** Text the terminal can show as lines: no line ends and no carriage returns inside them. */
  predicate Plain(lines: seq<string>) {
    forall n :: 0 <= n < |lines| ==> '\n' !in lines[n] && '\r' !in lines[n]
  }

  lemma {:induction false} NoReturnsToDrop(s: string)
    requires '\r' !in s
    ensures DropReturns(s) == s
  {
    if |s| < 2 {
    } else {
      NoReturnsToDrop(s[1..]);
      assert [s[0]] + s[1..] == s;
    }
  }

  lemma {:induction false} JoinedHasNoReturns(lines: seq<string>)
    requires Plain(lines)
    ensures '\r' !in Join(lines, "\n")
  {
    if |lines| <= 1 {
    } else {
      JoinedHasNoReturns(lines[1..]);
    }
  }

  lemma {:induction false} PiecesArePlain(line: string)
    requires '\n' !in line && '\r' !in line
    ensures Plain(Pieces(line))
    decreases |line|
  {
    if |line| <= WIDTH {
    } else {
      PiecesArePlain(line[WIDTH..]);
    }
  }

  lemma {:induction false} WrappedIsPlain(lines: seq<string>)
    requires Plain(lines)
    ensures Plain(Wrapped(lines))
  {
    if lines == [] {
    } else {
      PiecesArePlain(lines[0]);
      WrappedIsPlain(lines[1..]);
    }
  }

  lemma {:induction false} NoneUnfinished(lines: seq<string>)
    ensures Unfinished(lines) == 0 <==> forall n :: 0 <= n < |lines| - 1 ==> !LooksUnfinished(lines[n])
  {
    if |lines| <= 1 {
    } else {
      NoneUnfinished(lines[1..]);
      assert forall n :: 0 <= n < |lines| - 2 ==> lines[1..][n] == lines[n + 1];
      if forall n :: 0 <= n < |lines| - 1 ==> !LooksUnfinished(lines[n]) {
        assert forall n :: 0 <= n < |lines| - 2 ==> !LooksUnfinished(lines[1..][n]);
      } else if !LooksUnfinished(lines[0]) {
        var n :| 0 <= n < |lines| - 1 && LooksUnfinished(lines[n]);
        assert LooksUnfinished(lines[1..][n - 1]);
      }
    }
  }

  /**
   Unwrapping undoes the terminal's wrapping if and only if no line but the last fills its last row exactly; such a
   line cannot be told from one that goes on.
   */
  lemma UnwrapUndoesWrapping(lines: seq<string>)
    requires lines != [] && Plain(lines)
    ensures Rejoined(Lines(DropReturns(Join(Wrapped(lines), "\n")))) == Join(lines, "\n")
            <==> forall n :: 0 <= n < |lines| - 1 ==> !LooksUnfinished(lines[n])
  {
    WrappedRejoins(lines);
    WrappedIsPlain(lines);
    JoinedHasNoReturns(Wrapped(lines));
    NoReturnsToDrop(Join(Wrapped(lines), "\n"));
    LinesOfJoined(Wrapped(lines));
    NoneUnfinished(lines);
  }

  // ----- on any input -----

  /**
   One pass over the raw output, counting the column: a carriage return before a newline goes, a newline goes after a
   line of exactly the width, and everything else stays.
   */
  function OnePass(s: string, column: nat): string {
    if s == "" then ""
    else if 1 < |s| && s[0] == '\r' && s[1] == '\n' then OnePass(s[1..], column)
    else if s[0] == '\n' then (if column == 80 then "" else "\n") + OnePass(s[1..], 0)
    else [s[0]] + OnePass(s[1..], column + 1)
  }

  /** Lines rejoined when the first of them continues a line of so many columns. */
  function Continued(column: nat, lines: seq<string>): string
    requires lines != []
  {
    if |lines| == 1 then lines[0]
    else lines[0] + (if column + |lines[0]| != WIDTH then "\n" else "") + Rejoined(lines[1..])
  }

  /** Carriage returns aside, rejoining the lines is the one pass. */
  lemma {:induction false} PassRejoins(s: string, column: nat)
    ensures OnePass(s, column) == Continued(column, Lines(DropReturns(s)))
  {
    if s == "" {
    } else if 1 < |s| && s[0] == '\r' && s[1] == '\n' {
      PassRejoins(s[2..], 0);
      assert s[1..][1..] == s[2..] && s[1..] != "\r";
      NewlineContinues(DropReturns(s[2..]), column);
    } else {
      PassRejoins(s[1..], if s[0] == '\n' then 0 else column + 1);
      assert DropReturns(s) == [s[0]] + DropReturns(s[1..]);
      if s[0] == '\n' {
        NewlineContinues(DropReturns(s[1..]), column);
      } else {
        RuneContinues(s[0], DropReturns(s[1..]), column);
      }
    }
  }

  lemma NewlineContinues(rest: string, column: nat)
    ensures Continued(column, Lines("\n" + rest)) == (if column == WIDTH then "" else "\n") + Continued(0, Lines(rest))
  {
    assert ("\n" + rest)[1..] == rest;
    assert ([""] + Lines(rest))[1..] == Lines(rest);
    assert "" + "\n" == "\n" && "" + "" == "";
  }

  lemma RuneContinues(c: char, rest: string, column: nat)
    requires c != '\n'
    ensures Continued(column, Lines([c] + rest)) == [c] + Continued(column + 1, Lines(rest))
  {
    assert ([c] + rest)[1..] == rest;
    var lines := Lines(rest);
    assert Lines([c] + rest) == [[c] + lines[0]] + lines[1..];
    hide Lines, Rejoined;
    LongerFirst(c, lines, column);
  }

  lemma LongerFirst(c: char, lines: seq<string>, column: nat)
    requires lines != []
    ensures Continued(column, [[c] + lines[0]] + lines[1..]) == [c] + Continued(column + 1, lines)
  {
    hide Rejoined;
    var longer := [[c] + lines[0]] + lines[1..];
    assert longer[1..] == lines[1..] && |longer[0]| == 1 + |lines[0]|;
    if 1 < |lines| {
      var newline, rest := if column + 1 + |lines[0]| != WIDTH then "\n" else "", Rejoined(lines[1..]);
      assert [c] + lines[0] + newline + rest == [c] + (lines[0] + newline + rest);
    }
  }

  /** On any output at all, unwrapping removes exactly what that one pass removes. */
  lemma UnwrapIsOnePass(output: string)
    ensures Rejoined(Lines(DropReturns(output))) == OnePass(output, 0)
  {
    PassRejoins(output, 0);
  }

  function Unbroken(s: string): string {
    if s == "" then "" else (if s[0] == '\n' then "" else [s[0]]) + Unbroken(s[1..])
  }

  lemma {:induction false} UnbrokenAppend(s: string, t: string)
    ensures Unbroken(s + t) == Unbroken(s) + Unbroken(t)
  {
    if s == "" {
      assert s + t == t;
    } else {
      assert (s + t)[1..] == s[1..] + t;
      UnbrokenAppend(s[1..], t);
    }
  }

  predicate NoneFull(lines: seq<string>) {
    forall n :: 0 <= n < |lines| - 1 ==> |lines[n]| != 80
  }

  lemma NoneFullFirst(lines: seq<string>)
    requires 1 < |lines|
    ensures NoneFull(lines) <==> |lines[0]| != WIDTH && NoneFull(lines[1..])
  {
    var rest := lines[1..];
    assert forall n :: 0 <= n < |rest| ==> rest[n] == lines[n + 1];
    if |lines[0]| != WIDTH && NoneFull(rest) {
      forall n | 0 < n < |lines| - 1
        ensures |lines[n]| != WIDTH
      {
        assert lines[n] == rest[n - 1];
      }
    }
  }

  lemma UnbrokenLine(first: string, newline: string, rest: string)
    requires newline == "" || newline == "\n"
    ensures Unbroken(first + newline + rest) == Unbroken(first) + Unbroken(rest)
  {
    UnbrokenAppend(first + newline, rest);
    UnbrokenAppend(first, newline);
    assert Unbroken(newline) == "";
  }

  /** Newlines aside, the text stays; and none is lost if and only if no line but the last has the full width. */
  lemma {:induction false} RejoinedKeepsText(lines: seq<string>)
    requires lines != []
    ensures Unbroken(Rejoined(lines)) == Unbroken(Join(lines, "\n"))
    ensures |Rejoined(lines)| <= |Join(lines, "\n")|
    ensures |Rejoined(lines)| == |Join(lines, "\n")| <==> NoneFull(lines)
  {
    if |lines| == 1 {
    } else {
      hide Unbroken, NoneFull;
      var first, rest := lines[0], lines[1..];
      RejoinedKeepsText(rest);
      NoneFullFirst(lines);
      UnbrokenLine(first, if |first| != WIDTH then "\n" else "", Rejoined(rest));
      UnbrokenLine(first, "\n", Join(rest, "\n"));
    }
  }

  lemma {:induction false} RejoinedWhole(lines: seq<string>)
    requires lines != []
    ensures NoneFull(lines) ==> Rejoined(lines) == Join(lines, "\n")
  {
    if |lines| == 1 {
    } else {
      NoneFullFirst(lines);
      RejoinedWhole(lines[1..]);
    }
  }

  /** Of any output, carriage returns aside, unwrapping loses nothing but newlines, and those only after full lines. */
  lemma UnwrapKeepsText(output: string)
    ensures var s := DropReturns(output);
            && Unbroken(Rejoined(Lines(s))) == Unbroken(s)
            && (Rejoined(Lines(s)) == s <==> NoneFull(Lines(s)))
  {
    var s := DropReturns(output);
    JoinedLines(s);
    RejoinedKeepsText(Lines(s));
    RejoinedWhole(Lines(s));
  }
}
