/** What is left of a statement once its idle lines are gone, told on texts. */
module SqlStripping {
  import opened SqlLexer
  import opened SqlSplitter
  import opened SqlSplitterProofs
  import opened Text

  predicate Blank(s: string) {
    forall k :: 0 <= k < |s| ==> IsSpace(s[k])
  }

  // ----- white space -----

  /** The code points that are white space; in ASCII, the blank and the five controls from tab to carriage return. */
  lemma SpacesAre(c: char)
    ensures var n := c as int;
            IsSpace(c) <==>
              || 9 <= n <= 13 || n == 32 || n == 133 || n == 160 || n == 5760 || 8192 <= n <= 8202
              || n == 8232 || n == 8233 || n == 8239 || n == 8287 || n == 12288
  {
    assert c in "\t\n\r " <==> c == '\t' || c == '\n' || c == '\r' || c == ' ';
  }

  lemma {:induction false} TrimLeftIs(s: string) returns (front: string)
    ensures s == front + TrimLeft(s) && Blank(front)
    ensures TrimLeft(s) != "" ==> !IsSpace(TrimLeft(s)[0])
  {
    if s == "" || !IsSpace(s[0]) {
      front := "";
    } else {
      front := TrimLeftIs(s[1..]);
      front := [s[0]] + front;
      assert s == [s[0]] + s[1..];
    }
  }

  lemma {:induction false} TrimRightIs(s: string) returns (back: string)
    ensures s == TrimRight(s) + back && Blank(back)
    ensures TrimRight(s) != "" ==> !IsSpace(TrimRight(s)[|TrimRight(s)| - 1])
  {
    if s == "" || !IsSpace(s[|s| - 1]) {
      back := "";
    } else {
      var last := |s| - 1;
      back := TrimRightIs(s[..last]);
      assert s == TrimRight(s[..last]) + (back + [s[last]]);
      back := back + [s[last]];
    }
  }

  /** Trimming takes a blank front and a blank back off, and leaves nothing that begins or ends in white space. */
  lemma TrimmedIs(s: string) returns (front: string, back: string)
    ensures s == front + TrimSpace(s) + back && Blank(front) && Blank(back)
    ensures var t := TrimSpace(s); t != "" ==> !IsSpace(t[0]) && !IsSpace(t[|t| - 1])
  {
    hide TrimLeft, TrimRight, IsSpace;
    front := TrimLeftIs(s);
    back := TrimRightIs(TrimLeft(s));
    var t := TrimSpace(s);
    assert TrimLeft(s) == t + back;
    if t != "" {
      assert TrimLeft(s)[0] == t[0];
    }
  }

  lemma {:induction false} TrimLeftSkips(front: string, rest: string)
    requires Blank(front)
    ensures TrimLeft(front + rest) == TrimLeft(rest)
  {
    if front == "" {
      assert front + rest == rest;
    } else {
      assert (front + rest)[1..] == front[1..] + rest;
      assert IsSpace(front[0]);
      TrimLeftSkips(front[1..], rest);
    }
  }

  lemma {:induction false} TrimRightKeeps(s: string, tail: string)
    requires s != "" && !IsSpace(s[|s| - 1])
    ensures s <= TrimRight(s + tail)
  {
    if tail == "" {
      assert s + tail == s;
    } else {
      assert (s + tail)[..|s + tail| - 1] == s + tail[..|tail| - 1];
      TrimRightKeeps(s, tail[..|tail| - 1]);
    }
  }

  /** The line is blank up to k, and a comment starts there. */
  predicate CommentAt(line: string, k: nat) {
    k + 2 <= |line| && Blank(line[..k]) && line[k] == '-' && line[k + 1] == '-'
  }

  /** A line holds no SQL exactly when it is blank, or nothing but white space stands before two dashes. */
  lemma IdleIs(line: string)
    ensures IsIdle(line) <==> Blank(line) || exists k: nat :: CommentAt(line, k)
  {
    TrimBlank(line);
    var front, back := TrimmedIs(line);
    var t := TrimSpace(line);
    if "--" <= t {
      assert t[0] == "--"[0] && t[1] == "--"[1];
      assert line[..|front|] == front && line[|front|] == t[0] && line[|front| + 1] == t[1];
      assert CommentAt(line, |front|);
    }
    if k: nat :| CommentAt(line, k) {
      assert line == line[..k] + line[k..];
      TrimLeftSkips(line[..k], line[k..]);
      assert TrimLeft(line[k..]) == line[k..];
      assert line[k..] == "--" + line[k + 2..];
      assert !IsSpace('-');
      TrimRightKeeps("--", line[k + 2..]);
    }
  }

  // ----- lines -----

  lemma LinesFirst(c: char, rest: string)
    ensures c == '\n' ==> Lines([c] + rest) == [""] + Lines(rest)
    ensures c != '\n' ==> Lines([c] + rest) == [[c] + Lines(rest)[0]] + Lines(rest)[1..]
  {
    assert ([c] + rest)[1..] == rest;
  }

  lemma FirstOfBoth<T>(front: seq<T>, x: T, p: seq<T>, q: seq<T>)
    requires p != []
    ensures front + (p + q) == (front + p) + q
    ensures (p + q)[0] == p[0] && [x] + (p + q)[1..] == [x] + p[1..] + q
  {
  }

  /** The lines of two texts with a newline between them are those of the one and then those of the other. */
  lemma {:induction false} LinesOfBoth(a: string, b: string)
    ensures Lines(a + "\n" + b) == Lines(a) + Lines(b)
  {
    if a == "" {
      LinesFirst('\n', b);
      assert a + "\n" + b == ['\n'] + b;
    } else {
      var c, rest := a[0], a[1..];
      assert a == [c] + rest && a + "\n" + b == [c] + (rest + "\n" + b);
      LinesOfBoth(rest, b);
      hide Lines;
      LinesFirst(c, rest);
      LinesFirst(c, rest + "\n" + b);
      FirstOfBoth([""], [c] + Lines(rest)[0], Lines(rest), Lines(b));
    }
  }

  lemma {:induction false} KeptOfBoth(p: seq<string>, q: seq<string>)
    ensures KeptLines(p + q) == KeptLines(p) + KeptLines(q)
  {
    hide IsIdle;
    if p == [] {
      assert p + q == q;
    } else {
      assert (p + q)[1..] == p[1..] + q;
      KeptOfBoth(p[1..], q);
    }
  }

  lemma {:induction false} AllAreKept(lines: seq<string>)
    requires forall n :: 0 <= n < |lines| ==> !IsIdle(lines[n])
    ensures KeptLines(lines) == lines
  {
    hide IsIdle;
    if lines == [] {
    } else {
      AllAreKept(lines[1..]);
    }
  }

  /** A piece without idle lines is only trimmed: every line of it stays, in its place. */
  lemma NothingIdleNothingLost(s: string)
    requires forall n :: 0 <= n < |Lines(s)| ==> !IsIdle(Lines(s)[n])
    ensures Strip(s) == TrimSpace(s)
  {
    AllAreKept(Lines(s));
    JoinedLines(s);
  }

  lemma IdleIsNotKept(line: string)
    requires '\n' !in line && IsIdle(line)
    ensures Lines(line) == [line] && KeptLines([line]) == []
  {
    LinesOfOne(line);
    assert [line][1..] == [];
  }

  /** An idle line in the middle of a piece, at its front or at its end might as well not be there. */
  lemma IdleLinesDoNotMatter(a: string, line: string, b: string)
    requires '\n' !in line && IsIdle(line)
    ensures Strip(a + "\n" + line + "\n" + b) == Strip(a + "\n" + b)
    ensures Strip(line + "\n" + b) == Strip(b)
    ensures Strip(a + "\n" + line) == Strip(a)
  {
    hide IsIdle, Lines, KeptLines;
    IdleIsNotKept(line);
    LinesOfBoth(line, b);
    LinesOfBoth(a, line);
    LinesOfBoth(a, b);
    LinesOfBoth(a, line + "\n" + b);
    assert a + "\n" + line + "\n" + b == a + "\n" + (line + "\n" + b);
    KeptOfBoth([line], Lines(b));
    KeptOfBoth(Lines(a), [line]);
    KeptOfBoth(Lines(a), Lines(b));
    KeptOfBoth(Lines(a), [line] + Lines(b));
    assert [] + KeptLines(Lines(b)) == KeptLines(Lines(b)) && KeptLines(Lines(a)) + [] == KeptLines(Lines(a));
  }

  /** A piece is one statement, itself without its idle lines and trimmed; it is none if all its lines are idle. */
  lemma StatementOfPiece(piece: string)
    ensures Statements([piece]) == if AllIdle(Lines(piece)) then [] else [Strip(piece)]
  {
    DroppedIffIdle(piece);
    assert [piece][1..] == [];
  }

  /** The statements of a text are those of its pieces, one after the other. */
  lemma {:induction false} StatementsInOrder(pieces: seq<string>, piece: string)
    ensures Statements([piece] + pieces) == Statements([piece]) + Statements(pieces)
  {
    StatementsCompose([piece], pieces);
  }

  // ----- tags -----

  /** A tag is spelled with ASCII letters, underscores and, but for its first rune, digits. */
  lemma TagRuneIs(r: char, first: bool)
    ensures var c := r as int;
            IsTagRune(r, first) <==> 65 <= c <= 90 || 97 <= c <= 122 || c == 95 || (48 <= c <= 57 && !first)
  {
  }
}
