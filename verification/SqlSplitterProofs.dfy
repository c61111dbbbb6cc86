/**
 What the splitter promises: it cuts where the reference lexer would, loses nothing, and splitting a
 file in two at a top-level semicolon splits it the same.
 */
module SqlSplitterProofs {
  import opened Text
  import opened SqlLexer
  import opened SqlSplitter

  // ----- the look-back agrees with the lexer -----

  /**
   The splitter stands where the lexer stands. A trailing '-' that the lexer has already passed over is
   never half of a "--" still to come.
   */
  predicate Aligned(text: string, i: nat, s: Lexer, mode: Mode)
    requires i <= |text|
  {
    && s.Valid()
    && s.Mode() == mode
    && (mode == Top && EndsWith(s.current, "-") && i < |text| ==> text[i] != '-')
  }

  /** The comment at `i` has only just been opened, so the splitter has not recorded it yet. */
  predicate JustOpened(s: Lexer) {
    s.Mode() == Comment && !s.inLineComment
  }

  lemma TagMatches(text: string, i: nat, tag: string)
    requires i < |text| && IsDelimiter(tag)
    ensures text[i..i + TagWidth(text, i)] == tag <==> HasPrefixAt(text, i, tag)
  {
    TagWidthIsTheDelimiter(text, i);
    if HasPrefixAt(text, i, tag) {
      assert DelimiterAt(text, i, i + |tag|);
    }
  }

  lemma TrailingDashes(s: string)
    ensures EndsWith(s, "-") <==> 1 <= |s| && s[|s| - 1] == '-'
    ensures EndsWith(s, "--") <==> 2 <= |s| && s[|s| - 1] == '-' && s[|s| - 2] == '-'
  {
    if 2 <= |s| {
      assert s[|s| - 2..] == [s[|s| - 2], s[|s| - 1]];
    }
    if 1 <= |s| {
      assert s[|s| - 1..] == [s[|s| - 1]];
    }
  }

  /** What one token of the lexer and one step of the splitter owe each other. */
  predicate Together(text: string, i: nat, s: Lexer, mode: Mode)
    requires i < |text|
  {
    var (mode', width) := Next(text, i, mode);
    var (s', consumed) := After(text, i, s);
    && width == consumed + 1
    && Aligned(text, i + width, s', mode')
    && !JustOpened(s')
  }

  lemma TogetherInDollar(text: string, i: nat, s: Lexer)
    requires i < |text| && s.Valid() && s.dollarTag != ""
    ensures Together(text, i, s, Dollar(s.dollarTag))
  {
    TagMatches(text, i, s.dollarTag);
    var s' := After(text, i, s).0;
    if HasPrefixAt(text, i, s.dollarTag) {
      TrailingDashes(s'.current);
    }
  }

  lemma TogetherInSingle(text: string, i: nat, s: Lexer)
    requires i < |text| && s.Valid() && s.inSingle
    ensures Together(text, i, s, Single)
  {
    var s' := s.Write([text[i]]).(inSingle := text[i] != '\'');
    TrailingDashes(s'.current);
    assert After(text, i, s) == (s', 0);
    assert Next(text, i, Single) == (if text[i] == '\'' then Top else Single, 1);
    hide After, Next, TagWidth, EndsWith;
  }

  lemma TogetherInDouble(text: string, i: nat, s: Lexer)
    requires i < |text| && s.Valid() && s.inDouble
    ensures Together(text, i, s, Double)
  {
    var s' := s.Write([text[i]]).(inDouble := text[i] != '"');
    TrailingDashes(s'.current);
    assert After(text, i, s) == (s', 0);
    assert Next(text, i, Double) == (if text[i] == '"' then Top else Double, 1);
    hide After, Next, TagWidth, EndsWith;
  }

  lemma TogetherInComment(text: string, i: nat, s: Lexer)
    requires i < |text| && s.Valid() && s.Mode() == Comment
    requires !(JustOpened(s) && text[i] == '\n')
    ensures Together(text, i, s, Comment)
  {
    var s' := After(text, i, s).0;
    TrailingDashes(s'.current);
  }

  lemma TogetherAtTag(text: string, i: nat, s: Lexer)
    requires i < |text| && Aligned(text, i, s, Top)
    requires TagWidth(text, i) > 0
    ensures Together(text, i, s, Top)
  {
    TagWidthIsTheDelimiter(text, i);
    var end := i + TagWidth(text, i);
    assert DelimiterAt(text, i, end);
    var tag := text[i..end];
    assert !HasPrefixAt(text, i, "--") by {
      assert text[i] == '$';
    }
    assert After(text, i, s) == (s.Write(tag).(dollarTag := tag), |tag| - 1);
  }

  lemma TogetherAtQuote(text: string, i: nat, s: Lexer)
    requires i < |text| && Aligned(text, i, s, Top)
    requires text[i] == '\'' || text[i] == '"'
    ensures Together(text, i, s, Top)
  {
  }

  lemma TogetherAtCut(text: string, i: nat, s: Lexer)
    requires i < |text| && Aligned(text, i, s, Top) && text[i] == ';'
    ensures Together(text, i, s, Top)
  {
    assert !HasPrefixAt(text, i, "--") by {
      assert ";"[0] != '-';
    }
    assert TagWidth(text, i) == 0;
    assert After(text, i, s) == (s.Flush(), 0);
    TrailingDashes("");
  }

  /** An ordinary rune at top level is written and changes nothing else. */
  lemma RuneIsWritten(text: string, i: nat, s: Lexer)
    requires i < |text| && s.Valid() && s.Mode() == Top
    requires TagWidth(text, i) == 0 && text[i] !in "'\";"
    ensures After(text, i, s) == (s.Write([text[i]]), 0)
  {
  }

  lemma RuneStaysAtTop(text: string, i: nat, s: Lexer)
    requires i < |text| && Aligned(text, i, s, Top) && !HasPrefixAt(text, i, "--")
    ensures Aligned(text, i + 1, s.Write([text[i]]), Top) && !JustOpened(s.Write([text[i]]))
  {
    var s' := s.Write([text[i]]);
    TrailingDashes(s.current);
    TrailingDashes(s'.current);
    hide EndsWith;
    if i + 1 < |text| {
      assert text[i..i + 2] == [text[i], text[i + 1]];
    }
  }

  lemma TogetherAtRune(text: string, i: nat, s: Lexer)
    requires i < |text| && Aligned(text, i, s, Top)
    requires !HasPrefixAt(text, i, "--")
    requires TagWidth(text, i) == 0 && text[i] !in "'\";"
    ensures Together(text, i, s, Top)
  {
    RuneIsWritten(text, i, s);
    RuneStaysAtTop(text, i, s);
    assert Next(text, i, Top) == (Top, 1);
    hide After, Next, TagWidth, EndsWith, Aligned, JustOpened;
  }

  /** One token of the lexer is one step of the splitter, except "--", which is two. */
  lemma StepsTogether(text: string, i: nat, s: Lexer, mode: Mode)
    requires i < |text| && Aligned(text, i, s, mode)
    requires !(mode == Top && HasPrefixAt(text, i, "--"))
    requires !(JustOpened(s) && text[i] == '\n')
    ensures Together(text, i, s, mode)
  {
    match mode
    case Top =>
      if TagWidth(text, i) > 0 {
        TogetherAtTag(text, i, s);
      } else if text[i] == '\'' || text[i] == '"' {
        TogetherAtQuote(text, i, s);
      } else if text[i] == ';' {
        TogetherAtCut(text, i, s);
      } else {
        TogetherAtRune(text, i, s);
      }
    case Single => TogetherInSingle(text, i, s);
    case Double => TogetherInDouble(text, i, s);
    case Comment => TogetherInComment(text, i, s);
    case Dollar(tag) => TogetherInDollar(text, i, s);
  }

  lemma DashesOpenAComment(text: string, i: nat, s: Lexer)
    requires i < |text| && Aligned(text, i, s, Top) && HasPrefixAt(text, i, "--")
    ensures i + 1 < |text|
    ensures var s1 := s.Write("-");
            var s2 := s1.Write("-");
            && s.Mode() == Top && After(text, i, s) == (s1, 0) && s1.Mode() == Top
            && After(text, i + 1, s1) == (s2, 0)
            && Aligned(text, i + 2, s2, Comment) && JustOpened(s2)
  {
    assert text[i..i + 2] == [text[i], text[i + 1]];
    RuneIsWritten(text, i, s);
    var s1 := s.Write("-");
    TrailingDashes(s.current);
    TrailingDashes(s1.current);
    TrailingDashes(s1.Write("-").current);
    RuneIsWritten(text, i + 1, s1);
  }

  lemma SamePrefix<T>(prefix: seq<T>, x: seq<T>, y: seq<T>)
    ensures prefix + x == prefix + y <==> x == y
  {
    if prefix + x == prefix + y {
      assert x == (prefix + x)[|prefix|..];
      assert y == (prefix + y)[|prefix|..];
    }
  }

  lemma FirstMode(text: string, i: nat, s: Lexer, mode: Mode)
    requires i <= |text|
    ensures Modes(text, i, mode)[0] == mode
    ensures SplitterModes(text, i, s)[0] == s.Mode()
  {
  }

  lemma TogetherStep(text: string, i: nat, s: Lexer, mode: Mode) returns (s': Lexer, mode': Mode, width: nat)
    requires i < |text| && Aligned(text, i, s, mode)
    requires !(mode == Top && HasPrefixAt(text, i, "--"))
    requires !(JustOpened(s) && text[i] == '\n')
    ensures 0 < width && i + width <= |text| && Aligned(text, i + width, s', mode') && !JustOpened(s')
    ensures Next(text, i, mode) == (mode', width) && After(text, i, s) == (s', width - 1)
  {
    StepsTogether(text, i, s, mode);
    mode', width := Next(text, i, mode).0, Next(text, i, mode).1;
    s' := After(text, i, s).0;
  }

  lemma ModesUnfold(text: string, i: nat, mode: Mode, mode': Mode, width: nat)
    requires i < |text| && Next(text, i, mode) == (mode', width)
    ensures Modes(text, i, mode) == seq(width, _ => mode) + Modes(text, i + width, mode')
  {
    hide Next;
  }

  lemma BareUnfold(text: string, i: nat, mode: Mode, mode': Mode, width: nat)
    requires i < |text| && Next(text, i, mode) == (mode', width)
    ensures HasBareComment(text, i, mode)
        == ((mode == Top && mode' == Comment && i + width < |text| && text[i + width] == '\n')
            || HasBareComment(text, i + width, mode'))
  {
    hide Next;
  }

  lemma SplitterModesUnfold(text: string, i: nat, s: Lexer, s': Lexer, consumed: nat)
    requires i < |text| && After(text, i, s) == (s', consumed)
    ensures SplitterModes(text, i, s) == seq(consumed + 1, _ => s.Mode()) + SplitterModes(text, i + consumed + 1, s')
  {
    hide After;
  }

  lemma NoCommentOpens(text: string, i: nat, mode: Mode)
    requires i < |text| && !(mode == Top && HasPrefixAt(text, i, "--"))
    ensures mode == Top ==> Next(text, i, mode).0 != Comment
  {
  }

  /** One token that opens no comment: both lines of modes grow by it. */
  lemma Advance(text: string, i: nat, s: Lexer, mode: Mode) returns (s': Lexer, mode': Mode, width: nat)
    requires i < |text| && Aligned(text, i, s, mode)
    requires !(mode == Top && HasPrefixAt(text, i, "--"))
    requires !(JustOpened(s) && text[i] == '\n')
    ensures 0 < width && i + width <= |text| && Aligned(text, i + width, s', mode') && !JustOpened(s')
    ensures SplitterModes(text, i, s) == seq(width, _ => mode) + SplitterModes(text, i + width, s')
    ensures Modes(text, i, mode) == seq(width, _ => mode) + Modes(text, i + width, mode')
    ensures HasBareComment(text, i, mode) == HasBareComment(text, i + width, mode')
  {
    hide After, Next, Modes, SplitterModes, HasBareComment;
    s', mode', width := TogetherStep(text, i, s, mode);
    NoCommentOpens(text, i, mode);
    ModesUnfold(text, i, mode, mode', width);
    BareUnfold(text, i, mode, mode', width);
    SplitterModesUnfold(text, i, s, s', width - 1);
  }

  lemma OneDash(text: string, i: nat, s: Lexer, s1: Lexer)
    requires i < |text| && s.Mode() == Top
    requires After(text, i, s) == (s1, 0)
    ensures SplitterModes(text, i, s) == [Top] + SplitterModes(text, i + 1, s1)
  {
    hide After, TagWidth;
    assert seq(1, _ => Top) == [Top];
  }

  lemma NextAtDashes(text: string, i: nat)
    requires i < |text| && HasPrefixAt(text, i, "--")
    ensures i + 2 <= |text| && Next(text, i, Top) == (Comment, 2)
  {
    hide TagWidth;
  }

  /** A top-level "--": both lines of modes grow by the two dashes. */
  lemma AdvanceDashes(text: string, i: nat, s: Lexer) returns (s': Lexer)
    requires i < |text| && Aligned(text, i, s, Top) && HasPrefixAt(text, i, "--")
    ensures i + 2 <= |text| && Aligned(text, i + 2, s', Comment) && JustOpened(s')
    ensures SplitterModes(text, i, s) == [Top, Top] + SplitterModes(text, i + 2, s')
    ensures Modes(text, i, Top) == [Top, Top] + Modes(text, i + 2, Comment)
    ensures HasBareComment(text, i, Top)
        == ((i + 2 < |text| && text[i + 2] == '\n') || HasBareComment(text, i + 2, Comment))
  {
    hide After, Next, Modes, SplitterModes, HasBareComment, Aligned, JustOpened, HasPrefixAt, EndsWith, TagWidth;
    NextAtDashes(text, i);
    DashesOpenAComment(text, i, s);
    s' := s.Write("-").Write("-");
    OneDash(text, i, s, s.Write("-"));
    OneDash(text, i + 1, s.Write("-"), s');
    ModesUnfold(text, i, Top, Comment, 2);
    BareUnfold(text, i, Top, Comment, 2);
    assert seq(2, _ => Top) == [Top, Top];
  }

  /** The two lines of modes part exactly where a comment turns out to be bare. */
  lemma {:induction false} ModesFrom(text: string, i: nat, s: Lexer, mode: Mode)
    requires i <= |text| && Aligned(text, i, s, mode)
    requires i < |text| ==> !(JustOpened(s) && text[i] == '\n')
    ensures SplitterModes(text, i, s) == Modes(text, i, mode) <==> !HasBareComment(text, i, mode)
    decreases |text| - i
  {
    hide After, Next;
    if i == |text| {
    } else if mode == Top && HasPrefixAt(text, i, "--") {
      var s' := AdvanceDashes(text, i, s);
      SamePrefix([Top, Top], SplitterModes(text, i + 2, s'), Modes(text, i + 2, Comment));
      if i + 2 < |text| && text[i + 2] == '\n' {
        BareComment(text, i + 2, s');
      } else {
        ModesFrom(text, i + 2, s', Comment);
      }
    } else {
      var s', mode', width := Advance(text, i, s, mode);
      ModesFrom(text, i + width, s', mode');
      SamePrefix(seq(width, _ => mode), SplitterModes(text, i + width, s'), Modes(text, i + width, mode'));
    }
  }

  /** The splitter enters the comment on the very newline that ends it, and so reads on into the next line. */
  lemma BareComment(text: string, i: nat, s: Lexer)
    requires i < |text| && s.Valid() && JustOpened(s) && text[i] == '\n'
    ensures SplitterModes(text, i, s)[1] == Comment
    ensures Modes(text, i, Comment)[1] == Top
  {
    var s' := After(text, i, s).0;
    assert s'.inLineComment;
    FirstMode(text, i + 1, s', Top);
    assert SplitterModes(text, i, s)[1..] == SplitterModes(text, i + 1, s');
    assert Modes(text, i, Comment)[1..] == Modes(text, i + 1, Top);
  }

  /** At every rune the look-back gives the lexer's mode, if and only if no top-level comment is bare. */
  lemma LookBackIsTheLexer(text: string)
    ensures SplitterModes(text, 0, START) == Modes(text, 0, Top) <==> !HasBareComment(text, 0, Top)
  {
    TrailingDashes("");
    ModesFrom(text, 0, START, Top);
  }

  // ----- cuts -----

  /** Runes that are no top-level semicolon are only carried along. */
  lemma {:induction false} CutAtSkips(text: string, modes: seq<Mode>, i: nat, width: nat, current: string)
    requires i + width <= |text| < |modes|
    requires forall k :: i <= k < i + width ==> !(text[k] == ';' && modes[k] == Top)
    ensures CutAt(text, modes, i, current) == CutAt(text, modes, i + width, current + text[i..i + width])
    decreases width
  {
    if width == 0 {
      assert current + text[i..i] == current;
    } else {
      CutAtSkips(text, modes, i + 1, width - 1, current + [text[i]]);
      assert current + [text[i]] + text[i + 1..i + width] == current + text[i..i + width];
    }
  }

  /** A step at a top-level semicolon cuts; any other writes exactly the runes it consumes, none of which is one. */
  predicate Effect(text: string, i: nat, s: Lexer, s': Lexer, width: nat)
    requires i + width <= |text| && 0 < width
  {
    && s'.Valid()
    && if text[i] == ';' && s.Mode() == Top then s'.pieces == s.pieces + [s.current] && s'.current == "" && width == 1
       else
         && s'.pieces == s.pieces
         && s'.current == s.current + text[i..i + width]
         && forall k :: i <= k < i + width ==> !(text[k] == ';' && s.Mode() == Top)
  }

  lemma AfterHasEffect(text: string, i: nat, s: Lexer)
    requires i < |text| && s.Valid()
    ensures Effect(text, i, s, After(text, i, s).0, After(text, i, s).1 + 1)
    ensures After(text, i, s).0.Valid()
  {
    TagWidthIsTheDelimiter(text, i);
    var width := After(text, i, s).1 + 1;
    assert text[i..i + 1] == [text[i]];
    if width > 1 {
      assert DelimiterAt(text, i, i + width);
      DelimiterRunes(text, i, i + width);
    }
  }

  lemma StepEffect(text: string, i: nat, s: Lexer) returns (s': Lexer, width: nat)
    requires i < |text| && s.Valid()
    ensures 0 < width && i + width <= |text|
    ensures Effect(text, i, s, s', width) && s'.Valid()
    ensures Scan(text, i, s) == Scan(text, i + width, s')
    ensures SplitterModes(text, i, s) == seq(width, _ => s.Mode()) + SplitterModes(text, i + width, s')
  {
    hide After, Effect, Scan, SplitterModes, TagWidth;
    AfterHasEffect(text, i, s);
    var consumed: nat := After(text, i, s).1;
    s', width := After(text, i, s).0, consumed + 1;
    ScanUnfold(text, i, s, s', consumed);
    SplitterModesUnfold(text, i, s, s', consumed);
  }

  lemma CutAtCuts(text: string, modes: seq<Mode>, i: nat, current: string)
    requires i < |text| < |modes| && text[i] == ';' && modes[i] == Top
    ensures CutAt(text, modes, i, current) == [current] + CutAt(text, modes, i + 1, "")
  {
  }

  lemma Associate<T>(p: seq<T>, q: seq<T>, r: seq<T>)
    ensures p + (q + r) == (p + q) + r
  {
  }

  lemma CutAtFollows(text: string, modes: seq<Mode>, i: nat, s: Lexer, s': Lexer, width: nat)
    requires 0 < width && i + width <= |text| < |modes|
    requires Effect(text, i, s, s', width)
    requires forall k :: i <= k < i + width ==> modes[k] == s.Mode()
    ensures s.pieces + CutAt(text, modes, i, s.current) == s'.pieces + CutAt(text, modes, i + width, s'.current)
  {
    hide CutAt;
    assert modes[i] == s.Mode();
    if text[i] == ';' && s.Mode() == Top {
      CutAtCuts(text, modes, i, s.current);
      Associate(s.pieces, [s.current], CutAt(text, modes, i + 1, ""));
    } else {
      CutAtSkips(text, modes, i, width, s.current);
    }
  }

  /** Whatever modes the splitter is in, its cuts are the semicolons those modes put at top level. */
  lemma {:induction false} CutsFrom(text: string, i: nat, s: Lexer, modes: seq<Mode>)
    requires i <= |text| < |modes| && s.Valid()
    requires modes[i..] == SplitterModes(text, i, s)
    ensures Scan(text, i, s).Flush().pieces == s.pieces + CutAt(text, modes, i, s.current)
    decreases |text| - i
  {
    hide After, TagWidth;
    if i == |text| {
    } else {
      var s', width := StepEffect(text, i, s);
      forall k | i <= k < i + width
        ensures modes[k] == s.Mode()
      {
        assert modes[k] == modes[i..][k - i];
      }
      CutAtFollows(text, modes, i, s, s', width);
      assert modes[i + width..] == modes[i..][width..];
      CutsFrom(text, i + width, s', modes);
    }
  }

  /** The splitter's pieces are the reference lexer's, on every text without a bare top-level comment. */
  lemma CutsWhereTheLexerDoes(text: string)
    requires !HasBareComment(text, 0, Top)
    ensures RawPieces(text) == Pieces(text)
  {
    LookBackIsTheLexer(text);
    CutsFrom(text, 0, START, Modes(text, 0, Top));
  }

  /** A text of the kind: an empty comment and a semicolon on the next line. */
  predicate IsBare(text: string) {
    text == "--\n;"
  }

  /** The splitter with nothing cut yet, this written, and in a comment or not. */
  function Writing(current: string, inLineComment: bool): Lexer {
    START.(current := current, inLineComment := inLineComment)
  }

  lemma BareDash(text: string, i: nat, current: string)
    requires IsBare(text) && i < 2 && !EndsWith(current, "--")
    ensures After(text, i, Writing(current, false)) == (Writing(current + "-", false), 0)
  {
    hide EndsWith;
    RuneIsWritten(text, i, Writing(current, false));
  }

  lemma BareNewline(text: string, current: string)
    requires IsBare(text) && EndsWith(current, "--")
    ensures After(text, 2, Writing(current, false)) == (Writing(current + "\n", true), 0)
  {
    hide EndsWith, TagWidth;
  }

  lemma BareSemicolon(text: string, current: string)
    requires IsBare(text)
    ensures After(text, 3, Writing(current, true)) == (Writing(current + ";", true), 0)
  {
    hide EndsWith, TagWidth;
  }

  lemma BareCommentScan(text: string)
    requires IsBare(text)
    ensures RawPieces(text) == [text]
  {
    hide After, Scan, EndsWith, TagWidth;
    var d1: string := [text[0]];
    var d2 := d1 + "-";
    TrailingDashes("");
    TrailingDashes(d1);
    TrailingDashes(d2);
    assert "" + "-" == d1;
    BareDash(text, 0, "");
    BareDash(text, 1, d1);
    BareNewline(text, d2);
    BareSemicolon(text, d2 + "\n");
    ScanUnfold(text, 0, START, Writing(d1, false), 0);
    ScanUnfold(text, 1, Writing(d1, false), Writing(d2, false), 0);
    ScanUnfold(text, 2, Writing(d2, false), Writing(d2 + "\n", true), 0);
    ScanUnfold(text, 3, Writing(d2 + "\n", true), Writing(d2 + "\n" + ";", true), 0);
    assert d2 + "\n" + ";" == text;
    ScanEnds(text, Writing(text, true));
  }

  lemma BareCommentLexed(text: string)
    requires IsBare(text)
    ensures HasBareComment(text, 0, Top)
    ensures |Pieces(text)| == 2
  {
    assert HasPrefixAt(text, 0, "--");
    assert Next(text, 0, Top) == (Comment, 2);
    assert Next(text, 2, Comment) == (Top, 1);
    hide Next, TagWidth;
    ModesUnfold(text, 0, Top, Comment, 2);
    ModesUnfold(text, 2, Comment, Top, 1);
    FirstMode(text, 3, START, Top);
    var modes := Modes(text, 0, Top);
    assert modes[2..] == Modes(text, 2, Comment);
    assert modes[3] == modes[2..][1] == Top;
    CutAtSkips(text, modes, 0, 3, "");
    assert CutAt(text, modes, 4, "") == [""];
  }

  /** The bare comment is what the theorem above must exclude: here the cut after it is lost. */
  lemma BareCommentSwallowsACut() returns (text: string)
    ensures text == "--\n;" && HasBareComment(text, 0, Top)
    ensures RawPieces(text) == [text] && |Pieces(text)| == 2
  {
    hide Scan, Pieces, HasBareComment, RawPieces;
    text := "--\n;";
    BareCommentScan(text);
    BareCommentLexed(text);
  }

  // ----- nothing is lost -----

  lemma {:induction false} JoinAppend(parts: seq<string>, last: string, separator: string)
    requires 0 < |parts|
    ensures Join(parts + [last], separator) == Join(parts, separator) + separator + last
  {
    assert (parts + [last])[1..] == parts[1..] + [last];
    if 1 == |parts| {
    } else {
      JoinAppend(parts[1..], last, separator);
    }
  }

  lemma JoinExtendLast(parts: seq<string>, last: string, more: string, separator: string)
    ensures Join(parts + [last + more], separator) == Join(parts + [last], separator) + more
  {
    if parts != [] {
      JoinAppend(parts, last, separator);
      JoinAppend(parts, last + more, separator);
      assert Join(parts, separator) + separator + (last + more) == Join(parts, separator) + separator + last + more;
    }
  }

  lemma {:induction false} NothingLostFrom(text: string, i: nat, s: Lexer)
    requires i <= |text| && s.Valid()
    requires Join(s.pieces + [s.current], ";") == text[..i]
    ensures Join(Scan(text, i, s).Flush().pieces, ";") == text
    decreases |text| - i
  {
    hide After, TagWidth;
    if i < |text| {
      var s', width := StepEffect(text, i, s);
      assert text[..i] + text[i..i + width] == text[..i + width];
      if s'.pieces == s.pieces {
        JoinExtendLast(s.pieces, s.current, text[i..i + width], ";");
      } else {
        JoinAppend(s'.pieces, "", ";");
        assert text[i..i + width] == ";";
      }
      NothingLostFrom(text, i + width, s');
    } else {
      assert text[..i] == text;
    }
  }

  /** The raw pieces, joined by the semicolons that separated them, are the text. */
  lemma NothingIsLost(text: string)
    ensures Join(RawPieces(text), ";") == text
  {
    NothingLostFrom(text, 0, START);
  }

  // ----- splitting composes -----

  /** A tag cannot hold the semicolon, so looking ahead for one never reads past the cut. */
  lemma LookaheadStopsAtTheCut(a: string, b: string, i: nat)
    requires i < |a|
    ensures TagWidth(a + ";" + b, i) == TagWidth(a, i)
  {
    var whole := a + ";" + b;
    var v, w := TagWidth(a, i), TagWidth(whole, i);
    TagWidthIsTheDelimiter(a, i);
    TagWidthIsTheDelimiter(whole, i);
    if v > 0 {
      assert whole[i..i + v] == a[i..i + v];
      assert DelimiterAt(whole, i, i + v);
    } else if w > 0 {
      DelimiterRunes(whole, i, i + w);
      assert whole[|a|] == ';';
      assert i + w <= |a|;
      assert whole[i..i + w] == a[i..i + w];
      assert DelimiterAt(a, i, i + w);
    }
  }

  lemma LookaheadAfterTheCut(a: string, b: string, j: nat)
    requires j < |b|
    ensures TagWidth(a + ";" + b, |a| + 1 + j) == TagWidth(b, j)
  {
    var whole, i := a + ";" + b, |a| + 1 + j;
    var v, w := TagWidth(whole, i), TagWidth(b, j);
    TagWidthIsTheDelimiter(whole, i);
    TagWidthIsTheDelimiter(b, j);
    assert whole[i..i + v] == b[j..j + v];
    assert whole[i..i + w] == b[j..j + w];
    if v > 0 {
      assert DelimiterAt(b, j, j + v);
    } else if w > 0 {
      assert DelimiterAt(whole, i, i + w);
    }
  }

  lemma SameStep(text: string, i: nat, other: string, j: nat, s: Lexer)
    requires i < |text| && j < |other|
    requires text[i] == other[j] && TagWidth(text, i) == TagWidth(other, j)
    requires text[i..i + TagWidth(text, i)] == other[j..j + TagWidth(other, j)]
    ensures After(text, i, s) == After(other, j, s)
  {
  }

  lemma {:induction false} ScanUpToTheCut(a: string, b: string, i: nat, s: Lexer)
    requires i <= |a| && s.Valid()
    ensures Scan(a, i, s).Valid()
    ensures Scan(a + ";" + b, i, s) == Scan(a + ";" + b, |a|, Scan(a, i, s))
    decreases |a| - i
  {
    hide After, TagWidth;
    if i == |a| {
    } else {
      var whole := a + ";" + b;
      LookaheadStopsAtTheCut(a, b, i);
      assert whole[i..i + TagWidth(a, i)] == a[i..i + TagWidth(a, i)];
      SameStep(whole, i, a, i, s);
      AfterHasEffect(a, i, s);
      var consumed: nat := After(a, i, s).1;
      var s' := After(a, i, s).0;
      ScanUnfold(a, i, s, s', consumed);
      ScanUnfold(whole, i, s, s', consumed);
      ScanUpToTheCut(a, b, i + consumed + 1, s');
    }
  }

  lemma SameStepAfterTheCut(a: string, b: string, j: nat, s: Lexer)
    requires j < |b|
    ensures After(a + ";" + b, |a| + 1 + j, s) == After(b, j, s)
  {
    var whole, i := a + ";" + b, |a| + 1 + j;
    LookaheadAfterTheCut(a, b, j);
    assert whole[i..i + TagWidth(b, j)] == b[j..j + TagWidth(b, j)];
    SameStep(whole, i, b, j, s);
  }

  lemma StepOf(text: string, i: nat, s: Lexer) returns (s': Lexer, width: nat)
    requires i < |text|
    ensures 0 < width && i + width <= |text| && After(text, i, s) == (s', width - 1)
    ensures Scan(text, i, s) == Scan(text, i + width, s')
  {
    var consumed: nat := After(text, i, s).1;
    s', width := After(text, i, s).0, consumed + 1;
    ScanUnfold(text, i, s, s', consumed);
  }

  lemma {:induction false} ScanAfterTheCut(a: string, b: string, j: nat, s: Lexer)
    requires j <= |b|
    ensures Scan(a + ";" + b, |a| + 1 + j, s) == Scan(b, j, s)
    decreases |b| - j
  {
    hide After, TagWidth;
    if j == |b| {
    } else {
      var s', width := StepOf(b, j, s);
      SameStepAfterTheCut(a, b, j, s);
      var whole := a + ";" + b;
      ScanUnfold(whole, |a| + 1 + j, s, s', width - 1);
      ScanAfterTheCut(a, b, j + width, s');
    }
  }

  lemma AfterKeepsEarlier(text: string, i: nat, s: Lexer, earlier: seq<string>)
    requires i < |text|
    ensures After(text, i, s.(pieces := earlier + s.pieces)).1 == After(text, i, s).1
    ensures var s' := After(text, i, s).0;
            After(text, i, s.(pieces := earlier + s.pieces)).0 == s'.(pieces := earlier + s'.pieces)
  {
    assert earlier + (s.pieces + [s.current]) == earlier + s.pieces + [s.current];
  }

  /** Statements already cut play no part in what follows. */
  lemma {:induction false} ScanKeepsEarlier(text: string, i: nat, s: Lexer, earlier: seq<string>)
    requires i <= |text|
    ensures var end := Scan(text, i, s);
            Scan(text, i, s.(pieces := earlier + s.pieces)) == end.(pieces := earlier + end.pieces)
    decreases |text| - i
  {
    hide After, TagWidth;
    if i == |text| {
    } else {
      AfterKeepsEarlier(text, i, s, earlier);
      var consumed: nat := After(text, i, s).1;
      var s' := After(text, i, s).0;
      ScanUnfold(text, i, s, s', consumed);
      ScanUnfold(text, i, s.(pieces := earlier + s.pieces), s'.(pieces := earlier + s'.pieces), consumed);
      ScanKeepsEarlier(text, i + consumed + 1, s', earlier);
    }
  }

  lemma PrefixFollows(text: string, i: nat, s: Lexer, s': Lexer, width: nat, pieces: seq<string>)
    requires 0 < width && i + width <= |text| && Effect(text, i, s, s', width)
    requires |s'.pieces| < |pieces| && s'.current <= pieces[|s'.pieces|] && s'.pieces <= pieces
    ensures |s.pieces| < |pieces| && s.current <= pieces[|s.pieces|] && s.pieces <= pieces
  {
    if s'.pieces != s.pieces {
      assert pieces[|s.pieces|] == s'.pieces[|s.pieces|] == s.current;
    }
  }

  /** The statement in hand only ever grows until it is cut. */
  lemma {:induction false} CurrentIsAPrefix(text: string, i: nat, s: Lexer)
    requires i <= |text| && s.Valid()
    ensures var pieces := Scan(text, i, s).Flush().pieces;
            |s.pieces| < |pieces| && s.current <= pieces[|s.pieces|] && s.pieces <= pieces
    decreases |text| - i
  {
    hide After, TagWidth, Effect;
    if i == |text| {
    } else {
      var s', width := StepEffect(text, i, s);
      CurrentIsAPrefix(text, i + width, s');
      PrefixFollows(text, i, s, s', width, Scan(text, i, s).Flush().pieces);
    }
  }

  lemma CutAtTop(a: string, b: string, s: Lexer)
    requires s.Valid() && s.Mode() == Top
    ensures Scan(a + ";" + b, |a|, s).Flush().pieces == s.pieces + [s.current] + RawPieces(b)
  {
    var whole := a + ";" + b;
    assert whole[|a|] == ';';
    assert After(whole, |a|, s) == (s.Flush(), 0);
    ScanUnfold(whole, |a|, s, s.Flush(), 0);
    ScanAfterTheCut(a, b, 0, s.Flush());
    var earlier := s.pieces + [s.current];
    assert s.Flush() == START.(pieces := earlier + START.pieces);
    ScanKeepsEarlier(b, 0, START, earlier);
    var end := Scan(b, 0, START);
    assert earlier + end.pieces + [end.current] == earlier + (end.pieces + [end.current]);
  }

  /**
   Splitting two texts apart at a semicolon is splitting each, if and only if the first ends at top level:
   in no quote, no dollar quote, no comment and not in "--".
   */
  lemma SplittingComposes(a: string, b: string)
    ensures RawPieces(a + ";" + b) == RawPieces(a) + RawPieces(b) <==> Scan(a, 0, START).Mode() == Top
  {
    hide After, Scan, TagWidth;
    var whole, s := a + ";" + b, Scan(a, 0, START);
    ScanUpToTheCut(a, b, 0, START);
    if s.Mode() == Top {
      CutAtTop(a, b, s);
    } else {
      var s', width := StepEffect(whole, |a|, s);
      CurrentIsAPrefix(whole, |a| + width, s');
      assert |s'.current| > |s.current|;
      assert (RawPieces(a) + RawPieces(b))[|s.pieces|] == s.current;
    }
  }

  /** For a text without bare comments, ending at top level means what the reference lexer says it means. */
  lemma EndsWhereTheLexerDoes(a: string)
    requires !HasBareComment(a, 0, Top)
    ensures Scan(a, 0, START).Mode() == Modes(a, 0, Top)[|a|]
  {
    LookBackIsTheLexer(a);
    LastMode(a, 0, START);
  }

  lemma {:induction false} LastMode(text: string, i: nat, s: Lexer)
    requires i <= |text| && s.Valid()
    ensures SplitterModes(text, i, s)[|text| - i] == Scan(text, i, s).Mode()
    decreases |text| - i
  {
    hide After;
    if i == |text| {
    } else {
      var s', width := StepEffect(text, i, s);
      LastMode(text, i + width, s');
    }
  }

  // ----- statements -----

  lemma {:induction false} StatementsCompose(p: seq<string>, q: seq<string>)
    ensures Statements(p + q) == Statements(p) + Statements(q)
  {
    hide Strip;
    if p == [] {
      assert p + q == q;
    } else {
      assert (p + q)[1..] == p[1..] + q;
      StatementsCompose(p[1..], q);
    }
  }

  /** Two migrations, the first ending at top level, run as one exactly as they run apart. */
  lemma MigrationsCompose(a: string, b: string)
    requires Scan(a, 0, START).Mode() == Top
    ensures Statements(RawPieces(a + ";" + b)) == Statements(RawPieces(a)) + Statements(RawPieces(b))
  {
    SplittingComposes(a, b);
    StatementsCompose(RawPieces(a), RawPieces(b));
  }

  lemma {:induction false} TrimRightBlank(s: string)
    ensures TrimRight(s) == "" <==> forall k :: 0 <= k < |s| ==> IsSpace(s[k])
  {
    if s != "" && IsSpace(s[|s| - 1]) {
      TrimRightBlank(s[..|s| - 1]);
    }
  }

  lemma {:induction false} TrimBlank(s: string)
    ensures TrimSpace(s) == "" <==> forall k :: 0 <= k < |s| ==> IsSpace(s[k])
  {
    if s != "" && IsSpace(s[0]) {
      TrimBlank(s[1..]);
    } else {
      TrimRightBlank(s);
    }
  }

  lemma JoinHoldsFirst(parts: seq<string>, separator: string)
    requires 0 < |parts|
    ensures parts[0] <= Join(parts, separator)
  {
  }

  predicate AllIdle(lines: seq<string>) {
    forall n :: 0 <= n < |lines| ==> IsIdle(lines[n])
  }

  lemma {:induction false} KeptLinesAreNotIdle(lines: seq<string>)
    ensures KeptLines(lines) == [] <==> AllIdle(lines)
    ensures forall n :: 0 <= n < |KeptLines(lines)| ==> !IsIdle(KeptLines(lines)[n])
  {
    if lines == [] {
    } else {
      KeptLinesAreNotIdle(lines[1..]);
    }
  }

  /** A piece is dropped exactly when every one of its lines is blank or a comment. */
  lemma DroppedIffIdle(piece: string)
    ensures Strip(piece) == "" <==> AllIdle(Lines(piece))
  {
    var lines := Lines(piece);
    var kept := KeptLines(lines);
    KeptLinesAreNotIdle(lines);
    TrimBlank(Join(kept, "\n"));
    if kept != [] {
      JoinHoldsFirst(kept, "\n");
      TrimBlank(kept[0]);
      assert !IsIdle(kept[0]);
      var k :| 0 <= k < |kept[0]| && !IsSpace(kept[0][k]);
      assert Join(kept, "\n")[k] == kept[0][k];
      assert Strip(piece) != "";
    } else {
      assert Join(kept, "\n") == "";
    }
  }
}
