/** Splitting text into lines, joining it again and cutting it in two, as Go's strings package does. */
module Text {
  import opened Options

  /** strings.Split on a newline: never empty. */
  function Lines(s: string): (lines: seq<string>)
    ensures 0 < |lines|
  {
    if s == "" then [""]
    else
      var rest := Lines(s[1..]);
      if s[0] == '\n' then [""] + rest else [[s[0]] + rest[0]] + rest[1..]
  }

  function Join(parts: seq<string>, separator: string): string {
    if |parts| == 0 then ""
    else if |parts| == 1 then parts[0]
    else parts[0] + separator + Join(parts[1..], separator)
  }

  /** Splitting and joining again gives the text back. */
  lemma {:induction false} JoinedLines(s: string)
    ensures Join(Lines(s), "\n") == s
  {
    if s == "" {
    } else {
      JoinedLines(s[1..]);
      var rest := Lines(s[1..]);
      if s[0] == '\n' {
        assert Lines(s)[1..] == rest;
      } else {
        assert Lines(s)[1..] == rest[1..];
      }
    }
  }

  lemma {:induction false} LinesOfFirst(line: string, rest: string)
    requires '\n' !in line
    ensures Lines(line + "\n" + rest) == [line] + Lines(rest)
  {
    var s := line + "\n" + rest;
    if line == "" {
      assert s[1..] == rest;
    } else {
      assert s[1..] == line[1..] + "\n" + rest;
      LinesOfFirst(line[1..], rest);
      assert [line[0]] + line[1..] == line;
    }
  }

  lemma {:induction false} LinesOfOne(line: string)
    requires '\n' !in line
    ensures Lines(line) == [line]
  {
    if line == "" {
    } else {
      LinesOfOne(line[1..]);
      assert [line[0]] + line[1..] == line;
    }
  }

  /** Lines joined by newlines are found again. */
  lemma {:induction false} LinesOfJoined(lines: seq<string>)
    requires lines != [] && forall n :: 0 <= n < |lines| ==> '\n' !in lines[n]
    ensures Lines(Join(lines, "\n")) == lines
  {
    if |lines| == 1 {
      LinesOfOne(lines[0]);
    } else {
      LinesOfFirst(lines[0], Join(lines[1..], "\n"));
      LinesOfJoined(lines[1..]);
    }
  }

  /** strings.Cut at the first separator. */
  function Cut<T(==)>(s: seq<T>, separator: T): (cut: (seq<T>, Option<seq<T>>))
    ensures separator !in cut.0
    ensures s == if cut.1.Some? then cut.0 + [separator] + cut.1.value else cut.0
  {
    if s == [] then ([], None)
    else if s[0] == separator then ([], Some(s[1..]))
    else
      var rest := Cut(s[1..], separator);
      ([s[0]] + rest.0, rest.1)
  }

  lemma {:induction false} CutAtSeparator<T>(a: seq<T>, separator: T, b: seq<T>)
    requires separator !in a
    ensures Cut(a + [separator] + b, separator) == (a, Some(b))
  {
    var s := a + [separator] + b;
    if a == [] {
      assert s[1..] == b;
    } else {
      assert s[1..] == a[1..] + [separator] + b;
      CutAtSeparator(a[1..], separator, b);
      assert [a[0]] + a[1..] == a;
    }
  }

  lemma {:induction false} CutWithoutSeparator<T>(a: seq<T>, separator: T)
    requires separator !in a
    ensures Cut(a, separator) == (a, None)
  {
    if a == [] {
    } else {
      CutWithoutSeparator(a[1..], separator);
      assert [a[0]] + a[1..] == a;
    }
  }
}
