/** What a trap says and of whom, told on its texts. */
module OntTrapTexts {
  import opened Options
  import opened OntPoll
  import opened OntTraps
  import opened Text

  /** A field of the community that names a level starts here. */
  predicate LevelStarts(community: string, p: int) {
    && 0 <= p <= |community| && (p == 0 || community[p - 1] == '@')
    && "eventLevel=" <= community[p..]
  }

  lemma {:induction false} FieldsFirst(front: string, rest: string)
    requires '@' !in front
    ensures Fields(front) == [front]
    ensures Fields(front + "@" + rest) == [front] + Fields(rest)
  {
    var s := front + "@" + rest;
    if front == "" {
      assert s[1..] == rest;
    } else {
      assert s[1..] == front[1..] + "@" + rest;
      FieldsFirst(front[1..], rest);
      assert [front[0]] + front[1..] == front;
    }
  }

  /** The prefix has no separator in it, so it lies within the first field if the text begins with it. */
  lemma LabelIsInTheField(prefix: string, front: string, community: string, back: Option<string>)
    requires '@' !in prefix && community == if back.Some? then front + "@" + back.value else front
    ensures prefix <= community <==> prefix <= front
  {
    if prefix <= community {
      assert forall k :: 0 <= k < |prefix| ==> prefix[k] == community[k] && community[k] != '@';
      assert back.Some? ==> community[|front|] == '@';
      assert prefix == community[..|prefix|] == front[..|prefix|];
    }
    if prefix <= front {
      assert prefix == front[..|prefix|] == community[..|prefix|];
    }
  }

  lemma LaterStart(front: string, rest: string, p: int)
    requires '@' !in front
    ensures |front| < p ==>
              (LevelStarts(front + "@" + rest, p) <==> LevelStarts(rest, p - |front| - 1))
    ensures 0 < p <= |front| ==> !LevelStarts(front + "@" + rest, p) && !LevelStarts(front, p)
  {
    var community := front + "@" + rest;
    var q := p - |front| - 1;
    if 0 <= q <= |rest| {
      assert community[p..] == rest[q..];
      assert q > 0 ==> community[p - 1] == rest[q - 1];
    }
    if 0 < p <= |front| {
      assert community[p - 1] == front[p - 1];
    }
  }

  /** The level is the text of the field, up to the next separator. */
  predicate LevelIs(community: string, p: int, level: string)
    requires LevelStarts(community, p)
  {
    var rest := community[p + 11..];
    '@' !in level && (rest == level || level + "@" <= rest)
  }

  lemma LevelOfTheField(front: string, rest: string, prefix: string)
    requires '@' !in front && prefix <= front
    ensures (front + "@" + rest)[|prefix|..] == front[|prefix|..] + "@" + rest
  {
  }

  lemma LevelIsCutOff(text: string, level: string)
    requires '@' !in level && (text == level || level + "@" <= text)
    ensures Cut(text, '@').0 == level
  {
    if text == level {
      CutWithoutSeparator(level, '@');
    } else {
      assert text == level + "@" + text[|level| + 1..];
      hide Cut;
      CutAtSeparator(level, '@', text[|level| + 1..]);
    }
  }

  /** Only one text is the level. */
  lemma OneLevel(community: string, p: int, level: string, other: string)
    requires LevelStarts(community, p) && LevelIs(community, p, level) && LevelIs(community, p, other)
    ensures level == other
  {
    hide Cut;
    LevelIsCutOff(community[p + 11..], level);
    LevelIsCutOff(community[p + 11..], other);
  }

  lemma FirstLevelOf(field: string, fields: seq<string>)
    ensures FirstLevel([field] + fields)
         == if "eventLevel=" <= field then field[11..] else FirstLevel(fields)
  {
    assert ([field] + fields)[1..] == fields;
  }

  predicate FirstStarts(community: string, p: int) {
    LevelStarts(community, p) && forall q :: 0 <= q < p ==> !LevelStarts(community, q)
  }

  lemma LaterIsFirst(front: string, rest: string, p: int)
    requires |front| < p && FirstStarts(front + "@" + rest, p)
    requires forall q :: LevelStarts(rest, q) ==> LevelStarts(front + "@" + rest, |front| + 1 + q)
    requires LevelStarts(rest, p - |front| - 1)
    ensures FirstStarts(rest, p - |front| - 1)
    ensures forall level :: LevelIs(rest, p - |front| - 1, level) ==> LevelIs(front + "@" + rest, p, level)
  {
    var community, from := front + "@" + rest, p - |front| - 1;
    assert community[p + 11..] == rest[from + 11..];
    hide LevelStarts;
    forall q | 0 <= q < from
      ensures !LevelStarts(rest, q)
    {
      assert LevelStarts(rest, q) ==> LevelStarts(community, |front| + 1 + q);
    }
  }

  /** The first field of a text, and what is behind it. */
  lemma FirstField(community: string) returns (front: string, back: Option<string>)
    ensures '@' !in front && community == if back.Some? then front + "@" + back.value else front
    ensures Fields(community) == [front] + if back.Some? then Fields(back.value) else []
  {
    front, back := Cut(community, '@').0, Cut(community, '@').1;
    FieldsFirst(front, if back.Some? then back.value else "");
  }

  lemma OwnLevel(community: string, front: string, back: Option<string>)
    requires '@' !in front && community == if back.Some? then front + "@" + back.value else front
    ensures if "eventLevel=" <= front then LevelStarts(community, 0) && LevelIs(community, 0, front[11..])
            else forall p :: 0 <= p <= |front| ==> !LevelStarts(community, p)
  {
    LabelIsInTheField("eventLevel=", front, community, back);
    assert community[0..] == community;
    forall p | 0 < p <= |front|
      ensures !LevelStarts(community, p)
    {
      LaterStart(front, if back.Some? then back.value else "", p);
    }
    if "eventLevel=" <= front && back.Some? {
      LevelOfTheField(front, back.value, "eventLevel=");
    }
  }

  /** The level of the text is that of its first field, or that of what is behind it. */
  lemma LevelStep(community: string, front: string, back: Option<string>)
    requires Fields(community) == [front] + if back.Some? then Fields(back.value) else []
    ensures "eventLevel=" <= front ==> FirstLevel(Fields(community)) == front[11..]
    ensures !("eventLevel=" <= front) ==>
              FirstLevel(Fields(community)) == if back.Some? then FirstLevel(Fields(back.value)) else ""
  {
    FirstLevelOf(front, if back.Some? then Fields(back.value) else []);
  }

  lemma {:induction false} NoLevelNoSeverity(community: string)
    requires forall p :: 0 <= p <= |community| ==> !LevelStarts(community, p)
    ensures FirstLevel(Fields(community)) == ""
    decreases |community|
  {
    var front, back := FirstField(community);
    hide Fields, FirstLevel;
    OwnLevel(community, front, back);
    LevelStep(community, front, back);
    if back.Some? {
      forall q | 0 <= q <= |back.value|
        ensures !LevelStarts(back.value, q)
      {
        LaterStart(front, back.value, |front| + 1 + q);
      }
      hide LevelStarts;
      NoLevelNoSeverity(back.value);
    }
  }

  /** The severity is the level of the first field to name one; if none does it is empty. */
  lemma {:induction false} SeverityIsTheFirstLevel(community: string, p: int)
    requires FirstStarts(community, p)
    ensures LevelIs(community, p, FirstLevel(Fields(community)))
    decreases |community|
  {
    var front, back := FirstField(community);
    hide Fields, FirstLevel;
    OwnLevel(community, front, back);
    LevelStep(community, front, back);
    if !("eventLevel=" <= front) {
      assert |front| < p;
      assert back.Some?;
      forall q: int
        ensures LevelStarts(back.value, q) ==> LevelStarts(community, |front| + 1 + q)
      {
        LaterStart(front, back.value, |front| + 1 + q);
      }
      LaterStart(front, back.value, p);
      LaterIsFirst(front, back.value, p);
      SeverityIsTheFirstLevel(back.value, p - |front| - 1);
    }
  }

  // ----- what it means -----

  /** Of ONU traps only: cleared means up, critical and major mean down, and anything else says nothing. */
  lemma TrapStatusIs(oid: string, severity: string)
    ensures var family := "1.3.6.1.4.1.3902.1082.500.10.3.1.";
            TrapStatus(oid, severity) ==
              if !(family <= oid || "." + family <= oid) then None
              else if severity == "cleared" then Some(Online)
              else if severity == "critical" || severity == "major" then Some(Offline)
              else None
  {
    var family := "1.3.6.1.4.1.3902.1082.500.10.3.1.";
    if "." <= oid {
      assert oid == "." + oid[1..];
      assert !(family <= oid) by {
        assert oid[0] == '.' && family[0] == '1';
      }
      if family <= oid[1..] {
        assert oid[1..][..|family|] == family;
      }
      if "." + family <= oid {
        assert oid[1..|family| + 1] == family;
      }
    }
  }

  lemma WorthWritingIs(current: Status, reported: Status)
    ensures WorthWriting(current, reported) <==> (current == Online) != (reported == Online)
  {
  }

  /** A trap names the first row of its OLT with its serial number. */
  lemma {:induction false} NamedIsTheFirst(rows: seq<Subscriber>, trap: Trap, n: nat)
    ensures Named(rows, trap) == Some(n) <==>
              && n < |rows| && rows[n].oltId == trap.oltId && rows[n].serial == trap.serial
              && forall k :: 0 <= k < n ==> !(rows[k].oltId == trap.oltId && rows[k].serial == trap.serial)
  {
    if rows != [] && n != 0 {
      NamedIsTheFirst(rows[1..], trap, n - 1);
      assert n < |rows| ==> rows[n] == rows[1..][n - 1];
      if forall k :: 0 <= k < n ==> k < |rows| && !(rows[k].oltId == trap.oltId && rows[k].serial == trap.serial) {
        assert forall k :: 0 <= k < n - 1 && k < |rows| - 1 ==> rows[1..][k] == rows[k + 1];
      }
    }
  }
}
