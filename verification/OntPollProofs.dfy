/**
 A page of rows told on the maps the walks gave. A page is what each of its rows makes it, and a row follows what was
 reported at its own port and number, on its own card when that is known.
 */
module OntPollProofs {
  import opened Locations
  import opened OntPoll
  import opened Options

  /** What was read at a location may be this row's. */
  predicate MayBe(loc: Location, ont: Ont) {
    && loc.port == ont.port && loc.ont == ont.ont
    && (ont.slot.Some? ==> loc.slot == ont.slot.value)
  }

  /** The page does nothing at all for this row. */
  predicate LeftAlone(reading: Reading, ont: Ont)
    reads reading
  {
    && reading.WritesFor([ont]) == [] && reading.ChangesFor([ont]) == [] && reading.SamplesFor([ont]) == []
    && reading.SkippedIn([ont]) == 1
  }

  /** The page notes this status for the row, and writes it exactly if the row holds another. */
  predicate Becomes(reading: Reading, ont: Ont, status: Status)
    reads reading
  {
    && reading.WritesFor([ont]) == (if ont.status == status then [] else [Write(ont.id, status)])
    && reading.ChangesFor([ont]) == [Write(ont.id, status)]
  }

  predicate KeepsItsStatus(reading: Reading, ont: Ont)
    reads reading
  {
    reading.WritesFor([ont]) == [] && reading.ChangesFor([ont]) == []
  }

  /** A page in two parts is the one part and then the other. */
  lemma {:induction false} PagesCompose(reading: Reading, p: seq<Ont>, q: seq<Ont>)
    ensures reading.WritesFor(p + q) == reading.WritesFor(p) + reading.WritesFor(q)
    ensures reading.ChangesFor(p + q) == reading.ChangesFor(p) + reading.ChangesFor(q)
    ensures reading.SamplesFor(p + q) == reading.SamplesFor(p) + reading.SamplesFor(q)
    ensures reading.SkippedIn(p + q) == reading.SkippedIn(p) + reading.SkippedIn(q)
  {
    hide Reading.WriteFor, Reading.ChangeFor, Reading.SampleFor, Reading.Skipped;
    if q == [] {
      assert p + q == p;
    } else {
      var last := |q| - 1;
      assert (p + q)[..|p + q| - 1] == p + q[..last];
      PagesCompose(reading, p, q[..last]);
    }
  }

  lemma OneRow(reading: Reading, ont: Ont)
    ensures reading.WritesFor([ont]) == reading.WriteFor(ont)
    ensures reading.ChangesFor([ont]) == reading.ChangeFor(ont)
    ensures reading.SamplesFor([ont]) == reading.SampleFor(ont)
    ensures reading.SkippedIn([ont]) == if reading.Skipped(ont) then 1 else 0
  {
    hide Reading.WriteFor, Reading.ChangeFor, Reading.SampleFor, Reading.Skipped;
    NoRows(reading);
    OneMoreRow(reading, [ont], 0);
    assert [ont][..1] == [ont] && [ont][..0] == [];
  }

  /** After a good walk a row is passed over exactly when nothing was walked at its port and number. */
  lemma UnnamedRowIsLeftAlone(reading: Reading, ont: Ont)
    requires reading.Valid()
    ensures reading.SkippedIn([ont]) == 1 <==>
              reading.statusWalkOK
              && forall loc :: loc in reading.statuses ==> !(loc.port == ont.port && loc.ont == ont.ont)
    ensures reading.SkippedIn([ont]) <= 1
    ensures reading.SkippedIn([ont]) == 1 ==> LeftAlone(reading, ont)
  {
    OneRow(reading, ont);
    assert forall loc :: loc in reading.statuses && loc.port == ont.port && loc.ont == ont.ont ==>
                           At(loc) == Position(ont.port, ont.ont);
  }

  /** The state a row is judged by is one reported for it. */
  lemma StateComesFrom(reading: Reading, ont: Ont) returns (loc: Option<Location>)
    requires reading.Valid()
    ensures loc.None? ==> forall l :: l in reading.statuses ==> !MayBe(l, ont)
    ensures loc.Some? ==> loc.value in reading.statuses && MayBe(loc.value, ont)
    ensures reading.RunStateFor(ont) == if loc.Some? then Some(reading.statuses[loc.value]) else None
    ensures loc.Some? ==> !reading.Skipped(ont)
  {
    var p := Position(ont.port, ont.ont);
    assert forall l :: l in reading.statuses && MayBe(l, ont) ==> At(l) == p;
    if ont.slot.Some? {
      var l := Location(ont.slot.value, ont.port, ont.ont);
      loc := if l in reading.statuses then Some(l) else None;
    } else if p in reading.statusPositions {
      var l :| l in reading.statuses && At(l) == p && reading.statusPositions[p] == reading.statuses[l];
      loc := Some(l);
    } else {
      loc := None;
    }
  }

  /** So is the reading. */
  lemma MetricsComeFrom(reading: Reading, ont: Ont) returns (loc: Option<Location>)
    requires reading.Valid()
    ensures loc.None? ==> forall l :: l in reading.Rows() ==> !MayBe(l, ont)
    ensures loc.Some? ==> loc.value in reading.Rows() && MayBe(loc.value, ont)
    ensures reading.MatchMetrics(ont)
         == if loc.Some? then Some(Located(reading.Rows()[loc.value], loc.value.slot)) else None
  {
    var p := Position(ont.port, ont.ont);
    assert forall l :: l in reading.Rows() && MayBe(l, ont) ==> At(l) == p;
    if ont.slot.Some? {
      var l := Location(ont.slot.value, ont.port, ont.ont);
      loc := if l in reading.Rows() then Some(l) else None;
    } else if p in reading.metricsPositions {
      var l :| l in reading.Rows() && At(l) == p
               && reading.metricsPositions[p] == Located(reading.Rows()[l], l.slot);
      loc := Some(l);
    } else {
      loc := None;
    }
  }

  /**
   A row not passed over: of the states reported for it and the readings taken of it one each counts. The states 3, 6,
   1 and 4 are verdicts; without one, light received means online; without that the row keeps its status. A sample is
   taken whenever this cycle reads metrics at all.
   */
  lemma RowFollowsItsReport(reading: Reading, ont: Ont) returns (state: Option<Location>, taken: Option<Location>)
    requires reading.Valid() && reading.SkippedIn([ont]) == 0
    ensures state.Some? ==> state.value in reading.statuses && MayBe(state.value, ont)
    ensures state.None? ==> forall loc :: loc in reading.statuses ==> !MayBe(loc, ont)
    ensures taken.Some? ==> reading.metrics.Some? && taken.value in reading.metrics.value && MayBe(taken.value, ont)
    ensures taken.None? && reading.metrics.Some? ==> forall loc :: loc in reading.metrics.value ==> !MayBe(loc, ont)
    ensures state.Some? ==>
              var number := reading.statuses[state.value];
              && (number == 3 ==> Becomes(reading, ont, Online))
              && (number == 6 ==> Becomes(reading, ont, Offline))
              && (number == 1 ==> Becomes(reading, ont, LOS))
              && (number == 4 ==> Becomes(reading, ont, DyingGasp))
    ensures state.None? || reading.statuses[state.value] !in [1, 3, 4, 6] ==>
              if taken.Some? && reading.metrics.value[taken.value].rxPower.Some? then Becomes(reading, ont, Online)
              else KeepsItsStatus(reading, ont)
    ensures reading.SamplesFor([ont])
         == if reading.metrics.None? then []
            else [Sample(ont.id, if taken.Some? then Some(reading.metrics.value[taken.value]) else None)]
  {
    OneRow(reading, ont);
    state := StateComesFrom(reading, ont);
    taken := MetricsComeFrom(reading, ont);
    hide Reading.RunStateFor, Reading.MatchMetrics, Reading.Skipped;
  }

  /** Where every state reported for a row is the same, that one is it; a known card always makes it so. */
  lemma OneStateDecides(reading: Reading, ont: Ont, loc: Location)
    requires reading.Valid() && loc in reading.statuses && MayBe(loc, ont)
    requires ont.slot.Some?
             || forall l :: l in reading.statuses && MayBe(l, ont) ==> reading.statuses[l] == reading.statuses[loc]
    ensures reading.SkippedIn([ont]) == 0
    ensures reading.statuses[loc] == 3 ==> Becomes(reading, ont, Online)
    ensures reading.statuses[loc] == 6 ==> Becomes(reading, ont, Offline)
    ensures reading.statuses[loc] == 1 ==> Becomes(reading, ont, LOS)
    ensures reading.statuses[loc] == 4 ==> Becomes(reading, ont, DyingGasp)
  {
    UnnamedRowIsLeftAlone(reading, ont);
    OneRow(reading, ont);
    hide Reading.SkippedIn, Reading.Skipped, Becomes;
    var state, _ := RowFollowsItsReport(reading, ont);
    assert ont.slot.Some? ==> state.value == loc;
  }
}
