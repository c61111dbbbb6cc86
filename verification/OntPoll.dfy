/**
 One cycle's reading of an OLT applied to a page of ONT rows. A status is written only on evidence: a phase state the
 walk reported for that very ONT, or light received from it.
 */
module OntPoll {
  import opened Locations
  import opened Options

  datatype Status = Online | Offline | LOS | DyingGasp | Unknown

  /** What the phase states mean; any other is one the ONU only passes through. */
  function Mapped(runState: int): Status {
    match runState
    case 3 => Online
    case 6 => Offline
    case 1 => LOS
    case 4 => DyingGasp
    case _ => Unknown
  }

  datatype Metrics = Metrics(rxPower: Option<real>, distance: int)

  /** An ONT row; one registered before its OLT reported cards has no slot yet. */
  datatype Ont = Ont(id: nat, slot: Option<int>, port: int, ont: int, status: Status)

  datatype Position = Position(port: int, ont: int)

  function At(loc: Location): Position {
    Position(loc.port, loc.ont)
  }

  datatype Located = Located(metrics: Metrics, slot: int)

  // ----- the position indexes -----

  /** The index knows exactly the positions the walk named, each with a state the walk reported there. */
  predicate IndexesStatuses(index: map<Position, int>, statuses: map<Location, int>) {
    && (forall loc :: loc in statuses ==> At(loc) in index)
    && (forall p :: p in index ==> exists loc :: loc in statuses && At(loc) == p && index[p] == statuses[loc])
  }

  predicate IndexesMetrics(index: map<Position, Located>, metrics: map<Location, Metrics>) {
    && (forall loc :: loc in metrics ==> At(loc) in index)
    && (forall p :: p in index ==>
          exists loc :: loc in metrics && At(loc) == p && index[p] == Located(metrics[loc], loc.slot))
  }

  class Reading {
    var statuses: map<Location, int>
    var statusWalkOK: bool
    /** None when this tier does not read metrics. */
    var metrics: Option<map<Location, Metrics>>
    var statusPositions: map<Position, int>
    var metricsPositions: map<Position, Located>

    ghost predicate Valid()
      reads this
    {
      && (!statusWalkOK ==> statuses == map[])
      && IndexesStatuses(statusPositions, statuses)
      && IndexesMetrics(metricsPositions, Rows())
    }

    function Rows(): map<Location, Metrics>
      reads this
    {
      if metrics.Some? then metrics.value else map[]
    }

    /** `walked` is None when the walk failed. */
    constructor (walked: Option<map<Location, int>>, metrics: Option<map<Location, Metrics>>)
      ensures Valid()
      ensures statusWalkOK == walked.Some? && statuses == (if walked.Some? then walked.value else map[])
      ensures this.metrics == metrics
    {
      statuses := if walked.Some? then walked.value else map[];
      statusWalkOK := walked.Some?;
      this.metrics := metrics;
      statusPositions, metricsPositions := map[], map[];
      new;
      Index();
    }

    /** The maps are visited in any order: the last state written for a position stays, and the first metrics. */
    method Index()
      modifies this`statusPositions, this`metricsPositions
      ensures IndexesStatuses(statusPositions, statuses)
      ensures IndexesMetrics(metricsPositions, Rows())
    {
      statusPositions := map[];
      var left := statuses.Keys;
      while left != {}
        invariant left <= statuses.Keys
        invariant forall loc :: loc in statuses && loc !in left ==> At(loc) in statusPositions
        invariant forall p :: p in statusPositions ==>
                    exists loc :: loc in statuses && At(loc) == p && statusPositions[p] == statuses[loc]
        decreases left
      {
        var loc :| loc in left;
        left := left - {loc};
        statusPositions := statusPositions[At(loc) := statuses[loc]];
      }

      metricsPositions := map[];
      var rows := Rows();
      left := rows.Keys;
      while left != {}
        invariant left <= rows.Keys && rows == Rows()
        invariant IndexesStatuses(statusPositions, statuses)
        invariant forall loc :: loc in rows && loc !in left ==> At(loc) in metricsPositions
        invariant forall p :: p in metricsPositions ==>
                    exists loc :: loc in rows && At(loc) == p && metricsPositions[p] == Located(rows[loc], loc.slot)
        decreases left
      {
        var loc :| loc in left;
        left := left - {loc};
        if At(loc) in metricsPositions {
          continue;
        }
        metricsPositions := metricsPositions[At(loc) := Located(rows[loc], loc.slot)];
      }
    }

    predicate ReportsPosition(port: int, ont: int)
      reads this
    {
      Position(port, ont) in statusPositions
    }

    /** With the card known only that card's row counts; without it the index of positions answers. */
    function RunStateFor(ont: Ont): Option<int>
      reads this
    {
      if ont.slot.Some? then
        var loc := Location(ont.slot.value, ont.port, ont.ont);
        if loc in statuses then Some(statuses[loc]) else None
      else
        var p := Position(ont.port, ont.ont);
        if p in statusPositions then Some(statusPositions[p]) else None
    }

    function MatchMetrics(ont: Ont): Option<Located>
      reads this
    {
      if ont.slot.Some? then
        var loc := Location(ont.slot.value, ont.port, ont.ont);
        if loc in Rows() then Some(Located(Rows()[loc], loc.slot)) else None
      else
        var p := Position(ont.port, ont.ont);
        if p in metricsPositions then Some(metricsPositions[p]) else None
    }

    /** The status this cycle has evidence for, if any. */
    function Verdict(ont: Ont): Option<Status>
      reads this
    {
      var runState := RunStateFor(ont);
      if runState.Some? && Mapped(runState.value) != Unknown then Some(Mapped(runState.value))
      else
        var found := MatchMetrics(ont);
        if found.Some? && found.value.metrics.rxPower.Some? then Some(Online) else None
    }

    /** A row the walk did not name is left alone, when the walk can be trusted. */
    predicate Skipped(ont: Ont)
      reads this
    {
      statusWalkOK && !ReportsPosition(ont.port, ont.ont)
    }

    /** What the cycle writes to a row's status: its verdict, when that is news. */
    function WriteFor(ont: Ont): seq<Write>
      reads this
    {
      if Skipped(ont) then []
      else
        var verdict := Verdict(ont);
        if verdict.Some? && verdict.value != ont.status then [Write(ont.id, verdict.value)] else []
    }

    function WritesFor(rows: seq<Ont>): seq<Write>
      reads this
    {
      if rows == [] then [] else WritesFor(rows[..|rows| - 1]) + WriteFor(rows[|rows| - 1])
    }

    function ChangeFor(ont: Ont): seq<Write>
      reads this
    {
      if Skipped(ont) || Verdict(ont).None? then [] else [Write(ont.id, Verdict(ont).value)]
    }

    function ChangesFor(rows: seq<Ont>): seq<Write>
      reads this
    {
      if rows == [] then [] else ChangesFor(rows[..|rows| - 1]) + ChangeFor(rows[|rows| - 1])
    }

    function SampleFor(ont: Ont): seq<Sample>
      reads this
    {
      if Skipped(ont) || metrics.None? then []
      else [Sample(ont.id, if MatchMetrics(ont).Some? then Some(MatchMetrics(ont).value.metrics) else None)]
    }

    function SamplesFor(rows: seq<Ont>): seq<Sample>
      reads this
    {
      if rows == [] then [] else SamplesFor(rows[..|rows| - 1]) + SampleFor(rows[|rows| - 1])
    }

    function SkippedIn(rows: seq<Ont>): nat
      reads this
    {
      if rows == [] then 0 else SkippedIn(rows[..|rows| - 1]) + if Skipped(rows[|rows| - 1]) then 1 else 0
    }
  }

  datatype Write = Write(id: nat, status: Status)

  datatype Sample = Sample(id: nat, metrics: Option<Metrics>)

  method DetermineStatus(reading: Reading, ont: Ont, found: Option<Located>) returns (status: Option<Status>)
    requires found == reading.MatchMetrics(ont)
    ensures status == reading.Verdict(ont)
  {
    status := None;
    var runState := reading.RunStateFor(ont);
    if runState.Some? {
      var mapped := Mapped(runState.value);
      if mapped != Unknown {
        status := Some(mapped);
      }
    }
    if status.None? {
      if found.Some? && found.value.metrics.rxPower.Some? {
        status := Some(Online);
      }
    }
  }

  lemma OneMoreRow(reading: Reading, rows: seq<Ont>, n: nat)
    requires n < |rows|
    ensures reading.WritesFor(rows[..n + 1]) == reading.WritesFor(rows[..n]) + reading.WriteFor(rows[n])
    ensures reading.ChangesFor(rows[..n + 1]) == reading.ChangesFor(rows[..n]) + reading.ChangeFor(rows[n])
    ensures reading.SamplesFor(rows[..n + 1]) == reading.SamplesFor(rows[..n]) + reading.SampleFor(rows[n])
    ensures reading.SkippedIn(rows[..n + 1]) == reading.SkippedIn(rows[..n]) + if reading.Skipped(rows[n]) then 1 else 0
  {
    hide Reading.WriteFor, Reading.ChangeFor, Reading.SampleFor, Reading.Skipped;
    assert rows[..n + 1][..n] == rows[..n];
  }

  lemma NoRows(reading: Reading)
    ensures reading.WritesFor([]) == [] && reading.ChangesFor([]) == [] && reading.SamplesFor([]) == []
    ensures reading.SkippedIn([]) == 0
  {
  }

  /** The status writes tried, the status events and the samples of one page. */
  method ApplyPage(reading: Reading, rows: seq<Ont>)
    returns (writes: seq<Write>, changes: seq<Write>, samples: seq<Sample>, processed: nat, skipped: nat)
    ensures writes == reading.WritesFor(rows)
    ensures changes == reading.ChangesFor(rows)
    ensures samples == reading.SamplesFor(rows)
    ensures skipped == reading.SkippedIn(rows) && processed + skipped == |rows|
  {
    hide Reading.RunStateFor, Reading.MatchMetrics, Reading.Verdict, Reading.ReportsPosition;
    hide Reading.WritesFor, Reading.ChangesFor, Reading.SamplesFor, Reading.SkippedIn;
    NoRows(reading);
    writes, changes, samples, processed, skipped := [], [], [], 0, 0;
    for n := 0 to |rows|
      invariant writes == reading.WritesFor(rows[..n])
      invariant changes == reading.ChangesFor(rows[..n])
      invariant samples == reading.SamplesFor(rows[..n])
      invariant skipped == reading.SkippedIn(rows[..n]) && processed + skipped == n
    {
      OneMoreRow(reading, rows, n);
      var ont := rows[n];
      if reading.statusWalkOK && !reading.ReportsPosition(ont.port, ont.ont) {
        skipped := skipped + 1;
        continue;
      }
      var found := reading.MatchMetrics(ont);
      var status := DetermineStatus(reading, ont, found);
      if status.Some? && status.value != ont.status {
        writes := writes + [Write(ont.id, status.value)];
      }
      if reading.metrics.Some? {
        samples := samples + [Sample(ont.id, if found.Some? then Some(found.value.metrics) else None)];
      }
      if status.Some? {
        changes := changes + [Write(ont.id, status.value)];
      }
      processed := processed + 1;
    }
    assert rows[..|rows|] == rows;
  }

  // ----- no outage is invented -----

  /** The walk reported this state at the ONT's own port and number, and on its own card when that is known. */
  predicate Reported(statuses: map<Location, int>, ont: Ont, status: Status) {
    exists loc :: loc in statuses && At(loc) == Position(ont.port, ont.ont)
                  && (ont.slot.Some? ==> loc.slot == ont.slot.value)
                  && status == Mapped(statuses[loc]) && status != Unknown
  }

  lemma VerdictIsEvidence(reading: Reading, ont: Ont)
    requires reading.Valid()
    ensures reading.Verdict(ont).Some? && reading.Verdict(ont).value != Online ==>
              Reported(reading.statuses, ont, reading.Verdict(ont).value)
  {
    var runState := reading.RunStateFor(ont);
    if runState.Some? && ont.slot.Some? {
      var loc := Location(ont.slot.value, ont.port, ont.ont);
      assert loc in reading.statuses && At(loc) == Position(ont.port, ont.ont);
    }
  }

  predicate IsRow(rows: seq<Ont>, n: int, write: Write) {
    0 <= n < |rows| && rows[n].id == write.id && rows[n].status != write.status
  }

  /**
   Every status but online that a page writes is the meaning of a state the walk reported for that ONT; so when the
   walk failed, nobody is marked down.
   */
  lemma {:induction false} NoOutageIsInvented(reading: Reading, rows: seq<Ont>)
    requires reading.Valid()
    ensures forall write :: write in reading.WritesFor(rows) && write.status != Online ==>
              exists n :: IsRow(rows, n, write) && Reported(reading.statuses, rows[n], write.status)
    ensures !reading.statusWalkOK ==> forall write :: write in reading.WritesFor(rows) ==> write.status == Online
  {
    if rows == [] {
    } else {
      var last := |rows| - 1;
      NoOutageIsInvented(reading, rows[..last]);
      VerdictIsEvidence(reading, rows[last]);
      forall write | write in reading.WritesFor(rows) && write.status != Online
        ensures exists n :: IsRow(rows, n, write) && Reported(reading.statuses, rows[n], write.status)
      {
        if write in reading.WritesFor(rows[..last]) {
          var n :| IsRow(rows[..last], n, write) && Reported(reading.statuses, rows[..last][n], write.status);
          assert IsRow(rows, n, write);
        } else {
          assert IsRow(rows, last, write);
        }
      }
    }
  }

  // ----- the indexes are the linear search -----

  /** Whatever a search through all rows may answer for a position. */
  predicate Found(statuses: map<Location, int>, p: Position, answer: Option<int>) {
    match answer
    case Some(runState) => exists loc :: loc in statuses && At(loc) == p && statuses[loc] == runState
    case None => forall loc :: loc in statuses ==> At(loc) != p
  }

  predicate UniquePositions<V>(rows: map<Location, V>) {
    forall l, m :: l in rows && m in rows && At(l) == At(m) ==> l == m
  }

  function LookedUp<V>(index: map<Position, V>, p: Position): Option<V> {
    if p in index then Some(index[p]) else None
  }

  /** The index answers as a linear search might, and where positions are unique as every such search must. */
  lemma StatusIndexIsTheSearch(index: map<Position, int>, statuses: map<Location, int>, p: Position,
                               answer: Option<int>)
    requires IndexesStatuses(index, statuses)
    ensures Found(statuses, p, LookedUp(index, p))
    ensures UniquePositions(statuses) && Found(statuses, p, answer) ==> answer == LookedUp(index, p)
  {
    if answer.Some? && Found(statuses, p, answer) {
      var loc :| loc in statuses && At(loc) == p && statuses[loc] == answer.value;
      assert At(loc) in index;
    }
  }

  /** Two indexes of one walk, built in different orders, agree where positions are unique. */
  lemma OrderDoesNotMatter(
    index: map<Position, Located>, other: map<Position, Located>, metrics: map<Location, Metrics>)
    requires IndexesMetrics(index, metrics) && IndexesMetrics(other, metrics) && UniquePositions(metrics)
    ensures index == other
  {
    forall p | p in index
      ensures p in other && index[p] == other[p]
    {
      var loc :| loc in metrics && At(loc) == p && index[p] == Located(metrics[loc], loc.slot);
      assert At(loc) in other;
    }
    forall p | p in other
      ensures p in index
    {
      var loc :| loc in metrics && At(loc) == p && other[p] == Located(metrics[loc], loc.slot);
      assert At(loc) in index;
    }
  }
}
