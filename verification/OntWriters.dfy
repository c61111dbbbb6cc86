/**
 The same status under any number of writers at once. Polls of several tiers and traps each read the row in one step and
 update it in another, without a transaction around the two, so anything may happen in between.
 */
module OntWriters {
  import opened Options
  import opened OntPoll
  import OntTraps

  /** Who updates: a poll with its verdict, or a trap with what it reports. */
  datatype Writer = Poller(verdict: Option<Status>) | Receiver(reported: Option<Status>)

  /** Writers are numbered; each reads the row and later updates it. */
  datatype Step = Read(w: nat) | Update(w: nat, who: Writer)

  /** The row, and what every writer in flight has seen of it. */
  datatype World = World(status: Status, seen: map<nat, Status>)

  /** What a writer makes of the status it saw. */
  function Intended(seen: Status, who: Writer): Option<Status> {
    match who
    case Poller(verdict) => if verdict.Some? && verdict.value != seen then verdict else None
    case Receiver(reported) =>
      if reported.Some? && OntTraps.WorthWriting(seen, reported.value) then reported else None
  }

  function WriteOf(world: World, step: Step): Option<Status> {
    match step
    case Read(_) => None
    case Update(w, who) => if w in world.seen then Intended(world.seen[w], who) else None
  }

  function OrElse(write: Option<Status>, status: Status): Status {
    if write.Some? then write.value else status
  }

  function After(world: World, step: Step): World {
    match step
    case Read(w) => world.(seen := world.seen[w := world.status])
    case Update(w, _) => World(OrElse(WriteOf(world, step), world.status), world.seen - {w})
  }

  function Run(world: World, steps: seq<Step>): World
    decreases |steps|
  {
    if steps == [] then world else Run(After(world, steps[0]), steps[1..])
  }

  /** The last status the steps write, if they write any. */
  function LastWrite(world: World, steps: seq<Step>): Option<Status>
    decreases |steps|
  {
    if steps == [] then None
    else
      var later := LastWrite(After(world, steps[0]), steps[1..]);
      if later.Some? then later else WriteOf(world, steps[0])
  }

  lemma {:induction false} RunAppend(world: World, p: seq<Step>, q: seq<Step>)
    ensures Run(world, p + q) == Run(Run(world, p), q)
    decreases |p|
  {
    if p == [] {
      assert p + q == q;
    } else {
      assert (p + q)[1..] == p[1..] + q;
      RunAppend(After(world, p[0]), p[1..], q);
    }
  }

  /** The row holds what was last written to it. */
  lemma {:induction false} StatusIsTheLastWrite(world: World, steps: seq<Step>)
    ensures Run(world, steps).status == OrElse(LastWrite(world, steps), world.status)
    decreases |steps|
  {
    if steps == [] {
    } else {
      StatusIsTheLastWrite(After(world, steps[0]), steps[1..]);
    }
  }

  // ----- one writer among the others -----

  /** None of the steps is this writer's. */
  predicate Others(steps: seq<Step>, w: nat) {
    forall n :: 0 <= n < |steps| ==> steps[n].w != w
  }

  lemma {:induction false} OthersKeepWhatIsSeen(world: World, steps: seq<Step>, w: nat)
    requires Others(steps, w) && w in world.seen
    ensures w in Run(world, steps).seen && Run(world, steps).seen[w] == world.seen[w]
    decreases |steps|
  {
    if steps == [] {
    } else {
      assert steps[0].w != w;
      OthersKeepWhatIsSeen(After(world, steps[0]), steps[1..], w);
    }
  }

  /** Where the row stands when a writer that has read it comes to its update. */
  function Held(world: World, w: nat, between: seq<Step>): World {
    Run(After(world, Read(w)), between)
  }

  /** What the others wrote meanwhile. */
  function Meanwhile(world: World, w: nat, between: seq<Step>): Option<Status> {
    LastWrite(After(world, Read(w)), between)
  }

  /** An update is decided by the status read, and lands on whatever the others left. */
  lemma UpdateLands(world: World, w: nat, between: seq<Step>, who: Writer)
    requires Others(between, w)
    ensures WriteOf(Held(world, w, between), Update(w, who)) == Intended(world.status, who)
    ensures Held(world, w, between).status == OrElse(Meanwhile(world, w, between), world.status)
  {
    OthersKeepWhatIsSeen(After(world, Read(w)), between, w);
    StatusIsTheLastWrite(After(world, Read(w)), between);
  }

  /**
   A whole poll leaves the row with its verdict if and only if the row differed from it when read, or the others wrote
   nothing meanwhile, or nothing else last.
   */
  lemma PollSettlesAmongOthers(world: World, w: nat, between: seq<Step>, verdict: Status)
    requires Others(between, w)
    ensures After(Held(world, w, between), Update(w, Poller(Some(verdict)))).status == verdict
            <==> world.status != verdict || Meanwhile(world, w, between) in [None, Some(verdict)]
  {
    UpdateLands(world, w, between, Poller(Some(verdict)));
    hide Run, LastWrite;
  }

  /** A write that turns one kind of down into another. */
  predicate Renames(found: Status, write: Option<Status>) {
    write.Some? && found != Online && write.value != Online && write.value != found
  }

  /**
   A trap renames an outage if and only if it reports down, had read the row online, and the others meanwhile left it
   with another down status.
   */
  lemma TrapRenamesExactly(world: World, w: nat, between: seq<Step>, reported: Option<Status>)
    requires Others(between, w)
    ensures var held := Held(world, w, between);
            Renames(held.status, WriteOf(held, Update(w, Receiver(reported))))
            <==>
            && reported.Some? && reported.value != Online
            && world.status == Online
            && Meanwhile(world, w, between) !in [None, Some(Online), reported]
  {
    UpdateLands(world, w, between, Receiver(reported));
    hide Run, LastWrite;
  }

  /** Such a run: the poll's reason for the outage is overwritten by a trap that had looked the row up before. */
  lemma RenamedInBetween()
    ensures var world, poll := World(Online, map[]), [Read(1), Update(1, Poller(Some(LOS)))];
            && Held(world, 0, poll).status == LOS
            && After(Held(world, 0, poll), Update(0, Receiver(Some(Offline)))).status == Offline
  {
    var world, poll := World(Online, map[]), [Read(1), Update(1, Poller(Some(LOS)))];
    var looked := After(world, Read(0));
    var loaded := After(looked, Read(1));
    assert poll[1..] == [poll[1]] && poll[1..][1..] == [];
    assert Run(loaded, poll[1..]) == After(loaded, poll[1]);
    assert Held(world, 0, poll) == After(loaded, poll[1]);
  }

  // ----- the runs with atomic traps are among these -----

  /** A trap looked up and applied at once is the one step of the simpler runs, and so is a poll without company. */
  lemma NothingInBetween(status: Status, w: nat, word: Option<Status>)
    ensures var trap := OntTraps.Row(status, None);
            After(Held(World(status, map[]), w, []), Update(w, Receiver(word))).status
            == OntTraps.After(trap, OntTraps.TrapOf(word)).status
    ensures var loaded := OntTraps.After(OntTraps.Row(status, None), OntTraps.Load);
            After(Held(World(status, map[]), w, []), Update(w, Poller(word))).status
            == OntTraps.After(loaded, OntTraps.Settle(word)).status
  {
  }

  // ----- one outage -----

  /** The OLT goes on reporting one down state, or nothing; no trap clears it. */
  predicate KeepsReporting(step: Step, down: Status) {
    match step
    case Read(_) => true
    case Update(_, Poller(verdict)) => verdict in [None, Some(down)]
    case Update(_, Receiver(reported)) => reported != Some(Online)
  }

  predicate AllKeepReporting(steps: seq<Step>, down: Status) {
    forall n :: 0 <= n < |steps| ==> KeepsReporting(steps[n], down)
  }

  /** The row holds the status, and so has every writer in flight seen it. */
  predicate Quiet(world: World, down: Status) {
    world.status == down && forall w :: w in world.seen ==> world.seen[w] == down
  }

  lemma {:induction false} QuietStaysQuiet(world: World, down: Status, steps: seq<Step>)
    requires down != Online && Quiet(world, down) && AllKeepReporting(steps, down)
    ensures Quiet(Run(world, steps), down) && LastWrite(world, steps) == None
    decreases |steps|
  {
    if steps == [] {
    } else {
      assert KeepsReporting(steps[0], down);
      QuietStaysQuiet(After(world, steps[0]), down, steps[1..]);
    }
  }

  /** Some later run writes, when a writer in flight saw anything else: the next poll's update does. */
  lemma UnquietWrites(world: World, down: Status, w: nat) returns (later: seq<Step>)
    requires w in world.seen && world.seen[w] != down
    ensures AllKeepReporting(later, down) && LastWrite(world, later) != None
  {
    later := [Update(w, Poller(Some(down)))];
    assert later[1..] == [];
  }

  /**
   While the OLT keeps reporting one down state, no interleaving of polls and down traps writes the status again, and it
   stays that state, if and only if the row holds it and every writer in flight has seen it.
   */
  lemma OneOutageIsWrittenOnce(world: World, down: Status)
    requires down != Online
    ensures (forall later :: AllKeepReporting(later, down) ==>
               Run(world, later).status == down && LastWrite(world, later) == None)
            <==> Quiet(world, down)
  {
    if Quiet(world, down) {
      forall later | AllKeepReporting(later, down)
        ensures Run(world, later).status == down && LastWrite(world, later) == None
      {
        QuietStaysQuiet(world, down, later);
      }
    } else if world.status != down {
      assert AllKeepReporting([], down) && Run(world, []).status != down;
    } else {
      var w :| w in world.seen && world.seen[w] != down;
      var later := UnquietWrites(world, down, w);
    }
  }

  /** The row is down for some reason or other, and no writer in flight has seen it up. */
  predicate AllDown(world: World) {
    world.status != Online && forall w :: w in world.seen ==> world.seen[w] != Online
  }

  lemma {:induction false} OnlyTheReasonIsWritten(world: World, down: Status, steps: seq<Step>)
    requires down != Online && AllDown(world) && AllKeepReporting(steps, down)
    ensures AllDown(Run(world, steps)) && LastWrite(world, steps) in [None, Some(down)]
    decreases |steps|
  {
    if steps == [] {
    } else {
      assert KeepsReporting(steps[0], down);
      OnlyTheReasonIsWritten(After(world, steps[0]), down, steps[1..]);
    }
  }

  /**
   Once the row is down and nobody in flight has seen it up, the first whole poll gives the outage the reason the OLT
   reports for good, however many polls and traps overlap with it and follow.
   */
  lemma OutageIsNamedForGood(world: World, down: Status, w: nat, between: seq<Step>, later: seq<Step>)
    requires down != Online && AllDown(world) && Others(between, w)
    requires AllKeepReporting(between, down) && AllKeepReporting(later, down)
    ensures Run(After(Held(world, w, between), Update(w, Poller(Some(down)))), later).status == down
  {
    hide Run, LastWrite;
    var held := Held(world, w, between);
    OnlyTheReasonIsWritten(After(world, Read(w)), down, between);
    PollSettlesAmongOthers(world, w, between, down);
    var polled := After(held, Update(w, Poller(Some(down))));
    OnlyTheReasonIsWritten(polled, down, later);
    StatusIsTheLastWrite(polled, later);
  }
}
