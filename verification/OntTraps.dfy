/**
 The trap receiver and the poller write one status. A trap reports a change, not its cause, so it may call a subscriber
 down only while the system still believes it is up.
 */
module OntTraps {
  import opened Options
  import opened OntPoll

  /** The subtree ONU notifications are sent under, and what labels the severity in the community. */
  const ONU_TRAP_FAMILY := "1.3.6.1.4.1.3902.1082.500.10.3.1."
  const EVENT_LEVEL := "eventLevel="

  function NormaliseOID(oid: string): string {
    if "." <= oid then oid[1..] else oid
  }

  /** strings.Split on "@". */
  function Fields(s: string): (fields: seq<string>)
    ensures fields != []
  {
    if s == "" then [""]
    else
      var rest := Fields(s[1..]);
      if s[0] == '@' then [""] + rest else [[s[0]] + rest[0]] + rest[1..]
  }

  function FirstLevel(fields: seq<string>): string {
    if fields == [] then ""
    else if EVENT_LEVEL <= fields[0] then fields[0][|EVENT_LEVEL|..]
    else FirstLevel(fields[1..])
  }

  method SeverityOf(community: string) returns (level: string)
    ensures level == FirstLevel(Fields(community))
  {
    var fields := Fields(community);
    for n := 0 to |fields|
      invariant FirstLevel(fields) == FirstLevel(fields[n..])
    {
      if EVENT_LEVEL <= fields[n] {
        return fields[n][|EVENT_LEVEL|..];
      }
    }
    return "";
  }

  function TrapStatus(oid: string, severity: string): Option<Status> {
    if !(ONU_TRAP_FAMILY <= NormaliseOID(oid)) then None
    else if severity == "cleared" then Some(Online)
    else if severity == "critical" || severity == "major" then Some(Offline)
    else None
  }

  predicate WorthWriting(current: Status, reported: Status) {
    if reported == Online then current != Online else current == Online
  }

  datatype Trap = Trap(oltId: nat, oid: string, community: string, serial: string)

  /** The rows a trap is matched against: by its OLT too, as another may have an ONU of the same serial number. */
  datatype Subscriber = Subscriber(oltId: nat, serial: string, ont: Ont)

  /** Where the first subscriber a trap names stands, if it names one. */
  function Named(rows: seq<Subscriber>, trap: Trap): Option<nat> {
    if rows == [] then None
    else if rows[0].oltId == trap.oltId && rows[0].serial == trap.serial then Some(0)
    else
      match Named(rows[1..], trap)
      case None => None
      case Some(n) => Some(n + 1)
  }

  lemma {:induction false} NamedIsARow(rows: seq<Subscriber>, trap: Trap)
    ensures Named(rows, trap).Some? ==>
              && Named(rows, trap).value < |rows|
              && rows[Named(rows, trap).value].oltId == trap.oltId
              && rows[Named(rows, trap).value].serial == trap.serial
    ensures Named(rows, trap).None? ==>
              forall n :: 0 <= n < |rows| ==> !(rows[n].oltId == trap.oltId && rows[n].serial == trap.serial)
  {
    if rows == [] {
    } else {
      NamedIsARow(rows[1..], trap);
    }
  }

  /** What a trap reports about one row: nothing about a row it does not name. */
  function ReportedTo(rows: seq<Subscriber>, trap: Trap, n: nat): Option<Status> {
    if trap.serial != "" && Named(rows, trap) == Some(n)
    then TrapStatus(trap.oid, FirstLevel(Fields(trap.community)))
    else None
  }

  class Receiver {
    var rows: seq<Subscriber>

    constructor (rows: seq<Subscriber>)
      ensures this.rows == rows
    {
      this.rows := rows;
    }

    method Find(trap: Trap) returns (found: Option<nat>)
      ensures found == Named(rows, trap)
      ensures found.Some? ==> found.value < |rows|
    {
      NamedIsARow(rows, trap);
      for n := 0 to |rows|
        invariant Named(rows, trap)
               == match Named(rows[n..], trap) case None => None case Some(k) => Some(n + k)
      {
        assert rows[n..][1..] == rows[n + 1..];
        if rows[n].oltId == trap.oltId && rows[n].serial == trap.serial {
          return Some(n);
        }
      }
      return None;
    }

    /** Writes a trap's status onto the subscriber it names, or leaves every row as it is. */
    method Apply(trap: Trap) returns (written: Option<Write>)
      modifies this
      ensures written.Some? <==>
                && trap.serial != ""
                && Named(old(rows), trap).Some? && Named(old(rows), trap).value < |old(rows)|
                && TrapStatus(trap.oid, FirstLevel(Fields(trap.community))).Some?
                && WorthWriting(old(rows)[Named(old(rows), trap).value].ont.status,
                                TrapStatus(trap.oid, FirstLevel(Fields(trap.community))).value)
      ensures written.None? ==> rows == old(rows)
      ensures written.Some? ==>
                var n := Named(old(rows), trap).value;
                var status := TrapStatus(trap.oid, FirstLevel(Fields(trap.community))).value;
                && written.value == Write(old(rows)[n].ont.id, status)
                && rows == old(rows)[n := old(rows)[n].(ont := old(rows)[n].ont.(status := status))]
      ensures |rows| == |old(rows)|
      ensures forall n :: 0 <= n < |rows| ==> Became(old(rows)[n], rows[n], TrapOf(ReportedTo(old(rows), trap, n)))
    {
      var severity := SeverityOf(trap.community);
      var status := TrapStatus(trap.oid, severity);
      if status.None? || trap.serial == "" {
        return None;
      }
      var found := Find(trap);
      if found.None? {
        return None;
      }
      var n := found.value;
      var ont := rows[n].ont;
      if !WorthWriting(ont.status, status.value) {
        return None;
      }
      rows := rows[n := rows[n].(ont := ont.(status := status.value))];
      return Some(Write(ont.id, status.value));
    }
  }

  // ----- two writers, one status -----

  /**
   What may happen to one subscriber. A poll takes the row in hand with its page and settles it later against the
   status it saw then, so traps may come in between.
   */
  datatype Step = Load | Settle(verdict: Option<Status>) | TrapOf(reported: Option<Status>)

  datatype Row = Row(status: Status, inHand: Option<Status>)

  /** What a step writes. */
  function WriteOf(row: Row, step: Step): Option<Status> {
    match step
    case Load => None
    case Settle(verdict) => if row.inHand.Some? && verdict.Some? && verdict != row.inHand then verdict else None
    case TrapOf(reported) => if reported.Some? && WorthWriting(row.status, reported.value) then reported else None
  }

  function After(row: Row, step: Step): Row {
    var status := if WriteOf(row, step).Some? then WriteOf(row, step).value else row.status;
    match step
    case Load => Row(status, Some(row.status))
    case Settle(_) => Row(status, None)
    case TrapOf(_) => Row(status, row.inHand)
  }

  /** A row as a step leaves it: nothing but its status may have changed. */
  predicate Became(before: Subscriber, after: Subscriber, step: Step) {
    after == before.(ont := before.ont.(status := After(Row(before.ont.status, None), step).status))
  }

  function Run(row: Row, steps: seq<Step>): Row
    decreases |steps|
  {
    if steps == [] then row else Run(After(row, steps[0]), steps[1..])
  }

  /** A write: the step that made it, the status it found and the one it left. */
  datatype Change = Change(step: Step, found: Status, left: Status)

  function Changes(row: Row, steps: seq<Step>): seq<Change>
    decreases |steps|
  {
    if steps == [] then []
    else
      var write := WriteOf(row, steps[0]);
      var change := if write.Some? then [Change(steps[0], row.status, write.value)] else [];
      change + Changes(After(row, steps[0]), steps[1..])
  }

  /** A poll of the row as it stands writes what one load and settle would. */
  lemma PollIsLoadAndSettle(reading: Reading, ont: Ont)
    requires !reading.Skipped(ont)
    ensures var write := WriteOf(Run(Row(ont.status, None), [Load]), Settle(reading.Verdict(ont)));
            reading.WriteFor(ont) == if write.Some? then [Write(ont.id, write.value)] else []
  {
    assert Run(Row(ont.status, None), [Load]) == Row(ont.status, Some(ont.status)) by {
      assert [Load][1..] == [];
    }
  }

  /** In no run does a trap move a subscriber from one kind of down to another. */
  lemma {:induction false} TrapsNeverRenameAnOutage(row: Row, steps: seq<Step>)
    ensures forall n :: 0 <= n < |Changes(row, steps)| && Changes(row, steps)[n].step.TrapOf? ==>
              (Changes(row, steps)[n].found == Online) != (Changes(row, steps)[n].left == Online)
    decreases |steps|
  {
    if steps == [] {
    } else {
      TrapsNeverRenameAnOutage(After(row, steps[0]), steps[1..]);
    }
  }

  /** The OLT goes on reporting one down state, or nothing; no trap clears it. */
  predicate KeepsReporting(step: Step, down: Status) {
    match step
    case Load => true
    case Settle(verdict) => verdict == Some(down) || verdict == None
    case TrapOf(reported) => reported != Some(Online)
  }

  lemma {:induction false} RunAppend(row: Row, p: seq<Step>, q: seq<Step>)
    ensures Run(row, p + q) == Run(Run(row, p), q)
    decreases |p|
  {
    if p == [] {
      assert p + q == q;
    } else {
      assert (p + q)[1..] == p[1..] + q;
      RunAppend(After(row, p[0]), p[1..], q);
    }
  }

  predicate Settled(row: Row, down: Status) {
    row.status == down && (row.inHand == None || row.inHand == Some(down))
  }

  lemma {:induction false} SettledStaysSettled(row: Row, down: Status, steps: seq<Step>)
    requires down != Online && Settled(row, down)
    requires forall n :: 0 <= n < |steps| ==> KeepsReporting(steps[n], down)
    ensures Settled(Run(row, steps), down) && Changes(row, steps) == []
    decreases |steps|
  {
    if steps == [] {
    } else {
      assert KeepsReporting(steps[0], down);
      SettledStaysSettled(After(row, steps[0]), down, steps[1..]);
    }
  }

  // ----- traps that fall into a poll -----

  /** What a trap can say: nothing, up, or down without a reason. */
  predicate IsTrap(step: Step) {
    step.TrapOf? && step.reported in [None, Some(Online), Some(Offline)]
  }

  predicate AreTraps(steps: seq<Step>) {
    forall n :: 0 <= n < |steps| ==> IsTrap(steps[n])
  }

  lemma TrapsSayNoMore(oid: string, severity: string)
    ensures IsTrap(TrapOf(TrapStatus(oid, severity)))
  {
  }

  /** The last status the traps report, if any. */
  function LastSaid(traps: seq<Step>): Option<Status>
    requires AreTraps(traps)
  {
    if traps == [] then None
    else
      var last := traps[|traps| - 1];
      if last.reported.Some? then last.reported else LastSaid(traps[..|traps| - 1])
  }

  /** A trap says the opposite of a verdict: down of an ONT that is up, or up of one that is down. */
  predicate Contradicts(trap: Step, verdict: Status)
    requires IsTrap(trap)
  {
    trap.reported.Some? && (trap.reported.value == Online) != (verdict == Online)
  }

  predicate Contradicted(traps: seq<Step>, verdict: Status)
    requires AreTraps(traps)
  {
    exists n :: 0 <= n < |traps| && Contradicts(traps[n], verdict)
  }

  lemma ContradictedStep(traps: seq<Step>, verdict: Status)
    requires AreTraps(traps) && traps != []
    ensures var last := |traps| - 1;
            Contradicted(traps, verdict) <==> Contradicted(traps[..last], verdict) || Contradicts(traps[last], verdict)
  {
    var last := |traps| - 1;
    if Contradicted(traps[..last], verdict) {
      var n :| 0 <= n < last && Contradicts(traps[..last][n], verdict);
      assert Contradicts(traps[n], verdict);
    }
    if Contradicted(traps, verdict) {
      var n :| 0 <= n < |traps| && Contradicts(traps[n], verdict);
      assert n < last ==> traps[..last][n] == traps[n];
    }
  }

  lemma RunOneMore(row: Row, steps: seq<Step>)
    requires steps != []
    ensures Run(row, steps) == After(Run(row, steps[..|steps| - 1]), steps[|steps| - 1])
  {
    var earlier, last := steps[..|steps| - 1], [steps[|steps| - 1]];
    assert steps == earlier + last && last[1..] == [];
    RunAppend(row, earlier, last);
  }

  /** Traps leave a row where it stood if none contradicts it or the last word restores it. */
  lemma {:induction false} WhileInHand(row: Row, traps: seq<Step>)
    requires AreTraps(traps)
    ensures Run(row, traps).inHand == row.inHand
    ensures Run(row, traps).status == row.status
            <==> !Contradicted(traps, row.status) || LastSaid(traps) == Some(row.status)
    ensures Contradicted(traps, row.status) ==>
              Run(row, traps).status in [Online, Offline] && LastSaid(traps) == Some(Run(row, traps).status)
    decreases |traps|
  {
    if traps == [] {
    } else {
      var earlier := traps[..|traps| - 1];
      WhileInHand(row, earlier);
      RunOneMore(row, traps);
      ContradictedStep(traps, row.status);
      hide Run, Contradicted;
    }
  }

  /** A poll that took the row in hand settles it, whatever traps fall in between, under this condition. */
  predicate Settles(row: Row, traps: seq<Step>, verdict: Status)
    requires AreTraps(traps)
  {
    row.status != verdict || !Contradicted(traps, verdict) || LastSaid(traps) == Some(verdict)
  }

  function Poll(traps: seq<Step>, verdict: Status): seq<Step> {
    [Load] + traps + [Settle(Some(verdict))]
  }

  lemma PollRuns(row: Row, traps: seq<Step>, verdict: Status)
    ensures Run(row, Poll(traps, verdict))
         == After(Run(Row(row.status, Some(row.status)), traps), Settle(Some(verdict)))
  {
    RunAppend(row, [Load], traps);
    RunAppend(row, [Load] + traps, [Settle(Some(verdict))]);
    assert [Load][1..] == [] && [Settle(Some(verdict))][1..] == [];
  }

  /**
   A whole poll leaves the row with its verdict, up or down, if and only if the row differed from it when taken in hand,
   or no trap in between contradicted it, or the last trap to speak said the same.
   */
  lemma PollSettles(row: Row, traps: seq<Step>, verdict: Status)
    requires AreTraps(traps)
    ensures Run(row, Poll(traps, verdict)).status == verdict <==> Settles(row, traps, verdict)
    ensures Run(row, Poll(traps, verdict)).inHand == None
  {
    PollRuns(row, traps, verdict);
    WhileInHand(Row(row.status, Some(row.status)), traps);
    hide Run, Contradicted, LastSaid;
  }

  lemma {:induction false} NoChangesKeepTheStatus(row: Row, steps: seq<Step>)
    requires Changes(row, steps) == []
    ensures Run(row, steps).status == row.status
    decreases |steps|
  {
    if steps == [] {
    } else {
      NoChangesKeepTheStatus(After(row, steps[0]), steps[1..]);
    }
  }

  /**
   While the OLT keeps reporting one down state, no interleaving of polls and down traps after a whole poll writes the
   status again, and it stays that state, if and only if that poll settled the row.
   */
  lemma OneOutageIsWrittenOnce(row: Row, traps: seq<Step>, down: Status, later: seq<Step>)
    requires down != Online && AreTraps(traps)
    requires forall n :: 0 <= n < |later| ==> KeepsReporting(later[n], down)
    ensures var polled := Run(row, Poll(traps, down));
            Run(polled, later).status == down && Changes(polled, later) == [] <==> Settles(row, traps, down)
  {
    hide Run, Changes, Settles;
    var polled := Run(row, Poll(traps, down));
    PollSettles(row, traps, down);
    if Settles(row, traps, down) {
      SettledStaysSettled(polled, down, later);
    } else if Changes(polled, later) == [] {
      NoChangesKeepTheStatus(polled, later);
    }
  }

  /**
   A trap that clears the outage between the two halves of a poll: the poll settles against what it had in hand, and
   leaves the row online until the next one.
   */
  lemma ClearedInBetween(down: Status)
    requires down != Online
    ensures Run(Row(down, None), Poll([TrapOf(Some(Online))], down)).status == Online
    ensures Run(Run(Row(down, None), Poll([TrapOf(Some(Online))], down)), Poll([], down)).status == down
  {
    var row, traps := Row(down, None), [TrapOf(Some(Online))];
    PollRuns(row, traps, down);
    assert traps[1..] == [];
    PollSettles(Run(row, Poll(traps, down)), [], down);
  }

  /** The mirror of it: a down trap inside a poll that read the ONT as online leaves it offline until the next one. */
  lemma DownInBetween()
    ensures Run(Row(Online, None), Poll([TrapOf(Some(Offline))], Online)).status == Offline
    ensures Run(Run(Row(Online, None), Poll([TrapOf(Some(Offline))], Online)), Poll([], Online)).status == Online
  {
    var row, traps := Row(Online, None), [TrapOf(Some(Offline))];
    PollRuns(row, traps, Online);
    assert traps[1..] == [];
    PollSettles(Run(row, Poll(traps, Online)), [], Online);
  }
}
