/**
 One live session per WhatsApp account. Sessions are opened by a sync that runs alone on its ticker, and dropped by
 restarts that may come from anywhere at any moment; the lock covers each step on the table and nothing more.
 */
module WaSessions {
  import opened Options

  type Id = nat

  /** Sessions are numbered in the order they were opened. */
  datatype Table = Table(running: map<Id, nat>, created: nat, taken: set<nat>, stopped: seq<nat>)

  const EMPTY := Table(map[], 0, {}, [])

  // ----- the steps under the lock, on values -----

  /** `opens` says whether the client could be opened. */
  function Ensured(t: Table, id: Id, opens: bool): Table {
    if id in t.running || !opens then t else t.(running := t.running[id := t.created], created := t.created + 1)
  }

  /** The locked half of a restart: whoever takes a session out owns stopping it. */
  function TakenOut(t: Table, id: Id): Table {
    if id in t.running then t.(running := t.running - {id}, taken := t.taken + {t.running[id]}) else t
  }

  /** The other half, outside the lock. */
  function Stopped(t: Table, session: nat): Table {
    if session in t.taken then t.(taken := t.taken - {session}, stopped := t.stopped + [session]) else t
  }

  function Restarted(t: Table, id: Id): Table {
    if id in t.running then Stopped(TakenOut(t, id), t.running[id]) else t
  }

  /** Which running sessions have no account row, in the order they are listed. */
  function Orphans(running: seq<Id>, accounts: seq<Id>): seq<Id> {
    if running == [] then []
    else
      Orphans(running[..|running| - 1], accounts)
      + if running[|running| - 1] in accounts then [] else [running[|running| - 1]]
  }

  method Orphaned(running: seq<Id>, accounts: seq<Id>) returns (gone: seq<Id>)
    ensures gone == Orphans(running, accounts)
  {
    var known: set<Id> := {};
    for n := 0 to |accounts|
      invariant known == set id | id in accounts[..n]
    {
      assert accounts[..n + 1] == accounts[..n] + [accounts[n]];
      known := known + {accounts[n]};
    }
    assert accounts[..|accounts|] == accounts;
    gone := [];
    for n := 0 to |running|
      invariant gone == Orphans(running[..n], accounts)
    {
      assert running[..n + 1][..n] == running[..n];
      if running[n] !in known {
        gone := gone + [running[n]];
      }
    }
    assert running[..|running|] == running;
  }

  class Sessions {
    var running: map<Id, nat>
    var created: nat
    var taken: set<nat>
    var stopped: seq<nat>

    function View(): Table
      reads this
    {
      Table(running, created, taken, stopped)
    }

    constructor ()
      ensures View() == EMPTY
    {
      running, created, taken, stopped := map[], 0, {}, [];
    }

    method Ensure(id: Id, opens: bool)
      modifies this
      ensures View() == Ensured(old(View()), id, opens)
    {
      if id in running {
        return;
      }
      if !opens {
        return;
      }
      running, created := running[id := created], created + 1;
    }

    method TakeOut(id: Id) returns (live: Option<nat>)
      modifies this
      ensures View() == TakenOut(old(View()), id)
      ensures live == if id in old(running) then Some(old(running)[id]) else None
    {
      if id !in running {
        return None;
      }
      live := Some(running[id]);
      taken := taken + {running[id]};
      running := running - {id};
    }

    method Stop(session: nat)
      requires session in taken
      modifies this
      ensures View() == Stopped(old(View()), session)
    {
      taken, stopped := taken - {session}, stopped + [session];
    }

    method Restart(id: Id)
      modifies this
      ensures View() == Restarted(old(View()), id)
      ensures old(Accounted(View())) ==>
                && Accounted(View()) && created == old(created) && taken == old(taken)
                && running == old(running) - {id}
                && stopped == old(stopped) + if id in old(running) then [old(running)[id]] else []
    {
      if Accounted(View()) {
        RestartStops(View(), id);
      }
      var live := TakeOut(id);
      if live.Some? {
        Stop(live.value);
      }
    }

    /**
     One sync with nothing else going on: every account gets a session that can, and nobody else keeps one. The sessions
     it drops are stopped, once each, and no other is.
     */
    method Sync(accounts: seq<Id>, opens: Id -> bool)
      modifies this
      ensures forall id :: id in running ==> id in accounts
      ensures forall id :: id in accounts && (opens(id) || id in old(running)) ==> id in running
      ensures forall id :: id in accounts && id in old(running) ==> running[id] == old(running)[id]
      ensures forall id :: id in running ==> id in old(running) || opens(id)
      ensures old(Accounted(View())) ==>
                && Accounted(View()) && taken == old(taken) && old(stopped) <= stopped
                && forall session :: session in stopped[old(|stopped|)..] <==>
                     exists id :: id in old(running) && id !in accounts && old(running)[id] == session
    {
      hide Accounted;
      for n := 0 to |accounts|
        invariant forall id :: id in old(running) ==> id in running && running[id] == old(running)[id]
        invariant forall id :: id in accounts[..n] && opens(id) ==> id in running
        invariant forall id :: id in running ==> id in old(running) || (id in accounts && opens(id))
        invariant old(Accounted(View())) ==> Accounted(View())
        invariant taken == old(taken) && stopped == old(stopped)
      {
        assert accounts[..n + 1] == accounts[..n] + [accounts[n]];
        if Accounted(View()) {
          EnsuredAccounts(View(), accounts[n], opens(accounts[n]));
        }
        Ensure(accounts[n], opens(accounts[n]));
      }
      assert accounts[..|accounts|] == accounts;
      CloseOrphans(accounts);
    }

    method ListRunning() returns (listed: seq<Id>)
      ensures forall id :: id in listed <==> id in running
    {
      listed := [];
      var left := running.Keys;
      while left != {}
        invariant left <= running.Keys
        invariant forall id :: id in listed <==> id in running && id !in left
        decreases left
      {
        var id :| id in left;
        left := left - {id};
        listed := listed + [id];
      }
    }

    method CloseOrphans(accounts: seq<Id>)
      modifies this
      ensures running == map id | id in old(running) && id in accounts :: old(running)[id]
      ensures created == old(created)
      ensures old(Accounted(View())) ==>
                && Accounted(View()) && taken == old(taken) && old(stopped) <= stopped
                && forall session :: session in stopped[old(|stopped|)..] <==>
                     exists id :: id in old(running) && id !in accounts && old(running)[id] == session
    {
      hide Orphans, Accounted;
      var listed := ListRunning();
      var gone := Orphaned(listed, accounts);
      OrphansAre(listed, accounts);
      for n := 0 to |gone|
        invariant forall id :: id in running <==> id in old(running) && id !in gone[..n]
        invariant forall id :: id in running ==> running[id] == old(running)[id]
        invariant created == old(created)
        invariant old(Accounted(View())) ==> Accounted(View()) && Closed(old(View()), View(), gone[..n])
      {
        assert gone[..n + 1] == gone[..n] + [gone[n]];
        if old(Accounted(View())) {
          ClosesOneMore(old(View()), View(), gone[..n], gone[n]);
        }
        Restart(gone[n]);
      }
      assert gone[..|gone|] == gone;
    }
  }

  lemma RestartStops(t: Table, id: Id)
    requires Accounted(t)
    ensures var t' := Restarted(t, id);
            && Accounted(t') && t'.created == t.created && t'.taken == t.taken
            && t'.running == t.running - {id}
            && t'.stopped == t.stopped + if id in t.running then [t.running[id]] else []
  {
    if id in t.running {
      TakenOutAccounts(t, id);
      StoppedAccounts(TakenOut(t, id), t.running[id]);
      assert t.taken + {t.running[id]} - {t.running[id]} == t.taken;
    }
  }

  /** The sessions of these accounts, and no other, were stopped, and none is in between. */
  ghost predicate Closed(t: Table, t': Table, gone: seq<Id>) {
    && t'.taken == t.taken && t.stopped <= t'.stopped
    && t'.running == (map id | id in t.running && id !in gone :: t.running[id])
    && forall session :: session in t'.stopped[|t.stopped|..] <==>
                         exists id :: id in t.running && id in gone && t.running[id] == session
  }

  lemma ClosesOneMore(t: Table, t': Table, gone: seq<Id>, id: Id)
    requires Accounted(t') && Closed(t, t', gone)
    ensures Closed(t, Restarted(t', id), gone + [id])
  {
    RestartStops(t', id);
    hide Accounted, Restarted;
    var t'' := Restarted(t', id);
    assert t''.running == (map i | i in t.running && i !in gone + [id] :: t.running[i]);
    if id in t'.running {
      assert t''.stopped[|t.stopped|..] == t'.stopped[|t.stopped|..] + [t.running[id]];
    } else {
      assert t''.stopped == t'.stopped;
      assert id in t.running ==> id in gone;
    }
    forall session: nat
      ensures session in t''.stopped[|t.stopped|..] <==>
              exists i :: i in t.running && i in gone + [id] && t.running[i] == session
    {
      StoppedOf(t, t', gone, id, session);
    }
  }

  lemma StoppedOf(t: Table, t': Table, gone: seq<Id>, id: Id, session: nat)
    requires Closed(t, t', gone)
    ensures (exists i :: i in t.running && i in gone + [id] && t.running[i] == session) <==>
            session in t'.stopped[|t.stopped|..] || (id in t.running && t.running[id] == session)
  {
    if i :| i in t.running && i in gone && t.running[i] == session {
      assert i in gone + [id];
    }
    assert id in gone + [id];
  }

  lemma {:induction false} OrphansAre(running: seq<Id>, accounts: seq<Id>)
    ensures forall id :: id in Orphans(running, accounts) <==> id in running && id !in accounts
  {
    if running == [] {
    } else {
      var earlier, last := running[..|running| - 1], running[|running| - 1];
      assert running == earlier + [last];
      OrphansAre(earlier, accounts);
    }
  }

  // ----- every interleaving -----

  /** Where the one sync stands: the accounts it read, and what it still has to open or to close. */
  datatype Phase = Idle | Opening(known: seq<Id>, left: seq<Id>) | Closing(left: seq<Id>)

  datatype World = World(table: Table, accounts: set<Id>, deleted: set<Id>, phase: Phase)

  datatype Step =
    | AddRow(id: Id)
    | DeleteRow(id: Id)
    | ReadAccounts(listed: seq<Id>)
    | EnsureNext(opens: bool)
    | ListRunning(listed: seq<Id>)
    | CloseNext
    | Take(id: Id)
    | LoggedOut(id: Id, session: nat)
    | StopTaken(session: nat)

  const START := World(EMPTY, {}, {}, Idle)

  /**
   A step out of turn does nothing. A logout watcher carries the session it watched, but restarts the account, whatever
   is registered under it by then.
   */
  function After(w: World, step: Step): World {
    match step
    case AddRow(id) =>
      if id in w.deleted then w else w.(accounts := w.accounts + {id})
    case DeleteRow(id) =>
      if id in w.accounts then w.(accounts := w.accounts - {id}, deleted := w.deleted + {id}) else w
    case ReadAccounts(listed) =>
      if w.phase.Idle? && (set id | id in listed) == w.accounts then w.(phase := Opening(listed, listed)) else w
    case EnsureNext(opens) =>
      if w.phase.Opening? && w.phase.left != [] then
        w.(table := Ensured(w.table, w.phase.left[0], opens), phase := Opening(w.phase.known, w.phase.left[1..]))
      else w
    case ListRunning(listed) =>
      if w.phase.Opening? && w.phase.left == [] && (set id | id in listed) == w.table.running.Keys then
        w.(phase := Closing(Orphans(listed, w.phase.known)))
      else w
    case CloseNext =>
      if w.phase.Closing? then
        if w.phase.left == [] then w.(phase := Idle)
        else w.(table := TakenOut(w.table, w.phase.left[0]), phase := Closing(w.phase.left[1..]))
      else w
    case Take(id) => w.(table := TakenOut(w.table, id))
    case LoggedOut(id, _) => w.(table := TakenOut(w.table, id))
    case StopTaken(session) => w.(table := Stopped(w.table, session))
  }

  function Run(w: World, steps: seq<Step>): World {
    if steps == [] then w else After(Run(w, steps[..|steps| - 1]), steps[|steps| - 1])
  }

  /** No session is two things at once, or the same thing twice. */
  predicate Exclusive(t: Table) {
    && (forall id :: id in t.running ==>
          t.running[id] < t.created && t.running[id] !in t.taken && t.running[id] !in t.stopped)
    && (forall i, j :: i in t.running && j in t.running && t.running[i] == t.running[j] ==> i == j)
    && (forall session :: session in t.taken ==> session < t.created && session !in t.stopped)
    && (forall m, n :: 0 <= m < n < |t.stopped| ==> t.stopped[m] != t.stopped[n])
    && (forall session :: session in t.stopped ==> session < t.created)
  }

  predicate Registered(t: Table, session: nat) {
    exists id :: id in t.running && t.running[id] == session
  }

  /** Every session opened is something: registered, taken out, or stopped. */
  predicate Complete(t: Table) {
    forall session :: 0 <= session < t.created ==> session in t.taken || session in t.stopped || Registered(t, session)
  }

  predicate Accounted(t: Table) {
    Exclusive(t) && Complete(t)
  }

  /** Rows that are gone stay gone, and every session was opened for a row that was there. */
  predicate Sound(w: World) {
    && Accounted(w.table)
    && w.accounts !! w.deleted
    && (forall id :: id in w.table.running ==> id in w.accounts || id in w.deleted)
    && (match w.phase
        case Idle => true
        case Opening(known, left) =>
          && (forall id :: id in left ==> id in known)
          && (forall id :: id in known ==> id in w.accounts || id in w.deleted)
          && (forall id :: id in w.table.running ==> id in known || id in w.deleted)
        case Closing(left) => forall id :: id in left ==> id in w.deleted)
  }

  lemma EnsuredIsComplete(t: Table, id: Id, opens: bool)
    requires Complete(t)
    ensures Complete(Ensured(t, id, opens))
  {
    var t' := Ensured(t, id, opens);
    if id !in t.running && opens {
      forall session | 0 <= session < t'.created
        ensures session in t'.taken || session in t'.stopped || Registered(t', session)
      {
        if session == t.created {
          assert id in t'.running && t'.running[id] == session;
        } else if Registered(t, session) {
          var i :| i in t.running && t.running[i] == session;
          assert i in t'.running && t'.running[i] == session;
        }
      }
    }
  }

  lemma EnsuredAccounts(t: Table, id: Id, opens: bool)
    requires Accounted(t)
    ensures Accounted(Ensured(t, id, opens))
  {
    EnsuredIsComplete(t, id, opens);
    hide Complete;
  }

  lemma TakenOutAccounts(t: Table, id: Id)
    requires Accounted(t)
    ensures Accounted(TakenOut(t, id))
  {
    var t' := TakenOut(t, id);
    if id in t.running {
      forall session | 0 <= session < t'.created
        ensures session in t'.taken || session in t'.stopped || Registered(t', session)
      {
        if session !in t'.taken && Registered(t, session) {
          var i :| i in t.running && t.running[i] == session;
          assert i in t'.running && t'.running[i] == session;
        }
      }
    }
  }

  lemma StoppedAccounts(t: Table, session: nat)
    requires Accounted(t)
    ensures Accounted(Stopped(t, session))
  {
    var t' := Stopped(t, session);
    if session in t.taken {
      forall s | 0 <= s < t'.created
        ensures s in t'.taken || s in t'.stopped || Registered(t', s)
      {
        if s == session {
          assert t'.stopped[|t.stopped|] == session;
        } else if s in t.stopped {
          var n :| 0 <= n < |t.stopped| && t.stopped[n] == s;
          assert t'.stopped[n] == s;
        } else if s !in t.taken {
          var i :| i in t.running && t.running[i] == s;
          assert i in t'.running && t'.running[i] == s;
        }
      }
    }
  }

  lemma OrphansAreDeleted(w: World, listed: seq<Id>)
    requires Sound(w) && w.phase.Opening? && (set id | id in listed) == w.table.running.Keys
    ensures forall id :: id in Orphans(listed, w.phase.known) ==> id in w.deleted
  {
    hide Accounted;
    OrphansAre(listed, w.phase.known);
    forall id | id in Orphans(listed, w.phase.known)
      ensures id in w.deleted
    {
      assert id in (set i | i in listed);
    }
  }

  lemma StepIsSound(w: World, step: Step)
    requires Sound(w)
    ensures Sound(After(w, step))
  {
    match step
    case EnsureNext(opens) =>
      if w.phase.Opening? && w.phase.left != [] {
        EnsuredAccounts(w.table, w.phase.left[0], opens);
        assert w.phase.left[0] in w.phase.left;
        hide Accounted;
      }
    case ListRunning(listed) =>
      if w.phase.Opening? && w.phase.left == [] && (set id | id in listed) == w.table.running.Keys {
        OrphansAreDeleted(w, listed);
        hide Accounted;
      }
    case CloseNext =>
      if w.phase.Closing? && w.phase.left != [] {
        TakenOutAccounts(w.table, w.phase.left[0]);
        hide Accounted;
      }
    case Take(id) =>
      TakenOutAccounts(w.table, id);
      hide Accounted;
    case LoggedOut(id, _) =>
      TakenOutAccounts(w.table, id);
      hide Accounted;
    case StopTaken(session) =>
      StoppedAccounts(w.table, session);
      hide Accounted;
    case ReadAccounts(listed) =>
      assert forall id :: id in listed ==> id in (set i | i in listed);
      hide Accounted;
    case _ =>
      hide Accounted;
  }

  lemma {:induction false} RunIsSound(steps: seq<Step>)
    ensures Sound(Run(START, steps))
  {
    if steps == [] {
    } else {
      RunIsSound(steps[..|steps| - 1]);
      StepIsSound(Run(START, steps[..|steps| - 1]), steps[|steps| - 1]);
    }
  }

  /** How often a step of the run took this session out. */
  function TimesTaken(steps: seq<Step>, session: nat): nat {
    if steps == [] then 0
    else
      var earlier := steps[..|steps| - 1];
      TimesTaken(earlier, session)
      + if session !in Run(START, earlier).table.taken && session in Run(START, steps).table.taken then 1 else 0
  }

  lemma StepTakesOrStops(t: Table, t': Table, session: nat)
    requires Accounted(t)
    requires t' == t || (exists id, opens :: t' == Ensured(t, id, opens)) || (exists id :: t' == TakenOut(t, id))
             || (exists s :: t' == Stopped(t, s))
    ensures session in t.taken ==> session in t'.taken || session in t'.stopped
    ensures session in t.stopped ==> session in t'.stopped
    ensures session in t'.stopped ==> session in t.stopped || session in t.taken
    ensures session in t.stopped ==> session !in t'.taken
  {
  }

  lemma StepTable(w: World, step: Step)
    ensures var t, t' := w.table, After(w, step).table;
            t' == t || (exists id, opens :: t' == Ensured(t, id, opens)) || (exists id :: t' == TakenOut(t, id))
            || (exists s :: t' == Stopped(t, s))
  {
  }

  /** A session out of the table was taken out by one restart and no more; one still in it by none. */
  lemma {:induction false} TakenOutOnce(steps: seq<Step>, session: nat)
    ensures var t := Run(START, steps).table;
            TimesTaken(steps, session) == if session in t.taken || session in t.stopped then 1 else 0
  {
    if steps == [] {
    } else {
      var earlier, last := steps[..|steps| - 1], steps[|steps| - 1];
      TakenOutOnce(earlier, session);
      RunIsSound(earlier);
      RunIsSound(steps);
      StepTable(Run(START, earlier), last);
      StepTakesOrStops(Run(START, earlier).table, Run(START, steps).table, session);
    }
  }

  /**
   In every interleaving, a session ever opened is registered under one account, or taken out and on its way to be
   stopped, or stopped; never two of these, and never stopped twice.
   */
  lemma EverySessionHasOneFate(steps: seq<Step>, session: nat)
    requires session < Run(START, steps).table.created
    ensures var t := Run(START, steps).table;
            && (Registered(t, session) || session in t.taken || session in t.stopped)
            && !(Registered(t, session) && session in t.taken)
            && !(Registered(t, session) && session in t.stopped)
            && !(session in t.taken && session in t.stopped)
            && (forall i, j :: i in t.running && j in t.running && t.running[i] == session == t.running[j] ==> i == j)
            && (forall m, n :: 0 <= m < n < |t.stopped| ==> !(t.stopped[m] == session == t.stopped[n]))
  {
    RunIsSound(steps);
  }

  /** In every interleaving, what the sync closes is a session whose account row is gone for good. */
  lemma OrphansAreGone(steps: seq<Step>)
    ensures var w := Run(START, steps);
            w.phase.Closing? ==> forall id :: id in w.phase.left ==> id in w.deleted && id !in w.accounts
  {
    RunIsSound(steps);
  }

  // ----- whose restart it is -----

  /** The account a session of the run was opened for. */
  function OwnerOf(steps: seq<Step>, session: nat): Option<Id> {
    if steps == [] then None
    else
      var earlier, last := steps[..|steps| - 1], steps[|steps| - 1];
      var w, owner := Run(START, earlier), OwnerOf(earlier, session);
      if owner.Some? then owner
      else if last == EnsureNext(true) && w.phase.Opening? && w.phase.left != []
              && w.phase.left[0] !in w.table.running && w.table.created == session
      then Some(w.phase.left[0])
      else None
  }

  lemma {:induction false} NotYetOwned(steps: seq<Step>, session: nat)
    requires Run(START, steps).table.created <= session
    ensures OwnerOf(steps, session) == None
  {
    if steps == [] {
    } else {
      CreatedGrows(Run(START, steps[..|steps| - 1]), steps[|steps| - 1]);
      NotYetOwned(steps[..|steps| - 1], session);
    }
  }

  lemma CreatedGrows(w: World, step: Step)
    ensures w.table.created <= After(w, step).table.created
  {
  }

  /** What a step leaves registered under an account was there before, or it has just been opened for it. */
  lemma RegisteredBefore(w: World, step: Step, id: Id)
    requires id in After(w, step).table.running
    ensures var t, t' := w.table, After(w, step).table;
            || (id in t.running && t.running[id] == t'.running[id])
            || (step == EnsureNext(true) && w.phase.Opening? && w.phase.left != [] && w.phase.left[0] == id
                && id !in t.running && t'.running[id] == t.created)
  {
  }

  /** A session is only ever registered under the account it was opened for. */
  lemma {:induction false} RegisteredUnderItsOwner(steps: seq<Step>, id: Id)
    requires id in Run(START, steps).table.running
    ensures OwnerOf(steps, Run(START, steps).table.running[id]) == Some(id)
  {
    if steps == [] {
    } else {
      var earlier, last := steps[..|steps| - 1], steps[|steps| - 1];
      var w := Run(START, earlier);
      RegisteredBefore(w, last, id);
      hide After;
      if id in w.table.running && w.table.running[id] == Run(START, steps).table.running[id] {
        RegisteredUnderItsOwner(earlier, id);
      } else {
        NotYetOwned(earlier, w.table.created);
      }
    }
  }

  /** The step took this session out. */
  predicate Takes(t: Table, t': Table, session: nat) {
    session in t'.taken && session !in t.taken
  }

  /**
   In every interleaving, a watcher that sees its session logged out takes out that session if and only if it is still
   registered; and it takes out another if and only if its own was gone by then and the account had a new one.
   */
  lemma LogoutTakesWhatIsRegistered(steps: seq<Step>, id: Id, session: nat)
    requires OwnerOf(steps, session) == Some(id)
    ensures var t := Run(START, steps).table;
            var t' := After(Run(START, steps), LoggedOut(id, session)).table;
            && (Takes(t, t', session) <==> Registered(t, session))
            && ((exists other :: other != session && Takes(t, t', other))
                <==> id in t.running && !Registered(t, session))
  {
    RunIsSound(steps);
    var t := Run(START, steps).table;
    var t' := After(Run(START, steps), LoggedOut(id, session)).table;
    assert t' == TakenOut(t, id);
    hide Run, OwnerOf;
    if Registered(t, session) {
      var at :| at in t.running && t.running[at] == session;
      RegisteredUnderItsOwner(steps, at);
    } else if id in t.running {
      assert Takes(t, t', t.running[id]);
    }
  }

  lemma RunNext(steps: seq<Step>, step: Step)
    ensures Run(START, steps + [step]) == After(Run(START, steps), step)
    ensures forall session :: OwnerOf(steps, session).Some? ==>
            OwnerOf(steps + [step], session) == OwnerOf(steps, session)
  {
    var all := steps + [step];
    assert all[..|all| - 1] == steps;
    hide After, Run;
    forall session | OwnerOf(steps, session).Some?
      ensures OwnerOf(all, session) == OwnerOf(steps, session)
    {
    }
    assert Run(START, all) == After(Run(START, steps), step) by {
      RunOneMore(all);
    }
  }

  lemma RunOneMore(steps: seq<Step>)
    requires steps != []
    ensures Run(START, steps) == After(Run(START, steps[..|steps| - 1]), steps[|steps| - 1])
  {
    hide After;
  }

  /** One account with its first session, open. */
  lemma FirstSession(id: Id) returns (steps: seq<Step>)
    ensures Run(START, steps) == World(Table(map[id := 0], 1, {}, []), {id}, {}, Opening([id], []))
    ensures OwnerOf(steps, 0) == Some(id)
  {
    hide Run, OwnerOf;
    RunOfNothing();
    RunNext([], AddRow(id));
    RunNext([] + [AddRow(id)], ReadAccounts([id]));
    var before := [] + [AddRow(id)] + [ReadAccounts([id])];
    assert (set i | i in [id]) == {id};
    assert Run(START, before) == World(EMPTY, {id}, {}, Opening([id], [id]));
    RunNext(before, EnsureNext(true));
    steps := before + [EnsureNext(true)];
    assert [id][1..] == [] && EMPTY.running[id := 0] == map[id := 0];
    assert Ensured(EMPTY, id, true) == Table(map[id := 0], 1, {}, []);
    Opens(before, id, 0);
  }

  lemma RunOfNothing()
    ensures Run(START, []) == START
  {
  }

  lemma Opens(steps: seq<Step>, id: Id, session: nat)
    requires var w := Run(START, steps);
             w.phase.Opening? && w.phase.left != [] && w.phase.left[0] == id && id !in w.table.running
             && w.table.created == session
    ensures OwnerOf(steps + [EnsureNext(true)], session) == Some(id)
  {
    assert (steps + [EnsureNext(true)])[..|steps|] == steps;
    NotYetOwned(steps, session);
  }

  /** A late watcher: its session was restarted and replaced, and it takes out the replacement. */
  lemma LateLogout(id: Id) returns (steps: seq<Step>)
    ensures var t := Run(START, steps).table;
            && OwnerOf(steps, 0) == Some(id) && t.stopped == [0] && t.running == map[id := 1]
            && Takes(t, After(Run(START, steps), LoggedOut(id, 0)).table, 1)
  {
    var s0 := FirstSession(id);
    hide Run, OwnerOf;
    var s1 := s0 + [Take(id)];
    RunNext(s0, Take(id));
    var s2 := s1 + [StopTaken(0)];
    RunNext(s1, StopTaken(0));
    assert Run(START, s2) == World(Table(map[], 1, {}, [0]), {id}, {}, Opening([id], []));
    var s3 := s2 + [ListRunning([])];
    RunNext(s2, ListRunning([]));
    var s4 := s3 + [CloseNext];
    RunNext(s3, CloseNext);
    assert Run(START, s4) == World(Table(map[], 1, {}, [0]), {id}, {}, Idle);
    var s5 := s4 + [ReadAccounts([id])];
    assert (set i | i in [id]) == {id};
    RunNext(s4, ReadAccounts([id]));
    steps := s5 + [EnsureNext(true)];
    RunNext(s5, EnsureNext(true));
    assert Run(START, steps) == World(Table(map[id := 1], 2, {}, [0]), {id}, {}, Opening([id], []));
  }
}
