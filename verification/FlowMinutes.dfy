/**
 When the collector closes a minute or a window and what then becomes of its flows, told on the clock's own figures:
 60_000_000_000 and 300_000_000_000 nanoseconds.
 */
module FlowMinutes {
  import opened Options
  import opened FlowCollector
  import opened FlowAccounting

  /** The latest instant the collector has been told of. */
  function Latest(now0: int, events: seq<Event>): int {
    if events == [] then now0
    else
      var n := |events| - 1;
      var latest := Latest(now0, events[..n]);
      if events[n].Tick? && latest < events[n].now then events[n].now else latest
  }

  lemma FarApart(d: int, n: int)
    requires 0 < d
    ensures 1 <= n ==> d <= d * n
    ensures n <= -1 ==> d * n <= -d
  {
  }

  lemma TruncateIs(t: int, d: int)
    requires 0 < d
    ensures Truncate(t, d) % d == 0 && Truncate(t, d) <= t < Truncate(t, d) + d
  {
    var m := Truncate(t, d);
    var n := t / d - m / d;
    assert m == d * (t / d) && m == d * (m / d) + m % d;
    assert m % d == d * n;
    FarApart(d, n);
  }

  /** Only one multiple of d is less than d below t. */
  lemma TruncateIsOnly(m: int, t: int, d: int)
    requires 0 < d && m % d == 0 && m <= t < m + d
    ensures Truncate(t, d) == m
  {
    TruncateIs(t, d);
    var m' := Truncate(t, d);
    var n := m' / d - m / d;
    assert m == d * (m / d) && m' == d * (m' / d);
    assert m' - m == d * n;
    hide Truncate;
    FarApart(d, n);
  }

  /** The open interval starts at a multiple of its length, and the latest instant lies in it. */
  ghost predicate Opened(open: int, latest: int, length: int)
    requires 0 < length
  {
    open % length == 0 && open <= latest < open + length
  }

  lemma OpenedNext(open: int, latest: int, now: int, d: int)
    requires 0 < d && Opened(open, latest, d)
    ensures Truncate(now, d) <= open <==> now < open + d
    ensures now < open + d ==> Opened(open, if latest < now then now else latest, d)
    ensures open + d <= now ==> latest < now && Opened(Truncate(now, d), now, d)
  {
    TruncateIs(now, d);
    if now < open + d {
      if open < Truncate(now, d) {
        TruncateIsOnly(open, now, d);
      }
    }
  }

  /** In every run the open minute and the open window are those of the latest instant. */
  lemma {:induction false} OpenIsTheLatest(fails: nat -> bool, policy: Policy, now0: int, events: seq<Event>)
    ensures var s := Run(fails, Start(policy, now0), events);
            && s.agg.policy == policy && s.agg.minute == s.openMinute && s.agg.window == s.openWindow
            && Opened(s.openMinute, Latest(now0, events), 60_000_000_000)
            && Opened(s.openWindow, Latest(now0, events), 300_000_000_000)
    decreases |events|
  {
    if events == [] {
      TruncateIs(now0, 60_000_000_000);
      TruncateIs(now0, 300_000_000_000);
    } else {
      var n := |events| - 1;
      OpenIsTheLatest(fails, policy, now0, events[..n]);
      var s := Run(fails, Start(policy, now0), events[..n]);
      if events[n].Tick? {
        OpenedNext(s.openMinute, Latest(now0, events[..n]), events[n].now, 60_000_000_000);
        OpenedNext(s.openWindow, Latest(now0, events[..n]), events[n].now, 300_000_000_000);
        hide Truncate, Opened, Flushed;
      }
    }
  }

  /** The rows for one table are in the sink, through one of the calls just made, or still held. */
  predicate StoredOrHeld(log: seq<Call>, log': seq<Call>, pending: Option<Batch>, kind: Kind, rows: Rows) {
    log <= log' && (Call(kind, rows, true) in log'[|log|..] || (pending.Some? && pending.value.Part(kind) == rows))
  }

  lemma WrittenStoresOrHolds(fails: nat -> bool, log: seq<Call>, b: Batch, kind: Kind)
    requires b.Part(kind).flows != []
    ensures var (log', rest, ok) := Written(fails, log, b);
            log <= log' && (Call(kind, b.Part(kind), true) in log'[|log|..] || (!ok && rest.Part(kind) == b.Part(kind)))
  {
    var log', b1 := Written(fails, log, b).0, b.(minute := Blank(b.minute));
    var (log1, ok1) := Offered(fails, log, Minute, b.minute);
    var (log2, ok2) := Offered(fails, log1, TopIPs, b1.topIPs);
    var ok3 := Offered(fails, log2, OwnPrefixes, b1.ownPrefixes).1;
    match kind {
      case Minute =>
        assert ok1 ==> log'[|log|..][0] == log1[|log|] == Call(kind, b.Part(kind), true);
      case TopIPs =>
        assert ok1 && ok2 ==> log'[|log|..][|log1| - |log|] == log2[|log1|] == Call(kind, b.Part(kind), true);
      case OwnPrefixes =>
        assert ok1 && ok2 && ok3 ==> log'[|log|..][|log2| - |log|] == Call(kind, b.Part(kind), true);
    }
  }

  lemma FlushedStoresOrHolds(fails: nat -> bool, log: seq<Call>, pending: Option<Batch>, b: Batch, kind: Kind)
    requires b.Part(kind).flows != []
    ensures var (log', pending') := Flushed(fails, log, pending, b);
            StoredOrHeld(log, log', pending', kind, b.Part(kind))
  {
    hide Written;
    var retried := if pending.Some? then Written(fails, log, pending.value).0 else log;
    if pending.Some? {
      WrittenExtends(fails, log, pending.value);
    }
    WrittenStoresOrHolds(fails, retried, b, kind);
    var log' := Written(fails, retried, b).0;
    assert log'[|log|..] == retried[|log|..] + log'[|retried|..];
  }

  /** What a tick makes of one table: its open flows closed under the time they were open under, or left alone. */
  ghost predicate Closes(s: State, s': State, batch: Batch, kind: Kind, open: int, flows: seq<Flow>) {
    && s'.agg.Open(kind) == []
    && (flows == [] ==> batch.Part(kind).flows == [])
    && (flows != [] ==>
          && batch.Part(kind) == Rows(open, flows)
          && StoredOrHeld(s.log, s'.log, s'.pending, kind, Rows(open, flows)))
  }

  ghost predicate Waits(s: State, s': State, batch: Batch, kind: Kind) {
    s'.agg.Open(kind) == s.agg.Open(kind) && batch.Part(kind).flows == []
  }

  lemma LatestBatch(fails: nat -> bool, policy: Policy, now0: int, events: seq<Event>, now: int)
    returns (s: State, batch: Batch)
    ensures s == Run(fails, Start(policy, now0), events)
    ensures Run(fails, Start(policy, now0), events + [Tick(now)]) == Finished(fails, s, now)
    ensures KeepAll(fails, policy, now0, events + [Tick(now)]).latest.Some?
    ensures batch == KeepAll(fails, policy, now0, events + [Tick(now)]).latest.value.batch
    ensures var (s1, rows) := MinuteClosed(s, now);
            var (_, tops, owns) := WindowClosed(s1, now);
            batch == Batch(rows, tops, owns)
  {
    hide MinuteClosed, WindowClosed, Written, Settle;
    assert (events + [Tick(now)])[..|events|] == events;
    s := Run(fails, Start(policy, now0), events);
    batch := KeepAll(fails, policy, now0, events + [Tick(now)]).latest.value.batch;
  }

  lemma MinuteOfTick(s: State, now: int)
    requires s.agg.minute == s.openMinute
    requires Truncate(now, 60_000_000_000) <= s.openMinute <==> now < s.openMinute + 60_000_000_000
    ensures var (s1, rows) := MinuteClosed(s, now);
            if now < s.openMinute + 60_000_000_000 then rows == NONE && s1 == s
            else rows == Closed(s.openMinute, s.agg.minutes) && s1.agg.minutes == []
                 && s1 == s.(openMinute := s1.openMinute, agg := s1.agg)
                 && s1.agg == s.agg.(minute := s1.agg.minute, minutes := [])
  {
  }

  lemma WindowOfTick(s: State, now: int)
    requires s.agg.window == s.openWindow
    requires Truncate(now, 300_000_000_000) <= s.openWindow <==> now < s.openWindow + 300_000_000_000
    ensures var (s1, tops, owns) := WindowClosed(s, now);
            if now < s.openWindow + 300_000_000_000 then tops == NONE && owns == NONE && s1 == s
            else tops == Closed(s.openWindow, s.agg.Largest()) && owns == Closed(s.openWindow, s.agg.own)
                 && s1.agg.ips == [] && s1.agg.own == [] && s1.agg.minutes == s.agg.minutes
                 && s1.openMinute == s.openMinute && s1.openWindow == Truncate(now, 300_000_000_000)
                 && s1.log == s.log && s1.pending == s.pending
  {
    hide Ranked;
  }

  lemma ClosesOrWaits(fails: nat -> bool, s: State, now: int, batch: Batch, kind: Kind, open: int, flows: seq<Flow>)
    requires var (s1, rows) := MinuteClosed(s, now);
             var (s2, tops, owns) := WindowClosed(s1, now);
             batch == Batch(rows, tops, owns) && s2.agg.Open(kind) == [] && s2.log == s.log
    requires batch.Part(kind) == Closed(open, flows)
    ensures Closes(s, Finished(fails, s, now), batch, kind, open, flows)
  {
    hide MinuteClosed, WindowClosed, Flushed;
    if flows != [] {
      FlushedStoresOrHolds(fails, s.log, WindowClosed(MinuteClosed(s, now).0, now).0.pending, batch, kind);
    }
  }

  /**
   A tick in any run. The flows of the open minute are closed under the minute's own time exactly when the clock has
   reached its end, and then stored or held for one retry; before that nothing happens to them.
   */
  lemma MinuteClosesWhenItEnds(fails: nat -> bool, policy: Policy, now0: int, events: seq<Event>, now: int)
    ensures var s := Run(fails, Start(policy, now0), events);
            var s' := Run(fails, Start(policy, now0), events + [Tick(now)]);
            var latest := KeepAll(fails, policy, now0, events + [Tick(now)]).latest;
            && latest.Some?
            && s.openMinute % 60_000_000_000 == 0 && s'.openMinute % 60_000_000_000 == 0
            && now < s'.openMinute + 60_000_000_000
            && if s.openMinute + 60_000_000_000 <= now then
                 s'.openMinute <= now && Closes(s, s', latest.value.batch, Minute, s.openMinute, s.agg.minutes)
               else
                 s'.openMinute == s.openMinute && Waits(s, s', latest.value.batch, Minute)
  {
    OpenIsTheLatest(fails, policy, now0, events);
    OpenIsTheLatest(fails, policy, now0, events + [Tick(now)]);
    var s, batch := LatestBatch(fails, policy, now0, events, now);
    OpenedNext(s.openMinute, Latest(now0, events), now, 60_000_000_000);
    MinuteOfTick(s, now);
    hide Truncate;
    if s.openMinute + 60_000_000_000 <= now {
      ClosesOrWaits(fails, s, now, batch, Minute, s.openMinute, s.agg.minutes);
    }
  }

  lemma {:induction false} RankedOnlyKeeps(
      policy: Policy, window: int, all: seq<Flow>, flows: seq<Flow>, kept: bool, flow: Flow)
    requires policy.keeps(window, all, flow) != kept
    ensures multiset(Ranked(policy, window, all, flows, kept))[flow] == 0
  {
    if flows != [] {
      RankedOnlyKeeps(policy, window, all, flows[..|flows| - 1], kept, flow);
      var last := flows[|flows| - 1];
      var rest := Ranked(policy, window, all, flows[..|flows| - 1], kept);
      if policy.keeps(window, all, last) == kept {
        assert Ranked(policy, window, all, flows, kept) == rest + [last];
      } else {
        assert Ranked(policy, window, all, flows, kept) == rest;
      }
    }
  }

  /** The close of a window keeps every flow the policy keeps, as often as it is there, and no other. */
  lemma LargestAreThoseKept(agg: Aggregate, flow: Flow)
    ensures multiset(agg.Largest())[flow]
         == if agg.policy.keeps(agg.window, agg.ips, flow) then multiset(agg.ips)[flow] else 0
  {
    var kept := agg.policy.keeps(agg.window, agg.ips, flow);
    RankedOnlyKeeps(agg.policy, agg.window, agg.ips, agg.ips, !kept, flow);
    RankedSplits(agg.policy, agg.window, agg.ips, agg.ips);
    hide Ranked;
  }

  /**
   The same of the window: its flows towards our own prefixes all close when it ends, and of those towards addresses
   exactly the ones the policy keeps.
   */
  lemma WindowClosesWhenItEnds(fails: nat -> bool, policy: Policy, now0: int, events: seq<Event>, now: int)
    returns (tops: seq<Flow>)
    ensures var s := Run(fails, Start(policy, now0), events);
            var s' := Run(fails, Start(policy, now0), events + [Tick(now)]);
            var latest := KeepAll(fails, policy, now0, events + [Tick(now)]).latest;
            && latest.Some?
            && s.openWindow % 300_000_000_000 == 0 && s'.openWindow % 300_000_000_000 == 0
            && now < s'.openWindow + 300_000_000_000
            && if s.openWindow + 300_000_000_000 <= now then
                 && s'.openWindow <= now
                 && Closes(s, s', latest.value.batch, TopIPs, s.openWindow, tops)
                 && Closes(s, s', latest.value.batch, OwnPrefixes, s.openWindow, s.agg.own)
               else
                 && s'.openWindow == s.openWindow
                 && Waits(s, s', latest.value.batch, TopIPs) && Waits(s, s', latest.value.batch, OwnPrefixes)
    ensures var s := Run(fails, Start(policy, now0), events);
            forall flow :: multiset(tops)[flow]
                           == if policy.keeps(s.openWindow, s.agg.ips, flow) then multiset(s.agg.ips)[flow] else 0
  {
    OpenIsTheLatest(fails, policy, now0, events);
    OpenIsTheLatest(fails, policy, now0, events + [Tick(now)]);
    var s, batch := LatestBatch(fails, policy, now0, events, now);
    OpenedNext(s.openWindow, Latest(now0, events), now, 300_000_000_000);
    tops := s.agg.Largest();
    forall flow
      ensures multiset(tops)[flow]
           == if policy.keeps(s.openWindow, s.agg.ips, flow) then multiset(s.agg.ips)[flow] else 0
    {
      LargestAreThoseKept(s.agg, flow);
    }
    hide Run, KeepAll, Ranked, Truncate;
    WindowTick(fails, s, now, batch);
  }

  /** The same from any state whose window is where the aggregator's is. */
  lemma WindowTick(fails: nat -> bool, s: State, now: int, batch: Batch)
    requires s.agg.window == s.openWindow
    requires Truncate(now, 300_000_000_000) <= s.openWindow <==> now < s.openWindow + 300_000_000_000
    requires var (s1, rows) := MinuteClosed(s, now);
             var (_, tops, owns) := WindowClosed(s1, now);
             batch == Batch(rows, tops, owns)
    ensures var s' := Finished(fails, s, now);
            if s.openWindow + 300_000_000_000 <= now then
              && s'.openWindow == Truncate(now, 300_000_000_000)
              && Closes(s, s', batch, TopIPs, s.openWindow, s.agg.Largest())
              && Closes(s, s', batch, OwnPrefixes, s.openWindow, s.agg.own)
            else
              && s'.openWindow == s.openWindow
              && Waits(s, s', batch, TopIPs) && Waits(s, s', batch, OwnPrefixes)
  {
    MinuteOfWindow(s, now);
    WindowOfTick(MinuteClosed(s, now).0, now);
    hide Truncate, Ranked, MinuteClosed, Flushed, StoredOrHeld;
    if s.openWindow + 300_000_000_000 <= now {
      ClosesOrWaits(fails, s, now, batch, TopIPs, s.openWindow, s.agg.Largest());
      ClosesOrWaits(fails, s, now, batch, OwnPrefixes, s.openWindow, s.agg.own);
    }
  }

  /** The window does not see the minute's close. */
  lemma MinuteOfWindow(s: State, now: int)
    ensures var s1 := MinuteClosed(s, now).0;
            && s1.openWindow == s.openWindow && s1.agg.window == s.agg.window && s1.agg.policy == s.agg.policy
            && s1.agg.ips == s.agg.ips && s1.agg.own == s.agg.own && s1.log == s.log && s1.pending == s.pending
  {
  }

  /** Every flow counts towards every table, except that one without a prefix of ours stays out of that table. */
  lemma {:induction false} CountedIs(flows: seq<Flow>, kind: Kind, flow: Flow)
    ensures multiset(Counted(flows, kind))[flow]
         == if kind == OwnPrefixes && !flow.own then 0 else multiset(flows)[flow]
  {
    if flows != [] {
      var earlier, last := flows[..|flows| - 1], flows[|flows| - 1];
      CountedIs(earlier, kind, flow);
      assert flows == earlier + [last];
      CountedOneMore(earlier, last, kind);
    }
  }

  /** A policy that ignores and leaves out nothing costs nothing. */
  lemma {:induction false} NothingCut(fails: nat -> bool, policy: Policy, now0: int, events: seq<Event>)
    requires forall seen, flow :: !policy.ignores(seen, flow)
    requires forall window, all, flow :: policy.keeps(window, all, flow)
    ensures KeepAll(fails, policy, now0, events).cut == multiset{}
    decreases |events|
  {
    if events == [] {
    } else {
      var n := |events| - 1;
      NothingCut(fails, policy, now0, events[..n]);
      OpenIsTheLatest(fails, policy, now0, events[..n]);
      var s, books := Run(fails, Start(policy, now0), events[..n]), KeepAll(fails, policy, now0, events[..n]);
      assert KeepAll(fails, policy, now0, events) == Keep(fails, s, books, events[n]);
      NothingLeftOut(s.agg);
      hide Ranked;
    }
  }

  lemma NothingLeftOut(agg: Aggregate)
    requires forall window, all, flow :: agg.policy.keeps(window, all, flow)
    ensures multiset(Ranked(agg.policy, agg.window, agg.ips, agg.ips, false)) == multiset{}
  {
    forall flow: Flow
      ensures multiset(Ranked(agg.policy, agg.window, agg.ips, agg.ips, false))[flow] == 0
    {
      RankedOnlyKeeps(agg.policy, agg.window, agg.ips, agg.ips, false, flow);
    }
  }
}
