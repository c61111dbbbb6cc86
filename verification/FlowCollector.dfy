/**
 The flow collector's minute closes and the writer that stores them. The clock is any sequence of
 instants, stepping back included, and the sink fails on any calls it likes; a failed call stores nothing.
 The Aggregator is an accumulator that each close drains. For the top addresses it may ignore a flow to a new address,
 and a close keeps only the largest: which flows that costs is any policy at all.
 */
module FlowCollector {
  import opened Options

  /** One placed flow record; only some concern a prefix announced as our own. */
  datatype Flow = Flow(id: nat, own: bool)

  /** The rows one close made for one table: the time they carry and the flows they total. */
  datatype Rows = Rows(stamp: int, flows: seq<Flow>)

  const NONE := Rows(0, [])

  function Closed(stamp: int, flows: seq<Flow>): Rows {
    if flows == [] then NONE else Rows(stamp, flows)
  }

  datatype Kind = Minute | TopIPs | OwnPrefixes

  /** What one minute close produced, or what of it is still unwritten. */
  datatype Batch = Batch(minute: Rows, topIPs: Rows, ownPrefixes: Rows) {
    function Part(kind: Kind): Rows {
      match kind
      case Minute => minute
      case TopIPs => topIPs
      case OwnPrefixes => ownPrefixes
    }
  }

  const EMPTY := Batch(NONE, NONE, NONE)

  /** One call on the sink and how it ended. */
  datatype Call = Call(kind: Kind, rows: Rows, ok: bool)

  const MINUTE := 60_000_000_000
  const WINDOW := 5 * MINUTE

  /** time.Truncate: down to a multiple of d, also before the zero time. */
  function Truncate(t: int, d: int): int
    requires 0 < d
  {
    t - t % d
  }

  // ----- what the program does, on values -----

  /**
   What the top-address table leaves out: whether a flow is ignored, given those counted in the window (its POP's table
   is full and its address is not in it), and whether a flow of a window is kept by the close (its address is among the
   largest of its group).
   */
  datatype Policy = Policy(ignores: (seq<Flow>, Flow) -> bool, keeps: (int, seq<Flow>, Flow) -> bool)

  /** The flows of a window that its close keeps, or those it does not. */
  function Ranked(policy: Policy, window: int, all: seq<Flow>, flows: seq<Flow>, kept: bool): seq<Flow> {
    if flows == [] then []
    else
      var last := flows[|flows| - 1];
      Ranked(policy, window, all, flows[..|flows| - 1], kept)
      + if policy.keeps(window, all, last) == kept then [last] else []
  }

  datatype Aggregate = Aggregate(
    policy: Policy, minute: int, window: int, minutes: seq<Flow>, ips: seq<Flow>, own: seq<Flow>) {
    function Add(flow: Flow): Aggregate {
      this.(minutes := minutes + [flow],
            ips := if policy.ignores(ips, flow) then ips else ips + [flow],
            own := own + if flow.own then [flow] else [])
    }

    function Largest(): seq<Flow> {
      Ranked(policy, window, ips, ips, true)
    }

    function Open(kind: Kind): seq<Flow> {
      match kind
      case Minute => minutes
      case TopIPs => ips
      case OwnPrefixes => own
    }
  }

  datatype State = State(
    agg: Aggregate, openMinute: int, openWindow: int, pending: Option<Batch>, log: seq<Call>)

  function Start(policy: Policy, now: int): State {
    State(Aggregate(policy, Truncate(now, MINUTE), Truncate(now, WINDOW), [], [], []),
          Truncate(now, MINUTE), Truncate(now, WINDOW), None, [])
  }

  function MinuteClosed(s: State, now: int): (State, Rows) {
    if Truncate(now, MINUTE) <= s.openMinute then (s, NONE)
    else
      (s.(openMinute := Truncate(now, MINUTE), agg := s.agg.(minute := Truncate(now, MINUTE), minutes := [])),
       Closed(s.agg.minute, s.agg.minutes))
  }

  function WindowClosed(s: State, now: int): (State, Rows, Rows) {
    if Truncate(now, WINDOW) <= s.openWindow then (s, NONE, NONE)
    else
      (s.(openWindow := Truncate(now, WINDOW), agg := s.agg.(window := Truncate(now, WINDOW), ips := [], own := [])),
       Closed(s.agg.window, s.agg.Largest()), Closed(s.agg.window, s.agg.own))
  }

  /** Nothing is offered when there are no rows. */
  function Offered(fails: nat -> bool, log: seq<Call>, kind: Kind, rows: Rows): (seq<Call>, bool) {
    if rows.flows == [] then (log, true)
    else (log + [Call(kind, rows, !fails(|log|))], !fails(|log|))
  }

  function Blank(rows: Rows): Rows {
    if rows.flows == [] then rows else NONE
  }

  /** The parts go in order, and the first that fails keeps itself and those behind it unwritten. */
  function Written(fails: nat -> bool, log: seq<Call>, b: Batch): (seq<Call>, Batch, bool) {
    var (log1, ok1) := Offered(fails, log, Minute, b.minute);
    if !ok1 then (log1, b, false)
    else
      var b1 := b.(minute := Blank(b.minute));
      var (log2, ok2) := Offered(fails, log1, TopIPs, b1.topIPs);
      if !ok2 then (log2, b1, false)
      else
        var b2 := b1.(topIPs := Blank(b1.topIPs));
        var (log3, ok3) := Offered(fails, log2, OwnPrefixes, b2.ownPrefixes);
        if !ok3 then (log3, b2, false) else (log3, EMPTY, true)
  }

  /** One retry for what is pending, then the new batch; only the new one may be kept. */
  function Flushed(fails: nat -> bool, log: seq<Call>, pending: Option<Batch>, b: Batch): (seq<Call>, Option<Batch>) {
    var log' := if pending.Some? then Written(fails, log, pending.value).0 else log;
    var (log'', rest, ok) := Written(fails, log', b);
    (log'', if ok then None else Some(rest))
  }

  function Finished(fails: nat -> bool, s: State, now: int): State {
    var (s1, rows) := MinuteClosed(s, now);
    var (s2, tops, owns) := WindowClosed(s1, now);
    var (log, pending) := Flushed(fails, s2.log, s2.pending, Batch(rows, tops, owns));
    s2.(log := log, pending := pending)
  }

  // ----- the program -----

  class Sink {
    const fails: nat -> bool
    var log: seq<Call>

    constructor (fails: nat -> bool)
      ensures this.fails == fails && log == []
    {
      this.fails := fails;
      log := [];
    }

    method Store(kind: Kind, rows: Rows) returns (err: bool)
      modifies this
      ensures err == fails(old(|log|))
      ensures log == old(log) + [Call(kind, rows, !err)]
    {
      err := fails(|log|);
      log := log + [Call(kind, rows, !err)];
    }
  }

  class Aggregator {
    const policy: Policy
    var minute: int
    var window: int
    var minutes: seq<Flow>
    var ips: seq<Flow>
    var own: seq<Flow>

    function View(): Aggregate
      reads this
    {
      Aggregate(policy, minute, window, minutes, ips, own)
    }

    constructor (policy: Policy, now: int)
      ensures View() == Start(policy, now).agg
    {
      this.policy := policy;
      minute, window := Truncate(now, MINUTE), Truncate(now, WINDOW);
      minutes, ips, own := [], [], [];
    }

    method Add(flow: Flow)
      modifies this
      ensures View() == old(View()).Add(flow)
    {
      minutes := minutes + [flow];
      if !policy.ignores(ips, flow) {
        ips := ips + [flow];
      }
      if flow.own {
        own := own + [flow];
      }
    }

    method CloseMinute(now: int) returns (rows: Rows)
      modifies this
      ensures rows == Closed(old(minute), old(minutes))
      ensures View() == old(View()).(minute := Truncate(now, MINUTE), minutes := [])
    {
      rows := Closed(minute, minutes);
      minute, minutes := Truncate(now, MINUTE), [];
    }

    method CloseWindow(now: int) returns (tops: Rows, owns: Rows)
      modifies this
      ensures tops == Closed(old(window), old(View()).Largest()) && owns == Closed(old(window), old(own))
      ensures View() == old(View()).(window := Truncate(now, WINDOW), ips := [], own := [])
    {
      tops, owns := Closed(window, Ranked(policy, window, ips, ips, true)), Closed(window, own);
      window, ips, own := Truncate(now, WINDOW), [], [];
    }
  }

  class RetryWriter {
    const sink: Sink
    var pending: Option<Batch>

    constructor (sink: Sink)
      ensures this.sink == sink && pending == None
    {
      this.sink := sink;
      pending := None;
    }

    method Flush(batch: Batch)
      modifies this, sink
      ensures (sink.log, pending) == Flushed(sink.fails, old(sink.log), old(pending), batch)
    {
      if pending != None {
        var _, _ := Write(pending.value);
        pending := None;
      }
      var rest, err := Write(batch);
      if err {
        pending := Some(rest);
      }
    }

    method Write(batch: Batch) returns (rest: Batch, err: bool)
      modifies sink
      ensures (sink.log, rest, !err) == Written(sink.fails, old(sink.log), batch)
    {
      var b := batch;
      if 0 < |b.minute.flows| {
        err := sink.Store(Minute, b.minute);
        if err {
          return b, true;
        }
        b := b.(minute := NONE);
      }
      if 0 < |b.topIPs.flows| {
        err := sink.Store(TopIPs, b.topIPs);
        if err {
          return b, true;
        }
        b := b.(topIPs := NONE);
      }
      if 0 < |b.ownPrefixes.flows| {
        err := sink.Store(OwnPrefixes, b.ownPrefixes);
        if err {
          return b, true;
        }
      }
      return EMPTY, false;
    }
  }

  class Collector {
    const agg: Aggregator
    var openMinute: int
    var openWindow: int

    constructor (policy: Policy, now: int)
      ensures fresh(agg)
      ensures agg.View() == Start(policy, now).agg && openMinute == Truncate(now, MINUTE)
              && openWindow == Truncate(now, WINDOW)
    {
      agg := new Aggregator(policy, now);
      openMinute, openWindow := Truncate(now, MINUTE), Truncate(now, WINDOW);
    }

    ghost function View(writer: RetryWriter): State
      reads this, agg, writer, writer.sink
    {
      State(agg.View(), openMinute, openWindow, writer.pending, writer.sink.log)
    }

    method CloseMinute(now: int) returns (rows: Rows)
      modifies this, agg
      ensures openWindow == old(openWindow)
      ensures forall w: RetryWriter :: old(allocated(w)) ==> (View(w), rows) == MinuteClosed(old(View(w)), now)
    {
      if !(Truncate(now, MINUTE) > openMinute) {
        return NONE;
      }
      openMinute := Truncate(now, MINUTE);
      rows := agg.CloseMinute(now);
    }

    method CloseWindowIfDue(now: int) returns (tops: Rows, owns: Rows)
      modifies this, agg
      ensures forall w: RetryWriter :: old(allocated(w)) ==> (View(w), tops, owns) == WindowClosed(old(View(w)), now)
    {
      if !(Truncate(now, WINDOW) > openWindow) {
        return NONE, NONE;
      }
      openWindow := Truncate(now, WINDOW);
      tops, owns := agg.CloseWindow(now);
    }
  }

  method FinishMinute(c: Collector, w: RetryWriter, now: int)
    modifies c, c.agg, w, w.sink
    ensures c.View(w) == Finished(w.sink.fails, old(c.View(w)), now)
  {
    var rows := c.CloseMinute(now);
    var tops, owns := c.CloseWindowIfDue(now);
    w.Flush(Batch(rows, tops, owns));
  }
}
