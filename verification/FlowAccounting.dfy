/**
 Every flow counted is open, pending, stored, dropped or cut from the top addresses, whatever the clock and the sink do.
 The books kept beside a run remember each batch's life: what it held, what of it is left, and the sink calls made for
 it.
 */
module FlowAccounting {
  import opened Options
  import opened FlowCollector

  datatype Event = Add(flow: Flow) | Tick(now: int)

  function Step(fails: nat -> bool, s: State, e: Event): State {
    match e
    case Add(flow) => s.(agg := s.agg.Add(flow))
    case Tick(now) => Finished(fails, s, now)
  }

  function Run(fails: nat -> bool, s: State, events: seq<Event>): State
    decreases |events|
  {
    if events == [] then s
    else
      var n := |events| - 1;
      Step(fails, Run(fails, s, events[..n]), events[n])
  }

  // ----- the books -----

  datatype Life = Life(batch: Batch, left: Batch, calls: seq<Call>, tries: nat)

  datatype Books = Books(counted: seq<Flow>, settled: seq<Life>, latest: Option<Life>, cut: multiset<Flow>) {
    function Lives(): seq<Life> {
      settled + if latest.Some? then [latest.value] else []
    }
  }

  function Try(fails: nat -> bool, log: seq<Call>, life: Life): Life
    requires |log| <= |Written(fails, log, life.left).0|
  {
    var (log', rest, _) := Written(fails, log, life.left);
    life.(left := rest, calls := life.calls + log'[|log|..], tries := life.tries + 1)
  }

  function Settle(fails: nat -> bool, s: State, books: Books): seq<Life>
    requires s.pending.Some? ==> books.latest.Some?
  {
    books.settled +
    if books.latest.None? then []
    else if s.pending.Some? then
      WrittenExtends(fails, s.log, books.latest.value.left);
      [Try(fails, s.log, books.latest.value)]
    else [books.latest.value]
  }

  /** What the top-address table gives up at an event: the flow it ignores, or those its close does not keep. */
  function CutIn(s: State, e: Event): multiset<Flow> {
    match e
    case Add(flow) => if s.agg.policy.ignores(s.agg.ips, flow) then multiset{flow} else multiset{}
    case Tick(now) =>
      if Truncate(now, WINDOW) <= s.openWindow then multiset{}
      else multiset(Ranked(s.agg.policy, s.agg.window, s.agg.ips, s.agg.ips, false))
  }

  function Keep(fails: nat -> bool, s: State, books: Books, e: Event): Books
    requires s.pending.Some? ==> books.latest.Some?
  {
    match e
    case Add(flow) => books.(counted := books.counted + [flow], cut := books.cut + CutIn(s, e))
    case Tick(now) =>
      var (s1, rows) := MinuteClosed(s, now);
      var (s2, tops, owns) := WindowClosed(s1, now);
      var b := Batch(rows, tops, owns);
      var log := if s.pending.Some? then Written(fails, s.log, s.pending.value).0 else s.log;
      WrittenExtends(fails, log, b);
      Books(books.counted, Settle(fails, s, books), Some(Try(fails, log, Life(b, b, [], 0))),
            books.cut + CutIn(s, e))
  }

  lemma WrittenExtends(fails: nat -> bool, log: seq<Call>, b: Batch)
    ensures log <= Written(fails, log, b).0
  {
  }

  // ----- what the books must say -----

  function StoredFlows(calls: seq<Call>, kind: Kind): seq<Flow> {
    if calls == [] then []
    else (if calls[0].kind == kind && calls[0].ok then calls[0].rows.flows else []) + StoredFlows(calls[1..], kind)
  }

  function Offers(calls: seq<Call>, kind: Kind): seq<Call> {
    if calls == [] then []
    else (if calls[0].kind == kind then [calls[0]] else []) + Offers(calls[1..], kind)
  }

  function Failures(calls: seq<Call>): nat {
    if calls == [] then 0 else (if calls[0].ok then 0 else 1) + Failures(calls[1..])
  }

  predicate Canonical(b: Batch) {
    forall kind: Kind :: b.Part(kind).flows == [] ==> b.Part(kind) == NONE
  }

  /** One write of `b` that made `calls` and left `rest`: each part is offered at most once, and only as it stands. */
  predicate Attempt(b: Batch, rest: Batch, calls: seq<Call>, kind: Kind) {
    var part := b.Part(kind);
    if part == NONE then Offers(calls, kind) == [] && rest.Part(kind) == NONE
    else if rest.Part(kind) == NONE then Offers(calls, kind) == [Call(kind, part, true)]
    else rest.Part(kind) == part && (Offers(calls, kind) == [] || Offers(calls, kind) == [Call(kind, part, false)])
  }

  lemma {:induction false} OffersAppend(p: seq<Call>, q: seq<Call>, kind: Kind)
    ensures Offers(p + q, kind) == Offers(p, kind) + Offers(q, kind)
  {
    hide Offers;
    if p == [] {
      OffersOfOne(p, kind);
      assert p + q == q;
    } else {
      OffersAppend(p[1..], q, kind);
      OffersFirst(p, kind);
      OffersFirst(p + q, kind);
      assert (p + q)[1..] == p[1..] + q && (p + q)[0] == p[0];
    }
  }

  lemma OffersFirst(calls: seq<Call>, kind: Kind)
    requires calls != []
    ensures Offers(calls, kind) == (if calls[0].kind == kind then [calls[0]] else []) + Offers(calls[1..], kind)
  {
  }

  lemma {:induction false} StoredAppend(p: seq<Call>, q: seq<Call>, kind: Kind)
    ensures StoredFlows(p + q, kind) == StoredFlows(p, kind) + StoredFlows(q, kind)
  {
    if p == [] {
      assert p + q == q;
    } else {
      assert (p + q)[1..] == p[1..] + q;
      StoredAppend(p[1..], q, kind);
    }
  }

  lemma {:induction false} FailuresAppend(p: seq<Call>, q: seq<Call>)
    ensures Failures(p + q) == Failures(p) + Failures(q)
  {
    if p == [] {
      assert p + q == q;
    } else {
      assert (p + q)[1..] == p[1..] + q;
      FailuresAppend(p[1..], q);
    }
  }

  /** The calls one write makes: none for an empty part, and none past the first failure. */
  function CallsOf(fails: nat -> bool, n: nat, b: Batch): seq<Call> {
    var c1 := if b.minute == NONE then [] else [Call(Minute, b.minute, !fails(n))];
    if b.minute != NONE && fails(n) then c1
    else
      var n2 := n + |c1|;
      var c2 := if b.topIPs == NONE then [] else [Call(TopIPs, b.topIPs, !fails(n2))];
      if b.topIPs != NONE && fails(n2) then c1 + c2
      else
        var n3 := n2 + |c2|;
        var c3 := if b.ownPrefixes == NONE then [] else [Call(OwnPrefixes, b.ownPrefixes, !fails(n3))];
        c1 + c2 + c3
  }

  lemma WrittenCalls(fails: nat -> bool, log: seq<Call>, b: Batch)
    requires Canonical(b)
    ensures Written(fails, log, b).0 == log + CallsOf(fails, |log|, b)
  {
    assert Canonical(b) ==> forall kind: Kind :: b.Part(kind).flows == [] <==> b.Part(kind) == NONE;
    assert b.Part(Minute) == b.minute && b.Part(TopIPs) == b.topIPs && b.Part(OwnPrefixes) == b.ownPrefixes;
  }

  /** At most one call of each kind, in the order of the kinds. */
  predicate OneEach(c1: seq<Call>, c2: seq<Call>, c3: seq<Call>) {
    && |c1| <= 1 && |c2| <= 1 && |c3| <= 1
    && (c1 != [] ==> c1[0].kind == Minute)
    && (c2 != [] ==> c2[0].kind == TopIPs)
    && (c3 != [] ==> c3[0].kind == OwnPrefixes)
  }

  lemma OffersOneEach(c1: seq<Call>, c2: seq<Call>, c3: seq<Call>, kind: Kind)
    requires OneEach(c1, c2, c3)
    ensures Offers(c1 + c2 + c3, kind) == match kind case Minute => c1 case TopIPs => c2 case OwnPrefixes => c3
  {
    hide Offers;
    OffersAppend(c1, c2, kind);
    OffersAppend(c1 + c2, c3, kind);
    OffersOfOne(c1, kind);
    OffersOfOne(c2, kind);
    OffersOfOne(c3, kind);
    assert c1 + [] == c1 && [] + c2 == c2 && c2 + [] == c2 && [] + c3 == c3;
  }

  lemma OffersOfOne(calls: seq<Call>, kind: Kind)
    requires |calls| <= 1
    ensures Offers(calls, kind) == if calls != [] && calls[0].kind == kind then calls else []
  {
    if calls == [] {
    } else {
      assert calls[1..] == [] && calls == [calls[0]];
    }
  }

  lemma FailuresOneEach(c1: seq<Call>, c2: seq<Call>, c3: seq<Call>)
    requires OneEach(c1, c2, c3)
    ensures Failures(c1 + c2 + c3) == Failures(c1) + Failures(c2) + Failures(c3)
  {
    FailuresAppend(c1, c2);
    FailuresAppend(c1 + c2, c3);
  }

  /** How one write may end. */
  predicate Outcome(b: Batch, rest: Batch, calls: seq<Call>, kind: Kind) {
    && Canonical(rest)
    && Attempt(b, rest, calls, kind)
    && Failures(calls) == (if rest == EMPTY then 0 else 1)
  }

  lemma CanonicalParts(b: Batch)
    ensures Canonical(b) <==>
            && (b.minute.flows == [] ==> b.minute == NONE)
            && (b.topIPs.flows == [] ==> b.topIPs == NONE)
            && (b.ownPrefixes.flows == [] ==> b.ownPrefixes == NONE)
  {
    assert b.Part(Minute) == b.minute && b.Part(TopIPs) == b.topIPs && b.Part(OwnPrefixes) == b.ownPrefixes;
  }

  lemma FirstPartFails(b: Batch, kind: Kind)
    requires Canonical(b) && b.minute != NONE
    ensures Outcome(b, b, [Call(Minute, b.minute, false)], kind)
  {
    var calls := [Call(Minute, b.minute, false)];
    assert calls + [] + [] == calls;
    OffersOneEach(calls, [], [], kind);
  }

  lemma SecondPartFails(b: Batch, c1: seq<Call>, kind: Kind)
    requires Canonical(b) && b.topIPs != NONE
    requires c1 == if b.minute == NONE then [] else [Call(Minute, b.minute, true)]
    ensures Outcome(b, b.(minute := NONE), c1 + [Call(TopIPs, b.topIPs, false)], kind)
  {
    var c2 := [Call(TopIPs, b.topIPs, false)];
    CanonicalParts(b);
    CanonicalParts(b.(minute := NONE));
    assert c1 + c2 + [] == c1 + c2;
    OffersOneEach(c1, c2, [], kind);
    FailuresOneEach(c1, c2, []);
  }

  lemma ThirdPartFails(b: Batch, c1: seq<Call>, c2: seq<Call>, kind: Kind)
    requires Canonical(b) && b.ownPrefixes != NONE
    requires c1 == if b.minute == NONE then [] else [Call(Minute, b.minute, true)]
    requires c2 == if b.topIPs == NONE then [] else [Call(TopIPs, b.topIPs, true)]
    ensures Outcome(b, b.(minute := NONE, topIPs := NONE), c1 + c2 + [Call(OwnPrefixes, b.ownPrefixes, false)], kind)
  {
    var c3 := [Call(OwnPrefixes, b.ownPrefixes, false)];
    CanonicalParts(b);
    CanonicalParts(b.(minute := NONE, topIPs := NONE));
    OffersOneEach(c1, c2, c3, kind);
    FailuresOneEach(c1, c2, c3);
  }

  lemma NoPartFails(b: Batch, c1: seq<Call>, c2: seq<Call>, c3: seq<Call>, kind: Kind)
    requires Canonical(b)
    requires c1 == if b.minute == NONE then [] else [Call(Minute, b.minute, true)]
    requires c2 == if b.topIPs == NONE then [] else [Call(TopIPs, b.topIPs, true)]
    requires c3 == if b.ownPrefixes == NONE then [] else [Call(OwnPrefixes, b.ownPrefixes, true)]
    ensures Outcome(b, EMPTY, c1 + c2 + c3, kind)
  {
    CanonicalParts(EMPTY);
    OffersOneEach(c1, c2, c3, kind);
    FailuresOneEach(c1, c2, c3);
  }

  lemma WrittenIsAnAttempt(fails: nat -> bool, log: seq<Call>, b: Batch, kind: Kind)
    requires Canonical(b)
    ensures var (log', rest, ok) := Written(fails, log, b);
            && log' == log + CallsOf(fails, |log|, b)
            && Outcome(b, rest, CallsOf(fails, |log|, b), kind)
            && (ok <==> rest == EMPTY)
  {
    hide Outcome;
    WrittenCalls(fails, log, b);
    CanonicalParts(b);
    var n := |log|;
    var c1 := if b.minute == NONE then [] else [Call(Minute, b.minute, !fails(n))];
    var n2 := n + |c1|;
    var c2 := if b.topIPs == NONE then [] else [Call(TopIPs, b.topIPs, !fails(n2))];
    var n3 := n2 + |c2|;
    if b.minute != NONE && fails(n) {
      FirstPartFails(b, kind);
    } else if b.topIPs != NONE && fails(n2) {
      SecondPartFails(b, c1, kind);
    } else if b.ownPrefixes != NONE && fails(n3) {
      ThirdPartFails(b, c1, c2, kind);
    } else {
      NoPartFails(b, c1, c2, if b.ownPrefixes == NONE then [] else [Call(OwnPrefixes, b.ownPrefixes, true)], kind);
    }
  }

  lemma {:induction false} StoredFromOffers(calls: seq<Call>, kind: Kind)
    ensures StoredFlows(calls, kind) == StoredFlows(Offers(calls, kind), kind)
  {
    if calls == [] {
    } else {
      StoredFromOffers(calls[1..], kind);
      if calls[0].kind == kind {
        StoredAppend([calls[0]], Offers(calls[1..], kind), kind);
      } else {
        assert Offers(calls, kind) == Offers(calls[1..], kind);
      }
    }
  }

  // ----- one batch's life -----

  /** What the calls of a batch's life say about one of its parts. */
  predicate PartOk(l: Life, kind: Kind) {
    var part, left, offers := l.batch.Part(kind), l.left.Part(kind), Offers(l.calls, kind);
    && |offers| <= l.tries <= 2
    && (forall n :: 0 <= n < |offers| ==> offers[n].rows == part)
    && (forall n :: 0 <= n < |offers| && offers[n].ok ==> n == |offers| - 1 && left == NONE)
    && (left == NONE || left == part)
    && (part == NONE ==> offers == [])
    && (part != NONE && left == NONE ==> offers != [] && offers[|offers| - 1].ok)
    && StoredFlows(l.calls, kind) + left.flows == part.flows
  }

  /** A batch with something left has failed on every try; the others failed on all tries but the last. */
  predicate LifeOk(l: Life) {
    && Canonical(l.batch) && Canonical(l.left)
    && (forall kind: Kind :: PartOk(l, kind))
    && 1 <= l.tries <= 2
    && Failures(l.calls) == (if l.left == EMPTY then l.tries - 1 else l.tries)
  }

  lemma FirstTry(fails: nat -> bool, log: seq<Call>, b: Batch, l: Life)
    requires Canonical(b)
    requires l == Life(b, Written(fails, log, b).1, CallsOf(fails, |log|, b), 1)
    ensures LifeOk(l)
  {
    hide Written, CallsOf;
    forall kind: Kind
      ensures PartOk(l, kind)
    {
      WrittenIsAnAttempt(fails, log, b, kind);
      StoredFromOffers(l.calls, kind);
    }
    WrittenIsAnAttempt(fails, log, b, Minute);
  }

  lemma SecondTryPart(l: Life, rest: Batch, calls: seq<Call>, kind: Kind)
    requires LifeOk(l) && l.tries == 1 && l.left != EMPTY
    requires Outcome(l.left, rest, calls, kind)
    ensures PartOk(l.(left := rest, calls := l.calls + calls, tries := 2), kind)
  {
    OffersAppend(l.calls, calls, kind);
    StoredAppend(l.calls, calls, kind);
    StoredFromOffers(calls, kind);
    assert PartOk(l, kind);
  }

  lemma SecondTry(fails: nat -> bool, log: seq<Call>, l: Life, l': Life)
    requires LifeOk(l) && l.tries == 1 && l.left != EMPTY
    requires l' == l.(left := Written(fails, log, l.left).1, calls := l.calls + CallsOf(fails, |log|, l.left),
                        tries := 2)
    ensures LifeOk(l')
  {
    forall kind: Kind
      ensures PartOk(l', kind)
    {
      WrittenIsAnAttempt(fails, log, l.left, kind);
      SecondTryPart(l, l'.left, CallsOf(fails, |log|, l.left), kind);
    }
    WrittenIsAnAttempt(fails, log, l.left, Minute);
    FailuresAppend(l.calls, CallsOf(fails, |log|, l.left));
  }

  lemma TryCalls(fails: nat -> bool, log: seq<Call>, life: Life)
    requires Canonical(life.left)
    ensures log <= Written(fails, log, life.left).0
    ensures Written(fails, log, life.left).0 == log + CallsOf(fails, |log|, life.left)
    ensures Try(fails, log, life) == life.(
              left := Written(fails, log, life.left).1, calls := life.calls + CallsOf(fails, |log|, life.left),
              tries := life.tries + 1)
  {
    WrittenCalls(fails, log, life.left);
    assert (log + CallsOf(fails, |log|, life.left))[|log|..] == CallsOf(fails, |log|, life.left);
  }

  // ----- the whole run -----

  function CallsIn(lives: seq<Life>): seq<Call> {
    if lives == [] then []
    else CallsIn(lives[..|lives| - 1]) + lives[|lives| - 1].calls
  }

  function ClosedFlows(lives: seq<Life>, kind: Kind): seq<Flow> {
    if lives == [] then []
    else ClosedFlows(lives[..|lives| - 1], kind) + lives[|lives| - 1].batch.Part(kind).flows
  }

  /** What is left of batches no longer held: lost. */
  function DroppedFlows(lives: seq<Life>, kind: Kind): seq<Flow> {
    if lives == [] then []
    else DroppedFlows(lives[..|lives| - 1], kind) + lives[|lives| - 1].left.Part(kind).flows
  }

  /** The flows that count towards one table: every one, but own prefixes only for flows that have one. */
  function Counted(flows: seq<Flow>, kind: Kind): seq<Flow> {
    if flows == [] then []
    else
      var earlier, last := Counted(flows[..|flows| - 1], kind), flows[|flows| - 1];
      earlier + if kind == OwnPrefixes && !last.own then [] else [last]
  }

  function OpenStamp(agg: Aggregate, kind: Kind): int {
    if kind == Minute then agg.minute else agg.window
  }

  /** Each table's rows carry strictly later times batch after batch, and the open ones a later one still. */
  predicate StampsRise(lives: seq<Life>, open: int, kind: Kind) {
    && (forall i, j :: 0 <= i < j < |lives| && lives[i].batch.Part(kind) != NONE && lives[j].batch.Part(kind) != NONE
          ==> lives[i].batch.Part(kind).stamp < lives[j].batch.Part(kind).stamp)
    && (forall i :: 0 <= i < |lives| && lives[i].batch.Part(kind) != NONE ==> lives[i].batch.Part(kind).stamp < open)
  }

  /** Only the top addresses leave anything out. */
  function Cut(books: Books, kind: Kind): multiset<Flow> {
    if kind == TopIPs then books.cut else multiset{}
  }

  /** What was counted towards a table is in the batches, open, or was cut. */
  predicate Balanced(s: State, books: Books, kind: Kind) {
    multiset(Counted(books.counted, kind))
    == multiset(ClosedFlows(books.Lives(), kind)) + multiset(s.agg.Open(kind)) + Cut(books, kind)
  }

  predicate Accounted(s: State, books: Books) {
    && s.openMinute == s.agg.minute && s.openWindow == s.agg.window
    && (forall kind: Kind :: Balanced(s, books, kind))
    && (forall kind: Kind :: StampsRise(books.Lives(), OpenStamp(s.agg, kind), kind))
    && s.log == CallsIn(books.Lives())
    && (forall n :: 0 <= n < |books.settled| ==> LifeOk(books.settled[n]))
    && (forall n :: 0 <= n < |books.settled| && books.settled[n].left != EMPTY ==> books.settled[n].tries == 2)
    && (books.latest.Some? ==> LifeOk(books.latest.value) && books.latest.value.tries == 1)
    && s.pending == (if books.latest.Some? && books.latest.value.left != EMPTY
                     then Some(books.latest.value.left)
                     else None)
  }

  const NO_BOOKS := Books([], [], None, multiset{})

  /**
   A close moves a table's open flows into the batch, but for those it cuts, under the time it leaves behind, or it
   leaves them be.
   */
  predicate Drains(a: Aggregate, a': Aggregate, b: Batch, kind: Kind, cut: multiset<Flow>) {
    && multiset(b.Part(kind).flows) + multiset(a'.Open(kind)) + (if kind == TopIPs then cut else multiset{})
       == multiset(a.Open(kind))
    && (b.Part(kind) != NONE ==>
          b.Part(kind).stamp == OpenStamp(a, kind) && OpenStamp(a, kind) < OpenStamp(a', kind))
    && OpenStamp(a, kind) <= OpenStamp(a', kind)
  }

  lemma {:induction false} RankedSplits(policy: Policy, window: int, all: seq<Flow>, flows: seq<Flow>)
    ensures multiset(Ranked(policy, window, all, flows, true)) + multiset(Ranked(policy, window, all, flows, false))
         == multiset(flows)
  {
    if flows == [] {
    } else {
      var earlier, last := flows[..|flows| - 1], flows[|flows| - 1];
      assert flows == earlier + [last];
      RankedSplits(policy, window, all, earlier);
      RankedStep(policy, window, all, earlier, last, true);
      RankedStep(policy, window, all, earlier, last, false);
      hide Ranked;
      OneMore(multiset(Ranked(policy, window, all, earlier, true)), multiset(Ranked(policy, window, all, earlier,
          false)),
              multiset(earlier), last);
    }
  }

  lemma OneMore(kept: multiset<Flow>, lost: multiset<Flow>, all: multiset<Flow>, flow: Flow)
    requires kept + lost == all
    ensures kept + multiset{flow} + lost == all + multiset{flow}
    ensures kept + (lost + multiset{flow}) == all + multiset{flow}
  {
  }

  lemma RankedStep(policy: Policy, window: int, all: seq<Flow>, earlier: seq<Flow>, last: Flow, kept: bool)
    ensures multiset(Ranked(policy, window, all, earlier + [last], kept))
         == multiset(Ranked(policy, window, all, earlier, kept))
            + if policy.keeps(window, all, last) == kept then multiset{last} else multiset{}
  {
    assert (earlier + [last])[..|earlier|] == earlier;
  }

  lemma MinuteDrains(s: State, now: int)
    requires s.openMinute == s.agg.minute
    ensures var (s1, rows) := MinuteClosed(s, now);
            && s1 == s.(openMinute := s1.openMinute, agg := s.agg.(minute := s1.agg.minute, minutes := s1.agg.minutes))
            && s1.openMinute == s1.agg.minute && s.agg.minute <= s1.agg.minute
            && multiset(rows.flows) + multiset(s1.agg.minutes) == multiset(s.agg.minutes)
            && (rows.flows == [] ==> rows == NONE)
            && (rows != NONE ==> rows.stamp == s.agg.minute < s1.agg.minute)
  {
  }

  lemma WindowDrains(s: State, now: int)
    requires s.openWindow == s.agg.window
    ensures var (s2, tops, owns) := WindowClosed(s, now);
            && s2 == s.(openWindow := s2.openWindow,
                        agg := s.agg.(window := s2.agg.window, ips := s2.agg.ips, own := s2.agg.own))
            && s2.openWindow == s2.agg.window && s.agg.window <= s2.agg.window
            && multiset(tops.flows) + multiset(s2.agg.ips) + CutIn(s, Tick(now)) == multiset(s.agg.ips)
            && multiset(owns.flows) + multiset(s2.agg.own) == multiset(s.agg.own)
            && (tops.flows == [] ==> tops == NONE) && (owns.flows == [] ==> owns == NONE)
            && (tops != NONE ==> tops.stamp == s.agg.window < s2.agg.window)
            && (owns != NONE ==> owns.stamp == s.agg.window < s2.agg.window)
  {
    RankedSplits(s.agg.policy, s.agg.window, s.agg.ips, s.agg.ips);
    hide Ranked;
  }

  lemma BothDrain(a: Aggregate, a': Aggregate, b: Batch, kind: Kind, cut: multiset<Flow>)
    requires a.minute <= a'.minute && a.window <= a'.window
    requires multiset(b.minute.flows) + multiset(a'.minutes) == multiset(a.minutes)
    requires (b.minute != NONE ==> b.minute.stamp == a.minute < a'.minute)
    requires multiset(b.topIPs.flows) + multiset(a'.ips) + cut == multiset(a.ips)
    requires b.topIPs != NONE ==> b.topIPs.stamp == a.window < a'.window
    requires multiset(b.ownPrefixes.flows) + multiset(a'.own) == multiset(a.own)
    requires b.ownPrefixes != NONE ==> b.ownPrefixes.stamp == a.window < a'.window
    ensures Drains(a, a', b, kind, cut)
  {
    match kind
    case Minute => assert b.Part(kind) == b.minute && a.Open(kind) == a.minutes && a'.Open(kind) == a'.minutes;
    case TopIPs => assert b.Part(kind) == b.topIPs && a.Open(kind) == a.ips && a'.Open(kind) == a'.ips;
    case OwnPrefixes => assert b.Part(kind) == b.ownPrefixes && a.Open(kind) == a.own && a'.Open(kind) == a'.own;
  }

  lemma CloseDrains(s: State, now: int)
    requires s.openMinute == s.agg.minute && s.openWindow == s.agg.window
    ensures var (s1, rows) := MinuteClosed(s, now);
            var (s2, tops, owns) := WindowClosed(s1, now);
            var b := Batch(rows, tops, owns);
            && Canonical(b)
            && s2.openMinute == s2.agg.minute && s2.openWindow == s2.agg.window
            && s2.log == s.log && s2.pending == s.pending
            && forall kind: Kind :: Drains(s.agg, s2.agg, b, kind, CutIn(s, Tick(now)))
  {
    hide MinuteClosed, WindowClosed, Ranked, Canonical, Drains;
    var (s1, rows) := MinuteClosed(s, now);
    var (s2, tops, owns) := WindowClosed(s1, now);
    var b := Batch(rows, tops, owns);
    MinuteDrains(s, now);
    WindowDrains(s1, now);
    CanonicalParts(b);
    assert CutIn(s1, Tick(now)) == CutIn(s, Tick(now));
    forall kind: Kind
      ensures Drains(s.agg, s2.agg, b, kind, CutIn(s, Tick(now)))
    {
      BothDrain(s.agg, s2.agg, b, kind, CutIn(s, Tick(now)));
    }
  }

  lemma {:induction false} ClosedFlowsByBatch(lives: seq<Life>, others: seq<Life>, kind: Kind)
    requires |lives| == |others| && forall n :: 0 <= n < |lives| ==> lives[n].batch == others[n].batch
    ensures ClosedFlows(lives, kind) == ClosedFlows(others, kind)
  {
    if lives == [] {
    } else {
      ClosedFlowsByBatch(lives[..|lives| - 1], others[..|others| - 1], kind);
    }
  }

  lemma StampsByBatch(lives: seq<Life>, others: seq<Life>, open: int, kind: Kind)
    requires |lives| == |others| && forall n :: 0 <= n < |lives| ==> lives[n].batch == others[n].batch
    requires StampsRise(lives, open, kind)
    ensures StampsRise(others, open, kind)
  {
  }

  /** A batch of which something is lost was tried twice. */
  predicate SettledOk(l: Life) {
    l.left != EMPTY ==> l.tries == 2
  }

  lemma LifeIsCanonical(l: Life)
    requires LifeOk(l)
    ensures Canonical(l.batch) && Canonical(l.left)
  {
  }

  /** The batch before is settled: retried if anything of it was pending, and gone either way. */
  lemma SettleIsAccounted(fails: nat -> bool, s: State, books: Books, log: seq<Call>)
    requires Accounted(s, books)
    requires log == if s.pending.Some? then Written(fails, s.log, s.pending.value).0 else s.log
    ensures var settled := Settle(fails, s, books);
            && |settled| == |books.Lives()|
            && (forall n :: 0 <= n < |settled| ==> settled[n].batch == books.Lives()[n].batch)
            && (forall n :: 0 <= n < |settled| ==> LifeOk(settled[n]) && SettledOk(settled[n]))
            && CallsIn(settled) == log
  {
    hide Written, CallsOf, CallsIn, LifeOk, Balanced, StampsRise;
    if books.latest.Some? {
      var latest := books.latest.value;
      LifeIsCanonical(latest);
      CallsWithOneMore(books.settled, latest);
      if s.pending.Some? {
        TryCalls(fails, s.log, latest);
        var tried := Try(fails, s.log, latest);
        SecondTry(fails, s.log, latest, tried);
        CallsWithOneMore(books.settled, tried);
        Extended(CallsIn(books.settled), latest.calls, CallsOf(fails, |s.log|, latest.left));
        assert Settle(fails, s, books) == books.settled + [tried];
      } else {
        assert Settle(fails, s, books) == books.settled + [latest];
      }
    } else {
      assert books.Lives() == books.settled == Settle(fails, s, books);
    }
  }

  lemma CallsWithOneMore(lives: seq<Life>, life: Life)
    ensures CallsIn(lives + [life]) == CallsIn(lives) + life.calls
  {
    assert (lives + [life])[..|lives|] == lives;
  }

  lemma Extended(p: seq<Call>, q: seq<Call>, r: seq<Call>)
    ensures p + (q + r) == p + q + r
  {
  }

  lemma NewBatchIsAccounted(s: State, books: Books, s2: State, books': Books, settled: seq<Life>, life: Life,
                            kind: Kind, cut: multiset<Flow>)
    requires Accounted(s, books)
    requires |settled| == |books.Lives()|
    requires forall n :: 0 <= n < |settled| ==> settled[n].batch == books.Lives()[n].batch
    requires Drains(s.agg, s2.agg, life.batch, kind, cut)
    requires books' == Books(books.counted, settled, Some(life), books.cut + cut)
    ensures Balanced(s2, books', kind)
    ensures StampsRise(books'.Lives(), OpenStamp(s2.agg, kind), kind)
  {
    hide LifeOk, CallsIn, Counted, ClosedFlows;
    assert books'.Lives() == settled + [life];
    ClosedFlowsByBatch(settled, books.Lives(), kind);
    ClosedWithOneMore(settled, life, kind);
    assert Balanced(s, books, kind);
    Moves(multiset(Counted(books.counted, kind)), multiset(ClosedFlows(settled, kind)),
          multiset(life.batch.Part(kind).flows), multiset(s.agg.Open(kind)), multiset(s2.agg.Open(kind)),
          Cut(books, kind), if kind == TopIPs then cut else multiset{});
    StampsByBatch(books.Lives(), settled, OpenStamp(s.agg, kind), kind);
  }

  lemma ClosedWithOneMore(lives: seq<Life>, life: Life, kind: Kind)
    ensures multiset(ClosedFlows(lives + [life], kind))
         == multiset(ClosedFlows(lives, kind)) + multiset(life.batch.Part(kind).flows)
  {
    assert (lives + [life])[..|lives|] == lives;
  }

  lemma Moves(counted: multiset<Flow>, closed: multiset<Flow>, part: multiset<Flow>, open: multiset<Flow>,
              open': multiset<Flow>, cut: multiset<Flow>, lost: multiset<Flow>)
    requires counted == closed + open + cut && part + open' + lost == open
    ensures counted == (closed + part) + open' + (cut + lost)
  {
  }

  /** The new batch's first write, and the state it leaves. */
  lemma TickWrites(fails: nat -> bool, s: State, books: Books, now: int)
    returns (s2: State, settled: seq<Life>, life: Life)
    requires Accounted(s, books)
    ensures s2.openMinute == s2.agg.minute && s2.openWindow == s2.agg.window
    ensures forall kind: Kind :: Drains(s.agg, s2.agg, life.batch, kind, CutIn(s, Tick(now)))
    ensures |settled| == |books.Lives()|
    ensures forall n :: 0 <= n < |settled| ==> settled[n].batch == books.Lives()[n].batch
    ensures forall n :: 0 <= n < |settled| ==> LifeOk(settled[n]) && SettledOk(settled[n])
    ensures LifeOk(life) && life.tries == 1
    ensures Keep(fails, s, books, Tick(now))
         == Books(books.counted, settled, Some(life), books.cut + CutIn(s, Tick(now)))
    ensures Finished(fails, s, now)
         == s2.(log := CallsIn(settled) + life.calls, pending := if life.left != EMPTY then Some(life.left) else None)
  {
    var (s1, rows) := MinuteClosed(s, now);
    var tops, owns;
    s2, tops, owns := WindowClosed(s1, now).0, WindowClosed(s1, now).1, WindowClosed(s1, now).2;
    var b := Batch(rows, tops, owns);
    CloseDrains(s, now);
    var log := if s.pending.Some? then Written(fails, s.log, s.pending.value).0 else s.log;
    SettleIsAccounted(fails, s, books, log);
    TryCalls(fails, log, Life(b, b, [], 0));
    life := Try(fails, log, Life(b, b, [], 0));
    FirstTry(fails, log, b, life);
    WrittenIsAnAttempt(fails, log, b, Minute);
    settled := Settle(fails, s, books);
  }

  lemma TickIsAccounted(fails: nat -> bool, s: State, books: Books, now: int)
    requires Accounted(s, books)
    ensures Accounted(Finished(fails, s, now), Keep(fails, s, books, Tick(now)))
  {
    hide LifeOk, CutIn, Drains, StampsRise, ClosedFlows, Counted, Finished, Keep;
    var s2, settled, life := TickWrites(fails, s, books, now);
    var s', books' := Finished(fails, s, now), Keep(fails, s, books, Tick(now));
    assert books'.Lives() == settled + [life];
    assert books'.Lives()[..|settled|] == settled;
    forall kind: Kind
      ensures Balanced(s', books', kind)
      ensures StampsRise(books'.Lives(), OpenStamp(s'.agg, kind), kind)
    {
      NewBatchIsAccounted(s, books, s2, books', settled, life, kind, CutIn(s, Tick(now)));
    }
  }

  function KeepAll(fails: nat -> bool, policy: Policy, now: int, events: seq<Event>): (books: Books)
    ensures Accounted(Run(fails, Start(policy, now), events), books)
    decreases |events|
  {
    if events == [] then NO_BOOKS
    else
      var n := |events| - 1;
      var s, books := Run(fails, Start(policy, now), events[..n]), KeepAll(fails, policy, now, events[..n]);
      StepIsAccounted(fails, s, books, events[n]);
      Keep(fails, s, books, events[n])
  }

  lemma StepIsAccounted(fails: nat -> bool, s: State, books: Books, e: Event)
    requires Accounted(s, books)
    ensures Accounted(Step(fails, s, e), Keep(fails, s, books, e))
  {
    match e
    case Add(flow) => AddIsAccounted(fails, s, books, flow);
    case Tick(now) => TickIsAccounted(fails, s, books, now);
  }

  lemma AddBalances(fails: nat -> bool, s: State, books: Books, flow: Flow, kind: Kind)
    requires s.pending.Some? ==> books.latest.Some?
    requires Balanced(s, books, kind)
    ensures Balanced(s.(agg := s.agg.Add(flow)), Keep(fails, s, books, Add(flow)), kind)
  {
    var books' := KeepAdd(fails, s, books, flow);
    hide Keep, ClosedFlows, Counted, CutIn;
    CountedOneMore(books.counted, flow, kind);
    OpenOneMore(s.agg, flow, kind);
    AddsOne(multiset(Counted(books.counted, kind)), multiset(ClosedFlows(books.Lives(), kind)),
            multiset(s.agg.Open(kind)), multiset(s.agg.Add(flow).Open(kind)), Cut(books, kind),
            if kind == OwnPrefixes && !flow.own then multiset{} else multiset{flow},
            if kind == TopIPs then CutIn(s, Add(flow)) else multiset{});
  }

  lemma KeepAdd(fails: nat -> bool, s: State, books: Books, flow: Flow) returns (books': Books)
    requires s.pending.Some? ==> books.latest.Some?
    ensures books' == Keep(fails, s, books, Add(flow))
    ensures books' == books.(counted := books.counted + [flow], cut := books.cut + CutIn(s, Add(flow)))
    ensures books'.Lives() == books.Lives()
  {
    books' := Keep(fails, s, books, Add(flow));
  }

  lemma AddsOne(counted: multiset<Flow>, closed: multiset<Flow>, open: multiset<Flow>, open': multiset<Flow>,
                cut: multiset<Flow>, one: multiset<Flow>, ignored: multiset<Flow>)
    requires counted == closed + open + cut && open' + ignored == open + one
    ensures counted + one == closed + open' + (cut + ignored)
  {
    forall f: Flow
      ensures (counted + one)[f] == (closed + open' + (cut + ignored))[f]
    {
      assert (open' + ignored)[f] == (open + one)[f];
    }
  }

  lemma AddIsAccounted(fails: nat -> bool, s: State, books: Books, flow: Flow)
    requires Accounted(s, books)
    ensures Accounted(s.(agg := s.agg.Add(flow)), Keep(fails, s, books, Add(flow)))
  {
    hide Balanced, LifeOk, CallsIn, CutIn, StampsRise;
    var books' := Keep(fails, s, books, Add(flow));
    var agg' := s.agg.Add(flow);
    assert books'.Lives() == books.Lives();
    forall kind: Kind
      ensures Balanced(s.(agg := agg'), books', kind)
      ensures StampsRise(books'.Lives(), OpenStamp(agg', kind), kind)
    {
      AddBalances(fails, s, books, flow, kind);
      assert StampsRise(books.Lives(), OpenStamp(s.agg, kind), kind);
    }
  }

  lemma CountedOneMore(flows: seq<Flow>, flow: Flow, kind: Kind)
    ensures multiset(Counted(flows + [flow], kind))
         == multiset(Counted(flows, kind)) + if kind == OwnPrefixes && !flow.own then multiset{} else multiset{flow}
  {
    assert (flows + [flow])[..|flows|] == flows;
  }

  lemma OpenOneMore(agg: Aggregate, flow: Flow, kind: Kind)
    ensures var ignored := if kind == TopIPs && agg.policy.ignores(agg.ips, flow) then multiset{flow} else multiset{};
            var one := if kind == OwnPrefixes && !flow.own then multiset{} else multiset{flow};
            multiset(agg.Add(flow).Open(kind)) + ignored == multiset(agg.Open(kind)) + one
  {
    assert agg.own + [] == agg.own;
  }

  // ----- conservation -----

  function Added(events: seq<Event>): seq<Flow> {
    if events == [] then []
    else
      var n := |events| - 1;
      Added(events[..n]) + if events[n].Add? then [events[n].flow] else []
  }

  lemma {:induction false} BooksCountEveryAdd(fails: nat -> bool, policy: Policy, now: int, events: seq<Event>)
    ensures KeepAll(fails, policy, now, events).counted == Added(events)
    decreases |events|
  {
    if events == [] {
    } else {
      var n := |events| - 1;
      BooksCountEveryAdd(fails, policy, now, events[..n]);
      var s, books := Run(fails, Start(policy, now), events[..n]), KeepAll(fails, policy, now, events[..n]);
      assert KeepAll(fails, policy, now, events) == Keep(fails, s, books, events[n]);
    }
  }

  /** Flow for flow: what batches held is in the sink or is what was left of them. */
  lemma {:induction false} ClosedIsStoredOrLeft(lives: seq<Life>, kind: Kind)
    requires forall n :: 0 <= n < |lives| ==> LifeOk(lives[n])
    ensures multiset(ClosedFlows(lives, kind))
         == multiset(StoredFlows(CallsIn(lives), kind)) + multiset(DroppedFlows(lives, kind))
  {
    if lives == [] {
    } else {
      var earlier, l := lives[..|lives| - 1], lives[|lives| - 1];
      ClosedIsStoredOrLeft(earlier, kind);
      StoredAppend(CallsIn(earlier), l.calls, kind);
      assert PartOk(l, kind);
    }
  }

  function PendingFlows(s: State, kind: Kind): seq<Flow> {
    if s.pending.Some? then s.pending.value.Part(kind).flows else []
  }

  lemma LivesAreOk(s: State, books: Books)
    requires Accounted(s, books)
    ensures forall n :: 0 <= n < |books.Lives()| ==> LifeOk(books.Lives()[n])
  {
  }

  lemma LeftIsPendingOrDropped(s: State, books: Books, kind: Kind)
    requires Accounted(s, books)
    ensures DroppedFlows(books.Lives(), kind) == DroppedFlows(books.settled, kind) + PendingFlows(s, kind)
  {
    if books.latest.Some? {
      assert books.Lives()[..|books.settled|] == books.settled;
      assert EMPTY.Part(kind) == NONE;
    } else {
      assert books.Lives() == books.settled;
    }
  }

  lemma StateIsAccountedFor(s: State, books: Books, kind: Kind)
    requires Accounted(s, books)
    ensures multiset(Counted(books.counted, kind))
              == multiset(StoredFlows(s.log, kind)) + multiset(PendingFlows(s, kind))
                 + multiset(DroppedFlows(books.settled, kind)) + multiset(s.agg.Open(kind)) + Cut(books, kind)
  {
    LivesAreOk(s, books);
    ClosedIsStoredOrLeft(books.Lives(), kind);
    LeftIsPendingOrDropped(s, books, kind);
    assert Balanced(s, books, kind);
  }

  /**
   Over every run, under any clock, any sink and any cutting of the top addresses: what was counted towards a table is,
   flow for flow, stored in it, pending, still open, cut from it, or was dropped with a batch whose two writes both
   failed. Only the top addresses are ever cut.
   */
  lemma EveryFlowIsAccountedFor(fails: nat -> bool, policy: Policy, now: int, events: seq<Event>, kind: Kind)
    ensures var s, books := Run(fails, Start(policy, now), events), KeepAll(fails, policy, now, events);
            && multiset(Counted(Added(events), kind))
                 == multiset(StoredFlows(s.log, kind)) + multiset(PendingFlows(s, kind))
                    + multiset(DroppedFlows(books.settled, kind)) + multiset(s.agg.Open(kind))
                    + (if kind == TopIPs then books.cut else multiset{})
            && forall n :: 0 <= n < |books.settled| && books.settled[n].left != EMPTY ==>
                 books.settled[n].tries == 2 && Failures(books.settled[n].calls) == 2
  {
    var s, books := Run(fails, Start(policy, now), events), KeepAll(fails, policy, now, events);
    BooksCountEveryAdd(fails, policy, now, events);
    StateIsAccountedFor(s, books, kind);
  }

  /** What all the events of a run cut, each at the state it finds. */
  function CutOver(fails: nat -> bool, policy: Policy, now: int, events: seq<Event>): multiset<Flow>
    decreases |events|
  {
    if events == [] then multiset{}
    else
      var n := |events| - 1;
      CutOver(fails, policy, now, events[..n]) + CutIn(Run(fails, Start(policy, now), events[..n]), events[n])
  }

  /** The books' cut is that of every event and no other. */
  lemma {:induction false} CutIsOfEachEvent(fails: nat -> bool, policy: Policy, now: int, events: seq<Event>)
    ensures KeepAll(fails, policy, now, events).cut == CutOver(fails, policy, now, events)
    decreases |events|
  {
    if events == [] {
    } else {
      hide CutIn;
      var n := |events| - 1;
      CutIsOfEachEvent(fails, policy, now, events[..n]);
      var s, books := Run(fails, Start(policy, now), events[..n]), KeepAll(fails, policy, now, events[..n]);
      assert KeepAll(fails, policy, now, events) == Keep(fails, s, books, events[n]);
    }
  }

  // ----- order, and how often -----

  /**
   The calls made for one table: times never fall, the same rows are offered at most twice and never again once
   stored.
   */
  predicate Orderly(offers: seq<Call>) {
    && (forall i, j :: 0 <= i < j < |offers| ==>
          offers[i].rows.stamp < offers[j].rows.stamp
          || (j == i + 1 && !offers[i].ok && offers[i].rows == offers[j].rows))
  }

  predicate StampsBelow(offers: seq<Call>, open: int) {
    forall n :: 0 <= n < |offers| ==> offers[n].rows.stamp < open
  }

  lemma OrderlyAppend(earlier: seq<Call>, mine: seq<Call>, part: Rows)
    requires Orderly(earlier) && StampsBelow(earlier, part.stamp)
    requires |mine| <= 2 && forall n :: 0 <= n < |mine| ==> mine[n].rows == part
    requires forall n :: 0 <= n < |mine| && mine[n].ok ==> n == |mine| - 1
    ensures Orderly(earlier + mine)
  {
  }

  lemma {:induction false} OffersAreOrderly(lives: seq<Life>, open: int, kind: Kind)
    requires forall n :: 0 <= n < |lives| ==> LifeOk(lives[n])
    requires StampsRise(lives, open, kind)
    ensures Orderly(Offers(CallsIn(lives), kind)) && StampsBelow(Offers(CallsIn(lives), kind), open)
  {
    if lives == [] {
    } else {
      var earlier, l := lives[..|lives| - 1], lives[|lives| - 1];
      var part, mine := l.batch.Part(kind), Offers(l.calls, kind);
      OffersAreOrderly(earlier, if part == NONE then open else part.stamp, kind);
      OffersAppend(CallsIn(earlier), l.calls, kind);
      assert LifeOk(l) && PartOk(l, kind);
      if part == NONE {
        assert Offers(CallsIn(earlier), kind) + mine == Offers(CallsIn(earlier), kind);
      } else {
        OrderlyAppend(Offers(CallsIn(earlier), kind), mine, part);
      }
    }
  }

  /** No table ever holds two closes under one time, and no close is offered a third time. */
  lemma StoredOnceAndInOrder(fails: nat -> bool, policy: Policy, now: int, events: seq<Event>, kind: Kind)
    ensures Orderly(Offers(Run(fails, Start(policy, now), events).log, kind))
  {
    var s, books := Run(fails, Start(policy, now), events), KeepAll(fails, policy, now, events);
    assert forall n :: 0 <= n < |books.Lives()| ==> LifeOk(books.Lives()[n]);
    OffersAreOrderly(books.Lives(), OpenStamp(s.agg, kind), kind);
  }

  // ----- what "failing twice" does not promise -----

  predicate Before(k: Kind, kind: Kind) {
    (k == Minute && kind != Minute) || (k == TopIPs && kind == OwnPrefixes)
  }

  /**
   A batch is dropped after two failed writes, but one of its parts may go with it unoffered: a part dropped was
   itself refused twice exactly when nothing before it was left by the first write.
   */
  lemma DroppedPartWasRefusedTwice(fails: nat -> bool, log: seq<Call>, b: Batch, retryLog: seq<Call>, kind: Kind)
    requires Canonical(b) && !Written(fails, log, b).2
    requires var left := Written(fails, log, b).1; !Written(fails, retryLog, left).2
    requires Written(fails, retryLog, Written(fails, log, b).1).1.Part(kind) != NONE
    ensures var left := Written(fails, log, b).1;
            |Offers(CallsOf(fails, |log|, b), kind)| + |Offers(CallsOf(fails, |retryLog|, left), kind)| == 2
            <==> forall k: Kind :: Before(k, kind) ==> left.Part(k) == NONE
  {
    var left := Written(fails, log, b).1;
    WrittenIsAnAttempt(fails, log, b, kind);
    WrittenIsAnAttempt(fails, retryLog, left, kind);
    OfferedWhenReached(fails, log, b, kind);
    OfferedWhenReached(fails, retryLog, left, kind);
    assert left.Part(Minute) == left.minute && left.Part(TopIPs) == left.topIPs;
  }

  /** A part still left was offered exactly when every part before it was out of the way. */
  lemma OfferedWhenReached(fails: nat -> bool, log: seq<Call>, b: Batch, kind: Kind)
    requires Canonical(b) && Written(fails, log, b).1.Part(kind) != NONE
    ensures var left := Written(fails, log, b).1;
            |Offers(CallsOf(fails, |log|, b), kind)| == 1 <==>
                forall k: Kind :: Before(k, kind) ==> left.Part(k) == NONE
  {
    CanonicalParts(b);
    var left := Written(fails, log, b).1;
    assert left.Part(Minute) == left.minute && left.Part(TopIPs) == left.topIPs;
    var n := |log|;
    var c1 := if b.minute == NONE then [] else [Call(Minute, b.minute, !fails(n))];
    var n2 := n + |c1|;
    var c2 := if b.topIPs == NONE then [] else [Call(TopIPs, b.topIPs, !fails(n2))];
    if b.minute != NONE && fails(n) {
      assert c1 + [] + [] == c1;
      OffersOneEach(c1, [], [], kind);
    } else if b.topIPs != NONE && fails(n2) {
      assert c1 + c2 + [] == c1 + c2;
      OffersOneEach(c1, c2, [], kind);
    } else {
      var c3 := if b.ownPrefixes == NONE then [] else [Call(OwnPrefixes, b.ownPrefixes, !fails(n2 + |c2|))];
      OffersOneEach(c1, c2, c3, kind);
    }
  }

  /** Such a part exists: refuse the minute rows twice and the top addresses are dropped without being offered. */
  lemma DroppedUnoffered(minute: Rows, tops: Rows)
    requires minute.flows != [] && tops.flows != []
    ensures var fails := (n: nat) => true;
            var (_, pending) := Flushed(fails, [], None, Batch(minute, tops, NONE));
            var (log, pending') := Flushed(fails, [Call(Minute, minute, false)], pending, EMPTY);
            pending == Some(Batch(minute, tops, NONE)) && pending' == None && Offers(log, TopIPs) == []
  {
    var fails := (n: nat) => true;
    var (log, _) := Flushed(fails, [Call(Minute, minute, false)], Some(Batch(minute, tops, NONE)), EMPTY);
    assert log == [Call(Minute, minute, false)] + [Call(Minute, minute, false)];
    OffersAppend([Call(Minute, minute, false)], [Call(Minute, minute, false)], TopIPs);
  }
}
