/**
 Reading named ONUs with batched GETs: optical metrics, phase states and inventory. An agent is a function from object
 identifiers to values, a GET may go unanswered or be answered short, and the conversions of text are parameters.
 */
module BatchReads {
  import opened Locations
  import opened Options

  const GET_BATCH_SIZE := 40
  const INVENTORY_BATCH_SIZE := 10

  /** What one variable of a reply holds; Missing stands for the three no-such-row types, whose value is nil. */
  datatype Pdu = Missing | Number(n: int) | Octets(text: string)

  /** The reply to the n-th GET of a session, which asks for these identifiers; None is an error. */
  type Exchange = (nat, seq<string>) -> Option<seq<Pdu>>

  datatype Request<C> = Request(loc: Location, column: C, oid: string)

  // ----- one sweep in batches -----

  function Oids<C>(pending: seq<Request<C>>): seq<string> {
    seq(|pending|, i requires 0 <= i < |pending| => pending[i].oid)
  }

  function Least(a: nat, b: nat): nat {
    if a < b then a else b
  }

  function Batches(oids: seq<string>, size: nat): seq<seq<string>>
    requires 0 < size
  {
    if oids == [] then []
    else [oids[..Least(size, |oids|)]] + Batches(oids[Least(size, |oids|)..], size)
  }

  function Flattened<T>(parts: seq<seq<T>>): seq<T> {
    if parts == [] then [] else parts[0] + Flattened(parts[1..])
  }

  /** What a reply says about each of the identifiers asked for; variables beyond them are ignored. */
  function Variables(reply: Option<seq<Pdu>>, asked: nat): seq<Option<Pdu>> {
    seq(asked, i => if reply.Some? && 0 <= i < |reply.value| then Some(reply.value[i]) else None)
  }

  /** What was heard of each request, when the batches go out as the GETs numbered from n. */
  function Heard(batches: seq<seq<string>>, get: Exchange, n: nat): seq<Option<Pdu>> {
    if batches == [] then []
    else Variables(get(n, batches[0]), |batches[0]|) + Heard(batches[1..], get, n + 1)
  }

  /** What the requests leave behind, one after the other; one that was not heard leaves nothing. */
  function Absorbed<C, S>(state: S, pending: seq<Request<C>>, heard: seq<Option<Pdu>>,
                          absorb: (S, Request<C>, Pdu) -> S): S
    requires |pending| == |heard|
  {
    if pending == [] then state
    else
      var last := |pending| - 1;
      var before := Absorbed(state, pending[..last], heard[..last], absorb);
      if heard[last].None? then before else absorb(before, pending[last], heard[last].value)
  }

  lemma {:induction false} EveryRequestGoesOutOnce(oids: seq<string>, size: nat)
    requires 0 < size
    ensures Flattened(Batches(oids, size)) == oids
    ensures forall b :: 0 <= b < |Batches(oids, size)| ==> 0 < |Batches(oids, size)[b]| <= size
  {
    if oids == [] {
    } else {
      EveryRequestGoesOutOnce(oids[Least(size, |oids|)..], size);
    }
  }

  lemma {:induction false} HeardOfEach(batches: seq<seq<string>>, get: Exchange, n: nat)
    ensures |Heard(batches, get, n)| == |Flattened(batches)|
  {
    if batches == [] {
    } else {
      HeardOfEach(batches[1..], get, n + 1);
    }
  }

  /** What is heard of a list of requests read in batches of this size. */
  function HeardOf<C>(pending: seq<Request<C>>, size: nat, get: Exchange, n: nat): (heard: seq<Option<Pdu>>)
    requires 0 < size
    ensures |heard| == |pending|
  {
    EveryRequestGoesOutOnce(Oids(pending), size);
    HeardOfEach(Batches(Oids(pending), size), get, n);
    Heard(Batches(Oids(pending), size), get, n)
  }

  lemma NextMultiple(q: nat, size: nat)
    ensures (q + 1) * size == q * size + size
  {
  }

  lemma {:induction false} Multiples(q: nat, q': nat, size: nat)
    requires q < q'
    ensures q * size + size <= q' * size
  {
    NextMultiple(q' - 1, size);
    if q + 1 < q' {
      Multiples(q, q' - 1, size);
    }
  }

  /** Whether the reply to its own GET reaches the j-th identifier: place j % size of the GET numbered n + j / size. */
  predicate Carried(oids: seq<string>, size: nat, get: Exchange, n: nat, j: nat)
    requires 0 < size && j < |oids|
  {
    && j / size < |Batches(oids, size)|
    && var reply := get(n + j / size, Batches(oids, size)[j / size]);
       reply.Some? && j % size < |reply.value|
  }

  lemma HeardInFirst(batches: seq<seq<string>>, get: Exchange, n: nat, j: nat)
    requires batches != [] && j < |Heard(batches, get, n)|
    ensures var reply, k := get(n, batches[0]), |batches[0]|;
            && |Heard(batches, get, n)| == k + |Heard(batches[1..], get, n + 1)|
            && Heard(batches, get, n)[j]
               == if k <= j then Heard(batches[1..], get, n + 1)[j - k]
                  else if reply.Some? && j < |reply.value| then Some(reply.value[j])
                  else None
  {
  }

  lemma FirstOf(oids: seq<string>, size: nat)
    requires 0 < size && oids != []
    ensures var batches, k := Batches(oids, size), Least(size, |oids|);
            batches[0] == oids[..k] && batches[1..] == Batches(oids[k..], size)
  {
  }

  lemma {:induction false} HeardInBatch(oids: seq<string>, size: nat, get: Exchange, n: nat, b: nat, i: nat, j: nat)
    requires i < size && j == b * size + i < |oids|
    ensures var batches := Batches(oids, size);
            && b < |batches| && i < |batches[b]| && batches[b][i] == oids[j]
            && j < |Heard(batches, get, n)|
            && var reply := get(n + b, batches[b]);
               Heard(batches, get, n)[j] == if reply.Some? && i < |reply.value| then Some(reply.value[i]) else None
    decreases b
  {
    hide Batches, Heard;
    var batches := Batches(oids, size);
    FirstOf(oids, size);
    EveryRequestGoesOutOnce(oids, size);
    HeardOfEach(batches, get, n);
    HeardInFirst(batches, get, n, j);
    if b == 0 {
    } else {
      NextMultiple(b - 1, size);
      HeardInBatch(oids[size..], size, get, n + 1, b - 1, i, j - size);
    }
  }

  /** What is heard of the j-th request is variable j % size of the GET numbered n + j / size, and of no other. */
  lemma HeardIsItsOwnGet(oids: seq<string>, size: nat, get: Exchange, n: nat, j: nat)
    requires 0 < size && j < |oids|
    ensures var batches := Batches(oids, size);
            && j / size < |batches| && j < |Heard(batches, get, n)|
            && j % size < |batches[j / size]| && batches[j / size][j % size] == oids[j]
            && Heard(batches, get, n)[j]
               == (if Carried(oids, size, get, n, j)
                   then Some(get(n + j / size, batches[j / size]).value[j % size])
                   else None)
  {
    hide Batches, Heard;
    HeardInBatch(oids, size, get, n, j / size, j % size, j);
  }

  lemma AbsorbedStep<C, S>(state: S, pending: seq<Request<C>>, heard: seq<Option<Pdu>>,
                           absorb: (S, Request<C>, Pdu) -> S, k: nat)
    requires |pending| == |heard| && k < |pending|
    ensures var before := Absorbed(state, pending[..k], heard[..k], absorb);
            Absorbed(state, pending[..k + 1], heard[..k + 1], absorb)
            == if heard[k].None? then before else absorb(before, pending[k], heard[k].value)
  {
    assert pending[..k + 1][..k] == pending[..k] && heard[..k + 1][..k] == heard[..k];
  }

  lemma {:induction false} AbsorbedInTwo<C, S>(state: S, p: seq<Request<C>>, h: seq<Option<Pdu>>,
                                               q: seq<Request<C>>, g: seq<Option<Pdu>>,
                                               absorb: (S, Request<C>, Pdu) -> S)
    requires |p| == |h| && |q| == |g|
    ensures Absorbed(state, p + q, h + g, absorb) == Absorbed(Absorbed(state, p, h, absorb), q, g, absorb)
  {
    if q == [] {
      assert p + q == p && h + g == h;
    } else {
      var last := |q| - 1;
      AbsorbedInTwo(state, p, h, q[..last], g[..last], absorb);
      assert (p + q)[..|p| + last] == p + q[..last] && (h + g)[..|p| + last] == h + g[..last];
    }
  }

  lemma {:induction false} UnheardChangesNothing<C, S>(state: S, pending: seq<Request<C>>, heard: seq<Option<Pdu>>,
                                                       absorb: (S, Request<C>, Pdu) -> S, k: nat)
    requires |pending| == |heard| && k <= |pending|
    requires forall j :: k <= j < |pending| ==> heard[j].None?
    ensures Absorbed(state, pending, heard, absorb) == Absorbed(state, pending[..k], heard[..k], absorb)
  {
    if k < |pending| {
      var last := |pending| - 1;
      UnheardChangesNothing(state, pending[..last], heard[..last], absorb, k);
      assert pending[..last][..k] == pending[..k] && heard[..last][..k] == heard[..k];
    } else {
      assert pending[..k] == pending && heard[..k] == heard;
    }
  }

  /** One reply, variable by variable, each applied to the request in its place. */
  method TakeReply<C, S>(start: S, batch: seq<Request<C>>, reply: seq<Pdu>, absorb: (S, Request<C>, Pdu) -> S)
    returns (state: S)
    ensures state == Absorbed(start, batch, Variables(Some(reply), |batch|), absorb)
  {
    ghost var heard := Variables(Some(reply), |batch|);
    state := start;
    var i := 0;
    while i < |reply| && i < |batch|
      invariant 0 <= i <= |reply| && i <= |batch|
      invariant state == Absorbed(start, batch[..i], heard[..i], absorb)
    {
      AbsorbedStep(start, batch, heard, absorb, i);
      state := absorb(state, batch[i], reply[i]);
      i := i + 1;
    }
    UnheardChangesNothing(start, batch, heard, absorb, i);
  }

  /** The sweep all three reads share: a failed GET is passed over, a reply is taken variable by variable. */
  method Sweep<C, S>(start: S, pending: seq<Request<C>>, size: nat, get: Exchange, n: nat,
                     absorb: (S, Request<C>, Pdu) -> S) returns (state: S, sent: seq<seq<string>>)
    requires 0 < size
    ensures state == Absorbed(start, pending, HeardOf(pending, size, get, n), absorb)
    ensures sent == Batches(Oids(pending), size)
  {
    hide Absorbed, HeardOf, Batches, Oids;
    state, sent := start, [];
    var at := 0;
    assert pending[at..] == pending;
    assert [] + Batches(Oids(pending), size) == Batches(Oids(pending), size);
    while at < |pending|
      invariant 0 <= at <= |pending|
      invariant sent + Batches(Oids(pending[at..]), size) == Batches(Oids(pending), size)
      invariant Absorbed(state, pending[at..], HeardOf(pending[at..], size, get, n + |sent|), absorb)
             == Absorbed(start, pending, HeardOf(pending, size, get, n), absorb)
    {
      var end := if |pending| < at + size then |pending| else at + size;
      var batch := pending[at..end];
      var reply := get(n + |sent|, Oids(batch));
      NextBatch(state, pending, size, get, n + |sent|, absorb, at, end);
      if reply.Some? {
        state := TakeReply(state, batch, reply.value, absorb);
      }
      MovePast(sent, Oids(batch), Batches(Oids(pending[end..]), size));
      sent := sent + [Oids(batch)];
      at := end;
    }
    Finished<C>(size, get, n + |sent|);
    assert pending[at..] == [];
    AbsorbedNothing(state, [], HeardOf<C>([], size, get, n + |sent|), absorb);
  }

  lemma MovePast<T>(done: seq<T>, next: T, rest: seq<T>)
    ensures done + ([next] + rest) == done + [next] + rest
  {
  }

  lemma Finished<C>(size: nat, get: Exchange, n: nat)
    requires 0 < size
    ensures HeardOf<C>([], size, get, n) == [] && Batches(Oids<C>([]), size) == []
  {
  }

  lemma AbsorbedNothing<C, S>(state: S, pending: seq<Request<C>>, heard: seq<Option<Pdu>>,
                              absorb: (S, Request<C>, Pdu) -> S)
    requires pending == [] && heard == []
    ensures Absorbed(state, pending, heard, absorb) == state
  {
  }

  /** The first of the batches still to go, and what it adds to what is heard. */
  lemma FirstBatch<C>(pending: seq<Request<C>>, size: nat, get: Exchange, n: nat, k: nat)
    requires 0 < size && pending != [] && k == Least(size, |pending|)
    ensures Batches(Oids(pending), size) == [Oids(pending[..k])] + Batches(Oids(pending[k..]), size)
    ensures HeardOf(pending, size, get, n)
         == Variables(get(n, Oids(pending[..k])), k) + HeardOf(pending[k..], size, get, n + 1)
  {
    assert Oids(pending)[..k] == Oids(pending[..k]) && Oids(pending)[k..] == Oids(pending[k..]);
  }

  lemma NextBatch<C, S>(state: S, pending: seq<Request<C>>, size: nat, get: Exchange, n: nat,
                        absorb: (S, Request<C>, Pdu) -> S, at: nat, end: nat)
    requires 0 < size && at < |pending| && end == if |pending| < at + size then |pending| else at + size
    ensures Batches(Oids(pending[at..]), size) == [Oids(pending[at..end])] + Batches(Oids(pending[end..]), size)
    ensures var reply := get(n, Oids(pending[at..end]));
            var after := if reply.Some? then Absorbed(state, pending[at..end], Variables(reply, end - at), absorb)
                         else state;
            Absorbed(state, pending[at..], HeardOf(pending[at..], size, get, n), absorb)
            == Absorbed(after, pending[end..], HeardOf(pending[end..], size, get, n + 1), absorb)
  {
    hide Absorbed, HeardOf, Batches, Oids;
    var rest, batch := pending[at..], pending[at..end];
    FirstBatch(rest, size, get, n, end - at);
    assert rest[..end - at] == batch && rest[end - at..] == pending[end..] && rest == batch + pending[end..];
    var reply := get(n, Oids(batch));
    AbsorbedInTwo(state, batch, Variables(reply, end - at), pending[end..],
                  HeardOf(pending[end..], size, get, n + 1), absorb);
    if reply.None? {
      UnheardChangesNothing(state, batch, Variables(reply, end - at), absorb, 0);
      AbsorbedNothing(state, batch[..0], Variables(reply, end - at)[..0], absorb);
    }
  }

  // ----- agents -----

  /** Every reply that comes answers the identifiers in the order they were asked. */
  ghost predicate InOrder(get: Exchange, agent: string -> Pdu) {
    forall n, oids :: Answers(get(n, oids), oids, agent)
  }

  predicate Answers(reply: Option<seq<Pdu>>, oids: seq<string>, agent: string -> Pdu) {
    reply.Some? ==> forall i :: 0 <= i < |reply.value| && i < |oids| ==> reply.value[i] == agent(oids[i])
  }

  /** And every GET is answered in full. */
  ghost predicate Complete(get: Exchange, agent: string -> Pdu) {
    InOrder(get, agent) && forall n, oids :: get(n, oids).Some? && |oids| <= |get(n, oids).value|
  }

  /** Whatever is heard of a request is what the agent holds for it. */
  predicate Truthful<C>(pending: seq<Request<C>>, heard: seq<Option<Pdu>>, agent: string -> Pdu)
    requires |pending| == |heard|
  {
    forall j :: 0 <= j < |pending| && heard[j].Some? ==> heard[j].value == agent(pending[j].oid)
  }

  lemma {:induction false} HeardIsTrue(batches: seq<seq<string>>, get: Exchange, n: nat, agent: string -> Pdu)
    requires InOrder(get, agent)
    ensures |Heard(batches, get, n)| == |Flattened(batches)|
    ensures forall j :: 0 <= j < |Flattened(batches)| && Heard(batches, get, n)[j].Some?
              ==> Heard(batches, get, n)[j].value == agent(Flattened(batches)[j])
    ensures Complete(get, agent) ==> forall j :: 0 <= j < |Flattened(batches)| ==> Heard(batches, get, n)[j].Some?
  {
    if batches == [] {
    } else {
      HeardIsTrue(batches[1..], get, n + 1, agent);
      assert Answers(get(n, batches[0]), batches[0], agent);
    }
  }

  lemma SweepIsTruthful<C>(pending: seq<Request<C>>, size: nat, get: Exchange, n: nat, agent: string -> Pdu)
    requires 0 < size && InOrder(get, agent)
    ensures Truthful(pending, HeardOf(pending, size, get, n), agent)
    ensures Complete(get, agent) ==> forall j :: 0 <= j < |pending| ==> HeardOf(pending, size, get, n)[j].Some?
  {
    hide InOrder, Complete;
    EveryRequestGoesOutOnce(Oids(pending), size);
    HeardIsTrue(Batches(Oids(pending), size), get, n, agent);
    assert forall j :: 0 <= j < |pending| ==> pending[j].oid == Oids(pending)[j];
  }

  // ----- records of columns -----

  /** What a variable does to a column of a record: a column that is not set holds its zero value. */
  datatype Effect<V> = Keep | Clear | Put(value: V)

  type Record<C, V> = map<C, V>

  function Applied<C, V>(record: Record<C, V>, column: C, effect: Effect<V>): Record<C, V> {
    match effect
    case Keep => record
    case Clear => record - {column}
    case Put(v) => record[column := v]
  }

  /** Reading a record out of the table, applying a variable to it and storing it back. */
  function Absorber<C, V>(effect: (C, Pdu) -> Effect<V>)
    : (map<Location, Record<C, V>>, Request<C>, Pdu) -> map<Location, Record<C, V>>
  {
    (table: map<Location, Record<C, V>>, request: Request<C>, pdu: Pdu) =>
      if request.loc in table
      then table[request.loc := Applied(table[request.loc], request.column, effect(request.column, pdu))]
      else table
  }

  function Blank<C, V>(locations: seq<Location>): map<Location, Record<C, V>> {
    map loc | loc in locations :: map[]
  }

  /** The column was asked for and something was heard of it. */
  predicate Reached<C(==)>(pending: seq<Request<C>>, heard: seq<Option<Pdu>>, loc: Location, column: C)
    requires |pending| == |heard|
  {
    exists j :: 0 <= j < |pending| && heard[j].Some? && pending[j].loc == loc && pending[j].column == column
  }

  /** The requests name each column by one identifier. */
  predicate Named<C>(pending: seq<Request<C>>, oid: (Location, C) -> string) {
    forall j :: 0 <= j < |pending| ==> pending[j].oid == oid(pending[j].loc, pending[j].column)
  }

  lemma ReachedStep<C>(pending: seq<Request<C>>, heard: seq<Option<Pdu>>, loc: Location, column: C)
    requires |pending| == |heard| && pending != []
    ensures var last := |pending| - 1;
            Reached(pending, heard, loc, column)
            <==> Reached(pending[..last], heard[..last], loc, column)
                 || (heard[last].Some? && pending[last].loc == loc && pending[last].column == column)
  {
    var last := |pending| - 1;
    var p, h := pending[..last], heard[..last];
    if Reached(p, h, loc, column) {
      var j :| 0 <= j < |p| && h[j].Some? && p[j].loc == loc && p[j].column == column;
      assert pending[j] == p[j] && heard[j] == h[j];
    }
    if Reached(pending, heard, loc, column) {
      var j :| 0 <= j < |pending| && heard[j].Some? && pending[j].loc == loc && pending[j].column == column;
      if j < last {
        assert p[j] == pending[j] && h[j] == heard[j];
      }
    }
  }

  /** The column of a record once its own variable was taken, or was not. */
  predicate Settled<C, V(==)>(record: Record<C, V>, column: C, own: Effect<V>, reached: bool) {
    if reached && own.Put? then column in record && record[column] == own.value else column !in record
  }

  /** Exactly the ONUs asked for have a record. */
  lemma {:induction false} RecordsAreThoseAskedFor<C, V>(
    locations: seq<Location>, pending: seq<Request<C>>, heard: seq<Option<Pdu>>, effect: (C, Pdu) -> Effect<V>)
    requires |pending| == |heard|
    ensures Absorbed(Blank<C, V>(locations), pending, heard, Absorber(effect)).Keys == (set l | l in locations)
  {
    if pending == [] {
    } else {
      RecordsAreThoseAskedFor(locations, pending[..|pending| - 1], heard[..|pending| - 1], effect);
    }
  }

  /** A column of an ONU ends as what its own variable makes of it, if it was reached, and unset if it was not. */
  lemma {:induction false} ColumnIsItsOwnVariable<C(!new), V>(
    locations: seq<Location>, pending: seq<Request<C>>, heard: seq<Option<Pdu>>, effect: (C, Pdu) -> Effect<V>,
    oid: (Location, C) -> string, agent: string -> Pdu, loc: Location, column: C)
    requires |pending| == |heard| && loc in locations
    requires Named(pending, oid) && Truthful(pending, heard, agent)
    ensures var table := Absorbed(Blank(locations), pending, heard, Absorber(effect));
            && loc in table
            && Settled(table[loc], column, effect(column, agent(oid(loc, column))),
                       Reached(pending, heard, loc, column))
  {
    if pending == [] {
    } else {
      hide Reached;
      var last := |pending| - 1;
      ColumnIsItsOwnVariable(locations, pending[..last], heard[..last], effect, oid, agent, loc, column);
      ReachedStep(pending, heard, loc, column);
      var before := Absorbed(Blank(locations), pending[..last], heard[..last], Absorber(effect));
      var table := Absorbed(Blank(locations), pending, heard, Absorber(effect));
      if heard[last].Some? {
        var r := pending[last];
        var e := effect(r.column, heard[last].value);
        assert table == Absorber(effect)(before, r, heard[last].value);
        if r.loc == loc {
          assert table[loc] == Applied(before[loc], r.column, e);
        }
      }
    }
  }
}
