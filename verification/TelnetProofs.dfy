/**
 Both reads find the same text in a line, however much negotiation is mixed into it, and stop only between commands.
 */
module TelnetProofs {
  import opened Bytes
  import opened TelnetSession

  predicate IsPlain(command: byte) {
    command != IAC && command != SB && !IsRequest(command)
  }

  /** One thing the peer says: a byte of text, a request, a subnegotiation, another command, or nothing for a while. */
  datatype Item =
    | Char(b: byte)
    | Request(command: byte, option: byte)
    | Subnegotiation(payload: seq<byte>)
    | Command(command: byte)
    | Pause(quiet: bool)
  {
    predicate Valid() {
      match this
      case Request(command, _) => IsRequest(command)
      case Command(command) => IsPlain(command)
      case _ => true
    }

    /** The text it carries. */
    function Text(): seq<byte> {
      if Char? then [b] else []
    }

    /** What is written back for it. */
    function Answer(): seq<byte> {
      if Request? then Reply(command, option) else []
    }

    /** How it is sent: inside text and payloads an IAC is doubled. */
    function Encode(): seq<Event> {
      match this
      case Char(b) => if b == IAC then [Byte(IAC), Byte(IAC)] else [Byte(b)]
      case Request(command, option) => [Byte(IAC), Byte(command), Byte(option)]
      case Subnegotiation(payload) => [Byte(IAC), Byte(SB)] + Escape(payload) + [Byte(IAC), Byte(SE)]
      case Command(command) => [Byte(IAC), Byte(command)]
      case Pause(quiet) => [Timeout(quiet)]
    }
  }

  function Escape(payload: seq<byte>): seq<Event> {
    if payload == [] then []
    else (if payload[0] == IAC then [Byte(IAC), Byte(IAC)] else [Byte(payload[0])]) + Escape(payload[1..])
  }

  function Text(items: seq<Item>): seq<byte> {
    if items == [] then [] else items[0].Text() + Text(items[1..])
  }

  function Answers(items: seq<Item>): seq<byte> {
    if items == [] then [] else items[0].Answer() + Answers(items[1..])
  }

  function EncodeAll(items: seq<Item>): seq<Event> {
    if items == [] then [] else items[0].Encode() + EncodeAll(items[1..])
  }

  predicate AllValid(items: seq<Item>) {
    forall n :: 0 <= n < |items| ==> items[n].Valid()
  }

  // ----- one item is one turn -----

  predicate At(line: Line, pos: nat, events: seq<Event>) {
    pos + |events| <= |line| && line[pos..pos + |events|] == events
  }

  lemma AtParts(line: Line, pos: nat, p: seq<Event>, q: seq<Event>)
    requires At(line, pos, p + q)
    ensures At(line, pos, p) && At(line, pos + |p|, q)
  {
    var events := p + q;
    assert line[pos..pos + |p|] == line[pos..pos + |events|][..|p|];
    assert line[pos + |p|..pos + |p| + |q|] == line[pos..pos + |events|][|p|..];
  }

  lemma AtIndex(line: Line, pos: nat, events: seq<Event>, k: nat)
    requires At(line, pos, events) && k < |events|
    ensures line[pos + k] == events[k]
  {
    assert line[pos + k] == line[pos..pos + |events|][k];
  }

  lemma {:induction false} SkipsPayload(line: Line, pos: nat, payload: seq<byte>)
    requires At(line, pos, Escape(payload) + [Byte(IAC), Byte(SE)])
    ensures Skip(line, pos) == (Drop, pos + |Escape(payload)| + 2)
    decreases |payload|
  {
    if payload == [] {
      AtIndex(line, pos, Escape(payload) + [Byte(IAC), Byte(SE)], 0);
      AtIndex(line, pos, Escape(payload) + [Byte(IAC), Byte(SE)], 1);
    } else {
      var first := if payload[0] == IAC then [Byte(IAC), Byte(IAC)] else [Byte(payload[0])];
      var rest := Escape(payload[1..]) + [Byte(IAC), Byte(SE)];
      assert Escape(payload) + [Byte(IAC), Byte(SE)] == first + rest;
      AtParts(line, pos, first, rest);
      AtIndex(line, pos, first, 0);
      if payload[0] == IAC {
        AtIndex(line, pos, first, 1);
      }
      SkipsPayload(line, pos + |first|, payload[1..]);
    }
  }

  /** After its IAC, every item that starts with one is negotiated whole. */
  lemma Negotiated(line: Line, pos: nat, item: Item)
    requires item.Valid() && At(line, pos, item.Encode())
    requires !item.Pause? && !(item.Char? && item.b != IAC)
    ensures line[pos] == Byte(IAC)
    ensures Negotiate(line, pos + 1) == (if item.Char? then Keep(IAC) else Drop, pos + |item.Encode()|, item.Answer())
  {
    var events := item.Encode();
    AtIndex(line, pos, events, 0);
    AtIndex(line, pos, events, 1);
    match item
    case Request(_, _) => AtIndex(line, pos, events, 2);
    case Subnegotiation(payload) =>
      assert events == [Byte(IAC), Byte(SB)] + (Escape(payload) + [Byte(IAC), Byte(SE)]);
      AtParts(line, pos, [Byte(IAC), Byte(SB)], Escape(payload) + [Byte(IAC), Byte(SE)]);
      SkipsPayload(line, pos + 2, payload);
    case _ =>
  }

  /** What one item does to a prompt-bounded read. */
  lemma UntilTurn(line: Line, pos: nat, item: Item, done: Done, turns: nat, text: seq<byte>, sent: seq<byte>)
    requires turns > 0 && item.Valid() && At(line, pos, item.Encode())
    ensures var text', sent', next := text + item.Text(), sent + item.Answer(), pos + |item.Encode()|;
            Until(line, pos, done, turns, text, sent)
            == if item.Char? && done(text') then Output(text', false, next, sent')
               else Until(line, next, done, turns - 1, text', sent')
  {
    AtIndex(line, pos, item.Encode(), 0);
    assert text + [] == text && sent + [] == sent;
    if !item.Pause? && !(item.Char? && item.b != IAC) {
      Negotiated(line, pos, item);
    }
  }

  /** What one item does to a bulk read, unless it is the long quiet that ends it. */
  lemma BulkTurn(
    line: Line, pos: nat, item: Item, turns: nat, text: seq<byte>, sent: seq<byte>, output: Output)
    requires turns > 0 && item.Valid() && At(line, pos, item.Encode())
    requires !(text != [] && item == Pause(true))
    requires output == Bulk(line, pos + |item.Encode()|, turns - 1, text + item.Text(), sent + item.Answer())
    ensures Bulk(line, pos, turns, text, sent) == output
  {
    AtIndex(line, pos, item.Encode(), 0);
    assert text + [] == text && sent + [] == sent;
    if !item.Pause? && !(item.Char? && item.b != IAC) {
      Negotiated(line, pos, item);
    }
  }

  // ----- whole reads -----

  /** How many items a prompt-bounded read takes before its text satisfies `done`, its time is up or the line ends. */
  function Taken(items: seq<Item>, done: Done, turns: nat, text: seq<byte>): (n: nat)
    ensures n <= |items| && n <= turns
    decreases |items|
  {
    if turns == 0 || items == [] then 0
    else if items[0].Char? && done(text + items[0].Text()) then 1
    else 1 + Taken(items[1..], done, turns - 1, text + items[0].Text())
  }

  /** How many a bulk read takes before the line has been quiet for long, its time is up or the line ends. */
  function TakenInBulk(items: seq<Item>, turns: nat, text: seq<byte>): (n: nat)
    ensures n <= |items| && n <= turns
    decreases |items|
  {
    if turns == 0 || items == [] then 0
    else if text != [] && items[0] == Pause(true) then 1
    else 1 + TakenInBulk(items[1..], turns - 1, text + items[0].Text())
  }

  /** What taking the first n items amounts to. */
  function After(line: Line, pos: nat, items: seq<Item>, n: nat, text: seq<byte>, sent: seq<byte>): Output
    requires n <= |items|
  {
    Output(text + Text(items[..n]), false, pos + |EncodeAll(items[..n])|, sent + Answers(items[..n]))
  }

  lemma AfterNone(line: Line, pos: nat, items: seq<Item>, text: seq<byte>, sent: seq<byte>)
    ensures After(line, pos, items, 0, text, sent) == Output(text, false, pos, sent)
  {
    assert text + [] == text && sent + [] == sent;
  }

  lemma AfterOne(line: Line, pos: nat, items: seq<Item>, n: nat, text: seq<byte>, sent: seq<byte>)
    requires 0 < n <= |items|
    ensures After(line, pos, items, n, text, sent)
         == After(line, pos + |items[0].Encode()|, items[1..], n - 1, text + items[0].Text(), sent + items[0].Answer())
  {
    var first, rest := items[0], items[1..][..n - 1];
    assert items[..n][1..] == rest && items[..n][0] == first;
    assert text + (first.Text() + Text(rest)) == text + first.Text() + Text(rest);
    assert sent + (first.Answer() + Answers(rest)) == sent + first.Answer() + Answers(rest);
  }

  lemma FirstItemAt(line: Line, pos: nat, items: seq<Item>)
    requires items != [] && pos <= |line| && line[pos..] == EncodeAll(items)
    ensures At(line, pos, items[0].Encode())
    ensures pos + |items[0].Encode()| <= |line|
    ensures line[pos + |items[0].Encode()|..] == EncodeAll(items[1..])
  {
    var events, rest := items[0].Encode(), EncodeAll(items[1..]);
    assert line[pos..] == events + rest;
    assert line[pos..pos + |events|] == line[pos..][..|events|];
    assert line[pos + |events|..] == line[pos..][|events|..];
  }

  lemma UntilIdles(
    line: Line, pos: nat, items: seq<Item>, done: Done, turns: nat, text: seq<byte>, sent: seq<byte>)
    requires turns == 0 || items == []
    requires pos <= |line| && line[pos..] == EncodeAll(items)
    ensures Until(line, pos, done, turns, text, sent) == After(line, pos, items, 0, text, sent)
  {
    AfterNone(line, pos, items, text, sent);
  }

  lemma BulkIdles(line: Line, pos: nat, items: seq<Item>, turns: nat, text: seq<byte>, sent: seq<byte>)
    requires turns == 0 || items == []
    requires pos <= |line| && line[pos..] == EncodeAll(items)
    ensures Bulk(line, pos, turns, text, sent) == After(line, pos, items, 0, text, sent)
  {
    AfterNone(line, pos, items, text, sent);
  }

  lemma UntilStops(
    line: Line, pos: nat, items: seq<Item>, done: Done, turns: nat, text: seq<byte>, sent: seq<byte>)
    requires items != [] && items[0].Char? && done(text + items[0].Text())
    requires pos <= |line| && line[pos..] == EncodeAll(items) && 0 < turns
    ensures Until(line, pos, done, turns, text, sent) == After(line, pos, items, 1, text, sent)
  {
    FirstItemAt(line, pos, items);
    UntilTurn(line, pos, items[0], done, turns, text, sent);
    hide Until, EncodeAll;
    AfterOne(line, pos, items, 1, text, sent);
    AfterNone(line, pos + |items[0].Encode()|, items[1..], text + items[0].Text(), sent + items[0].Answer());
  }

  lemma UntilGoesOn(
    line: Line, pos: nat, items: seq<Item>, done: Done, turns: nat, text: seq<byte>, sent: seq<byte>)
    returns (next: nat, text': seq<byte>, sent': seq<byte>)
    requires items != [] && items[0].Valid() && !(items[0].Char? && done(text + items[0].Text()))
    requires pos <= |line| && line[pos..] == EncodeAll(items) && 0 < turns
    ensures next == pos + |items[0].Encode()| <= |line| && line[next..] == EncodeAll(items[1..])
    ensures text' == text + items[0].Text() && sent' == sent + items[0].Answer()
    ensures Until(line, pos, done, turns, text, sent) == Until(line, next, done, turns - 1, text', sent')
  {
    hide Until, EncodeAll;
    FirstItemAt(line, pos, items);
    UntilTurn(line, pos, items[0], done, turns, text, sent);
    next, text', sent' := pos + |items[0].Encode()|, text + items[0].Text(), sent + items[0].Answer();
  }

  /**
   A prompt-bounded read of any items takes whole items, from the front, and returns exactly their text: what is
   written back is one reply per request, and the line is left between two items.
   */
  lemma {:induction false} UntilTakesItems(
    line: Line, pos: nat, items: seq<Item>, done: Done, turns: nat, text: seq<byte>, sent: seq<byte>)
    requires AllValid(items) && pos <= |line| && line[pos..] == EncodeAll(items)
    ensures Until(line, pos, done, turns, text, sent)
         == After(line, pos, items, Taken(items, done, turns, text), text, sent)
    decreases |items|
  {
    hide Until, EncodeAll, After;
    if turns == 0 || items == [] {
      UntilIdles(line, pos, items, done, turns, text, sent);
    } else if items[0].Char? && done(text + items[0].Text()) {
      UntilStops(line, pos, items, done, turns, text, sent);
    } else {
      var next, text', sent' := UntilGoesOn(line, pos, items, done, turns, text, sent);
      AfterOne(line, pos, items, Taken(items, done, turns, text), text, sent);
      UntilTakesItems(line, next, items[1..], done, turns - 1, text', sent');
    }
  }

  lemma BulkStops(line: Line, pos: nat, items: seq<Item>, turns: nat, text: seq<byte>, sent: seq<byte>)
    requires items != [] && items[0] == Pause(true) && text != []
    requires pos <= |line| && line[pos..] == EncodeAll(items) && 0 < turns
    ensures Bulk(line, pos, turns, text, sent) == After(line, pos, items, 1, text, sent)
  {
    FirstItemAt(line, pos, items);
    AtIndex(line, pos, Pause(true).Encode(), 0);
    AfterOne(line, pos, items, 1, text, sent);
    AfterNone(line, pos + 1, items[1..], text, sent);
    assert text + [] == text && sent + [] == sent;
  }

  lemma BulkGoesOn(line: Line, pos: nat, items: seq<Item>, turns: nat, text: seq<byte>, sent: seq<byte>)
    returns (next: nat, text': seq<byte>, sent': seq<byte>)
    requires items != [] && items[0].Valid() && !(text != [] && items[0] == Pause(true))
    requires pos <= |line| && line[pos..] == EncodeAll(items) && 0 < turns
    ensures next == pos + |items[0].Encode()| <= |line| && line[next..] == EncodeAll(items[1..])
    ensures text' == text + items[0].Text() && sent' == sent + items[0].Answer()
    ensures Bulk(line, pos, turns, text, sent) == Bulk(line, next, turns - 1, text', sent')
  {
    hide Bulk, EncodeAll;
    FirstItemAt(line, pos, items);
    BulkTurn(line, pos, items[0], turns, text, sent,
             Bulk(line, pos + |items[0].Encode()|, turns - 1, text + items[0].Text(), sent + items[0].Answer()));
    next, text', sent' := pos + |items[0].Encode()|, text + items[0].Text(), sent + items[0].Answer();
  }

  lemma {:induction false} BulkTakesItems(
    line: Line, pos: nat, items: seq<Item>, turns: nat, text: seq<byte>, sent: seq<byte>)
    requires AllValid(items) && pos <= |line| && line[pos..] == EncodeAll(items)
    ensures Bulk(line, pos, turns, text, sent) == After(line, pos, items, TakenInBulk(items, turns, text), text, sent)
    decreases |items|
  {
    hide Bulk, EncodeAll, After;
    if turns == 0 || items == [] {
      BulkIdles(line, pos, items, turns, text, sent);
    } else if text != [] && items[0] == Pause(true) {
      BulkStops(line, pos, items, turns, text, sent);
    } else {
      var next, text', sent' := BulkGoesOn(line, pos, items, turns, text, sent);
      AfterOne(line, pos, items, TakenInBulk(items, turns, text), text, sent);
      BulkTakesItems(line, next, items[1..], turns - 1, text', sent');
    }
  }

  // ----- the two loops agree -----

  lemma {:induction false} NeverDoneTakesAll(items: seq<Item>, done: Done, turns: nat, text: seq<byte>)
    requires forall t: seq<byte> :: !done(t)
    requires forall n :: 0 <= n < |items| ==> items[n] != Pause(true)
    ensures Taken(items, done, turns, text) == TakenInBulk(items, turns, text)
         == if turns < |items| then turns else |items|
    decreases |items|
  {
    if turns == 0 || items == [] {
    } else {
      NeverDoneTakesAll(items[1..], done, turns - 1, text + items[0].Text());
    }
  }

  /**
   Read to the end, without a prompt to stop at or a long quiet to give up on, both loops return the same: all the
   text sent, and nothing of the negotiation mixed into it.
   */
  lemma BothLoopsReadTheSame(items: seq<Item>, done: Done, turns: nat)
    requires AllValid(items) && |items| <= turns
    requires forall t: seq<byte> :: !done(t)
    requires forall n :: 0 <= n < |items| ==> items[n] != Pause(true)
    ensures var line := EncodeAll(items);
            Until(line, 0, done, turns, [], []) == Bulk(line, 0, turns, [], [])
            == Output(Text(items), false, |line|, Answers(items))
  {
    var line := EncodeAll(items);
    assert line[0..] == line;
    UntilTakesItems(line, 0, items, done, turns, [], []);
    BulkTakesItems(line, 0, items, turns, [], []);
    NeverDoneTakesAll(items, done, turns, []);
    assert items[..|items|] == items;
    assert [] + Text(items) == Text(items) && [] + Answers(items) == Answers(items);
  }

  // ----- where a prompt-bounded read stops -----

  /** The text up to the first byte that makes it satisfy `done`; all of it when none does. */
  function Cutoff(text: seq<byte>, data: seq<byte>, done: Done): seq<byte>
    decreases |data|
  {
    if data == [] then text
    else if done(text + [data[0]]) then text + [data[0]]
    else Cutoff(text + [data[0]], data[1..], done)
  }

  lemma TextOfFirst(items: seq<Item>, n: nat)
    requires 0 < n <= |items|
    ensures Text(items[..n]) == items[0].Text() + Text(items[1..][..n - 1])
  {
    assert items[..n][1..] == items[1..][..n - 1] && items[..n][0] == items[0];
  }

  lemma CutoffFirst(items: seq<Item>, done: Done, text: seq<byte>)
    requires items != []
    ensures var text' := text + items[0].Text();
            Cutoff(text, Text(items), done)
            == if items[0].Char? && done(text') then text' else Cutoff(text', Text(items[1..]), done)
  {
    if items[0].Char? {
      assert Text(items)[0] == items[0].b && Text(items)[1..] == Text(items[1..]);
    } else {
      assert text + items[0].Text() == text && Text(items) == Text(items[1..]);
    }
  }

  lemma TakenFirst(items: seq<Item>, done: Done, turns: nat, text: seq<byte>)
    requires items != [] && 0 < turns
    ensures var text' := text + items[0].Text();
            Taken(items, done, turns, text)
            == if items[0].Char? && done(text') then 1 else 1 + Taken(items[1..], done, turns - 1, text')
  {
  }

  lemma Associates<T>(p: seq<T>, q: seq<T>, r: seq<T>)
    ensures p + (q + r) == (p + q) + r
  {
  }

  /** The text a read ends up with, counted from its first item. */
  lemma TakenTextFirst(items: seq<Item>, done: Done, turns: nat, text: seq<byte>, text': seq<byte>)
    requires items != [] && 0 < turns && text' == text + items[0].Text()
    ensures text + Text(items[..Taken(items, done, turns, text)])
         == if items[0].Char? && done(text') then text'
            else text' + Text(items[1..][..Taken(items[1..], done, turns - 1, text')])
  {
    var n := Taken(items, done, turns, text);
    TakenFirst(items, done, turns, text);
    TextOfFirst(items, n);
    hide Taken;
    Associates(text, items[0].Text(), Text(items[1..][..n - 1]));
    if items[0].Char? && done(text') {
      assert Text(items[1..][..0]) == [];
    }
  }

  lemma {:induction false} TakenTextIsTheCutoff(items: seq<Item>, done: Done, turns: nat, text: seq<byte>)
    requires |items| <= turns
    ensures text + Text(items[..Taken(items, done, turns, text)]) == Cutoff(text, Text(items), done)
    decreases |items|
  {
    if items == [] {
      NothingTaken(done, turns, text);
    } else {
      var text' := text + items[0].Text();
      CutoffFirst(items, done, text);
      TakenTextFirst(items, done, turns, text, text');
      hide Taken, Text, Cutoff;
      if !(items[0].Char? && done(text')) {
        TakenTextIsTheCutoff(items[1..], done, turns - 1, text');
      }
    }
  }

  lemma NothingTaken(done: Done, turns: nat, text: seq<byte>)
    ensures var none: seq<Item> := [];
            text + Text(none[..Taken(none, done, turns, text)]) == text == Cutoff(text, Text(none), done)
  {
    assert text + [] == text;
  }

  /** Given time, what is returned depends on the text sent and not on what was negotiated around it. */
  lemma NegotiationIsInvisible(items: seq<Item>, others: seq<Item>, done: Done, turns: nat)
    requires AllValid(items) && AllValid(others)
    requires |items| <= turns && |others| <= turns
    requires Text(items) == Text(others)
    ensures Until(EncodeAll(items), 0, done, turns, [], []).text
         == Until(EncodeAll(others), 0, done, turns, [], []).text
         == Cutoff([], Text(items), done)
  {
    ReadText(items, done, turns);
    ReadText(others, done, turns);
  }

  lemma ReadText(items: seq<Item>, done: Done, turns: nat)
    requires AllValid(items) && |items| <= turns
    ensures Until(EncodeAll(items), 0, done, turns, [], []).text == Cutoff([], Text(items), done)
  {
    var line := EncodeAll(items);
    assert line[0..] == line;
    UntilTakesItems(line, 0, items, done, turns, [], []);
    TakenTextIsTheCutoff(items, done, turns, []);
  }

  lemma {:induction false} EncodeAllSplits(items: seq<Item>, n: nat)
    requires n <= |items|
    ensures EncodeAll(items) == EncodeAll(items[..n]) + EncodeAll(items[n..])
    decreases n
  {
    if n > 0 {
      assert items[..n][1..] == items[1..][..n - 1] && items[1..][n - 1..] == items[n..];
      EncodeAllSplits(items[1..], n - 1);
      var first, taken, left := items[0].Encode(), EncodeAll(items[1..][..n - 1]), EncodeAll(items[n..]);
      assert first + (taken + left) == first + taken + left;
    } else {
      assert items[..0] == [] && items[0..] == items;
    }
  }

  /** The next read finds exactly the items the last one left: no command is ever cut in two. */
  lemma NextReadIsInStep(line: Line, pos: nat, items: seq<Item>, done: Done, turns: nat)
    requires AllValid(items) && pos <= |line| && line[pos..] == EncodeAll(items)
    ensures var next := Until(line, pos, done, turns, [], []).next;
            next <= |line| && line[next..] == EncodeAll(items[Taken(items, done, turns, [])..])
  {
    var n := Taken(items, done, turns, []);
    UntilTakesItems(line, pos, items, done, turns, [], []);
    EncodeAllSplits(items, n);
    var taken := EncodeAll(items[..n]);
    assert line[pos + |taken|..] == line[pos..][|taken|..];
  }

  // ----- what is agreed to -----

  /**
   Each request gets one answer about its own option: echoing is left to the peer, and either side may drop go-ahead;
   everything else is refused.
   */
  lemma AgreesToNothingElse(command: byte, option: byte)
    requires IsRequest(command)
    ensures var reply := Reply(command, option);
            var agrees := || (command == WILL && option in [ECHO, SUPPRESS_GO_AHEAD])
                          || (command == DO && option == SUPPRESS_GO_AHEAD);
            && |reply| == 3 && reply[0] == IAC && reply[2] == option
            && (command in [WILL, WONT] ==> reply[1] == if agrees then DO else DONT)
            && (command in [DO, DONT] ==> reply[1] == if agrees then WILL else WONT)
  {
  }

  /** What is written back is one three-byte reply per request, in their order, whatever stands between them. */
  lemma {:induction false} OneReplyPerRequest(items: seq<Item>)
    requires AllValid(items)
    ensures Answers(items) == Answers(Requests(items)) && |Answers(items)| == 3 * |Requests(items)|
    decreases |items|
  {
    if items == [] {
    } else {
      OneReplyPerRequest(items[1..]);
      if items[0].Request? {
        assert Requests(items)[1..] == Requests(items[1..]);
      } else {
        assert Requests(items) == Requests(items[1..]);
      }
    }
  }

  /** The requests among the items, in order. */
  function Requests(items: seq<Item>): (requests: seq<Item>)
    ensures forall n :: 0 <= n < |requests| ==> requests[n].Request?
  {
    if items == [] then []
    else (if items[0].Request? then [items[0]] else []) + Requests(items[1..])
  }
}
