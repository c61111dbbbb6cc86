/** Reads that fail, and reads that break off inside a command: what of the text is kept, and whether it goes on. */
module TelnetFailures {
  import opened Bytes
  import opened TelnetSession
  import opened TelnetProofs

  // ----- items that do not end a read -----

  /** No prefix of the data makes the text satisfy `done`. */
  ghost predicate NotYet(text: seq<byte>, data: seq<byte>, done: Done) {
    forall n :: 0 < n <= |data| ==> !done(text + data[..n])
  }

  lemma NotYetFirst(text: seq<byte>, b: byte, data: seq<byte>, done: Done)
    requires NotYet(text, [b] + data, done)
    ensures !done(text + [b]) && NotYet(text + [b], data, done)
  {
    assert ([b] + data)[..1] == [b];
    forall n | 0 < n <= |data|
      ensures !done(text + [b] + data[..n])
    {
      assert ([b] + data)[..n + 1] == [b] + data[..n];
      assert text + ([b] + data[..n]) == text + [b] + data[..n];
    }
  }

  lemma TextFirst(items: seq<Item>)
    requires items != []
    ensures Text(items) == items[0].Text() + Text(items[1..])
    ensures Answers(items) == items[0].Answer() + Answers(items[1..])
    ensures EncodeAll(items) == items[0].Encode() + EncodeAll(items[1..])
  {
  }

  /** An item that does not end the read leaves it where the others begin, and they do not end it either. */
  lemma FirstPasses(
    line: Line, pos: nat, items: seq<Item>, done: Done, turns: nat, text: seq<byte>, sent: seq<byte>)
    returns (next: nat, text': seq<byte>, sent': seq<byte>)
    requires items != [] && items[0].Valid() && At(line, pos, EncodeAll(items)) && 0 < turns
    requires NotYet(text, Text(items), done)
    ensures next == pos + |items[0].Encode()| && At(line, next, EncodeAll(items[1..]))
    ensures text' == text + items[0].Text() && sent' == sent + items[0].Answer()
    ensures NotYet(text', Text(items[1..]), done)
    ensures Until(line, pos, done, turns, text, sent) == Until(line, next, done, turns - 1, text', sent')
  {
    hide Until, Item.Encode, At;
    var first, rest := items[0], items[1..];
    TextFirst(items);
    AtParts(line, pos, first.Encode(), EncodeAll(rest));
    UntilTurn(line, pos, first, done, turns, text, sent);
    hide EncodeAll, Text, Answers;
    if first.Char? {
      NotYetFirst(text, first.b, Text(rest), done);
    } else {
      assert [] + Text(rest) == Text(rest) && text + [] == text;
    }
    next, text', sent' := pos + |first.Encode()|, text + first.Text(), sent + first.Answer();
  }

  lemma Together(items: seq<Item>, text: seq<byte>, sent: seq<byte>)
    requires items != []
    ensures text + items[0].Text() + Text(items[1..]) == text + Text(items)
    ensures sent + items[0].Answer() + Answers(items[1..]) == sent + Answers(items)
    ensures |EncodeAll(items)| == |items[0].Encode()| + |EncodeAll(items[1..])|
  {
    hide Item.Text, Item.Answer, Item.Encode;
    TextFirst(items);
    hide EncodeAll, Text, Answers;
    Associates(text, items[0].Text(), Text(items[1..]));
    Associates(sent, items[0].Answer(), Answers(items[1..]));
  }

  lemma NoItems(text: seq<byte>, sent: seq<byte>)
    ensures text + Text([]) == text && sent + Answers([]) == sent && EncodeAll([]) == []
  {
  }

  /** Whole items are read one turn each, as long as none of them ends the read. */
  lemma {:induction false} UntilPasses(
    line: Line, pos: nat, items: seq<Item>, done: Done, turns: nat, text: seq<byte>, sent: seq<byte>)
    requires AllValid(items) && At(line, pos, EncodeAll(items)) && |items| <= turns
    requires NotYet(text, Text(items), done)
    ensures Until(line, pos, done, turns, text, sent)
         == Until(line, pos + |EncodeAll(items)|, done, turns - |items|, text + Text(items), sent + Answers(items))
    decreases |items|
  {
    hide Until, EncodeAll, Text, Answers, NotYet, At;
    if items == [] {
      NoItems(text, sent);
    } else {
      assert items[0].Valid();
      var next, text', sent' := FirstPasses(line, pos, items, done, turns, text, sent);
      UntilPasses(line, next, items[1..], done, turns - 1, text', sent');
      Together(items, text, sent);
    }
  }

  /** The first of some items leaves the others no long quiet to stop at. */
  lemma NoQuietLater(items: seq<Item>, text: seq<byte>)
    requires items != []
    requires forall n :: 0 <= n < |items| && items[n] == Pause(true) ==> text == [] && Text(items[..n]) == []
    ensures !(text != [] && items[0] == Pause(true))
    ensures var rest, text' := items[1..], text + items[0].Text();
            forall n :: 0 <= n < |rest| && rest[n] == Pause(true) ==> text' == [] && Text(rest[..n]) == []
  {
    var rest := items[1..];
    forall n | 0 <= n < |rest| && rest[n] == Pause(true)
      ensures text + items[0].Text() == [] && Text(rest[..n]) == []
    {
      TextOfFirst(items, n + 1);
      assert items[n + 1] == Pause(true);
    }
  }

  lemma FirstPassesInBulk(line: Line, pos: nat, items: seq<Item>, turns: nat, text: seq<byte>, sent: seq<byte>)
    returns (next: nat, text': seq<byte>, sent': seq<byte>)
    requires items != [] && items[0].Valid() && At(line, pos, EncodeAll(items)) && 0 < turns
    requires !(text != [] && items[0] == Pause(true))
    ensures next == pos + |items[0].Encode()| && At(line, next, EncodeAll(items[1..]))
    ensures text' == text + items[0].Text() && sent' == sent + items[0].Answer()
    ensures Bulk(line, pos, turns, text, sent) == Bulk(line, next, turns - 1, text', sent')
  {
    hide Bulk, Item.Encode, At;
    var first, rest := items[0], items[1..];
    TextFirst(items);
    AtParts(line, pos, first.Encode(), EncodeAll(rest));
    hide EncodeAll, Text, Answers;
    next, text', sent' := pos + |first.Encode()|, text + first.Text(), sent + first.Answer();
    BulkTurn(line, pos, first, turns, text, sent, Bulk(line, next, turns - 1, text', sent'));
  }

  lemma {:induction false} BulkPasses(
    line: Line, pos: nat, items: seq<Item>, turns: nat, text: seq<byte>, sent: seq<byte>)
    requires AllValid(items) && At(line, pos, EncodeAll(items)) && |items| <= turns
    requires forall n :: 0 <= n < |items| && items[n] == Pause(true) ==> text == [] && Text(items[..n]) == []
    ensures Bulk(line, pos, turns, text, sent)
         == Bulk(line, pos + |EncodeAll(items)|, turns - |items|, text + Text(items), sent + Answers(items))
    decreases |items|
  {
    hide Bulk, EncodeAll, Text, Answers, At;
    if items == [] {
      NoItems(text, sent);
    } else {
      assert items[0].Valid();
      NoQuietLater(items, text);
      var next, text', sent' := FirstPassesInBulk(line, pos, items, turns, text, sent);
      BulkPasses(line, next, items[1..], turns - 1, text', sent');
      Together(items, text, sent);
    }
  }

  // ----- a command cut in two -----

  /** The front of a command: its IAC, a request without its option, or a subnegotiation that has not ended. */
  datatype Front = Bare | HalfRequest(command: byte) | HalfSubnegotiation(payload: seq<byte>, escaped: bool)
  {
    predicate Valid() {
      HalfRequest? ==> IsRequest(command)
    }

    function Encode(): seq<Event> {
      match this
      case Bare => [Byte(IAC)]
      case HalfRequest(command) => [Byte(IAC), Byte(command)]
      case HalfSubnegotiation(payload, escaped) =>
        [Byte(IAC), Byte(SB)] + (Escape(payload) + if escaped then [Byte(IAC)] else [])
    }
  }

  lemma {:induction false} SkipIsCut(line: Line, pos: nat, payload: seq<byte>, escaped: bool)
    requires At(line, pos, Escape(payload) + if escaped then [Byte(IAC)] else [])
    requires var end := pos + |Escape(payload)| + if escaped then 1 else 0; !Answer(line, end).Data?
    ensures var end := pos + |Escape(payload)| + if escaped then 1 else 0;
            Skip(line, pos) == (Cut(Answer(line, end)), Past(line, end))
    decreases |payload|
  {
    var tail := if escaped then [Byte(IAC)] else [];
    if payload == [] {
      assert [] + tail == tail;
      if escaped {
        AtIndex(line, pos, Escape(payload) + tail, 0);
      }
    } else {
      var first := if payload[0] == IAC then [Byte(IAC), Byte(IAC)] else [Byte(payload[0])];
      var rest := Escape(payload[1..]) + tail;
      assert Escape(payload) + tail == first + rest;
      AtParts(line, pos, first, rest);
      AtIndex(line, pos, first, 0);
      if payload[0] == IAC {
        AtIndex(line, pos, first, 1);
      }
      SkipIsCut(line, pos + |first|, payload[1..], escaped);
    }
  }

  /** A command that breaks off is not answered, and ends as the read that broke it off did. */
  lemma NegotiationIsCut(line: Line, pos: nat, front: Front)
    requires front.Valid() && At(line, pos, front.Encode())
    requires !Answer(line, pos + |front.Encode()|).Data?
    ensures line[pos] == Byte(IAC)
    ensures var end := pos + |front.Encode()|;
            Negotiate(line, pos + 1) == (Cut(Answer(line, end)), Past(line, end), [])
  {
    AtIndex(line, pos, front.Encode(), 0);
    match front
    case Bare =>
    case HalfRequest(command) =>
      AtIndex(line, pos, front.Encode(), 1);
    case HalfSubnegotiation(payload, escaped) =>
      AtIndex(line, pos, front.Encode(), 1);
      AtParts(line, pos, [Byte(IAC), Byte(SB)], Escape(payload) + if escaped then [Byte(IAC)] else []);
      SkipIsCut(line, pos + 2, payload, escaped);
  }

  /** Where a read stands after some items. */
  lemma AfterItems(line: Line, pos: nat, items: seq<Item>, events: seq<Event>) returns (next: nat)
    requires At(line, pos, EncodeAll(items) + events)
    ensures next == pos + |EncodeAll(items)|
    ensures At(line, pos, EncodeAll(items)) && At(line, next, events)
  {
    AtParts(line, pos, EncodeAll(items), events);
    next := pos + |EncodeAll(items)|;
  }

  // ----- the prompt-bounded read -----

  /** After items that do not end it, a failed read ends it as failed, with all their text, and end of file as done. */
  lemma UntilBreaks(line: Line, items: seq<Item>, done: Done, turns: nat)
    requires AllValid(items) && |items| < turns && NotYet([], Text(items), done)
    requires At(line, 0, EncodeAll(items))
    ensures var end := |EncodeAll(items)|; var output := Until(line, 0, done, turns, [], []);
            && (end == |line| ==> output == Output(Text(items), false, end, Answers(items)))
            && (end < |line| && line[end] == Fault ==> output == Output(Text(items), true, end + 1, Answers(items)))
  {
    UntilPasses(line, 0, items, done, turns, [], []);
    assert [] + Text(items) == Text(items) && [] + Answers(items) == Answers(items);
    hide EncodeAll, Text, Answers;
  }

  /** One turn of the read that breaks off inside a command. */
  lemma UntilDrops(line: Line, pos: nat, front: Front, done: Done, turns: nat, text: seq<byte>, sent: seq<byte>)
    requires 0 < turns && front.Valid() && At(line, pos, front.Encode())
    requires !Answer(line, pos + |front.Encode()|).Data?
    ensures var end := pos + |front.Encode()|;
            Until(line, pos, done, turns, text, sent)
            == if Answer(line, end).TimedOut? then Until(line, Past(line, end), done, turns - 1, text, sent)
               else Output(text, true, Past(line, end), sent)
  {
    NegotiationIsCut(line, pos, front);
    hide Negotiate;
    assert sent + [] == sent;
  }

  /**
   A command that breaks off inside the read is dropped. If its bytes were only late the read goes on with what comes
   next; if the line failed or ended there, the read has failed, with the text so far.
   */
  lemma UntilIsCut(line: Line, items: seq<Item>, front: Front, done: Done, turns: nat)
    requires AllValid(items) && |items| < turns && NotYet([], Text(items), done)
    requires front.Valid() && At(line, 0, EncodeAll(items) + front.Encode())
    ensures var end := |EncodeAll(items)| + |front.Encode()|; var output := Until(line, 0, done, turns, [], []);
            && (end == |line| ==> output == Output(Text(items), true, end, Answers(items)))
            && (end < |line| && line[end] == Fault ==> output == Output(Text(items), true, end + 1, Answers(items)))
            && (end < |line| && line[end].Timeout? ==>
                  output == Until(line, end + 1, done, turns - |items| - 1, Text(items), Answers(items)))
  {
    hide Until, EncodeAll, Text, Answers, AllValid, NotYet, Front.Encode, Front.Valid;
    var next := AfterItems(line, 0, items, front.Encode());
    UntilPasses(line, 0, items, done, turns, [], []);
    assert [] + Text(items) == Text(items) && [] + Answers(items) == Answers(items);
    if !Answer(line, next + |front.Encode()|).Data? {
      UntilDrops(line, next, front, done, turns - |items|, Text(items), Answers(items));
    }
  }

  // ----- the bulk read -----

  predicate NoLongQuiet(items: seq<Item>) {
    forall n :: 0 <= n < |items| && items[n] == Pause(true) ==> Text(items[..n]) == []
  }

  lemma BulkBreaks(line: Line, items: seq<Item>, turns: nat)
    requires AllValid(items) && |items| < turns && NoLongQuiet(items)
    requires At(line, 0, EncodeAll(items))
    ensures var end := |EncodeAll(items)|; var output := Bulk(line, 0, turns, [], []);
            && (end == |line| ==> output == Output(Text(items), false, end, Answers(items)))
            && (end < |line| && line[end] == Fault ==> output == Output(Text(items), true, end + 1, Answers(items)))
  {
    BulkPasses(line, 0, items, turns, [], []);
    assert [] + Text(items) == Text(items) && [] + Answers(items) == Answers(items);
    hide EncodeAll, Text, Answers;
  }

  lemma BulkDrops(line: Line, pos: nat, front: Front, turns: nat, text: seq<byte>, sent: seq<byte>)
    requires 0 < turns && front.Valid() && At(line, pos, front.Encode())
    requires !Answer(line, pos + |front.Encode()|).Data?
    ensures Bulk(line, pos, turns, text, sent)
         == Bulk(line, Past(line, pos + |front.Encode()|), turns - 1, text, sent)
  {
    NegotiationIsCut(line, pos, front);
    hide Negotiate;
    assert sent + [] == sent;
  }

  lemma BulkAtTheEnd(line: Line, turns: nat, text: seq<byte>, sent: seq<byte>)
    ensures Bulk(line, |line|, turns, text, sent) == Output(text, false, |line|, sent)
  {
  }

  /** The bulk read drops such a command however it broke off, and goes on: not even a failed line ends it there. */
  lemma BulkIsCut(line: Line, items: seq<Item>, front: Front, turns: nat)
    requires AllValid(items) && |items| < turns && NoLongQuiet(items)
    requires front.Valid() && At(line, 0, EncodeAll(items) + front.Encode())
    ensures var end := |EncodeAll(items)| + |front.Encode()|; var output := Bulk(line, 0, turns, [], []);
            && (end == |line| ==> output == Output(Text(items), false, end, Answers(items)))
            && (end < |line| && !line[end].Byte? ==>
                  output == Bulk(line, end + 1, turns - |items| - 1, Text(items), Answers(items)))
  {
    hide Bulk, EncodeAll, Text, Answers, AllValid, Front.Encode, Front.Valid;
    var next := AfterItems(line, 0, items, front.Encode());
    BulkPasses(line, 0, items, turns, [], []);
    assert [] + Text(items) == Text(items) && [] + Answers(items) == Answers(items);
    if !Answer(line, next + |front.Encode()|).Data? {
      BulkDrops(line, next, front, turns - |items|, Text(items), Answers(items));
      BulkAtTheEnd(line, turns - |items| - 1, Text(items), Answers(items));
    }
  }

  // ----- the numbers on the wire -----

  /** WILL, WONT, DO and DONT are 251 to 254; of the options only echo, 1, and go-ahead, 3, are ever agreed to. */
  lemma RepliesInNumbers(option: byte)
    ensures Reply(251, option) == [255, if option == 1 || option == 3 then 253 else 254, option]
    ensures Reply(252, option) == [255, 254, option]
    ensures Reply(253, option) == [255, if option == 3 then 251 else 252, option]
    ensures Reply(254, option) == [255, 252, option]
    ensures Request(251, option).Encode() == [Byte(255), Byte(251), Byte(option)]
    ensures forall command: byte :: IsRequest(command) <==> 251 <= command <= 254
    ensures Subnegotiation([]).Encode() == [Byte(255), Byte(250), Byte(255), Byte(240)]
  {
    assert forall command: byte :: command in [WILL, WONT, DO, DONT] <==> 251 <= command <= 254;
    assert Escape([]) == [];
  }
}
