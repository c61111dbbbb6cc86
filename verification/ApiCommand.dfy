/**
 One RouterOS API command: send it, then collect its rows until the router is done. The byte budget falls with
 every sentence, so the loop ends on any peer.
 */
module ApiCommand {
  import opened Options
  import opened ApiWire

  const MAX_REPLY_BYTES := 0x100_0000
  const MAX_REPLY_ROWS := 100_000
  const SENTENCE_OVERHEAD := 64

  // The reply kinds and the attribute that explains a refusal, in ASCII.
  const RE: Word := [33, 114, 101]
  const DONE: Word := [33, 100, 111, 110, 101]
  const TRAP: Word := [33, 116, 114, 97, 112]
  const FATAL: Word := [33, 102, 97, 116, 97, 108]
  const MESSAGE: Word := [109, 101, 115, 115, 97, 103, 101]

  type Row = map<Word, Word>

  datatype Outcome =
    | Rows(rows: seq<Row>, next: nat)
    | Refused(message: Word, next: nat)
    | Closed(reason: seq<Word>)
    | Failed(error: Error)
    | SendFailed

  /** What a sentence takes from the byte budget. */
  function Charge(words: seq<Word>): nat {
    SentenceBytes(words) + SENTENCE_OVERHEAD * (|words| + 1)
  }

  function MessageOf(attrs: Row): Word {
    if MESSAGE in attrs then attrs[MESSAGE] else []
  }

  function End(rows: seq<Row>, trap: Option<Word>, next: nat): Outcome {
    match trap
    case None => Rows(rows, next)
    case Some(message) => Refused(message, next)
  }

  /** What one sentence does to the reply: it goes on, or it is over. */
  datatype Turn = More(rows: seq<Row>, trap: Option<Word>) | Over(outcome: Outcome)

  function Take(words: seq<Word>, rows: seq<Row>, trap: Option<Word>, next: nat): Turn {
    if words == [] then Over(Failed(BadReply))
    else
      var attrs := Attrs(words[1..]);
      if words[0] == RE then
        if |rows| >= MAX_REPLY_ROWS then Over(Failed(BadReply)) else More(rows + [attrs], trap)
      else if words[0] == TRAP then More(rows, Some(MessageOf(attrs)))
      else if words[0] == FATAL then Over(Closed(words[1..]))
      else if words[0] == DONE then Over(End(rows, trap, next))
      else More(rows, trap)
  }

  function Collect(read: Reader, pos: nat, rows: seq<Row>, trap: Option<Word>, received: nat): Outcome
    requires received <= MAX_REPLY_BYTES
    decreases MAX_REPLY_BYTES - received
  {
    match read(pos)
    case Err(error) => Failed(error)
    case Ok(words, next) =>
      var received' := received + Charge(words);
      if received' > MAX_REPLY_BYTES then Failed(BadReply)
      else
        match Take(words, rows, trap, next)
        case Over(outcome) => outcome
        case More(rows', trap') => Collect(read, next, rows', trap', received')
  }

  lemma CollectOver(
    read: Reader, pos: nat, rows: seq<Row>, trap: Option<Word>, received: nat, words: seq<Word>, next: nat)
    requires received + Charge(words) <= MAX_REPLY_BYTES
    requires read(pos) == Ok(words, next)
    requires Take(words, rows, trap, next).Over?
    ensures Collect(read, pos, rows, trap, received) == Take(words, rows, trap, next).outcome
  {
  }

  lemma CollectMore(
    read: Reader, pos: nat, rows: seq<Row>, trap: Option<Word>, received: nat, words: seq<Word>, next: nat,
    rows': seq<Row>, trap': Option<Word>, outcome: Outcome)
    requires received + Charge(words) <= MAX_REPLY_BYTES
    requires read(pos) == Ok(words, next)
    requires Take(words, rows, trap, next) == More(rows', trap')
    requires outcome == Collect(read, next, rows', trap', received + Charge(words))
    ensures Collect(read, pos, rows, trap, received) == outcome
  {
  }

  lemma CollectFails(read: Reader, pos: nat, rows: seq<Row>, trap: Option<Word>, received: nat)
    requires received <= MAX_REPLY_BYTES
    ensures read(pos).Err? ==> Collect(read, pos, rows, trap, received) == Failed(read(pos).error)
    ensures read(pos).Ok? && received + Charge(read(pos).value) > MAX_REPLY_BYTES ==>
              Collect(read, pos, rows, trap, received) == Failed(BadReply)
  {
    hide Charge;
  }

  method TotalBytes(words: seq<Word>) returns (total: nat)
    ensures total == SentenceBytes(words)
  {
    total := 0;
    for n := 0 to |words|
      invariant total == SentenceBytes(words[..n])
    {
      assert words[..n + 1][..n] == words[..n];
      total := total + |words[n]|;
    }
    assert words[..|words|] == words;
  }

  method Run(c: Connection, command: seq<Word>) returns (outcome: Outcome)
    modifies c
    ensures c.sent == if c.writable then old(c.sent) + EncodeSentence(command) else old(c.sent)
    ensures outcome == if c.writable then Collect(Sentences(c.peer), old(c.pos), [], None, 0) else SendFailed
    ensures outcome.Rows? || outcome.Refused? ==> c.pos == outcome.next
  {
    hide Collect, Sentences, Attrs, SentenceBytes, EncodeSentence;
    var written := c.WriteSentence(command);
    if !written {
      return SendFailed;
    }
    var rows: seq<Row> := [];
    var trap: Option<Word> := None;
    var received := 0;
    ghost var whole := Collect(Sentences(c.peer), c.pos, [], None, 0);
    while true
      invariant 0 <= received <= MAX_REPLY_BYTES
      invariant c.sent == old(c.sent) + EncodeSentence(command)
      invariant Collect(Sentences(c.peer), c.pos, rows, trap, received) == whole
      decreases MAX_REPLY_BYTES - received
    {
      ghost var pos := c.pos;
      CollectFails(Sentences(c.peer), pos, rows, trap, received);
      var sentence := c.ReadSentence();
      if sentence.Err? {
        return Failed(sentence.error);
      }
      var words := sentence.value;
      ghost var before := received;
      var bytes := TotalBytes(words);
      received := received + bytes + SENTENCE_OVERHEAD * (|words| + 1);
      if received > MAX_REPLY_BYTES {
        return Failed(BadReply);
      }
      ghost var turn := Take(words, rows, trap, c.pos);
      if turn.Over? {
        CollectOver(Sentences(c.peer), pos, rows, trap, before, words, c.pos);
      } else {
        CollectMore(Sentences(c.peer), pos, rows, trap, before, words, c.pos, turn.rows, turn.trap,
                    Collect(Sentences(c.peer), c.pos, turn.rows, turn.trap, received));
      }
      var reply := ParseSentence(words);
      if reply.None? {
        return Failed(BadReply);
      }
      var kind, attrs := reply.value.kind, reply.value.attrs;
      if kind == RE {
        if |rows| >= MAX_REPLY_ROWS {
          return Failed(BadReply);
        }
        rows := rows + [attrs];
      } else if kind == TRAP {
        trap := Some(MessageOf(attrs));
      } else if kind == FATAL {
        return Closed(words[1..]);
      } else if kind == DONE {
        if trap.Some? {
          return Refused(trap.value, c.pos);
        }
        return Rows(rows, c.pos);
      }
    }
  }
}
