/** A command's outcome is that of exactly one complete reply, and leaves the stream just past it. */
module ApiCommandProofs {
  import opened Bytes
  import opened Options
  import opened ApiWire
  import opened ApiWireProofs
  import opened ApiCommand

  /** The rows of a reply: the attributes of its !re sentences, in order. */
  function RowsOf(sentences: seq<seq<Word>>): seq<Row> {
    if sentences == [] then []
    else
      (if sentences[0] != [] && sentences[0][0] == RE then [Attrs(sentences[0][1..])] else []) + RowsOf(sentences[1..])
  }

  /** The message of the last !trap among the sentences, else the one in hand. */
  function TrapAfter(trap: Option<Word>, sentences: seq<seq<Word>>): Option<Word>
    decreases |sentences|
  {
    if sentences == [] then trap
    else
      var words := sentences[0];
      TrapAfter(if words != [] && words[0] == TRAP then Some(MessageOf(Attrs(words[1..]))) else trap, sentences[1..])
  }

  function Cost(sentences: seq<seq<Word>>): nat {
    if sentences == [] then 0 else Charge(sentences[0]) + Cost(sentences[1..])
  }

  /** One whole reply: no sentence is empty, !done comes last and only there, !fatal not at all. */
  predicate IsReply(sentences: seq<seq<Word>>) {
    && sentences != []
    && (forall n :: 0 <= n < |sentences| ==> sentences[n] != [])
    && sentences[|sentences| - 1][0] == DONE
    && (forall n :: 0 <= n < |sentences| - 1 ==> sentences[n][0] != DONE && sentences[n][0] != FATAL)
  }

  /** ... that fits what the budgets have left. */
  predicate Affordable(sentences: seq<seq<Word>>, received: nat, rows: nat) {
    && IsReply(sentences)
    && received + Cost(sentences) <= MAX_REPLY_BYTES
    && rows + |RowsOf(sentences)| <= MAX_REPLY_ROWS
  }

  lemma OneSentence(words: seq<Word>, trap: Option<Word>)
    requires words != []
    ensures RowsOf([words]) == if words[0] == RE then [Attrs(words[1..])] else []
    ensures TrapAfter(trap, [words]) == if words[0] == TRAP then Some(MessageOf(Attrs(words[1..]))) else trap
    ensures Cost([words]) == Charge(words)
  {
    assert [words][1..] == [];
  }

  /** One sentence that neither ends nor breaks the reply is taken in. */
  lemma TakeMore(words: seq<Word>, rows: seq<Row>, trap: Option<Word>, next: nat)
    requires words != [] && words[0] != DONE && words[0] != FATAL
    requires |rows + RowsOf([words])| <= MAX_REPLY_ROWS
    ensures ApiCommand.Take(words, rows, trap, next) == More(rows + RowsOf([words]), TrapAfter(trap, [words]))
  {
    OneSentence(words, trap);
    assert rows + [] == rows;
  }

  lemma CollectStep(read: Reader, pos: nat, rows: seq<Row>, trap: Option<Word>, received: nat, words: seq<Word>,
                    next: nat)
    requires read(pos) == Ok(words, next) && words != []
    requires words[0] != DONE && words[0] != FATAL
    requires received + Charge(words) <= MAX_REPLY_BYTES
    requires |rows + RowsOf([words])| <= MAX_REPLY_ROWS
    ensures Collect(read, pos, rows, trap, received)
         == Collect(read, next, rows + RowsOf([words]), TrapAfter(trap, [words]), received + Charge(words))
  {
    TakeMore(words, rows, trap, next);
    CollectMore(read, pos, rows, trap, received, words, next, rows + RowsOf([words]), TrapAfter(trap, [words]),
                Collect(read, next, rows + RowsOf([words]), TrapAfter(trap, [words]), received + Charge(words)));
  }

  lemma CollectDone(read: Reader, pos: nat, rows: seq<Row>, trap: Option<Word>, received: nat, words: seq<Word>,
                    next: nat)
    requires read(pos) == Ok(words, next) && words != [] && words[0] == DONE
    requires received + Charge(words) <= MAX_REPLY_BYTES
    ensures Collect(read, pos, rows, trap, received) == End(rows, trap, next)
  {
    CollectOver(read, pos, rows, trap, received, words, next);
  }

  /** An outcome that ends a reply comes from sentences that can be taken. */
  lemma CollectedOne(read: Reader, pos: nat, rows: seq<Row>, trap: Option<Word>, received: nat)
    returns (words: seq<Word>, next: nat)
    requires received <= MAX_REPLY_BYTES && |rows| <= MAX_REPLY_ROWS
    requires var outcome := Collect(read, pos, rows, trap, received); outcome.Rows? || outcome.Refused?
    ensures read(pos) == Ok(words, next) && words != [] && words[0] != FATAL
    ensures received + Charge(words) <= MAX_REPLY_BYTES
    ensures words[0] != DONE ==> |rows + RowsOf([words])| <= MAX_REPLY_ROWS
  {
    words, next := read(pos).value, read(pos).next;
    if words != [] {
      OneSentence(words, trap);
    }
  }

  lemma SplitFirst(sentences: seq<seq<Word>>, trap: Option<Word>)
    requires sentences != []
    ensures RowsOf(sentences) == RowsOf([sentences[0]]) + RowsOf(sentences[1..])
    ensures TrapAfter(trap, sentences) == TrapAfter(TrapAfter(trap, [sentences[0]]), sentences[1..])
  {
    var one := [sentences[0]];
    assert one[1..] == [];
  }

  lemma ReplyFirst(sentences: seq<seq<Word>>)
    requires IsReply(sentences)
    ensures sentences != [] && sentences[0] != []
    ensures |sentences| == 1 ==> sentences[0][0] == DONE
    ensures |sentences| > 1 ==> sentences[0][0] != DONE && sentences[0][0] != FATAL && IsReply(sentences[1..])
  {
  }

  lemma AffordFirst(sentences: seq<seq<Word>>, received: nat, rows: nat)
    requires Affordable(sentences, received, rows)
    ensures received + Charge(sentences[0]) <= MAX_REPLY_BYTES
    ensures |sentences| > 1 ==>
              && rows + |RowsOf([sentences[0]])| <= MAX_REPLY_ROWS
              && Affordable(sentences[1..], received + Charge(sentences[0]), rows + |RowsOf([sentences[0]])|)
  {
    ReplyFirst(sentences);
    SplitFirst(sentences, None);
    var first, rest := Charge(sentences[0]), Cost(sentences[1..]);
    assert Cost(sentences) == first + rest;
  }

  lemma AffordMore(words: seq<Word>, rest: seq<seq<Word>>, received: nat, rows: nat)
    requires words != [] && words[0] != DONE && words[0] != FATAL
    requires Affordable(rest, received + Charge(words), rows + |RowsOf([words])|)
    ensures Affordable([words] + rest, received, rows)
  {
    hide Charge, RowsOf;
    var sentences := [words] + rest;
    assert sentences[1..] == rest;
    SplitFirst(sentences, None);
    ReplyWithOneMore(words, rest);
    hide IsReply;
    assert Cost(sentences) == Charge(words) + Cost(rest);
  }

  lemma ReplyWithOneMore(words: seq<Word>, rest: seq<seq<Word>>)
    requires words != [] && words[0] != DONE && words[0] != FATAL
    requires IsReply(rest)
    ensures IsReply([words] + rest)
  {
    var sentences := [words] + rest;
    forall n | 0 < n < |sentences|
      ensures sentences[n] == rest[n - 1]
    {
    }
  }

  lemma {:induction false} CollectReads(
    read: Reader, pos: nat, rows: seq<Row>, trap: Option<Word>, received: nat, sentences: seq<seq<Word>>, next: nat)
    requires ReadsAs(read, pos, sentences, next)
    requires Affordable(sentences, received, |rows|)
    ensures Collect(read, pos, rows, trap, received) == End(rows + RowsOf(sentences), TrapAfter(trap, sentences), next)
    decreases |sentences|
  {
    hide Collect, ApiCommand.Take, Charge, RowsOf, TrapAfter, Cost, IsReply;
    ReplyFirst(sentences);
    var words, mid := sentences[0], read(pos).next;
    AffordFirst(sentences, received, |rows|);
    SplitFirst(sentences, trap);
    if |sentences| == 1 {
      assert sentences == [words];
      OneSentence(words, trap);
      CollectDone(read, pos, rows, trap, received, words, mid);
      assert rows + [] == rows;
    } else {
      CollectStep(read, pos, rows, trap, received, words, mid);
      var rows' := rows + RowsOf([words]);
      CollectReads(read, mid, rows', TrapAfter(trap, [words]), received + Charge(words), sentences[1..], next);
      assert rows' + RowsOf(sentences[1..]) == rows + (RowsOf([words]) + RowsOf(sentences[1..]));
    }
  }

  /** An outcome that ends a reply was read from one: these are its sentences. */
  lemma {:induction false} CollectedFrom(read: Reader, pos: nat, rows: seq<Row>, trap: Option<Word>, received: nat)
    returns (sentences: seq<seq<Word>>, next: nat)
    requires received <= MAX_REPLY_BYTES && |rows| <= MAX_REPLY_ROWS
    requires var outcome := Collect(read, pos, rows, trap, received); outcome.Rows? || outcome.Refused?
    ensures ReadsAs(read, pos, sentences, next)
    ensures Affordable(sentences, received, |rows|)
    decreases MAX_REPLY_BYTES - received
  {
    hide Collect, ApiCommand.Take;
    var words, mid := CollectedOne(read, pos, rows, trap, received);
    if words[0] == DONE {
      sentences, next := [words], mid;
      assert sentences[1..] == [];
      OneSentence(words, trap);
    } else {
      CollectStep(read, pos, rows, trap, received, words, mid);
      var rest;
      rest, next := CollectedFrom(read, mid, rows + RowsOf([words]), TrapAfter(trap, [words]),
          received + Charge(words));
      sentences := [words] + rest;
      assert sentences[1..] == rest;
      AffordMore(words, rest, received, |rows|);
    }
  }

  /**
   A command answers with rows or with a refusal if and only if one whole reply within the budgets is there to be
   read: the rows are those of its !re sentences and no others, a !trap in it makes it a refusal, and the stream is
   left just past its !done.
   */
  lemma OutcomeIsOneReply(read: Reader, pos: nat, outcome: Outcome)
    requires outcome.Rows? || outcome.Refused?
    ensures Collect(read, pos, [], None, 0) == outcome
            <==> exists sentences ::
                   && ReadsAs(read, pos, sentences, outcome.next)
                   && Affordable(sentences, 0, 0)
                   && outcome == End(RowsOf(sentences), TrapAfter(None, sentences), outcome.next)
  {
    if Collect(read, pos, [], None, 0) == outcome {
      var sentences, next := CollectedFrom(read, pos, [], None, 0);
      CollectReads(read, pos, [], None, 0, sentences, next);
      assert [] + RowsOf(sentences) == RowsOf(sentences);
    }
    forall sentences |
      && ReadsAs(read, pos, sentences, outcome.next)
      && Affordable(sentences, 0, 0)
      && outcome == End(RowsOf(sentences), TrapAfter(None, sentences), outcome.next)
      ensures Collect(read, pos, [], None, 0) == outcome
    {
      CollectReads(read, pos, [], None, 0, sentences, outcome.next);
      assert [] + RowsOf(sentences) == RowsOf(sentences);
    }
  }

  /** Each sentence costs at least two overheads, so a reply has at most 131072 of them. */
  lemma {:induction false} RepliesAreBounded(sentences: seq<seq<Word>>)
    requires forall n :: 0 <= n < |sentences| ==> sentences[n] != []
    ensures 2 * SENTENCE_OVERHEAD * |sentences| <= Cost(sentences)
  {
    if sentences == [] {
    } else {
      RepliesAreBounded(sentences[1..]);
    }
  }

  lemma ReplyIsCollected(read: Reader, pos: nat, sentences: seq<seq<Word>>, next: nat)
    requires ReadsAs(read, pos, sentences, next)
    requires Affordable(sentences, 0, 0)
    ensures Collect(read, pos, [], None, 0) == End(RowsOf(sentences), TrapAfter(None, sentences), next)
  {
    hide Collect, ReadsAs, RowsOf;
    CollectReads(read, pos, [], None, 0, sentences, next);
    assert [] + RowsOf(sentences) == RowsOf(sentences);
  }

  /** A !fatal before any !done ends the command at once, whatever came before it. */
  lemma {:induction false} FatalCloses(
    read: Reader, pos: nat, rows: seq<Row>, trap: Option<Word>, received: nat, sentences: seq<seq<Word>>,
        fatal: seq<Word>,
    next: nat)
    requires fatal != [] && fatal[0] == FATAL
    requires ReadsAs(read, pos, sentences + [fatal], next)
    requires forall n :: 0 <= n < |sentences| ==>
               sentences[n] != [] && sentences[n][0] != DONE && sentences[n][0] != FATAL
    requires received + Cost(sentences) + Charge(fatal) <= MAX_REPLY_BYTES
    requires |rows| + |RowsOf(sentences)| <= MAX_REPLY_ROWS
    ensures Collect(read, pos, rows, trap, received) == Closed(fatal[1..])
    decreases |sentences|
  {
    hide Collect, Charge;
    if sentences == [] {
      assert ApiCommand.Take(fatal, rows, trap, read(pos).next) == Over(Closed(fatal[1..]));
      CollectOver(read, pos, rows, trap, received, fatal, read(pos).next);
    } else {
      var words, mid := sentences[0], read(pos).next;
      assert (sentences + [fatal])[0] == words && (sentences + [fatal])[1..] == sentences[1..] + [fatal];
      SplitFirst(sentences, trap);
      CollectStep(read, pos, rows, trap, received, words, mid);
      FatalCloses(read, mid, rows + RowsOf([words]), TrapAfter(trap, [words]), received + Charge(words), sentences[1..],
                  fatal, next);
    }
  }

  /** A reply of sentences the framing can carry, within the budgets. */
  predicate Sendable(sentences: seq<seq<Word>>) {
    && (forall n :: 0 <= n < |sentences| ==> Legal(sentences[n]))
    && Affordable(sentences, 0, 0)
  }

  lemma SentReplyIsCollected(peer: Peer, pos: nat, sentences: seq<seq<Word>>)
    requires Sendable(sentences) && Holds(peer, pos, EncodeAll(sentences))
    ensures Collect(Sentences(peer), pos, [], None, 0)
         == End(RowsOf(sentences), TrapAfter(None, sentences), pos + |EncodeAll(sentences)|)
  {
    hide Collect, EncodeAll, Sentences, RowsOf, TrapAfter;
    var next := pos + |EncodeAll(sentences)|;
    StreamStaysInStep(peer, pos, sentences, next);
    ReplyIsCollected(Sentences(peer), pos, sentences, next);
  }

  /** Whole replies, one straight after the other. */
  function EncodeReplies(replies: seq<seq<seq<Word>>>): seq<byte> {
    if replies == [] then [] else EncodeAll(replies[0]) + EncodeReplies(replies[1..])
  }

  /**
   On one stream of any number of replies, each command reads its own, refused or not, and leaves the stream where the
   next one begins: the k-th at the end of the k - 1 before it.
   */
  lemma {:induction false} EveryCommandIsInStep(peer: Peer, pos: nat, replies: seq<seq<seq<Word>>>, k: nat)
    requires Holds(peer, pos, EncodeReplies(replies)) && k < |replies|
    requires forall n :: 0 <= n < |replies| ==> Sendable(replies[n])
    ensures var start, next := pos + |EncodeReplies(replies[..k])|, pos + |EncodeReplies(replies[..k + 1])|;
            Collect(Sentences(peer), start, [], None, 0) == End(RowsOf(replies[k]), TrapAfter(None, replies[k]), next)
    decreases k
  {
    hide Collect, EncodeAll, Sentences, Sendable, RowsOf, TrapAfter;
    var first, rest := EncodeAll(replies[0]), replies[1..];
    HoldsParts(peer, pos, first, EncodeReplies(rest));
    RepliesFrom(replies, k + 1);
    if k == 0 {
      SentReplyIsCollected(peer, pos, replies[0]);
      assert rest[..0] == [];
    } else {
      EveryCommandIsInStep(peer, pos + |first|, rest, k - 1);
      RepliesFrom(replies, k);
    }
  }

  lemma RepliesFrom(replies: seq<seq<seq<Word>>>, k: nat)
    requires 0 < k <= |replies|
    ensures EncodeReplies(replies[..k]) == EncodeAll(replies[0]) + EncodeReplies(replies[1..][..k - 1])
  {
    assert replies[..k][1..] == replies[1..][..k - 1] && replies[..k][0] == replies[0];
  }
}
