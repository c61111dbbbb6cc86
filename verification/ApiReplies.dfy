/** The API told on bytes, texts and numbers: how a length is spelled, what a reply costs, and how a command ends. */
module ApiReplies {
  import opened Bytes
  import opened Options
  import opened Text
  import opened ApiWire
  import opened ApiWireProofs
  import opened ApiCommand
  import opened ApiCommandProofs

  // ----- lengths -----

  /** A length goes out most significant byte first, its own number plus a marker that says how many bytes follow. */
  lemma LengthIsBigEndian(n: nat)
    requires n < 0x1_0000_0000
    ensures var b: seq<int> := EncodeLength(n);
            if n < 0x80 then |b| == 1 && b[0] == n
            else if n < 0x4000 then |b| == 2 && b[0] * 0x100 + b[1] == 0x8000 + n
            else if n < 0x20_0000 then |b| == 3 && b[0] * 0x1_0000 + b[1] * 0x100 + b[2] == 0xC0_0000 + n
            else if n < 0x1000_0000 then
              |b| == 4 && b[0] * 0x100_0000 + b[1] * 0x1_0000 + b[2] * 0x100 + b[3] == 0xE000_0000 + n
            else
              |b| == 5 && b[0] == 0xF0 && b[1] * 0x100_0000 + b[2] * 0x1_0000 + b[3] * 0x100 + b[4] == n
  {
    if n < 0x4000 {
      ShortIsBigEndian(n);
    } else if n < 0x20_0000 {
      ThreeAreBigEndian(n + 0xC0_0000);
    } else if n < 0x1000_0000 {
      FourAreBigEndian(n + 0xE000_0000);
    } else {
      FourAreBigEndian(n);
      assert n / 0x100_0000 % 0x100 == n / 0x100_0000;
    }
  }

  lemma ShortIsBigEndian(n: nat)
    requires n < 0x4000
    ensures var b: seq<int> := EncodeLength(n);
            if n < 0x80 then |b| == 1 && b[0] == n else |b| == 2 && b[0] * 0x100 + b[1] == 0x8000 + n
  {
  }

  lemma ThreeAreBigEndian(v: nat)
    ensures v / 0x1_0000 * 0x1_0000 + v / 0x100 % 0x100 * 0x100 + v % 0x100 == v
  {
    Digits(v);
  }

  lemma FourAreBigEndian(v: nat)
    ensures v / 0x100_0000 * 0x100_0000 + v / 0x1_0000 % 0x100 * 0x1_0000 + v / 0x100 % 0x100 * 0x100 + v % 0x100 == v
  {
    Digits(v);
  }

  /** The number so many bytes spell from pos on, most significant first, if all of them come. */
  function Spelled(peer: Peer, pos: nat, count: nat): Option<nat> {
    if count == 0 then Some(0)
    else if Spelled(peer, pos, count - 1).None? || peer(pos + count - 1).None? then None
    else Some(Spelled(peer, pos, count - 1).value * 0x100 + peer(pos + count - 1).value)
  }

  function Power(count: nat): nat {
    if count == 0 then 1 else 0x100 * Power(count - 1)
  }

  lemma {:induction false} TailIsSpelled(peer: Peer, pos: nat, count: nat, n: nat)
    ensures LengthTail(peer, pos, count, n)
         == if Spelled(peer, pos, count).None? then Err(ReadFailed)
            else Ok(n * Power(count) + Spelled(peer, pos, count).value, pos + count)
    decreases count
  {
    LengthTailStep(peer, pos, count, n);
    if count != 0 {
      SpelledFirst(peer, pos, count);
      if peer(pos).Some? {
        var b := peer(pos).value;
        TailIsSpelled(peer, pos + 1, count - 1, n * 0x100 + b);
        Shifted(n, b, Power(count - 1));
      }
    }
  }

  lemma Shifted(n: nat, b: nat, power: nat)
    ensures (n * 0x100 + b) * power == n * (0x100 * power) + b * power
  {
  }

  lemma {:induction false} SpelledFirst(peer: Peer, pos: nat, count: nat)
    requires count != 0
    ensures Spelled(peer, pos, count).Some? <==> peer(pos).Some? && Spelled(peer, pos + 1, count - 1).Some?
    ensures Spelled(peer, pos, count).Some? ==>
              Spelled(peer, pos, count).value
              == peer(pos).value * Power(count - 1) + Spelled(peer, pos + 1, count - 1).value
  {
    if count != 1 {
      SpelledFirst(peer, pos, count - 1);
      if Spelled(peer, pos, count).Some? {
        Carried(peer(pos).value, Power(count - 2));
      }
    }
  }

  lemma Carried(b: nat, power: nat)
    ensures b * (0x100 * power) == b * power * 0x100
  {
  }

  /**
   A length read: a first byte below 0x80 is the length, one up to 0xF0 announces one to four bytes to follow it and
   counts above them with what its marker leaves, and any other is no reply at all.
   */
  lemma LengthByItsFirstByte(peer: Peer, pos: nat)
    ensures peer(pos).None? ==> Length(peer, pos) == Err(ReadFailed)
    ensures peer(pos).Some? ==>
              var first, length := peer(pos).value, Length(peer, pos);
              && (first < 0x80 ==> length == Ok(first, pos + 1))
              && (0x80 <= first < 0xC0 ==> length == Announced(peer, pos, first - 0x80, 1))
              && (0xC0 <= first < 0xE0 ==> length == Announced(peer, pos, first - 0xC0, 2))
              && (0xE0 <= first < 0xF0 ==> length == Announced(peer, pos, first - 0xE0, 3))
              && (first == 0xF0 ==> length == Announced(peer, pos, 0, 4))
              && (0xF0 < first ==> length == Err(BadReply))
  {
    if peer(pos).Some? && Lead(peer(pos).value).Some? {
      var (extra, n) := Lead(peer(pos).value).value;
      TailIsSpelled(peer, pos + 1, extra, n);
      Powers();
    }
  }

  lemma Powers()
    ensures Power(0) == 1 && Power(1) == 0x100 && Power(2) == 0x1_0000 && Power(3) == 0x100_0000
    ensures Power(4) == 0x1_0000_0000
  {
  }

  function Announced(peer: Peer, pos: nat, n: nat, count: nat): Read<nat> {
    match Spelled(peer, pos + 1, count)
    case None => Err(ReadFailed)
    case Some(rest) => Ok(n * Power(count) + rest, pos + 1 + count)
  }

  // ----- attributes -----

  /** A word that starts with "=" names a key: what stands before the next "=", or all of the rest. */
  predicate Names(word: Word, key: Word) {
    61 !in key && (word == [61] + key || [61] + key + [61] <= word)
  }

  function ValueIn(word: Word, key: Word): Word
    requires Names(word, key)
  {
    if word == [61] + key then [] else word[|key| + 2..]
  }

  lemma NamesByItself(key: Word)
    requires EQUALS !in key
    ensures Names([EQUALS] + key, key) && ValueIn([EQUALS] + key, key) == []
    ensures KeyValue(([EQUALS] + key)[1..]) == (key, [])
  {
    assert ([EQUALS] + key)[1..] == key;
    CutWithoutSeparator(key, EQUALS);
  }

  lemma NamesWithValue(key: Word, value: Word)
    requires EQUALS !in key
    ensures var word := [EQUALS] + key + [EQUALS] + value;
            && Names(word, key) && ValueIn(word, key) == value
            && KeyValue(word[1..]) == (key, value)
  {
    var word := [EQUALS] + key + [EQUALS] + value;
    assert word[1..] == key + [EQUALS] + value;
    assert word != [EQUALS] + key by {
      assert |word| != |[EQUALS] + key|;
    }
    hide KeyValue;
    CutAtFirstEquals(key, value);
  }

  /** The two shapes of a word that starts with "=". */
  lemma Shapes(word: Word)
    requires [EQUALS] <= word
    ensures var (front, back) := Cut(word[1..], EQUALS);
            && EQUALS !in front
            && word == if back.Some? then [EQUALS] + front + [EQUALS] + back.value else [EQUALS] + front
  {
    assert word == [EQUALS] + word[1..];
  }

  lemma NamedShapes(word: Word, key: Word)
    requires Names(word, key)
    ensures word == [EQUALS] + key || word == [EQUALS] + key + [EQUALS] + word[|key| + 2..]
  {
  }

  lemma NamesItsKey(word: Word, key: Word)
    ensures Names(word, key) <==> [EQUALS] <= word && KeyValue(word[1..]).0 == key
    ensures Names(word, key) ==> KeyValue(word[1..]).1 == ValueIn(word, key)
  {
    if Names(word, key) {
      NamedShapes(word, key);
      hide Names, ValueIn, KeyValue;
      if word == [EQUALS] + key {
        NamesByItself(key);
      } else {
        NamesWithValue(key, word[|key| + 2..]);
      }
    } else if [EQUALS] <= word {
      Shapes(word);
      var (front, back) := Cut(word[1..], EQUALS);
      hide Names, Cut;
      if back.Some? {
        NamesWithValue(front, back.value);
      } else {
        NamesByItself(front);
      }
    }
  }

  predicate IsLastToName(words: seq<Word>, n: nat, key: Word) {
    && n < |words| && Names(words[n], key)
    && forall m :: n < m < |words| ==> !Names(words[m], key)
  }

  lemma AttributesStep(words: seq<Word>, word: Word, key: Word)
    ensures key in Attrs(words + [word]) <==> key in Attrs(words) || Names(word, key)
    ensures Names(word, key) ==> Attrs(words + [word])[key] == ValueIn(word, key)
    ensures !Names(word, key) && key in Attrs(words) ==> Attrs(words + [word])[key] == Attrs(words)[key]
  {
    NamesItsKey(word, key);
    AttrsStep(words, word);
    hide Attrs, KeyValue, Names, ValueIn;
  }

  /** A sentence has an attribute exactly if some word names it, and the last one to do so gives its value. */
  lemma {:induction false} AttributesAreTheLastNamed(words: seq<Word>, key: Word)
    ensures key in Attrs(words) <==> exists n :: 0 <= n < |words| && Names(words[n], key)
    ensures forall n: nat :: IsLastToName(words, n, key) ==>
                               key in Attrs(words) && Attrs(words)[key] == ValueIn(words[n], key)
  {
    if words != [] {
      var earlier, last := words[..|words| - 1], words[|words| - 1];
      assert words == earlier + [last];
      AttributesAreTheLastNamed(earlier, key);
      AttributesStep(earlier, last, key);
      hide Attrs, Names, ValueIn;
      forall n: nat | IsLastToName(words, n, key)
        ensures key in Attrs(words) && Attrs(words)[key] == ValueIn(words[n], key)
      {
        if n < |earlier| {
          assert !Names(words[|earlier|], key);
          assert IsLastToName(earlier, n, key);
        }
      }
    }
  }

  // ----- what a reply costs -----

  function WordsIn(sentences: seq<seq<Word>>): nat {
    if sentences == [] then 0 else |sentences[0]| + WordsIn(sentences[1..])
  }

  function BytesIn(sentences: seq<seq<Word>>): nat {
    if sentences == [] then 0 else LengthOf(sentences[0]) + BytesIn(sentences[1..])
  }

  function LengthOf(words: seq<Word>): nat {
    if words == [] then 0 else |words[0]| + LengthOf(words[1..])
  }

  lemma {:induction false} LengthIs(words: seq<Word>)
    ensures SentenceBytes(words) == LengthOf(words)
  {
    if words != [] {
      BytesFromFirst(words);
      LengthIs(words[1..]);
    }
  }

  /** The framing carries any words but empty ones, up to 1 MiB of them in a sentence. */
  lemma LegalInNumbers(words: seq<Word>)
    ensures Legal(words) <==> LengthOf(words) <= 1_048_576 && forall n :: 0 <= n < |words| ==> words[n] != []
  {
    LengthIs(words);
  }

  /** A reply costs its bytes, and 64 for each word and each sentence of it. */
  lemma {:induction false} CostIs(sentences: seq<seq<Word>>)
    ensures Cost(sentences) == BytesIn(sentences) + 64 * (WordsIn(sentences) + |sentences|)
  {
    if sentences != [] {
      CostIs(sentences[1..]);
      LengthIs(sentences[0]);
    }
  }

  // ----- kinds -----

  predicate Ascii(word: Word, text: string) {
    |word| == |text| && forall n :: 0 <= n < |text| ==> word[n] == text[n] as int
  }

  lemma KindsAre()
    ensures Ascii(RE, "!re") && Ascii(DONE, "!done") && Ascii(TRAP, "!trap") && Ascii(FATAL, "!fatal")
    ensures Ascii(MESSAGE, "message")
  {
  }

  // ----- refusals -----

  lemma {:induction false} TrapsCompose(trap: Option<Word>, p: seq<seq<Word>>, q: seq<seq<Word>>)
    ensures TrapAfter(trap, p + q) == TrapAfter(TrapAfter(trap, p), q)
    decreases |p|
  {
    if p == [] {
      assert p + q == q;
    } else {
      assert (p + q)[0] == p[0] && (p + q)[1..] == p[1..] + q;
      SplitFirst(p, trap);
      SplitFirst(p + q, trap);
      TrapsCompose(TrapAfter(trap, [p[0]]), p[1..], q);
    }
  }

  predicate IsTrap(words: seq<Word>) {
    words != [] && words[0] == TRAP
  }

  lemma {:induction false} NoTrapKeeps(trap: Option<Word>, sentences: seq<seq<Word>>)
    requires forall n :: 0 <= n < |sentences| ==> !IsTrap(sentences[n])
    ensures TrapAfter(trap, sentences) == trap
    decreases |sentences|
  {
    if sentences != [] {
      assert !IsTrap(sentences[0]);
      NoTrapKeeps(trap, sentences[1..]);
    }
  }

  /** A whole reply within the budgets and without a !trap is its rows. */
  lemma NoTrapMeansRows(read: ApiWire.Reader, pos: nat, sentences: seq<seq<Word>>, next: nat)
    requires ReadsAs(read, pos, sentences, next) && Affordable(sentences, 0, 0)
    requires forall n :: 0 <= n < |sentences| ==> !IsTrap(sentences[n])
    ensures Collect(read, pos, [], None, 0) == Rows(RowsOf(sentences), next)
  {
    ReplyIsCollected(read, pos, sentences, next);
    NoTrapKeeps(None, sentences);
  }

  /** One with a !trap is a refusal with the message of the last of them: its last message attribute, or none. */
  lemma LastTrapSaysWhy(read: ApiWire.Reader, pos: nat, before: seq<seq<Word>>, trap: seq<Word>,
                        after: seq<seq<Word>>, next: nat)
    requires var sentences := before + [trap] + after;
             ReadsAs(read, pos, sentences, next) && Affordable(sentences, 0, 0)
    requires IsTrap(trap) && forall n :: 0 <= n < |after| ==> !IsTrap(after[n])
    ensures var outcome := Collect(read, pos, [], None, 0);
            && outcome.Refused? && outcome.next == next
            && (forall n: nat :: IsLastToName(trap[1..], n, MESSAGE) ==>
                                   outcome.message == ValueIn(trap[1..][n], MESSAGE))
            && ((forall n :: 0 <= n < |trap| - 1 ==> !Names(trap[1..][n], MESSAGE)) ==> outcome.message == [])
  {
    hide Collect, Attrs, ReadsAs, Affordable, Names, ValueIn;
    var sentences := before + [trap] + after;
    ReplyIsCollected(read, pos, sentences, next);
    TrapsCompose(None, before + [trap], after);
    TrapsCompose(None, before, [trap]);
    OneSentence(trap, TrapAfter(None, before));
    NoTrapKeeps(Some(MessageOf(Attrs(trap[1..]))), after);
    AttributesAreTheLastNamed(trap[1..], MESSAGE);
  }

  // ----- replies that break off -----

  /** Nothing that ends a reply is among these sentences. */
  predicate GoesOn(sentences: seq<seq<Word>>) {
    forall n :: 0 <= n < |sentences| ==>
                  sentences[n] != [] && sentences[n][0] != DONE && sentences[n][0] != FATAL
  }

  lemma {:induction false} CollectPasses(
    read: ApiWire.Reader, pos: nat, rows: seq<Row>, trap: Option<Word>, received: nat, sentences: seq<seq<Word>>,
    mid: nat)
    requires GoesOn(sentences) && ReadsAs(read, pos, sentences, mid)
    requires received + Cost(sentences) <= MAX_REPLY_BYTES && |rows| + |RowsOf(sentences)| <= MAX_REPLY_ROWS
    ensures Collect(read, pos, rows, trap, received)
         == Collect(read, mid, rows + RowsOf(sentences), TrapAfter(trap, sentences), received + Cost(sentences))
    decreases |sentences|
  {
    hide Collect, Charge;
    if sentences == [] {
      assert rows + RowsOf(sentences) == rows;
    } else {
      var words, first := sentences[0], RowsOf([sentences[0]]);
      SplitFirst(sentences, trap);
      assert words != [] && words[0] != DONE && words[0] != FATAL;
      CollectStep(read, pos, rows, trap, received, words, read(pos).next);
      CollectPasses(read, read(pos).next, rows + first, TrapAfter(trap, [words]), received + Charge(words),
                    sentences[1..], mid);
      assert rows + first + RowsOf(sentences[1..]) == rows + (first + RowsOf(sentences[1..]));
    }
  }

  /**
   What follows sentences that were taken in may break the reply off: a failed read passes its error on; a reply past
   16 MiB of cost, a row past the first hundred thousand and a sentence of no words are malformed.
   */
  lemma BrokenReplyFails(read: ApiWire.Reader, pos: nat, sentences: seq<seq<Word>>, mid: nat)
    requires GoesOn(sentences) && ReadsAs(read, pos, sentences, mid)
    requires Cost(sentences) <= 16_777_216 && |RowsOf(sentences)| <= 100_000
    ensures var outcome := Collect(read, pos, [], None, 0);
            && (read(mid).Err? ==> outcome == Failed(read(mid).error))
            && (read(mid).Ok? ==>
                  var words := read(mid).value;
                  && (16_777_216 < Cost(sentences) + Cost([words]) ==> outcome == Failed(BadReply))
                  && (words == [] ==> outcome == Failed(BadReply))
                  && (words != [] && words[0] == RE && |RowsOf(sentences)| == 100_000 ==> outcome == Failed(BadReply)))
  {
    CollectPasses(read, pos, [], None, 0, sentences, mid);
    var rows, trap, received := RowsOf(sentences), TrapAfter(None, sentences), Cost(sentences);
    assert [] + rows == rows;
    CollectFails(read, mid, rows, trap, received);
    if read(mid).Ok? {
      var words: seq<Word> := read(mid).value;
      assert [words][1..] == [];
      assert Cost([words]) == Charge(words);
    }
  }
}
