/** The wire form undoes itself, and reading never loses step. */
module ApiWireProofs {
  import opened Bytes
  import opened Options
  import opened Text
  import opened ApiWire

  /** The peer answers with these bytes from pos on; what it does elsewhere is its own affair. */
  predicate Holds(peer: Peer, pos: nat, bytes: seq<byte>) {
    forall k :: 0 <= k < |bytes| ==> peer(pos + k) == Some(bytes[k])
  }

  lemma HoldsParts(peer: Peer, pos: nat, p: seq<byte>, q: seq<byte>)
    ensures Holds(peer, pos, p + q) <==> Holds(peer, pos, p) && Holds(peer, pos + |p|, q)
  {
    var bytes := p + q;
    if Holds(peer, pos, bytes) {
      forall k | 0 <= k < |p|
        ensures peer(pos + k) == Some(p[k])
      {
        assert bytes[k] == p[k];
      }
      forall k | 0 <= k < |q|
        ensures peer(pos + |p| + k) == Some(q[k])
      {
        assert bytes[|p| + k] == q[k];
      }
    }
    if Holds(peer, pos, p) && Holds(peer, pos + |p|, q) {
      forall k | 0 <= k < |bytes|
        ensures peer(pos + k) == Some(bytes[k])
      {
        if k >= |p| {
          assert peer(pos + |p| + (k - |p|)) == Some(q[k - |p|]);
        }
      }
    }
  }

  // ----- lengths -----

  function Number(n: nat, bytes: seq<byte>): nat
    decreases |bytes|
  {
    if bytes == [] then n else Number(n * 0x100 + bytes[0], bytes[1..])
  }

  lemma {:induction false} TailReads(peer: Peer, pos: nat, n: nat, bytes: seq<byte>)
    requires Holds(peer, pos, bytes)
    ensures LengthTail(peer, pos, |bytes|, n) == Ok(Number(n, bytes), pos + |bytes|)
    decreases |bytes|
  {
    if bytes == [] {
    } else {
      assert Holds(peer, pos + 1, bytes[1..]) by {
        assert [bytes[0]] + bytes[1..] == bytes;
        HoldsParts(peer, pos, [bytes[0]], bytes[1..]);
      }
      TailReads(peer, pos + 1, n * 0x100 + bytes[0], bytes[1..]);
    }
  }

  lemma Number1(n: nat, a: byte)
    ensures Number(n, [a]) == n * 0x100 + a
  {
    assert [a][1..] == [];
  }

  lemma Number2(n: nat, a: byte, b: byte)
    ensures Number(n, [a, b]) == n * 0x1_0000 + a * 0x100 + b
  {
    assert [a, b][1..] == [b];
    Number1(n * 0x100 + a, b);
  }

  lemma Number3(n: nat, a: byte, b: byte, c: byte)
    ensures Number(n, [a, b, c]) == n * 0x100_0000 + a * 0x1_0000 + b * 0x100 + c
  {
    assert [a, b, c][1..] == [b, c];
    Number2(n * 0x100 + a, b, c);
  }

  lemma Number4(n: nat, a: byte, b: byte, c: byte, d: byte)
    ensures Number(n, [a, b, c, d]) == n * 0x1_0000_0000 + a * 0x100_0000 + b * 0x1_0000 + c * 0x100 + d
  {
    assert [a, b, c, d][1..] == [b, c, d];
    Number3(n * 0x100 + a, b, c, d);
  }

  /** `tail` behind a first byte that announces it spells n. */
  predicate Spells(bytes: seq<byte>, n: nat) {
    && 1 <= |bytes|
    && Lead(bytes[0]).Some?
    && Lead(bytes[0]).value.0 == |bytes| - 1
    && Number(Lead(bytes[0]).value.1, bytes[1..]) == n
  }

  lemma SpellsShort(n: nat)
    requires n < 0x4000
    ensures Spells(EncodeLength(n), n)
  {
    var bytes := EncodeLength(n);
    if 0x80 <= n {
      assert bytes[1..] == [n % 0x100];
      Number1(n / 0x100, n % 0x100);
    }
  }

  lemma Digits(n: nat)
    ensures n == n / 0x1_0000 * 0x1_0000 + n / 0x100 % 0x100 * 0x100 + n % 0x100
    ensures n / 0x1_0000 == n / 0x100_0000 * 0x100 + n / 0x1_0000 % 0x100
  {
  }

  lemma DigitsAre(v: nat, q: nat, a: nat, b: nat)
    requires a < 0x100 && b < 0x100 && v == q * 0x1_0000 + a * 0x100 + b
    ensures v / 0x1_0000 == q && v / 0x100 % 0x100 == a && v % 0x100 == b
  {
    assert v / 0x100 == q * 0x100 + a;
  }

  lemma HighDigitsAre(v: nat, q: nat, a: nat, b: nat)
    requires a < 0x100 && b < 0x1_0000 && v == q * 0x100_0000 + a * 0x1_0000 + b
    ensures v / 0x100_0000 == q && v / 0x1_0000 % 0x100 == a
  {
    assert v / 0x1_0000 == q * 0x100 + a;
  }

  /** Adding a marker above the digits moves only the leading one. */
  lemma MarkedDigits(n: nat, marker: nat)
    ensures var v := n + marker * 0x1_0000;
            v / 0x1_0000 == n / 0x1_0000 + marker && v / 0x100 % 0x100 == n / 0x100 % 0x100 && v % 0x100 == n % 0x100
  {
    var q, a, b := n / 0x100 / 0x100, n / 0x100 % 0x100, n % 0x100;
    DigitsAre(n, q, a, b);
    DigitsAre(n + marker * 0x1_0000, q + marker, a, b);
  }

  lemma MarkedHighDigits(n: nat, marker: nat)
    ensures var v := n + marker * 0x100_0000;
            v / 0x100_0000 == n / 0x100_0000 + marker && v / 0x1_0000 % 0x100 == n / 0x1_0000 % 0x100
  {
    var q, a, b := n / 0x1_0000 / 0x100, n / 0x1_0000 % 0x100, n % 0x1_0000;
    HighDigitsAre(n, q, a, b);
    HighDigitsAre(n + marker * 0x100_0000, q + marker, a, b);
  }

  lemma SpellsThree(n: nat)
    requires 0x4000 <= n < 0x20_0000
    ensures Spells(EncodeLength(n), n)
  {
    Digits(n);
    MarkedDigits(n, 0xC0);
    var bytes := EncodeLength(n);
    assert bytes[0] == n / 0x1_0000 + 0xC0;
    assert bytes[1..] == [n / 0x100 % 0x100, n % 0x100];
    Number2(n / 0x1_0000, n / 0x100 % 0x100, n % 0x100);
  }

  lemma SpellsFour(n: nat)
    requires 0x20_0000 <= n < 0x1000_0000
    ensures Spells(EncodeLength(n), n)
  {
    Digits(n);
    MarkedDigits(n, 0xE000);
    MarkedHighDigits(n, 0xE0);
    var bytes := EncodeLength(n);
    assert bytes[0] == n / 0x100_0000 + 0xE0;
    assert bytes[1..] == [n / 0x1_0000 % 0x100, n / 0x100 % 0x100, n % 0x100];
    Number3(n / 0x100_0000, n / 0x1_0000 % 0x100, n / 0x100 % 0x100, n % 0x100);
  }

  lemma SpellsFive(n: nat)
    requires 0x1000_0000 <= n < 0x1_0000_0000
    ensures Spells(EncodeLength(n), n)
  {
    Digits(n);
    var bytes := EncodeLength(n);
    assert n / 0x100_0000 % 0x100 == n / 0x100_0000;
    assert bytes[1..] == [n / 0x100_0000 % 0x100, n / 0x1_0000 % 0x100, n / 0x100 % 0x100, n % 0x100];
    Number4(0, n / 0x100_0000 % 0x100, n / 0x1_0000 % 0x100, n / 0x100 % 0x100, n % 0x100);
  }

  /** The bytes after the first, put behind what the first contributes, spell n again. */
  lemma EncodedLengthSpells(n: nat)
    requires n < 0x1_0000_0000
    ensures Spells(EncodeLength(n), n)
  {
    if n < 0x4000 {
      SpellsShort(n);
    } else if n < 0x20_0000 {
      SpellsThree(n);
    } else if n < 0x1000_0000 {
      SpellsFour(n);
    } else {
      SpellsFive(n);
    }
  }

  lemma LengthOfTailIsBounded(peer: Peer, pos: nat, extra: nat, n: nat, bound: nat)
    requires n < bound && LengthTail(peer, pos, extra, n).Ok?
    ensures extra == 1 ==> LengthTail(peer, pos, extra, n).value < bound * 0x100
    ensures extra == 2 ==> LengthTail(peer, pos, extra, n).value < bound * 0x1_0000
    ensures extra == 3 ==> LengthTail(peer, pos, extra, n).value < bound * 0x100_0000
    ensures extra == 4 ==> LengthTail(peer, pos, extra, n).value < bound * 0x1_0000_0000
    decreases extra
  {
    if 1 < extra <= 4 {
      var b := peer(pos).value;
      LengthOfTailIsBounded(peer, pos + 1, extra - 1, n * 0x100 + b, bound * 0x100);
    }
  }

  lemma LengthFitsFourBytes(peer: Peer, pos: nat)
    requires Length(peer, pos).Ok?
    ensures Length(peer, pos).value < 0x1_0000_0000 && pos < Length(peer, pos).next <= pos + 5
  {
    var (extra, n) := Lead(peer(pos).value).value;
    TailEnds(peer, pos + 1, extra, n);
    LengthOfTailIsBounded(peer, pos + 1, extra, n, match extra case 1 => 0x40 case 2 => 0x20 case 3 => 0x10 case 4 => 1
                                                   case _ => 0x80);
  }

  lemma {:induction false} TailEnds(peer: Peer, pos: nat, extra: nat, n: nat)
    requires LengthTail(peer, pos, extra, n).Ok?
    ensures LengthTail(peer, pos, extra, n).next == pos + extra
    decreases extra
  {
    if extra == 0 {
    } else {
      TailEnds(peer, pos + 1, extra - 1, n * 0x100 + peer(pos).value);
    }
  }

  /** A length read where it was written comes back, with the reader just past it: exactly for lengths under 2^32. */
  lemma LengthRoundTrip(peer: Peer, pos: nat, n: nat)
    requires Holds(peer, pos, EncodeLength(n))
    ensures Length(peer, pos) == Ok(n, pos + |EncodeLength(n)|) <==> n < 0x1_0000_0000
  {
    if n < 0x1_0000_0000 {
      var bytes := EncodeLength(n);
      EncodedLengthSpells(n);
      assert bytes == [bytes[0]] + bytes[1..];
      HoldsParts(peer, pos, [bytes[0]], bytes[1..]);
      assert peer(pos) == Some(bytes[0]) by {
        assert peer(pos + 0) == Some(bytes[0]);
      }
      TailReads(peer, pos + 1, Lead(bytes[0]).value.1, bytes[1..]);
    } else if Length(peer, pos).Ok? {
      LengthFitsFourBytes(peer, pos);
    }
  }

  // ----- sentences -----

  lemma {:induction false} SentenceBytesAppend(p: seq<Word>, q: seq<Word>)
    ensures SentenceBytes(p + q) == SentenceBytes(p) + SentenceBytes(q)
    decreases |q|
  {
    if q == [] {
      assert p + q == p;
    } else {
      assert (p + q)[..|p + q| - 1] == p + q[..|q| - 1];
      SentenceBytesAppend(p, q[..|q| - 1]);
    }
  }

  lemma BytesOfOne(word: Word)
    ensures SentenceBytes([word]) == |word|
  {
    assert [word][..0] == [];
  }

  lemma TakeHolds(peer: Peer, pos: nat, word: Word)
    requires Holds(peer, pos, word)
    ensures Available(peer, pos, |word|) && Take(peer, pos, |word|) == word
  {
    forall k | pos <= k < pos + |word|
      ensures peer(k).Some?
    {
      assert peer(pos + (k - pos)) == Some(word[k - pos]);
    }
  }

  lemma SentenceEnds(peer: Peer, pos: nat, total: nat, words: seq<Word>)
    requires total <= MAX_WORD_LENGTH && Holds(peer, pos, [0])
    ensures Sentence(peer, pos, total, words) == Ok(words, pos + 1)
  {
    assert EncodeLength(0) == [0];
    LengthRoundTrip(peer, pos, 0);
  }

  lemma SentenceReadsWord(peer: Peer, pos: nat, total: nat, words: seq<Word>, word: Word) returns (next: nat)
    requires word != [] && total + |word| <= MAX_WORD_LENGTH
    requires Holds(peer, pos, EncodeLength(|word|) + word)
    ensures next == pos + |EncodeLength(|word|)| + |word|
    ensures Sentence(peer, pos, total, words) == Sentence(peer, next, total + |word|, words + [word])
  {
    HoldsParts(peer, pos, EncodeLength(|word|), word);
    LengthRoundTrip(peer, pos, |word|);
    TakeHolds(peer, pos + |EncodeLength(|word|)|, word);
    next := pos + |EncodeLength(|word|)| + |word|;
  }

  lemma BytesFromFirst(words: seq<Word>)
    requires words != []
    ensures SentenceBytes(words) == |words[0]| + SentenceBytes(words[1..])
  {
    assert words == [words[0]] + words[1..];
    SentenceBytesAppend([words[0]], words[1..]);
    BytesOfOne(words[0]);
  }

  lemma EncodedFront(words: seq<Word>, front: seq<byte>)
    requires words != [] && front == EncodeLength(|words[0]|) + words[0]
    ensures EncodeSentence(words) == front + EncodeSentence(words[1..])
  {
    assert front + EncodeWords(words[1..]) + [0] == front + (EncodeWords(words[1..]) + [0]);
  }

  /** The front of an encoded sentence is its first word, and the rest a sentence of the others. */
  lemma SentenceFront(peer: Peer, pos: nat, words: seq<Word>)
    requires words != [] && Holds(peer, pos, EncodeSentence(words))
    ensures var front := EncodeLength(|words[0]|) + words[0];
            && Holds(peer, pos, front)
            && Holds(peer, pos + |front|, EncodeSentence(words[1..]))
            && |EncodeSentence(words)| == |front| + |EncodeSentence(words[1..])|
  {
    var front := EncodeLength(|words[0]|) + words[0];
    EncodedFront(words, front);
    HoldsParts(peer, pos, front, EncodeSentence(words[1..]));
  }

  lemma ReadFirstWord(peer: Peer, pos: nat, total: nat, earlier: seq<Word>, words: seq<Word>) returns (next: nat)
    requires words != [] && words[0] != [] && total + |words[0]| <= MAX_WORD_LENGTH
    requires Holds(peer, pos, EncodeSentence(words))
    ensures Sentence(peer, pos, total, earlier) == Sentence(peer, next, total + |words[0]|, earlier + [words[0]])
    ensures Holds(peer, next, EncodeSentence(words[1..]))
    ensures next + |EncodeSentence(words[1..])| == pos + |EncodeSentence(words)|
  {
    hide EncodeLength, Sentence;
    SentenceFront(peer, pos, words);
    next := SentenceReadsWord(peer, pos, total, earlier, words[0]);
  }

  lemma {:induction false} SentenceReads(
    peer: Peer, pos: nat, total: nat, earlier: seq<Word>, words: seq<Word>, next: nat)
    requires total + SentenceBytes(words) <= MAX_WORD_LENGTH
    requires forall n :: 0 <= n < |words| ==> words[n] != []
    requires Holds(peer, pos, EncodeSentence(words)) && next == pos + |EncodeSentence(words)|
    ensures Sentence(peer, pos, total, earlier) == Ok(earlier + words, next)
    decreases |words|
  {
    hide EncodeLength;
    if words == [] {
      assert EncodeSentence(words) == [0];
      SentenceEnds(peer, pos, total, earlier);
      assert earlier + words == earlier;
    } else {
      BytesFromFirst(words);
      var mid := ReadFirstWord(peer, pos, total, earlier, words);
      SentenceReads(peer, mid, total + |words[0]|, earlier + [words[0]], words[1..], next);
      assert earlier + [words[0]] + words[1..] == earlier + words;
    }
  }

  /** Whatever the peer sends, a sentence that is read could have been written. */
  lemma {:induction false} SentenceIsLegal(peer: Peer, pos: nat, total: nat, words: seq<Word>)
    requires Legal(words) && total == SentenceBytes(words)
    requires Sentence(peer, pos, total, words).Ok?
    ensures Legal(Sentence(peer, pos, total, words).value)
    ensures pos < Sentence(peer, pos, total, words).next
    decreases MAX_WORD_LENGTH - total
  {
    hide Length, EncodeLength;
    LengthFitsFourBytes(peer, pos);
    var n, next := Length(peer, pos).value, Length(peer, pos).next;
    if n != 0 {
      var word := Take(peer, next, n);
      SentenceBytesAppend(words, [word]);
      BytesOfOne(word);
      SentenceIsLegal(peer, next + n, total + n, words + [word]);
    }
  }

  /**
   A sentence read where it was written comes back, with the reader exactly past it, if and only if it has no empty
   word and at most the allowed bytes.
   */
  lemma SentenceRoundTrip(peer: Peer, pos: nat, words: seq<Word>)
    requires Holds(peer, pos, EncodeSentence(words))
    ensures Sentence(peer, pos, 0, []) == Ok(words, pos + |EncodeSentence(words)|) <==> Legal(words)
  {
    if Legal(words) {
      SentenceReads(peer, pos, 0, [], words, pos + |EncodeSentence(words)|);
      assert [] + words == words;
    } else if Sentence(peer, pos, 0, []).Ok? {
      SentenceIsLegal(peer, pos, 0, []);
    }
  }

  /** Sentences read one after another from pos, ending at next. */
  predicate ReadsAs(read: Reader, pos: nat, sentences: seq<seq<Word>>, next: nat)
    decreases |sentences|
  {
    if sentences == [] then next == pos
    else read(pos).Ok? && read(pos).value == sentences[0] && ReadsAs(read, read(pos).next, sentences[1..], next)
  }

  function EncodeAll(sentences: seq<seq<Word>>): seq<byte> {
    if sentences == [] then [] else EncodeSentence(sentences[0]) + EncodeAll(sentences[1..])
  }

  lemma FirstSentence(peer: Peer, pos: nat, sentences: seq<seq<Word>>) returns (mid: nat)
    requires sentences != [] && Legal(sentences[0])
    requires Holds(peer, pos, EncodeAll(sentences))
    ensures Sentences(peer)(pos) == Ok(sentences[0], mid)
    ensures Holds(peer, mid, EncodeAll(sentences[1..]))
    ensures mid + |EncodeAll(sentences[1..])| == pos + |EncodeAll(sentences)|
  {
    hide EncodeLength, Sentence, EncodeSentence;
    var first, rest := EncodeSentence(sentences[0]), EncodeAll(sentences[1..]);
    assert EncodeAll(sentences) == first + rest;
    HoldsParts(peer, pos, first, rest);
    SentenceRoundTrip(peer, pos, sentences[0]);
    mid := pos + |first|;
  }

  /** Concatenated sentences never lose step. */
  lemma {:induction false} StreamStaysInStep(peer: Peer, pos: nat, sentences: seq<seq<Word>>, next: nat)
    requires Holds(peer, pos, EncodeAll(sentences)) && next == pos + |EncodeAll(sentences)|
    requires forall n :: 0 <= n < |sentences| ==> Legal(sentences[n])
    ensures ReadsAs(Sentences(peer), pos, sentences, next)
    decreases |sentences|
  {
    hide EncodeLength, EncodeSentence;
    if sentences == [] {
    } else {
      var mid := FirstSentence(peer, pos, sentences);
      StreamStaysInStep(peer, mid, sentences[1..], next);
    }
  }

  // ----- attributes -----

  lemma CutAtFirstEquals(key: Word, value: Word)
    requires EQUALS !in key
    ensures KeyValue(key + [EQUALS] + value) == (key, value)
  {
    CutAtSeparator(key, EQUALS, value);
  }

  function AttributeWord(key: Word, value: Word): Word {
    [EQUALS] + key + [EQUALS] + value
  }

  lemma AttrsStep(words: seq<Word>, word: Word)
    ensures Attrs(words + [word])
         == if [EQUALS] <= word then Attrs(words)[KeyValue(word[1..]).0 := KeyValue(word[1..]).1] else Attrs(words)
  {
    assert (words + [word])[..|words|] == words;
  }

  /** The last word written for a key decides it, and its value may hold any bytes, "=" included. */
  lemma {:induction false} LastAttributeDecides(before: seq<Word>, key: Word, value: Word, after: seq<Word>)
    requires EQUALS !in key
    requires forall n :: 0 <= n < |after| && [EQUALS] <= after[n] ==> KeyValue(after[n][1..]).0 != key
    ensures var attrs := Attrs(before + [AttributeWord(key, value)] + after);
            key in attrs && attrs[key] == value
    decreases |after|
  {
    hide KeyValue, Attrs;
    var word := AttributeWord(key, value);
    if after == [] {
      assert before + [word] + after == before + [word];
      AttrsStep(before, word);
      assert word[1..] == key + [EQUALS] + value;
      CutAtFirstEquals(key, value);
    } else {
      var n := |after| - 1;
      LastAttributeDecides(before, key, value, after[..n]);
      assert before + [word] + after == before + [word] + after[..n] + [after[n]];
      AttrsStep(before + [word] + after[..n], after[n]);
    }
  }
}
