/**
 The RouterOS API's wire form: variable-length word lengths, words, and sentences ended by an empty word.
 A peer is anything that answers a read at an offset with a byte or with a failure, so it may send nothing that
 makes sense, fail anywhere or never stop.
 */
module ApiWire {
  import opened Bytes
  import opened Options
  import opened Text

  type Word = seq<byte>
  type Peer = nat -> Option<byte>

  /** The most bytes a word may have, and all the words of a sentence together. */
  const MAX_WORD_LENGTH := 0x10_0000

  datatype Error = ReadFailed | BadReply

  /** A value read from the peer with the offset just past it. */
  datatype Read<T> = Ok(value: T, next: nat) | Err(error: Error)

  const EQUALS: byte := 61

  // ----- lengths -----

  function EncodeLength(n: nat): seq<byte> {
    if n < 0x80 then [n]
    else if n < 0x4000 then
      var v := n + 0x8000;
      [v / 0x100, v % 0x100]
    else if n < 0x20_0000 then
      var v := n + 0xC0_0000;
      [v / 0x1_0000, v / 0x100 % 0x100, v % 0x100]
    else if n < 0x1000_0000 then
      var v := n + 0xE000_0000;
      [v / 0x100_0000, v / 0x1_0000 % 0x100, v / 0x100 % 0x100, v % 0x100]
    else
      [0xF0, n / 0x100_0000 % 0x100, n / 0x1_0000 % 0x100, n / 0x100 % 0x100, n % 0x100]
  }

  /** The rest of a length: `extra` more bytes, most significant first. */
  function LengthTail(peer: Peer, pos: nat, extra: nat, n: nat): (r: Read<nat>)
    decreases extra
  {
    if extra == 0 then Ok(n, pos)
    else
      match peer(pos)
      case None => Err(ReadFailed)
      case Some(b) => LengthTail(peer, pos + 1, extra - 1, n * 0x100 + b)
  }

  lemma LengthTailStep(peer: Peer, pos: nat, extra: nat, n: nat)
    ensures LengthTail(peer, pos, extra, n)
         == if extra == 0 then Ok(n, pos)
            else if peer(pos).None? then Err(ReadFailed)
            else LengthTail(peer, pos + 1, extra - 1, n * 0x100 + peer(pos).value)
  {
  }

  /** How many bytes follow the first one, and what it contributes itself. */
  function Lead(first: byte): Option<(nat, nat)> {
    if first < 0x80 then Some((0, first))
    else if first < 0xC0 then Some((1, first - 0x80))
    else if first < 0xE0 then Some((2, first - 0xC0))
    else if first < 0xF0 then Some((3, first - 0xE0))
    else if first == 0xF0 then Some((4, 0))
    else None
  }

  function Length(peer: Peer, pos: nat): Read<nat> {
    match peer(pos)
    case None => Err(ReadFailed)
    case Some(first) =>
      match Lead(first)
      case None => Err(BadReply)
      case Some((extra, n)) => LengthTail(peer, pos + 1, extra, n)
  }

  /** The masks the program tests are the ranges Lead tests, and or-ing the marker in is adding it. */
  lemma MasksAreRanges(first: bv8)
    ensures (first & 0x80 == 0x00) <==> first < 0x80
    ensures (first & 0xC0 == 0x80) <==> 0x80 <= first < 0xC0
    ensures (first & 0xE0 == 0xC0) <==> 0xC0 <= first < 0xE0
    ensures (first & 0xF0 == 0xE0) <==> 0xE0 <= first < 0xF0
    ensures 0x80 <= first < 0xC0 ==> first & 0x3F == first - 0x80
    ensures 0xC0 <= first < 0xE0 ==> first & 0x1F == first - 0xC0
    ensures 0xE0 <= first < 0xF0 ==> first & 0x0F == first - 0xE0
  {
  }

  lemma MarkersAdd(n: bv32)
    ensures n < 0x4000 ==> n | 0x8000 == n + 0x8000
    ensures n < 0x20_0000 ==> n | 0xC0_0000 == n + 0xC0_0000
    ensures n < 0x1000_0000 ==> n | 0xE000_0000 == n + 0xE000_0000
  {
  }

  // ----- sentences -----

  predicate Available(peer: Peer, pos: nat, n: nat) {
    forall k :: pos <= k < pos + n ==> peer(k).Some?
  }

  /** The n bytes at pos; io.ReadFull fails unless all of them come. */
  function Take(peer: Peer, pos: nat, n: nat): (word: Word)
    requires Available(peer, pos, n)
    ensures |word| == n
  {
    seq(n, (k: nat) requires k < n && peer(pos + k).Some? => peer(pos + k).value)
  }

  function Sentence(peer: Peer, pos: nat, total: nat, words: seq<Word>): Read<seq<Word>>
    requires total <= MAX_WORD_LENGTH
    decreases MAX_WORD_LENGTH - total
  {
    match Length(peer, pos)
    case Err(error) => Err(error)
    case Ok(n, next) =>
      if n == 0 then Ok(words, next)
      else if n > MAX_WORD_LENGTH - total then Err(BadReply)
      else if !Available(peer, next, n) then Err(ReadFailed)
      else Sentence(peer, next + n, total + n, words + [Take(peer, next, n)])
  }

  lemma SentenceMore(
    peer: Peer, pos: nat, total: nat, words: seq<Word>, n: nat, next: nat, r: Read<seq<Word>>)
    requires Length(peer, pos) == Ok(n, next) && n != 0 && total + n <= MAX_WORD_LENGTH
    requires Available(peer, next, n)
    requires r == Sentence(peer, next + n, total + n, words + [Take(peer, next, n)])
    ensures Sentence(peer, pos, total, words) == r
  {
    hide Length;
  }

  /** The ways a sentence stops short, and the one way it ends. */
  lemma SentenceStops(peer: Peer, pos: nat, total: nat, words: seq<Word>)
    requires total <= MAX_WORD_LENGTH
    ensures var length := Length(peer, pos);
            && (length.Err? ==> Sentence(peer, pos, total, words) == Err(length.error))
            && (length.Ok? && length.value == 0 ==> Sentence(peer, pos, total, words) == Ok(words, length.next))
            && (length.Ok? && length.value > MAX_WORD_LENGTH - total ==>
                Sentence(peer, pos, total, words) == Err(BadReply))
            && (length.Ok? && 0 < length.value <= MAX_WORD_LENGTH - total
                && !Available(peer, length.next, length.value) ==>
                  Sentence(peer, pos, total, words) == Err(ReadFailed))
  {
    hide Length;
  }

  /** Where reading one sentence from an offset leads. */
  type Reader = nat -> Read<seq<Word>>

  function Sentences(peer: Peer): Reader {
    (pos: nat) => Sentence(peer, pos, 0, [])
  }

  function SentenceBytes(words: seq<Word>): nat {
    if words == [] then 0 else SentenceBytes(words[..|words| - 1]) + |words[|words| - 1]|
  }

  function EncodeWords(words: seq<Word>): seq<byte> {
    if words == [] then [] else EncodeLength(|words[0]|) + words[0] + EncodeWords(words[1..])
  }

  function EncodeSentence(words: seq<Word>): seq<byte> {
    EncodeWords(words) + [0]
  }

  /** What the framing can carry: an empty word would end the sentence, and a longer one is refused. */
  predicate Legal(words: seq<Word>) {
    && (forall n :: 0 <= n < |words| ==> words[n] != [])
    && SentenceBytes(words) <= MAX_WORD_LENGTH
  }

  // ----- replies -----

  datatype Reply = Reply(kind: Word, attrs: map<Word, Word>)

  /** What stands before and after the first "="; nothing after it when there is none. */
  function KeyValue(s: Word): (Word, Word) {
    var (key, value) := Cut(s, EQUALS);
    (key, if value.Some? then value.value else [])
  }

  /** Attributes of the words, a later one replacing an earlier of the same key; other words carry none. */
  function Attrs(words: seq<Word>): map<Word, Word> {
    if words == [] then map[]
    else
      var word := words[|words| - 1];
      var earlier := Attrs(words[..|words| - 1]);
      if [EQUALS] <= word then earlier[KeyValue(word[1..]).0 := KeyValue(word[1..]).1] else earlier
  }

  method ParseSentence(words: seq<Word>) returns (reply: Option<Reply>)
    ensures reply == if words == [] then None else Some(Reply(words[0], Attrs(words[1..])))
  {
    if |words| == 0 {
      return None;
    }
    var attrs: map<Word, Word> := map[];
    var rest := words[1..];
    for n := 0 to |rest|
      invariant attrs == Attrs(rest[..n])
    {
      assert rest[..n + 1][..n] == rest[..n];
      var word := rest[n];
      if !([EQUALS] <= word) {
        continue;
      }
      var (key, value) := KeyValue(word[1..]);
      attrs := attrs[key := value];
    }
    assert rest[..|rest|] == rest;
    return Some(Reply(words[0], attrs));
  }

  // ----- the connection -----

  class Connection {
    const peer: Peer
    const writable: bool
    var pos: nat
    var sent: seq<byte>

    constructor (peer: Peer, writable: bool)
      ensures this.peer == peer && this.writable == writable && pos == 0 && sent == []
    {
      this.peer, this.writable := peer, writable;
      pos, sent := 0, [];
    }

    method ReadByte() returns (b: Option<byte>)
      modifies this`pos
      ensures b == peer(old(pos))
      ensures pos == old(pos) + if b.Some? then 1 else 0
    {
      b := peer(pos);
      if b.Some? {
        pos := pos + 1;
      }
    }

    method ReadLength() returns (r: Read<nat>)
      modifies this`pos
      ensures r == Length(peer, old(pos))
      ensures r.Ok? ==> pos == r.next
    {
      hide LengthTail, Lead;
      var first := ReadByte();
      if first.None? {
        return Err(ReadFailed);
      }
      var lead := Lead(first.value);
      if lead.None? {
        return Err(BadReply);
      }
      var extra, n := lead.value.0, lead.value.1;
      ghost var whole := Length(peer, old(pos));
      assert whole == LengthTail(peer, pos, extra, n);
      hide Length;
      var i := 0;
      while i < extra
        invariant i <= extra && 0 <= n
        invariant LengthTail(peer, pos, extra - i, n) == whole
      {
        LengthTailStep(peer, pos, extra - i, n);
        var b := ReadByte();
        if b.None? {
          return Err(ReadFailed);
        }
        n := n * 0x100 + b.value;
        i := i + 1;
      }
      LengthTailStep(peer, pos, 0, n);
      return Ok(n, pos);
    }

    /** io.ReadFull into a buffer of n bytes. */
    method ReadFull(n: nat) returns (word: Option<Word>)
      modifies this`pos
      ensures word.Some? <==> Available(peer, old(pos), n)
      ensures word.Some? ==> word.value == Take(peer, old(pos), n) && pos == old(pos) + n
    {
      var bytes: seq<byte> := [];
      while |bytes| < n
        invariant |bytes| <= n && pos == old(pos) + |bytes|
        invariant Available(peer, old(pos), |bytes|)
        invariant forall k :: 0 <= k < |bytes| ==> peer(old(pos) + k) == Some(bytes[k])
      {
        var b := ReadByte();
        if b.None? {
          return None;
        }
        bytes := bytes + [b.value];
      }
      assert bytes == Take(peer, old(pos), n);
      return Some(bytes);
    }

    method ReadSentence() returns (r: Read<seq<Word>>)
      modifies this`pos
      ensures r == Sentences(peer)(old(pos))
      ensures r.Ok? ==> pos == r.next
    {
      hide Sentence, Length, Take, Available, LengthTail;
      var words: seq<Word> := [];
      var total := 0;
      ghost var whole := Sentence(peer, pos, 0, []);
      while true
        invariant 0 <= total <= MAX_WORD_LENGTH
        invariant Sentence(peer, pos, total, words) == whole
        decreases MAX_WORD_LENGTH - total
      {
        ghost var start := pos;
        SentenceStops(peer, start, total, words);
        var length := ReadLength();
        if length.Err? {
          return Err(length.error);
        }
        var n := length.value;
        if n == 0 {
          return Ok(words, pos);
        }
        if n > MAX_WORD_LENGTH - total {
          return Err(BadReply);
        }
        ghost var next := pos;
        total := total + n;
        var word := ReadFull(n);
        if word.None? {
          return Err(ReadFailed);
        }
        SentenceMore(peer, start, total - n, words, n, next, Sentence(peer, pos, total, words + [word.value]));
        words := words + [word.value];
      }
    }

    method WriteSentence(words: seq<Word>) returns (ok: bool)
      modifies this`sent
      ensures ok == writable
      ensures sent == if ok then old(sent) + EncodeSentence(words) else old(sent)
    {
      var buffer: seq<byte> := [];
      for n := 0 to |words|
        invariant buffer + EncodeWords(words[n..]) == EncodeWords(words)
      {
        assert words[n..][1..] == words[n + 1..];
        buffer := buffer + (EncodeLength(|words[n]|) + words[n]);
      }
      assert buffer == EncodeWords(words);
      buffer := buffer + [0];
      if writable {
        sent := sent + buffer;
      }
      return writable;
    }
  }
}
