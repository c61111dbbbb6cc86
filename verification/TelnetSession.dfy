/**
 The Telnet reads: output bytes with option negotiation mixed in (RFC 854, "TELNET COMMAND STRUCTURE"; RFC 855, 857
 and 858), decoded by two loops. What the connection will answer is a line of events, ended by end of file; the clock
 lets a loop make `turns` passes.
 */
module TelnetSession {
  import opened Bytes

  const IAC: byte := 255
  const SE: byte := 240
  const SB: byte := 250
  const WILL: byte := 251
  const WONT: byte := 252
  const DO: byte := 253
  const DONT: byte := 254

  const ECHO: byte := 1
  const SUPPRESS_GO_AHEAD: byte := 3

  /** A byte, a read that timed out (and whether the line has been quiet for long), or a read that failed. */
  datatype Event = Byte(b: byte) | Timeout(quiet: bool) | Fault

  datatype Got = Data(b: byte) | TimedOut(quiet: bool) | EndOfFile | Broken

  type Line = seq<Event>

  function Answer(line: Line, pos: nat): Got {
    if pos >= |line| then EndOfFile
    else
      match line[pos]
      case Byte(b) => Data(b)
      case Timeout(quiet) => TimedOut(quiet)
      case Fault => Broken
  }

  function Past(line: Line, pos: nat): nat {
    if pos < |line| then pos + 1 else pos
  }

  predicate IsRequest(command: byte) {
    command in [WILL, WONT, DO, DONT]
  }

  function Reply(command: byte, option: byte): seq<byte> {
    if command == WILL then
      if option == ECHO || option == SUPPRESS_GO_AHEAD then [IAC, DO, option] else [IAC, DONT, option]
    else if command == DO then
      if option == SUPPRESS_GO_AHEAD then [IAC, WILL, option] else [IAC, WONT, option]
    else if command == WONT then [IAC, DONT, option]
    else [IAC, WONT, option]
  }

  /** How a command sequence ended: a byte to keep, nothing to keep, or a read inside it that gave no byte. */
  datatype Sequence = Keep(b: byte) | Drop | Cut(got: Got)

  function Skip(line: Line, pos: nat): (r: (Sequence, nat))
    ensures pos <= r.1
    decreases |line| - pos
  {
    match Answer(line, pos)
    case Data(b) =>
      if b != IAC then Skip(line, pos + 1)
      else
        (match Answer(line, pos + 1)
         case Data(next) => if next == SE then (Drop, pos + 2) else Skip(line, pos + 2)
         case got => (Cut(got), Past(line, pos + 1)))
    case got => (Cut(got), Past(line, pos))
  }

  /** One sequence after its IAC: how it ended, where, and what was written back. */
  function Negotiate(line: Line, pos: nat): (r: (Sequence, nat, seq<byte>))
    ensures pos <= r.1
  {
    match Answer(line, pos)
    case Data(command) =>
      if command == IAC then (Keep(IAC), pos + 1, [])
      else if command == SB then
        var (end, next) := Skip(line, pos + 1);
        (end, next, [])
      else if IsRequest(command) then
        (match Answer(line, pos + 1)
         case Data(option) => (Drop, pos + 2, Reply(command, option))
         case got => (Cut(got), Past(line, pos + 1), []))
      else (Drop, pos + 1, [])
    case got => (Cut(got), Past(line, pos), [])
  }

  /** What a read returns: the text, whether it failed, where the line stands, and all that was written back. */
  datatype Output = Output(text: seq<byte>, failed: bool, next: nat, sent: seq<byte>)

  type Done = seq<byte> -> bool

  function Until(line: Line, pos: nat, done: Done, turns: nat, text: seq<byte>, sent: seq<byte>): Output
    decreases turns
  {
    if turns == 0 then Output(text, false, pos, sent)
    else
      match Answer(line, pos)
      case EndOfFile => Output(text, false, pos, sent)
      case TimedOut(_) => Until(line, pos + 1, done, turns - 1, text, sent)
      case Broken => Output(text, true, pos + 1, sent)
      case Data(b) =>
        if b != IAC then
          if done(text + [b]) then Output(text + [b], false, pos + 1, sent)
          else Until(line, pos + 1, done, turns - 1, text + [b], sent)
        else
          var (end, next, reply) := Negotiate(line, pos + 1);
          match end
          case Cut(TimedOut(_)) => Until(line, next, done, turns - 1, text, sent + reply)
          case Cut(_) => Output(text, true, next, sent + reply)
          case Drop => Until(line, next, done, turns - 1, text, sent + reply)
          case Keep(kept) =>
            if done(text + [kept]) then Output(text + [kept], false, next, sent + reply)
            else Until(line, next, done, turns - 1, text + [kept], sent + reply)
  }

  function Bulk(line: Line, pos: nat, turns: nat, text: seq<byte>, sent: seq<byte>): Output
    decreases turns
  {
    if turns == 0 then Output(text, false, pos, sent)
    else
      match Answer(line, pos)
      case EndOfFile => Output(text, false, pos, sent)
      case TimedOut(quiet) =>
        if text != [] && quiet then Output(text, false, pos + 1, sent)
        else Bulk(line, pos + 1, turns - 1, text, sent)
      case Broken => Output(text, true, pos + 1, sent)
      case Data(b) =>
        if b != IAC then Bulk(line, pos + 1, turns - 1, text + [b], sent)
        else
          var (end, next, reply) := Negotiate(line, pos + 1);
          match end
          case Keep(kept) => Bulk(line, next, turns - 1, text + [kept], sent + reply)
          case _ => Bulk(line, next, turns - 1, text, sent + reply)
  }

  class Session {
    const line: Line
    var pos: nat
    var sent: seq<byte>

    constructor (line: Line)
      ensures this.line == line && pos == 0 && sent == []
    {
      this.line := line;
      pos, sent := 0, [];
    }

    method ReadByte() returns (got: Got)
      modifies this`pos
      ensures got == Answer(line, old(pos)) && pos == Past(line, old(pos))
    {
      got := Answer(line, pos);
      if pos < |line| {
        pos := pos + 1;
      }
    }

    method SkipSubnegotiation() returns (end: Sequence)
      modifies this`pos
      ensures (end, pos) == Skip(line, old(pos))
    {
      while true
        invariant Skip(line, pos) == Skip(line, old(pos))
        decreases |line| - pos
      {
        var b := ReadByte();
        if !b.Data? {
          return Cut(b);
        }
        if b.b != IAC {
          continue;
        }
        var next := ReadByte();
        if !next.Data? {
          return Cut(next);
        }
        if next.b == SE {
          return Drop;
        }
      }
    }

    method NegotiateOption() returns (end: Sequence)
      modifies this
      ensures var (r, next, reply) := Negotiate(line, old(pos));
              end == r && pos == next && sent == old(sent) + reply
    {
      var command := ReadByte();
      if !command.Data? {
        return Cut(command);
      }
      if command.b == IAC {
        return Keep(IAC);
      }
      if command.b == SB {
        end := SkipSubnegotiation();
        return;
      }
      if command.b == WILL || command.b == WONT || command.b == DO || command.b == DONT {
        var option := ReadByte();
        if !option.Data? {
          return Cut(option);
        }
        sent := sent + Reply(command.b, option.b);
      }
      return Drop;
    }

    method ReadUntil(done: Done, turns: nat) returns (text: seq<byte>, failed: bool)
      modifies this
      ensures Output(text, failed, pos, sent) == Until(line, old(pos), done, turns, [], old(sent))
    {
      text, failed := [], false;
      var left := turns;
      ghost var whole := Until(line, pos, done, turns, [], sent);
      while left > 0
        invariant Until(line, pos, done, left, text, sent) == whole && !failed
      {
        left := left - 1;
        var got := ReadByte();
        if got.EndOfFile? {
          break;
        }
        if got.TimedOut? {
          continue;
        }
        if got.Broken? {
          return text, true;
        }
        var b := got.b;
        if b == IAC {
          var end := NegotiateOption();
          if end.Cut? {
            if end.got.TimedOut? {
              continue;
            }
            return text, true;
          }
          if end.Drop? {
            continue;
          }
          b := end.b;
        }
        text := text + [b];
        if done(text) {
          return text, false;
        }
      }
    }

    method ReadBulk(turns: nat) returns (text: seq<byte>, failed: bool)
      modifies this
      ensures Output(text, failed, pos, sent) == Bulk(line, old(pos), turns, [], old(sent))
    {
      text, failed := [], false;
      var left := turns;
      ghost var whole := Bulk(line, pos, turns, [], sent);
      while left > 0
        invariant Bulk(line, pos, left, text, sent) == whole && !failed
      {
        left := left - 1;
        var got := ReadByte();
        if got.EndOfFile? {
          break;
        }
        if got.TimedOut? {
          if 0 < |text| && got.quiet {
            return text, false;
          }
          continue;
        }
        if got.Broken? {
          return text, true;
        }
        var b := got.b;
        if b == IAC {
          var end := NegotiateOption();
          if !end.Keep? {
            continue;
          }
          b := end.b;
        }
        text := text + [b];
      }
    }
  }
}
