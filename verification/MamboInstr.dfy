/** Instructions of the channel as bytes: the client's encoder and the server's parser. */
module MamboInstr {
  import opened ByteSeq
  import opened Wrappers
  import opened MamboCipher

  const BYE_CMD: nat := 0x40
  const WR_REG: nat := 0x50
  const WR_BUF: nat := 0x58
  const RD_REG: nat := 0x60
  const RD_BUF: nat := 0x78
  const PUSH_CMD: nat := 5
  const POP_CMD: nat := 6

  // ADD, SUB, MUL, DIV, XOR, ROL and ROR.
  predicate Arithmetic(high: nat) { 0x08 <= high <= 0x38 }

  // An instruction: one opcode for up to two commands on the same registers.
  datatype Instr = Instr(op: byte, r1: byte, r2: byte, r3: byte, long: bool, payload: seq<byte>)

  // A command as the server carries it out.
  datatype Cmd = Cmd(code: nat, r1: byte, r2: byte, r3: byte, payload: seq<byte>)

  // What parsing one instruction comes to. PastEnd: bytes beyond the buffer would be read.
  datatype Parsed = Ran(cmds: seq<Cmd>, consumed: nat) | NoBytes | Exit(code: nat) | PastEnd

  // ---------- The encoder ----------

  function EncodedShort(op: byte, r1: byte, r2: byte): (s: seq<byte>) { [op % 0x80, r1 * 8 % 0x100, r2 * 8 % 0x100] }

  function Encoded(i: Instr): (s: seq<byte>)
    ensures |s| == (if i.long then 4 else 3) + |i.payload|
  {
    (if i.long then [i.op % 0x80 + 0x80, i.r1, i.r2, i.r3] else EncodedShort(i.op, i.r1, i.r2)) + i.payload
  }

  method EncodeInstruction(instr: byte, r1: byte, r2: byte, r3: byte, long: bool) returns (buffer: seq<byte>)
    ensures buffer == Encoded(Instr(instr, r1, r2, r3, long, []))
  {
    if !long {
      return [instr % 0x80, r1 * 8 % 0x100, r2 * 8 % 0x100];
    }
    return [instr % 0x80 + 0x80, r1, r2, r3];
  }

  // ---------- What the bytes mean ----------

  datatype Fetched = Got(r1: byte, r2: byte, r3: byte) | Failed(why: Parsed)

  // Registers in the short or the long form; the short form leaves the third as it was.
  function Registers(buf: seq<byte>, length: nat, r3: byte): Fetched {
    if length == 0 then
      if |buf| < 3 then Failed(PastEnd)
      else if buf[1] % 8 != 0 || buf[2] % 8 != 0 then Failed(Exit(19))
      else Got(buf[1] / 8, buf[2] / 8, r3)
    else if length == 1 then if |buf| < 4 then Failed(PastEnd) else Got(buf[1], buf[2], buf[3])
    else Failed(Exit(21))
  }

  // After a command: what ran, the length byte and the third register; or why it stopped.
  datatype Half = Did(cmds: seq<Cmd>, length: nat, r3: byte) | Stopped(why: Parsed)

  function One(code: nat, f: Fetched, length: nat): Half {
    match f
    case Got(r1, r2, r3) => Did([Cmd(code, r1, r2, r3, [])], length, r3)
    case Failed(why) => Stopped(why)
  }

  function HighHalf(buf: seq<byte>, high: nat, length: nat): Half {
    if high == 0 then Did([], length, 0)
    else if Arithmetic(high) then One(high, Registers(buf, 0, 0), length)
    else if high == WR_REG || high == WR_BUF || high == RD_REG then One(high, Registers(buf, length, 0), length)
    else if high == RD_BUF then
      match Registers(buf, length, 0)
      case Got(r1, r2, r3) =>
        if |buf| < 4 + r3 then Stopped(PastEnd) else Did([Cmd(high, r1, r2, r3, buf[4..4 + r3])], (r3 + 4) % 0x100, r3)
      case Failed(why) => Stopped(why)
    else Stopped(Exit(if high == BYE_CMD then 0 else 1))
  }

  function LowHalf(buf: seq<byte>, low: nat, length: nat, r3: byte): Half {
    if low == 0 then Did([], length, r3)
    else if low < PUSH_CMD then One(low, Registers(buf, length, r3), length)
    else if low <= POP_CMD then One(low, Registers(buf, 1, r3), length)
    else Stopped(Exit(1))
  }

  function Consumed(length: nat): nat { if length == 0 then 3 else if length == 1 then 4 else length }

  // The top bit says which form; the lowest bit is ignored.
  function Parse(buf: seq<byte>, bytesRemaining: nat): Parsed
    requires |buf| > 0
  {
    if bytesRemaining == 0 then NoBytes
    else
      var instrType := buf[0] % 0x80 / 2 * 2;
      match HighHalf(buf, instrType / 8 * 8, buf[0] / 0x80)
      case Stopped(why) => why
      case Did(cmds, length, r3) =>
        match LowHalf(buf, instrType % 8, length, r3)
        case Stopped(why) => why
        case Did(more, length', _) => Ran(cmds + more, Consumed(length'))
  }

  // ---------- Round trip ----------

  // The commands an opcode stands for.
  function Commands(i: Instr): seq<Cmd> {
    var high, low := i.op / 8 * 8, i.op % 8;
    (if high == 0 then [] else [Cmd(high, i.r1, i.r2, i.r3, i.payload)])
    + (if low == 0 then [] else [Cmd(low, i.r1, i.r2, i.r3, [])])
  }

  // A legal opcode in the form its commands are read in, with register fields that fit and a
  // payload as long as a read-buffer command says.
  ghost predicate WellFormed(i: Instr) {
    var high, low := i.op / 8 * 8, i.op % 8;
    && i.op < 0x80 && low <= POP_CMD
    && (high == 0 || Arithmetic(high) || high == WR_REG || high == WR_BUF || high == RD_REG || high == RD_BUF)
    && (Arithmetic(high) ==> !i.long) && (low >= PUSH_CMD ==> i.long)
    && (!i.long ==> i.r1 < 32 && i.r2 < 32 && i.r3 == 0)
    && |i.payload| == (if high == RD_BUF then i.r3 else 0)
    && (high == RD_BUF ==> i.long && i.r3 <= 251 && (low == 0 || low >= PUSH_CMD))
  }

  // Also with the lowest bit of the opcode clear.
  ghost predicate Sendable(i: Instr) { WellFormed(i) && i.op % 2 == 0 }

  /** The short form keeps the lower five bits of both registers and nothing of the third. */
  lemma ShortRegisters(op: byte, r1: byte, r2: byte, r3: byte, rest: seq<byte>)
    ensures Registers(EncodedShort(op, r1, r2) + rest, 0, r3) == Got(r1 % 32, r2 % 32, r3)
  {
    var buf := EncodedShort(op, r1, r2) + rest;
    assert buf[1] == r1 * 8 % 0x100 && buf[2] == r2 * 8 % 0x100;
    FiveBits(r1);
    FiveBits(r2);
  }

  lemma FiveBits(r: byte)
    ensures r * 8 % 0x100 == r % 32 * 8
  {
    assert r == r / 32 * 32 + r % 32;
    assert r * 8 == r / 32 * 0x100 + r % 32 * 8;
  }

  /** Two register bytes are read exactly when some registers are encoded so, and then they are
      the ones read; otherwise the server exits. */
  lemma ShortFormRead(op: byte, b1: byte, b2: byte, r3: byte, rest: seq<byte>)
    ensures var f := Registers([op, b1, b2] + rest, 0, r3);
      && (f.Got? ==> EncodedShort(op, f.r1, f.r2)[1..] == [b1, b2])
      && (f.Failed? ==> f == Failed(Exit(19)) && forall q1: byte, q2: byte :: EncodedShort(op, q1, q2)[1..] != [b1, b2])
  {
    var f := Registers([op, b1, b2] + rest, 0, r3);
    if f.Failed? {
      forall q1: byte, q2: byte ensures EncodedShort(op, q1, q2)[1..] != [b1, b2] {
        assert EncodedShort(op, q1, q2)[1..] == [q1 * 8 % 0x100, q2 * 8 % 0x100];
        FiveBits(q1);
        FiveBits(q2);
      }
    }
  }

  lemma ParseShort(i: Instr, buf: seq<byte>, n: nat)
    requires Sendable(i) && n > 0 && !i.long
    requires |buf| >= 3 && buf[0] == i.op && buf[1] == i.r1 * 8 % 0x100 && buf[2] == i.r2 * 8 % 0x100
    ensures Parse(buf, n) == Ran(Commands(i), 3)
  {
    assert Registers(buf, 0, 0) == Got(i.r1, i.r2, 0);
    hide Registers;
  }

  lemma ParseLong(i: Instr, buf: seq<byte>, n: nat)
    requires Sendable(i) && n > 0 && i.long && |buf| >= 4 + |i.payload|
    requires buf[0] == i.op + 0x80 && buf[1] == i.r1 && buf[2] == i.r2 && buf[3] == i.r3
    requires buf[4..4 + |i.payload|] == i.payload
    ensures Parse(buf, n) == Ran(Commands(i), 4 + |i.payload|)
  {
    assert Registers(buf, 1, 0) == Got(i.r1, i.r2, i.r3) && Registers(buf, 1, i.r3) == Got(i.r1, i.r2, i.r3);
    hide Registers;
  }

  /** The bytes of an instruction: the top bit says which form, and then come the registers, each a
      byte, or in the short form two of them in the upper five bits, and the payload. */
  lemma WireFormat(i: Instr)
    ensures var s := Encoded(i);
      && s[0] as int == i.op as int % 0x80 + (if i.long then 0x80 else 0)
      && (i.long ==> s[1] == i.r1 && s[2] == i.r2 && s[3] == i.r3 && s[4..] == i.payload)
      && (!i.long ==>
        s[1] as int == i.r1 as int * 8 % 0x100 && s[2] as int == i.r2 as int * 8 % 0x100 && s[3..] == i.payload)
  {
  }

  /** The registers that a command is run with are the bytes after the first, whole or without
      their lower three bits. */
  lemma RegistersRead(buf: seq<byte>, length: nat, r3: byte)
    ensures length == 1 && |buf| >= 4 ==> Registers(buf, length, r3) == Got(buf[1], buf[2], buf[3])
    ensures length == 0 && |buf| >= 3 && buf[1] % 8 == buf[2] % 8 == 0 ==>
      var f := Registers(buf, length, r3);
      f.Got? && f.r1 as int * 8 == buf[1] as int && f.r2 as int * 8 == buf[2] as int && f.r3 == r3
  {
  }

  /** The command in the upper part of the opcode is run first, with the payload, and then the one
      in the lower three bits; a part that is zero is none. */
  lemma HighThenLow(i: Instr, rest: seq<byte>, n: nat)
    requires Sendable(i) && n > 0
    ensures var p, low := Parse(Encoded(i) + rest, n), i.op as int % 8;
      && p.Ran? && |p.cmds| == (if i.op >= 8 then 1 else 0) + (if low != 0 then 1 else 0)
      && (i.op >= 8 ==> p.cmds[0] == Cmd(i.op as int - low, i.r1, i.r2, i.r3, i.payload))
      && (low != 0 ==> p.cmds[|p.cmds| - 1] == Cmd(low, i.r1, i.r2, i.r3, []))
  {
    hide Parse;
    ParseEncoded(i, rest, n);
  }

  /** The opcodes from 0x40 to 0x47 end the server with 0, and with 1 those from 0x48, 0x68 and
      0x70 on that are no commands; no other does. */
  lemma ServerEnds(buf: seq<byte>, n: nat)
    requires |buf| > 0 && n > 0
    ensures var p, op := Parse(buf, n), buf[0] % 0x80;
      && (p == Exit(0) <==> 0x40 <= op < 0x48)
      && (p == Exit(1) <==> 0x48 <= op < 0x50 || 0x68 <= op < 0x78)
  {
    hide Registers;
    RegistersFail(buf, 0, 0);
    RegistersFail(buf, buf[0] / 0x80, 0);
    var h := HighHalf(buf, buf[0] % 0x80 / 2 * 2 / 8 * 8, buf[0] / 0x80);
    if h.Did? {
      RegistersFail(buf, h.length, h.r3);
      RegistersFail(buf, 1, h.r3);
    }
  }

  lemma RegistersFail(buf: seq<byte>, length: nat, r3: byte)
    ensures var f := Registers(buf, length, r3); f.Failed? ==> f.why in {PastEnd, Exit(19), Exit(21)}
  {
  }

  /** Every sendable instruction parses back to its commands, whatever follows it in the buffer,
      and takes exactly its own bytes. */
  lemma ParseEncoded(i: Instr, rest: seq<byte>, n: nat)
    requires Sendable(i) && n > 0
    ensures Parse(Encoded(i) + rest, n) == Ran(Commands(i), |Encoded(i)|)
  {
    hide Parse, Commands;
    var buf := Encoded(i) + rest;
    if i.long {
      ParseLong(i, buf, n);
    } else {
      ParseShort(i, buf, n);
    }
  }

  // Everything but the first byte.
  lemma SameTail(b: seq<byte>, c: seq<byte>, length: nat, r3: byte)
    requires 0 < |b| == |c| && b[1..] == c[1..]
    ensures Registers(b, length, r3) == Registers(c, length, r3)
  {
    assert forall k :: 1 <= k < |b| ==> b[k] == b[1..][k - 1] == c[k];
  }

  lemma SameHalves(b: seq<byte>, c: seq<byte>, part: nat, length: nat, r3: byte)
    requires 0 < |b| == |c| && b[1..] == c[1..]
    ensures HighHalf(b, part, length) == HighHalf(c, part, length)
    ensures LowHalf(b, part, length, r3) == LowHalf(c, part, length, r3)
  {
    hide Registers;
    SameTail(b, c, length, r3);
    SameTail(b, c, length, 0);
    SameTail(b, c, 0, 0);
    SameTail(b, c, 1, r3);
    forall k | 4 <= k <= |b| ensures b[4..k] == c[4..k] {
      assert b[4..k] == b[1..][3..k - 1];
      assert c[4..k] == c[1..][3..k - 1];
    }
  }

  /** The lowest bit of an opcode is lost: the server runs the command with the bit clear. */
  lemma OddOpcodeLost(op: byte, rest: seq<byte>, n: nat)
    requires op % 2 == 1
    ensures Parse([op] + rest, n) == Parse([op - 1] + rest, n)
  {
    hide HighHalf, LowHalf;
    var b, c := [op] + rest, [op - 1] + rest;
    assert b[1..] == rest == c[1..];
    var t: nat := op % 0x80 / 2 * 2;
    assert t == (op - 1) % 0x80 / 2 * 2 && op / 0x80 == (op - 1) / 0x80;
    SameHalves(b, c, t / 8 * 8, op / 0x80, 0);
    var h := HighHalf(b, t / 8 * 8, op / 0x80);
    if h.Did? {
      SameHalves(b, c, t % 8, h.length, h.r3);
    }
  }

  // Commands come from an opcode without its lowest bit.
  lemma CodesEven(buf: seq<byte>, n: nat)
    requires |buf| > 0 && Parse(buf, n).Ran?
    ensures forall c :: c in Parse(buf, n).cmds ==> c.code % 2 == 0
  {
    hide HighHalf, LowHalf;
    var t: nat := buf[0] % 0x80 / 2 * 2;
    EvenParts(buf[0] % 0x80 / 2);
    HighCodes(buf, t / 8 * 8, buf[0] / 0x80);
    var h := HighHalf(buf, t / 8 * 8, buf[0] / 0x80);
    var l := LowHalf(buf, t % 8, h.length, h.r3);
    LowCodes(buf, t % 8, h.length, h.r3);
    assert Parse(buf, n).cmds == h.cmds + l.cmds;
  }

  lemma EvenParts(k: nat)
    ensures k * 2 / 8 * 8 % 2 == 0 && k * 2 % 8 % 2 == 0
  {
    assert k == k / 4 * 4 + k % 4;
    assert k * 2 == k / 4 * 8 + k % 4 * 2;
  }

  lemma HighCodes(buf: seq<byte>, high: nat, length: nat)
    ensures var h := HighHalf(buf, high, length);
      if h.Did? then forall c :: c in h.cmds ==> c.code == high else !h.why.Ran?
  {
  }

  lemma LowCodes(buf: seq<byte>, low: nat, length: nat, r3: byte)
    ensures var l := LowHalf(buf, low, length, r3);
      if l.Did? then forall c :: c in l.cmds ==> c.code == low else !l.why.Ran?
  {
  }

  /** So a well-formed instruction comes back as its own commands exactly when that bit is clear:
      LD4, ST4 and PUSH never do. */
  lemma ParsesBackIffEven(i: Instr, rest: seq<byte>, n: nat)
    requires WellFormed(i) && n > 0
    ensures Parse(Encoded(i) + rest, n) == Ran(Commands(i), |Encoded(i)|) <==> i.op % 2 == 0
  {
    hide Parse;
    if i.op % 2 == 0 {
      ParseEncoded(i, rest, n);
    } else {
      var last := Cmd(i.op % 8, i.r1, i.r2, i.r3, []);
      assert last in Commands(i) && last.code % 2 == 1;
      if Parse(Encoded(i) + rest, n).Ran? {
        CodesEven(Encoded(i) + rest, n);
      }
    }
  }

  /** A read-buffer command takes its four bytes and its payload exactly when the length fits
      the byte it is kept in; from 252 on it wraps. */
  lemma ReadBufferTakes(r1: byte, r2: byte, r3: byte, rest: seq<byte>, n: nat)
    requires n > 0 && |rest| >= r3
    ensures var p := Parse([RD_BUF + 0x80, r1, r2, r3] + rest, n);
      p.Ran? && (p.consumed == 4 + r3 <==> r3 <= 251)
  {
    var buf := [RD_BUF + 0x80, r1, r2, r3] + rest;
    assert Registers(buf, 1, 0) == Got(r1, r2, r3);
  }

  // ---------- The parser ----------

  method GetRegisters(bufs: seq<byte>, length: nat, r3: byte) returns (r: Fetched)
    ensures r == Registers(bufs, length, r3)
  {
    if length == 0 {
      if |bufs| < 3 {
        return Failed(PastEnd);
      }
      var r1, r2 := bufs[1] / 8, bufs[2] / 8;
      if bufs[1] % 8 != 0 || bufs[2] % 8 != 0 {
        return Failed(Exit(19));
      }
      return Got(r1, r2, r3);
    } else if length == 1 {
      if |bufs| < 4 {
        return Failed(PastEnd);
      }
      return Got(bufs[1], bufs[2], bufs[3]);
    }
    return Failed(Exit(21));
  }

  /** The loop takes one turn: each half of the opcode is cleared once its command has run. */
  method ParseInstruction(buf: seq<byte>, bytesRemaining: nat) returns (r: Parsed)
    requires |buf| > 0
    ensures r == Parse(buf, bytesRemaining)
  {
    var instrLength: nat, instrType: nat := buf[0] / 0x80, buf[0] % 0x80 / 2 * 2;
    if bytesRemaining == 0 {
      return NoBytes;
    }
    var cmds: seq<Cmd> := [];
    var r3: byte := 0;
    ghost var type0, length0 := instrType, instrLength;
    while instrType > 0
      invariant (instrType == type0 && cmds == [] && r3 == 0 && instrLength == length0)
        || (instrType == 0 && Parse(buf, bytesRemaining) == Ran(cmds, Consumed(instrLength)))
      decreases instrType
    {
      var high, low := instrType / 8 * 8, instrType % 8;
      if high != 0 {
        var first := HighCommand(buf, high, instrLength);
        if first.Stopped? {
          return first.why;
        }
        cmds, instrLength, r3 := cmds + first.cmds, first.length, first.r3;
        instrType := instrType - high;
      }
      if low != 0 {
        var second := LowCommand(buf, low, instrLength, r3);
        if second.Stopped? {
          return second.why;
        }
        cmds, r3 := cmds + second.cmds, second.r3;
        instrType := instrType - low;
      }
    }
    r := Ran(cmds, Consumed(instrLength));
  }

  method HighCommand(buf: seq<byte>, high: nat, instrLength: nat) returns (r: Half)
    requires high != 0
    ensures r == HighHalf(buf, high, instrLength)
  {
    if Arithmetic(high) {
      var f := GetRegisters(buf, 0, 0);
      return One(high, f, instrLength);
    } else if high == WR_REG || high == WR_BUF || high == RD_REG {
      var f := GetRegisters(buf, instrLength, 0);
      return One(high, f, instrLength);
    } else if high == RD_BUF {
      var f := GetRegisters(buf, instrLength, 0);
      if f.Failed? {
        return Stopped(f.why);
      }
      if |buf| < 4 + f.r3 {
        return Stopped(PastEnd);
      }
      return Did([Cmd(high, f.r1, f.r2, f.r3, buf[4..4 + f.r3])], (f.r3 + 4) % 0x100, f.r3);
    }
    return Stopped(Exit(if high == BYE_CMD then 0 else 1));
  }

  method LowCommand(buf: seq<byte>, low: nat, instrLength: nat, r3: byte) returns (r: Half)
    requires low != 0
    ensures r == LowHalf(buf, low, instrLength, r3)
  {
    if low < PUSH_CMD {
      var f := GetRegisters(buf, instrLength, r3);
      return One(low, f, instrLength);
    } else if low <= POP_CMD {
      var f := GetRegisters(buf, 1, r3);
      return One(low, f, instrLength);
    }
    return Stopped(Exit(1));
  }
}
