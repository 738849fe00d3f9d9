/** SHA-1 with its unrolled rounds and split bit count, against the definition in sections
    4.1.1, 5.1.1 and 6.1.2 of FIPS 180-4. */
module Sha1 {
  import opened BlockHash
  import opened ByteSeq
  import opened Numbers

  type Word = bv32

  const BLOCK: nat := 64
  const WRAP32: nat := 0x1_0000_0000

  // ---------- The standard ----------

  function Rol(x: Word, n: nat): Word
    requires 0 < n < 32
  {
    (x << n) | (x >> (32 - n))
  }

  // Addition modulo 2^32.
  function Plus(x: Word, y: Word): Word { x + y }

  // Choice, parity and majority.
  function Ch(x: Word, y: Word, z: Word): Word { (x & y) ^ (!x & z) }
  function Parity(x: Word, y: Word, z: Word): Word { x ^ y ^ z }
  function Maj(x: Word, y: Word, z: Word): Word { (x & y) ^ (x & z) ^ (y & z) }

  function Ft(t: nat, x: Word, y: Word, z: Word): Word {
    if t < 20 then Ch(x, y, z) else if 40 <= t < 60 then Maj(x, y, z) else Parity(x, y, z)
  }

  function Kt(t: nat): Word {
    if t < 20 then 0x5A827999 else if t < 40 then 0x6ED9EBA1 else if t < 60 then 0x8F1BBCDC else 0xCA62C1D6
  }

  datatype Regs = Regs(a: Word, b: Word, c: Word, d: Word, e: Word)

  const H0: Regs := Regs(0x67452301, 0xEFCDAB89, 0x98BADCFE, 0x10325476, 0xC3D2E1F0)

  function WordAt(block: seq<byte>, i: nat): Word {
    if 4 * i + 4 <= |block| then
      Powers();
      FromBytes(block[4 * i..4 * i + 4]) as Word
    else 0
  }

  // The next word of the schedule from those 16, 14, 8 and 3 places back.
  function NextWord(w16: Word, w14: Word, w8: Word, w3: Word): Word {
    Rol(w3 ^ w8 ^ w14 ^ w16, 1)
  }

  // The first n words of the message schedule.
  function Schedule(block: seq<byte>, n: nat): (w: seq<Word>)
    ensures |w| == n
  {
    if n == 0 then []
    else
      var w := Schedule(block, n - 1);
      var t := n - 1;
      w + [if t < 16 then WordAt(block, t) else NextWord(w[t - 16], w[t - 14], w[t - 8], w[t - 3])]
  }

  function Round(r: Regs, t: nat, w: Word): Regs {
    var temp := Plus(Plus(Plus(Plus(r.e, Ft(t, r.b, r.c, r.d)), w), Kt(t)), Rol(r.a, 5));
    Regs(temp, r.a, Rol(r.b, 30), r.c, r.d)
  }

  function Rounds(r: Regs, w: seq<Word>, n: nat): Regs
    requires n <= |w|
  {
    if n == 0 then r else Round(Rounds(r, w, n - 1), n - 1, w[n - 1])
  }

  function Sum(x: Regs, y: Regs): Regs {
    Regs(Plus(x.a, y.a), Plus(x.b, y.b), Plus(x.c, y.c), Plus(x.d, y.d), Plus(x.e, y.e))
  }

  function Compress(h: Regs, block: seq<byte>): Regs {
    Sum(h, Rounds(h, Schedule(block, 80), 80))
  }

  // How many zero bytes follow the one bit's byte.
  function PadZeros(n: nat): nat { (119 - n % BLOCK) % BLOCK }

  /** It is the least number that leaves just the 8 bytes of the length. */
  lemma PadIsLeast(n: nat, z: nat)
    ensures (n + 1 + PadZeros(n)) % BLOCK == 56
    ensures (n + 1 + z) % BLOCK == 56 ==> PadZeros(n) <= z
  {
  }

  function Pad(msg: seq<byte>): seq<byte> {
    msg + [0x80] + Zeros(PadZeros(|msg|)) + ToBytes(8 * |msg|, 8)
  }

  function WordBytes(w: Word): (s: seq<byte>)
    ensures |s| == 4
  {
    ToBytes(w as nat, 4)
  }

  function Words(h: Regs): (w: seq<Word>)
    ensures |w| == 5
  {
    [h.a, h.b, h.c, h.d, h.e]
  }

  function Digest(h: Regs): (s: seq<byte>)
    ensures |s| == 20
  {
    var parts := seq(5, i requires 0 <= i < 5 => WordBytes(Words(h)[i]));
    ConcatLength(parts, 4);
    Concat(parts)
  }

  /** Read big-endian, each four bytes of the digest are that word of the hash value. */
  lemma DigestWords(h: Regs, i: nat)
    requires i < 5
    ensures FromBytes(Digest(h)[i * 4..i * 4 + 4]) == [h.a, h.b, h.c, h.d, h.e][i] as nat
  {
    hide ToBytes, FromBytes, Concat;
    PieceOf(seq(5, i requires 0 <= i < 5 => WordBytes(Words(h)[i])), 4, i);
    Powers();
    ThereAndBack(Words(h)[i] as nat, 4);
  }

  function Hash(msg: seq<byte>): seq<byte> {
    Digest(Fold(Compress, BLOCK, H0, Pad(msg)))
  }

  // ---------- The rounds ----------

  lemma {:induction false} SchedulePrefix(block: seq<byte>, m: nat, n: nat)
    requires m <= n
    ensures Schedule(block, n)[..m] == Schedule(block, m)
    decreases n
  {
    if m < n {
      SchedulePrefix(block, m, n - 1);
    }
  }

  lemma ScheduleStep(block: seq<byte>, t: nat)
    requires t < 80
    ensures var s := Schedule(block, 80);
      s[t] == if t < 16 then WordAt(block, t) else NextWord(s[t - 16], s[t - 14], s[t - 8], s[t - 3])
  {
    hide NextWord, WordAt;
    SchedulePrefix(block, t + 1, 80);
    SchedulePrefix(block, t, 80);
    var s := Schedule(block, 80);
    assert s[t] == s[..t + 1][t] == Schedule(block, t + 1)[t];
    assert s[..t] == Schedule(block, t);
  }

  // The block's sixteen words before step t: those done hold the last words of the schedule,
  // the others are as they were loaded.
  ghost predicate InCircle(w: seq<Word>, block: seq<byte>, t: nat) {
    && |w| == 16 && t <= 80
    && (forall j :: 0 <= j < t && t - 16 <= j ==> w[j % 16] == Schedule(block, 80)[j])
    && (forall j :: t <= j < 16 ==> w[j] == WordAt(block, j))
  }

  lemma CircleStart(w: seq<Word>, block: seq<byte>, t: nat)
    requires |w| == 16 && InCircle(w, block, t) && t < 16
    ensures w[t] == Schedule(block, 80)[t] && InCircle(w, block, t + 1)
  {
    hide Schedule, WordAt, NextWord;
    ScheduleStep(block, t);
  }

  // One step in the circle; the other fifteen words stay.
  lemma CircleStep(w: seq<Word>, block: seq<byte>, t: nat)
    requires |w| == 16 && InCircle(w, block, t) && 16 <= t < 80
    ensures var x := NextWord(w[t % 16], w[(t + 2) % 16], w[(t + 8) % 16], w[(t + 13) % 16]);
      x == Schedule(block, 80)[t] && InCircle(w[t % 16 := x], block, t + 1)
  {
    hide NextWord, Schedule, WordAt;
    var s := Schedule(block, 80);
    ScheduleStep(block, t);
    assert (t + 16 - 3) % 16 == (t - 3) % 16 && (t + 16 - 8) % 16 == (t - 8) % 16;
    assert (t + 16 - 14) % 16 == (t - 14) % 16;
    assert w[(t - 3) % 16] == s[t - 3] && w[(t - 8) % 16] == s[t - 8];
    assert w[(t - 14) % 16] == s[t - 14] && w[(t - 16) % 16] == s[t - 16];
    var w' := w[t % 16 := s[t]];
    forall j | 0 <= j < t + 1 && t - 15 <= j ensures w'[j % 16] == s[j] {
      DifferentPlaces(j, t);
    }
  }

  // The forms the program has them in.
  function ChShort(x: Word, y: Word, z: Word): Word { (x & (y ^ z)) ^ z }
  function MajShort(x: Word, y: Word, z: Word): Word { ((x | y) & z) | (x & y) }

  lemma ChBits(x: Word, y: Word, z: Word)
    ensures (x & (y ^ z)) ^ z == (x & y) ^ (!x & z)
  {
  }

  lemma MajBits(x: Word, y: Word, z: Word)
    ensures ((x | y) & z) | (x & y) == (x & y) ^ (x & z) ^ (y & z)
  {
  }

  /** They are the same functions. */
  lemma SameForms(x: Word, y: Word, z: Word)
    ensures ChShort(x, y, z) == Ch(x, y, z) && MajShort(x, y, z) == Maj(x, y, z)
  {
    ChBits(x, y, z);
    MajBits(x, y, z);
  }

  // Which of them a macro uses.
  function FtShort(i: nat, x: Word, y: Word, z: Word): Word {
    if i < 20 then ChShort(x, y, z) else if 40 <= i < 60 then MajShort(x, y, z) else Parity(x, y, z)
  }

  lemma FtForms(i: nat, x: Word, y: Word, z: Word)
    ensures FtShort(i, x, y, z) == Ft(i, x, y, z)
  {
    hide Ch, Maj, ChShort, MajShort, Parity;
    SameForms(x, y, z);
  }

  // One of the program's rounds: only z and w change; the names move along instead of the values.
  method R(v: Word, w: Word, x: Word, y: Word, z: Word, i: nat, l: seq<Word>, ghost block: seq<byte>)
    returns (z': Word, w': Word, l': seq<Word>)
    requires i < 80 && |l| == 16 && InCircle(l, block, i)
    ensures |l'| == 16 && InCircle(l', block, i + 1)
    ensures Regs(z', v, w', x, y) == Round(Regs(v, w, x, y, z), i, Schedule(block, 80)[i])
  {
    hide NextWord, Schedule, Plus, Ft, FtShort, Kt, Rol, InCircle;
    FtForms(i, w, x, y);
    l' := l;
    if i < 16 {
      CircleStart(l, block, i);
    } else {
      CircleStep(l, block, i);
      l' := l[i % 16 := NextWord(l[i % 16], l[(i + 2) % 16], l[(i + 8) % 16], l[(i + 13) % 16])];
    }
    z' := Plus(Plus(Plus(Plus(z, FtShort(i, w, x, y)), l'[i % 16]), Kt(i)), Rol(v, 5));
    w' := Rol(w, 30);
  }

  /** The unrolled rounds, five at a time: after every five each name holds its own value again. */
  method RunRounds(r0: Regs, l0: seq<Word>, ghost block: seq<byte>) returns (r: Regs)
    requires InCircle(l0, block, 0)
    ensures r == Rounds(r0, Schedule(block, 80), 80)
  {
    hide Schedule, Round, InCircle;
    var a, b, c, d, e, l := r0.a, r0.b, r0.c, r0.d, r0.e, l0;
    var i := 0;
    CircleLength(l, block, 0);
    while i < 80
      invariant i <= 80 && i % 5 == 0 && |l| == 16 && InCircle(l, block, i)
      invariant Regs(a, b, c, d, e) == Rounds(r0, Schedule(block, 80), i)
    {
      FiveRounds(r0, Schedule(block, 80), i);
      e, b, l := R(a, b, c, d, e, i, l, block);
      d, a, l := R(e, a, b, c, d, i + 1, l, block);
      c, e, l := R(d, e, a, b, c, i + 2, l, block);
      b, d, l := R(c, d, e, a, b, i + 3, l, block);
      a, c, l := R(b, c, d, e, a, i + 4, l, block);
      i := i + 5;
    }
    r := Regs(a, b, c, d, e);
  }

  lemma CircleLength(l: seq<Word>, block: seq<byte>, t: nat)
    requires InCircle(l, block, t)
    ensures |l| == 16
  {
  }

  lemma FiveRounds(r: Regs, w: seq<Word>, i: nat)
    requires i + 5 <= |w|
    ensures Rounds(r, w, i + 5)
         == Round(Round(Round(Round(Round(Rounds(r, w, i), i, w[i]), i + 1, w[i + 1]), i + 2, w[i + 2]),
              i + 3, w[i + 3]), i + 4, w[i + 4])
  {
    hide Round;
    assert Rounds(r, w, i + 4) == Round(Rounds(r, w, i + 3), i + 3, w[i + 3]);
    assert Rounds(r, w, i + 2) == Round(Rounds(r, w, i + 1), i + 1, w[i + 1]);
  }

  // ---------- Counting ----------

  // The two words of the bit count of n bytes.
  function Low(n: nat): nat { 8 * n % WRAP32 }
  function High(n: nat): nat { 8 * n / WRAP32 % WRAP32 }

  function Wrap32(n: nat): nat { n % WRAP32 }

  lemma Parts(n: nat)
    ensures n == n / WRAP32 * WRAP32 + Wrap32(n) && Wrap32(n) < WRAP32
  {
  }

  lemma WrapTwice(a: nat, b: nat)
    ensures Wrap32(Wrap32(a) + b) == Wrap32(a + b)
  {
    Parts(a);
    Multiples(WRAP32, a / WRAP32, Wrap32(a) + b);
  }

  // The carry shows as a low word that has become smaller.
  lemma CountAdd(n: nat, len: nat)
    requires len < WRAP32
    ensures var low := Wrap32(Low(n) + Wrap32(8 * len));
      && low == Low(n + len)
      && Wrap32(Wrap32(High(n) + (if low < Low(n) then 1 else 0)) + len / 0x2000_0000) == High(n + len)
  {
    var a, b := 8 * n / WRAP32, 8 * len / WRAP32;
    var c, l := Low(n), Wrap32(8 * len);
    Parts(8 * n);
    Parts(8 * len);
    assert len / 0x2000_0000 == b;
    assert 8 * (n + len) == (a + b) * WRAP32 + (c + l);
    Multiples(WRAP32, a + b, c + l);
    var low := Wrap32(c + l);
    var carry := if low < c then 1 else 0;
    assert carry == (c + l) / WRAP32 && low == Low(n + len);
    WrapTwice(a, carry);
    WrapTwice(a + carry, b);
  }

  // The place in the buffer that the low word gives.
  lemma PlaceIs(n: nat)
    ensures Low(n) / 8 % BLOCK == n % BLOCK
  {
    var a := 8 * n / WRAP32;
    assert Low(n) == 8 * n - a * WRAP32;
    assert Low(n) / 8 == n - a * 0x2000_0000;
    PlaceMod(n - a * 0x2000_0000, a);
  }

  lemma {:induction false} PlaceMod(b: nat, a: nat)
    ensures (b + a * 0x2000_0000) % BLOCK == b % BLOCK
  {
    if a > 0 {
      PlaceMod(b, a - 1);
      assert b + a * 0x2000_0000 == b + (a - 1) * 0x2000_0000 + BLOCK * 0x80_0000;
    }
  }

  // ---------- The stream ----------

  // After i bytes of the data the buffer is empty and so many whole blocks are in the state.
  ghost predicate AtBlock(state: Regs, msg: seq<byte>, data: seq<byte>, i: nat) {
    && i <= |data| && (|msg| + i) % BLOCK == 0
    && state == Fold(Compress, BLOCK, H0, msg + data[..i]) && Left(BLOCK, msg + data[..i]) == []
  }

  lemma FirstBlock(state: Regs, msg: seq<byte>, data: seq<byte>, i: nat)
    requires state == Fold(Compress, BLOCK, H0, msg) && i <= |data| && |Left(BLOCK, msg)| + i == BLOCK
    ensures AtBlock(Compress(state, Left(BLOCK, msg) + data[..i]), msg, data, i)
  {
    hide Compress, Fold, Left;
    LeftLength(BLOCK, msg);
    Absorbed(Compress, BLOCK, H0, msg, data[..i]);
  }

  lemma NextBlock(state: Regs, msg: seq<byte>, data: seq<byte>, i: nat)
    requires AtBlock(state, msg, data, i) && i + BLOCK <= |data|
    ensures AtBlock(Compress(state, data[i..i + BLOCK]), msg, data, i + BLOCK)
  {
    hide Compress, Fold, Left;
    Absorbed(Compress, BLOCK, H0, msg + data[..i], data[i..i + BLOCK]);
    assert msg + data[..i] + data[i..i + BLOCK] == msg + data[..i + BLOCK];
    assert [] + data[i..i + BLOCK] == data[i..i + BLOCK];
  }

  lemma RestFits(state: Regs, msg: seq<byte>, data: seq<byte>, i: nat)
    requires AtBlock(state, msg, data, i) && |data| < i + BLOCK
    ensures Left(BLOCK, msg + data) == data[i..] && Fold(Compress, BLOCK, H0, msg + data) == state
  {
    hide Compress, Fold, Left;
    Absorbed(Compress, BLOCK, H0, msg + data[..i], data[i..]);
    assert msg + data[..i] + data[i..] == msg + data;
    assert [] + data[i..] == data[i..];
  }

  // Byte k of a word, counted from the low end.
  function Shifted(w: nat, k: nat): byte {
    (if k == 0 then w else if k == 1 then w / 0x100 else if k == 2 then w / 0x1_0000 else w / 0x100_0000) % 0x100
  }

  lemma FourBytes(x: nat)
    ensures ToBytes(x, 4) == [Shifted(x, 3), Shifted(x, 2), Shifted(x, 1), Shifted(x, 0)]
  {
    assert ToBytes(x, 4) == ToBytes(x / 0x100, 3) + [x % 0x100];
    assert ToBytes(x / 0x100, 3) == ToBytes(x / 0x1_0000, 2) + [x / 0x100 % 0x100];
    assert ToBytes(x / 0x1_0000, 2) == ToBytes(x / 0x100_0000, 1) + [x / 0x1_0000 % 0x100];
    assert ToBytes(x / 0x100_0000, 1) == [x / 0x100_0000 % 0x100];
  }

  lemma LowByte(q: nat, a: nat)
    ensures (q * 0x100 + a) % 0x100 == a % 0x100
  {
  }

  lemma ShiftedWrap(x: nat, k: nat)
    ensures Shifted(Wrap32(x), k) == Shifted(x, k)
  {
    var q, r := x / WRAP32, Wrap32(x);
    assert x == q * WRAP32 + r;
    if k == 0 {
      LowByte(q * 0x100_0000, r);
    } else if k == 1 {
      assert x / 0x100 == q * 0x100_0000 + r / 0x100;
      LowByte(q * 0x1_0000, r / 0x100);
    } else if k == 2 {
      assert x / 0x1_0000 == q * 0x1_0000 + r / 0x1_0000;
      LowByte(q * 0x100, r / 0x1_0000);
    } else {
      assert x / 0x100_0000 == q * 0x100 + r / 0x100_0000;
      LowByte(q, r / 0x100_0000);
    }
  }

  lemma EightBytes(x: nat)
    ensures ToBytes(x, 8) == ToBytes(x / WRAP32, 4) + ToBytes(x, 4)
  {
    assert ToBytes(x, 8) == ToBytes(x / 0x100, 7) + [x % 0x100];
    assert ToBytes(x / 0x100, 7) == ToBytes(x / 0x1_0000, 6) + [x / 0x100 % 0x100];
    assert ToBytes(x / 0x1_0000, 6) == ToBytes(x / 0x100_0000, 5) + [x / 0x1_0000 % 0x100];
    assert ToBytes(x / 0x100_0000, 5) == ToBytes(x / WRAP32, 4) + [x / 0x100_0000 % 0x100];
    FourBytes(x);
  }

  /** The two count words, byte by byte, are the 64-bit length that the standard asks for. */
  lemma CountBytes(n: nat, s: seq<byte>)
    requires |s| == 8
    requires forall i :: 0 <= i < 8 ==> s[i] == Shifted(if i < 4 then High(n) else Low(n), 3 - i % 4)
    ensures s == ToBytes(8 * n, 8)
  {
    hide Shifted;
    EightBytes(8 * n);
    FourBytes(8 * n);
    FourBytes(8 * n / WRAP32);
    forall k: nat ensures Shifted(High(n), k) == Shifted(8 * n / WRAP32, k) && Shifted(Low(n), k) == Shifted(8 * n, k) {
      ShiftedWrap(8 * n, k);
      ShiftedWrap(8 * n / WRAP32, k);
    }
    assert s == [s[0], s[1], s[2], s[3]] + [s[4], s[5], s[6], s[7]];
  }

  class Sha1Ctx {
    var state: Regs
    // The number of bits, low word and high word.
    var count0: nat
    var count1: nat
    const buffer: array<byte>
    // What has been hashed so far.
    ghost var msg: seq<byte>

    ghost predicate Valid()
      reads this, buffer
    {
      && buffer.Length == BLOCK && Pending(Left(BLOCK, msg)) && state == Fold(Compress, BLOCK, H0, msg)
      && count0 == Low(|msg|) && count1 == High(|msg|)
    }

    ghost predicate Pending(s: seq<byte>)
      reads buffer
    {
      |s| <= buffer.Length && buffer[..|s|] == s
    }

    constructor ()
      ensures Valid() && msg == [] && fresh(buffer)
    {
      state, count0, count1, msg := H0, 0, 0, [];
      buffer := new byte[BLOCK];
    }

    /** The working copy of the block, the unrolled rounds and the sum. */
    method Transform(block: seq<byte>)
      requires |block| == BLOCK
      modifies this`state
      ensures state == Compress(old(state), block)
    {
      hide Schedule, Rounds, Sum, InCircle;
      var l := LoadWords(block);
      var r := RunRounds(state, l, block);
      state := Sum(state, r);
    }

    static method LoadWords(block: seq<byte>) returns (l: seq<Word>)
      ensures InCircle(l, block, 0)
    {
      l := seq(16, i requires 0 <= i => WordAt(block, i));
    }

    method CopyIn(data: seq<byte>, at: nat)
      requires at + |data| <= buffer.Length
      modifies buffer
      ensures buffer[..at + |data|] == old(buffer[..at]) + data
    {
      forall i | 0 <= i < |data| {
        buffer[at + i] := data[i];
      }
    }

    method Count(len: nat)
      requires len < WRAP32
      modifies this`count0, this`count1
      ensures forall n: nat ::
        old(count0) == Low(n) && old(count1) == High(n) ==> count0 == Low(n + len) && count1 == High(n + len)
    {
      hide Low, High, Wrap32;
      var j := count0;
      count0 := Wrap32(count0 + Wrap32(8 * len));
      var carried := if count0 < j then 1 else 0;
      count1 := Wrap32(count1 + carried);
      count1 := Wrap32(count1 + len / 0x2000_0000);
      forall n: nat | old(count0) == Low(n) && old(count1) == High(n)
        ensures count0 == Low(n + len) && count1 == High(n + len)
      {
        CountAdd(n, len);
      }
    }

    /** Hashes more data, unless the sum of its length and the bytes pending exceeds 32 bits:
        then it wraps, the copy at the end would run past the buffer, and false is returned. */
    method Update(data: seq<byte>) returns (ok: bool)
      requires Valid() && |data| < WRAP32
      modifies this, buffer
      ensures ok <==> |Left(BLOCK, old(msg))| + |data| < WRAP32
      ensures ok ==> Valid() && msg == old(msg) + data
    {
      hide Fold, Left, Compress, Low, High, Wrap32;
      ghost var m := msg;
      var j, i, len := count0, 0, |data|;
      Count(len);
      PlaceIs(|m|);
      LeftLength(BLOCK, m);
      j := j / 8 % BLOCK;
      assert Pending(Left(BLOCK, m));
      SmallWrap(j + len);
      if Wrap32(j + len) > 63 {
        i := WholeBlocks(data, j);
        j := 0;
        RestFits(state, m, data, i);
      } else if j + (len - i) > BLOCK {
        return false;
      } else {
        Absorbed(Compress, BLOCK, H0, m, data);
      }
      CopyIn(data[i..], j);
      msg := msg + data;
      assert buffer[..j + |data[i..]|] == Left(BLOCK, msg);
      ok := true;
    }

    // The pending bytes and the data make at least one block; the data are used up to i.
    method WholeBlocks(data: seq<byte>, j: nat) returns (i: nat)
      requires buffer.Length == BLOCK && Pending(Left(BLOCK, msg)) && state == Fold(Compress, BLOCK, H0, msg)
      requires j == |Left(BLOCK, msg)| && BLOCK <= j + |data| < WRAP32
      modifies this`state, buffer
      ensures AtBlock(state, msg, data, i) && |data| < i + BLOCK
    {
      hide Fold, Left, Compress, Wrap32, AtBlock;
      var len := |data|;
      i := 64 - j;
      FirstBlock(state, msg, data, i);
      assert buffer[..j] == Left(BLOCK, msg);
      CopyIn(data[..i], j);
      assert buffer[..] == buffer[..j + i];
      Transform(buffer[..]);
      LeftLength(BLOCK, msg);
      AtBlockBounds(state, msg, data, i);
      SmallWrap(i + 63);
      while Wrap32(i + 63) < len
        invariant AtBlock(state, msg, data, i) && i <= len && (j + i) % BLOCK == 0
        invariant Wrap32(i + 63) == i + 63
        decreases len - i
      {
        NextBlock(state, msg, data, i);
        Transform(data[i..i + BLOCK]);
        i := i + BLOCK;
        NoWrap(j, i, len);
      }
    }

    // Multiples of 64 below 2^32 leave room for 63 more.
    static lemma NoWrap(j: nat, i: nat, len: nat)
      requires (j + i) % BLOCK == 0 && i <= len && j + len < WRAP32
      ensures Wrap32(i + 63) == i + 63
    {
      var q := (j + i) / BLOCK;
      assert j + i == q * BLOCK;
    }

    static lemma AtBlockBounds(state: Regs, msg: seq<byte>, data: seq<byte>, i: nat)
      requires AtBlock(state, msg, data, i)
      ensures i <= |data|
    {
    }

    method FinalCount() returns (finalcount: seq<byte>)
      requires Valid()
      ensures finalcount == ToBytes(8 * |msg|, 8)
    {
      hide ToBytes, Shifted, Fold, Left;
      finalcount := [];
      var i := 0;
      while i < 8
        invariant i <= 8 && |finalcount| == i
        invariant forall k ::
          0 <= k < i ==> finalcount[k] == Shifted(if k < 4 then High(|msg|) else Low(|msg|), 3 - k % 4)
      {
        finalcount := finalcount + [Shifted(if i >= 4 then count0 else count1, 3 - i % 4)];
        i := i + 1;
      }
      CountBytes(|msg|, finalcount);
    }

    // Short pieces never overrun.
    method Feed(data: seq<byte>)
      requires Valid() && |data| <= 8
      modifies this, buffer
      ensures Valid() && msg == old(msg) + data
    {
      hide Fold, Left, Compress;
      var ok := Update(data);
    }

    // How far the buffer is filled.
    function Place(): nat
      reads this`count0
    {
      count0 / 8 % BLOCK
    }

    lemma PlaceOfMessage()
      requires Valid()
      ensures Place() == |msg| % BLOCK
    {
      hide Fold, Left, Low, High;
      PlaceIs(|msg|);
    }

    /** Pads byte by byte up to the length field; the digest is the standard's (which limits
        messages to 2^64 bits; the field holds the low 64 bits of longer ones). */
    method Final() returns (digest: seq<byte>)
      requires Valid()
      modifies this, buffer
      ensures digest == Hash(old(msg))
    {
      hide Fold, Left, Compress, Valid, Digest, Zeros, ToBytes;
      ghost var m, k := msg, 0;
      var finalcount := FinalCount();
      Feed([0x80]);
      PlaceOfMessage();
      PadIsLeast(|m|, 0);
      assert m + [0x80] + Zeros(0) == m + [0x80];
      while Place() != 56
        invariant Valid() && msg == m + [0x80] + Zeros(k) && k <= PadZeros(|m|) && Place() == |msg| % BLOCK
        decreases PadZeros(|m|) - k
      {
        OneZeroMore(m + [0x80], k);
        Feed([0]);
        k := k + 1;
        PlaceOfMessage();
      }
      PadIsLeast(|m|, k);
      Feed(finalcount);
      digest := DigestOf(m);
    }

    method DigestOf(ghost m: seq<byte>) returns (digest: seq<byte>)
      requires Valid() && msg == Pad(m)
      ensures digest == Hash(m)
    {
      hide Fold, Left, Compress, Digest, Pad;
      digest := Digest(state);
    }

    static lemma SmallWrap(n: nat)
      requires n < 2 * WRAP32
      ensures Wrap32(n) == if n < WRAP32 then n else n - WRAP32
    {
    }
  }

  lemma OneZeroMore(m: seq<byte>, k: nat)
    ensures m + Zeros(k + 1) == m + Zeros(k) + [0]
  {
  }

  /** One pending byte and a piece of 2^32 - 1 bytes are enough for the sum to wrap. */
  lemma OverrunExample(b: byte, data: seq<byte>)
    requires |data| == WRAP32 - 1
    ensures |Left(BLOCK, [b])| + |data| == WRAP32
  {
    LeftLength(BLOCK, [b]);
  }

  /** The wrapper feeds the message a byte at a time. */
  method Sha1(str: seq<byte>) returns (hash_out: seq<byte>)
    ensures hash_out == Hash(str)
  {
    hide Hash;
    var ctx := new Sha1Ctx();
    var ii := 0;
    while ii < |str|
      invariant ii <= |str| && ctx.Valid() && ctx.msg == str[..ii] && fresh(ctx) && fresh(ctx.buffer)
    {
      ctx.Feed([str[ii]]);
      ii := ii + 1;
    }
    assert str[..ii] == str;
    hash_out := ctx.Final();
  }
}
