/** SHA-512 as a stream of bytes through one block buffer, against the definition in
    sections 4.1.3, 5.1.2 and 6.4.2 of FIPS 180-4. */
module Sha512 {
  import opened BlockHash
  import opened ByteSeq
  import opened Numbers

  type Word = bv64

  const BLOCK: nat := 128

  // ---------- The standard ----------

  function Ror(x: Word, n: nat): Word
    requires 0 < n < 64
  {
    (x >> n) | (x << (64 - n))
  }

  function Ch(x: Word, y: Word, z: Word): Word { (x & y) ^ (!x & z) }
  function Maj(x: Word, y: Word, z: Word): Word { (x & y) ^ (x & z) ^ (y & z) }
  function BigSigma0(x: Word): Word { Ror(x, 28) ^ Ror(x, 34) ^ Ror(x, 39) }
  function BigSigma1(x: Word): Word { Ror(x, 14) ^ Ror(x, 18) ^ Ror(x, 41) }
  function SmallSigma0(x: Word): Word { Ror(x, 1) ^ Ror(x, 8) ^ (x >> 7) }
  function SmallSigma1(x: Word): Word { Ror(x, 19) ^ Ror(x, 61) ^ (x >> 6) }

  const K: seq<Word> := [
    0x428A2F98D728AE22, 0x7137449123EF65CD, 0xB5C0FBCFEC4D3B2F, 0xE9B5DBA58189DBBC,
    0x3956C25BF348B538, 0x59F111F1B605D019, 0x923F82A4AF194F9B, 0xAB1C5ED5DA6D8118,
    0xD807AA98A3030242, 0x12835B0145706FBE, 0x243185BE4EE4B28C, 0x550C7DC3D5FFB4E2,
    0x72BE5D74F27B896F, 0x80DEB1FE3B1696B1, 0x9BDC06A725C71235, 0xC19BF174CF692694,
    0xE49B69C19EF14AD2, 0xEFBE4786384F25E3, 0x0FC19DC68B8CD5B5, 0x240CA1CC77AC9C65,
    0x2DE92C6F592B0275, 0x4A7484AA6EA6E483, 0x5CB0A9DCBD41FBD4, 0x76F988DA831153B5,
    0x983E5152EE66DFAB, 0xA831C66D2DB43210, 0xB00327C898FB213F, 0xBF597FC7BEEF0EE4,
    0xC6E00BF33DA88FC2, 0xD5A79147930AA725, 0x06CA6351E003826F, 0x142929670A0E6E70,
    0x27B70A8546D22FFC, 0x2E1B21385C26C926, 0x4D2C6DFC5AC42AED, 0x53380D139D95B3DF,
    0x650A73548BAF63DE, 0x766A0ABB3C77B2A8, 0x81C2C92E47EDAEE6, 0x92722C851482353B,
    0xA2BFE8A14CF10364, 0xA81A664BBC423001, 0xC24B8B70D0F89791, 0xC76C51A30654BE30,
    0xD192E819D6EF5218, 0xD69906245565A910, 0xF40E35855771202A, 0x106AA07032BBD1B8,
    0x19A4C116B8D2D0C8, 0x1E376C085141AB53, 0x2748774CDF8EEB99, 0x34B0BCB5E19B48A8,
    0x391C0CB3C5C95A63, 0x4ED8AA4AE3418ACB, 0x5B9CCA4F7763E373, 0x682E6FF3D6B2B8A3,
    0x748F82EE5DEFB2FC, 0x78A5636F43172F60, 0x84C87814A1F0AB72, 0x8CC702081A6439EC,
    0x90BEFFFA23631E28, 0xA4506CEBDE82BDE9, 0xBEF9A3F7B2C67915, 0xC67178F2E372532B,
    0xCA273ECEEA26619C, 0xD186B8C721C0C207, 0xEADA7DD6CDE0EB1E, 0xF57D4F7FEE6ED178,
    0x06F067AA72176FBA, 0x0A637DC5A2C898A6, 0x113F9804BEF90DAE, 0x1B710B35131C471B,
    0x28DB77F523047D84, 0x32CAAB7B40C72493, 0x3C9EBE0A15C9BEBC, 0x431D67C49C100D4C,
    0x4CC5D4BECB3E42B6, 0x597F299CFC657E2A, 0x5FCB6FAB3AD6FAEC, 0x6C44198C4A475817]

  // Addition modulo 2^64.
  function Plus(x: Word, y: Word): Word { x + y }

  // Eight words: a hash value, or the working variables.
  datatype Regs = Regs(a: Word, b: Word, c: Word, d: Word, e: Word, f: Word, g: Word, h: Word)

  const H0: Regs := Regs(0x6A09E667F3BCC908, 0xBB67AE8584CAA73B, 0x3C6EF372FE94F82B, 0xA54FF53A5F1D36F1,
                         0x510E527FADE682D1, 0x9B05688C2B3E6C1F, 0x1F83D9ABFB41BD6B, 0x5BE0CD19137E2179)

  function WordAt(block: seq<byte>, i: nat): Word {
    if 8 * i + 8 <= |block| then
      Powers();
      FromBytes(block[8 * i..8 * i + 8]) as Word
    else 0
  }

  // The next word of the schedule from those 16, 15, 7 and 2 places back.
  function NextWord(w16: Word, w15: Word, w7: Word, w2: Word): Word {
    Plus(Plus(Plus(SmallSigma1(w2), w7), SmallSigma0(w15)), w16)
  }

  // The first n words of the message schedule.
  function Schedule(block: seq<byte>, n: nat): (w: seq<Word>)
    ensures |w| == n
  {
    if n == 0 then []
    else
      var w := Schedule(block, n - 1);
      var t := n - 1;
      w + [if t < 16 then WordAt(block, t)
           else NextWord(w[t - 16], w[t - 15], w[t - 7], w[t - 2])]
  }

  function Round(r: Regs, k: Word, w: Word): Regs {
    var t1 := Plus(Plus(Plus(Plus(r.h, BigSigma1(r.e)), Ch(r.e, r.f, r.g)), k), w);
    var t2 := Plus(BigSigma0(r.a), Maj(r.a, r.b, r.c));
    Regs(Plus(t1, t2), r.a, r.b, r.c, Plus(r.d, t1), r.e, r.f, r.g)
  }

  function Rounds(r: Regs, w: seq<Word>, n: nat): Regs
    requires n <= |w| && n <= |K|
  {
    if n == 0 then r else Round(Rounds(r, w, n - 1), K[n - 1], w[n - 1])
  }

  function Sum(x: Regs, y: Regs): Regs {
    Regs(Plus(x.a, y.a), Plus(x.b, y.b), Plus(x.c, y.c), Plus(x.d, y.d),
         Plus(x.e, y.e), Plus(x.f, y.f), Plus(x.g, y.g), Plus(x.h, y.h))
  }

  function Compress(h: Regs, block: seq<byte>): Regs {
    Sum(h, Rounds(h, Schedule(block, 80), 80))
  }

  // How many zero bytes follow the one bit's byte.
  function PadZeros(n: nat): nat { (239 - n % BLOCK) % BLOCK }

  /** It is the least number that leaves just the 16 bytes of the length. */
  lemma PadIsLeast(n: nat, z: nat)
    ensures (n + 1 + PadZeros(n)) % BLOCK == 112
    ensures (n + 1 + z) % BLOCK == 112 ==> PadZeros(n) <= z
  {
  }

  function Pad(msg: seq<byte>): seq<byte> {
    msg + [0x80] + Zeros(PadZeros(|msg|)) + ToBytes(8 * |msg|, 16)
  }

  function WordBytes(w: Word): (s: seq<byte>)
    ensures |s| == 8
  {
    ToBytes(w as nat, 8)
  }

  function Words(h: Regs): (w: seq<Word>)
    ensures |w| == 8
  {
    [h.a, h.b, h.c, h.d, h.e, h.f, h.g, h.h]
  }

  function Digest(h: Regs): (s: seq<byte>)
    ensures |s| == 64
  {
    var parts := seq(8, i requires 0 <= i < 8 => WordBytes(Words(h)[i]));
    ConcatLength(parts, 8);
    Concat(parts)
  }

  /** Read big-endian, each eight bytes of the digest are that word of the hash value. */
  lemma DigestWords(h: Regs, i: nat)
    requires i < 8
    ensures FromBytes(Digest(h)[i * 8..i * 8 + 8]) == [h.a, h.b, h.c, h.d, h.e, h.f, h.g, h.h][i] as nat
  {
    hide ToBytes, FromBytes, Concat;
    PieceOf(seq(8, i requires 0 <= i < 8 => WordBytes(Words(h)[i])), 8, i);
    Powers();
    ThereAndBack(Words(h)[i] as nat, 8);
  }

  function Hash(msg: seq<byte>): seq<byte> {
    Digest(Fold(Compress, BLOCK, H0, Pad(msg)))
  }

  // The program has "or" for the standard's "exclusive or".
  function ChOr(x: Word, y: Word, z: Word): Word { (x & y) | (!x & z) }
  function MajOr(x: Word, y: Word, z: Word): Word { (x & y) | (x & z) | (y & z) }

  lemma ChBits(x: Word, y: Word, z: Word)
    ensures (x & y) | (!x & z) == (x & y) ^ (!x & z)
  {
  }

  lemma MajBits(x: Word, y: Word, z: Word)
    ensures (x & y) | (x & z) | (y & z) == (x & y) ^ (x & z) ^ (y & z)
  {
  }

  /** They are the same functions. */
  lemma SameForms(x: Word, y: Word, z: Word)
    ensures ChOr(x, y, z) == Ch(x, y, z) && MajOr(x, y, z) == Maj(x, y, z)
  {
    ChBits(x, y, z);
    MajBits(x, y, z);
  }

  // The program adds three of the words to the fourth.
  function AddedInPlace(w16: Word, w15: Word, w7: Word, w2: Word): (r: Word)
    ensures r == NextWord(w16, w15, w7, w2)
  {
    hide SmallSigma0, SmallSigma1;
    Plus(w16, Plus(Plus(SmallSigma1(w2), w7), SmallSigma0(w15)))
  }

  // ---------- The program ----------

  lemma {:induction false} SchedulePrefix(block: seq<byte>, m: nat, n: nat)
    requires m <= n
    ensures Schedule(block, n)[..m] == Schedule(block, m)
    decreases n
  {
    if m < n {
      SchedulePrefix(block, m, n - 1);
    }
  }

  // The sixteen words in the circle after step t are the last sixteen of the schedule.
  ghost predicate InCircle(w: seq<Word>, block: seq<byte>, t: nat) {
    |w| == 16 && t <= 80 && forall j :: 0 <= j < t && t - 16 <= j ==> w[j % 16] == Schedule(block, 80)[j]
  }

  lemma ScheduleStep(block: seq<byte>, t: nat)
    requires t < 80
    ensures var s := Schedule(block, 80);
      s[t] == if t < 16 then WordAt(block, t) else NextWord(s[t - 16], s[t - 15], s[t - 7], s[t - 2])
  {
    hide NextWord, WordAt;
    SchedulePrefix(block, t + 1, 80);
    SchedulePrefix(block, t, 80);
    var s := Schedule(block, 80);
    assert s[t] == s[..t + 1][t] == Schedule(block, t + 1)[t];
    assert s[..t] == Schedule(block, t);
  }

  // One step in the circle; the other fifteen words stay.
  lemma CircleStep(w: seq<Word>, block: seq<byte>, t: nat)
    requires |w| == 16 && InCircle(w, block, t) && 16 <= t < 80
    ensures var x := NextWord(w[t % 16], w[(t + 1) % 16], w[(t + 9) % 16], w[(t + 14) % 16]);
      x == Schedule(block, 80)[t] && InCircle(w[t % 16 := x], block, t + 1) && Loaded(w[t % 16 := x], block, t + 1)
  {
    hide NextWord, Schedule;
    var s := Schedule(block, 80);
    ScheduleStep(block, t);
    assert (t + 16 - 2) % 16 == (t - 2) % 16 && (t + 16 - 7) % 16 == (t - 7) % 16;
    assert (t + 16 - 15) % 16 == (t - 15) % 16;
    assert w[(t - 2) % 16] == s[t - 2] && w[(t - 7) % 16] == s[t - 7];
    assert w[(t - 15) % 16] == s[t - 15] && w[(t - 16) % 16] == s[t - 16];
    var w' := w[t % 16 := s[t]];
    forall j | 0 <= j < t + 1 && t - 15 <= j ensures w'[j % 16] == s[j] {
      DifferentPlaces(j, t);
    }
  }

  // What the program pads with: the length modulo 2^64, in the last 8 of the 16 bytes.
  function ProgramPad(msg: seq<byte>): seq<byte> {
    msg + ([0x80] + Zeros(PadZeros(|msg|))) + LengthField(Wrap(8 * |msg|))
  }

  function LengthField(bits: nat): (s: seq<byte>)
    ensures |s| == 16
  {
    Zeros(8) + ToBytes(bits, 8)
  }

  // 64-bit arithmetic.
  function Wrap(n: nat): nat { n % WORD }

  lemma Parts(n: nat)
    ensures n == n / WORD * WORD + Wrap(n)
  {
  }

  lemma WrapAdd(n: nat, k: nat)
    ensures Wrap(Wrap(n) + k) == Wrap(n + k)
  {
    Parts(n);
    Multiples(WORD, n / WORD, Wrap(n) + k);
  }

  lemma BitCount(n: nat)
    ensures Wrap(Wrap(n) * 8) == Wrap(8 * n)
  {
    Parts(n);
    var q := n / WORD;
    Multiples(WORD, 8 * q, Wrap(n) * 8);
    assert 8 * n == 8 * q * WORD + Wrap(n) * 8;
  }

  lemma SamePrefix(pre: seq<byte>, x: seq<byte>, y: seq<byte>)
    ensures pre + x == pre + y <==> x == y
  {
    assert (pre + x)[|pre|..] == x && (pre + y)[|pre|..] == y;
  }

  lemma LengthFields(n: nat)
    requires n < WORD * WORD
    ensures Zeros(8) + ToBytes(n % WORD, 8) == ToBytes(n, 16) <==> n < WORD
  {
    hide ToBytes, FromBytes, Zeros;
    Powers();
    if n < WORD {
      LeadingZeros(n, 8, 8);
    } else {
      ThereAndBack(n, 16);
      ZerosAreNothing(8, ToBytes(n % WORD, 8));
    }
  }

  /** The padding is the standard's exactly for messages under 2^64 bits (the standard's own
      limit is 2^128). */
  lemma PadsAgree(msg: seq<byte>)
    requires 8 * |msg| < WORD * WORD
    ensures ProgramPad(msg) == Pad(msg) <==> 8 * |msg| < WORD
  {
    hide ToBytes;
    var n, pre := 8 * |msg|, msg + [0x80] + Zeros(PadZeros(|msg|));
    assert ProgramPad(msg) == pre + LengthField(n % WORD);
    SamePrefix(pre, LengthField(n % WORD), ToBytes(n, 16));
    LengthFields(n);
  }

  // The last block: what the padding leaves over, and the length.
  lemma LastBlock(m: seq<byte>, field: seq<byte>)
    requires |field| == 16
    ensures var padded := m + ([0x80] + Zeros(PadZeros(|m|)));
      && |Left(BLOCK, padded)| == 112
      && Fold(Compress, BLOCK, H0, padded + field)
         == Compress(Fold(Compress, BLOCK, H0, padded), Left(BLOCK, padded) + field)
  {
    hide Fold, Left, Compress, Zeros;
    var padded := m + ([0x80] + Zeros(PadZeros(|m|)));
    LeftLength(BLOCK, padded);
    PadIsLeast(|m|, 0);
    assert |padded| == |m| + 1 + PadZeros(|m|);
    Absorbed(Compress, BLOCK, H0, padded, field);
  }

  function Min(x: nat, y: nat): nat { if x < y then x else y }

  // The byte of a word in the host's order.
  function HostByte(w: Word, i: nat): byte { w as nat / Power(0x100, i) % 0x100 }

  // The first sixteen words are in their places from the start.
  ghost predicate Loaded(w: seq<Word>, block: seq<byte>, t: nat) {
    |w| == 16 && forall j :: t <= j < 16 ==> w[j] == WordAt(block, j)
  }

  lemma CircleEmpty(w: seq<Word>, block: seq<byte>)
    requires Loaded(w, block, 0)
    ensures |w| == 16 && InCircle(w, block, 0)
  {
  }

  lemma CircleStart(w: seq<Word>, block: seq<byte>, t: nat)
    requires |w| == 16 && InCircle(w, block, t) && Loaded(w, block, t) && t < 16
    ensures w[t] == Schedule(block, 80)[t] && InCircle(w, block, t + 1) && Loaded(w, block, t + 1)
  {
    hide Schedule, WordAt;
    ScheduleStep(block, t);
  }

  // The eight working registers move along by one.
  method Step(r: Regs, k: Word, w: Word) returns (r': Regs)
    ensures r' == Round(r, k, w)
  {
    hide Ch, Maj, ChOr, MajOr, BigSigma0, BigSigma1, Plus;
    SameForms(r.e, r.f, r.g);
    SameForms(r.a, r.b, r.c);
    var a, b, c, d, e, f, g, h := r.a, r.b, r.c, r.d, r.e, r.f, r.g, r.h;
    var temp1 := Plus(Plus(Plus(Plus(h, BigSigma1(e)), ChOr(e, f, g)), k), w);
    var temp2 := Plus(BigSigma0(a), MajOr(a, b, c));
    h := g;
    g := f;
    f := e;
    e := Plus(d, temp1);
    d := c;
    c := b;
    b := a;
    a := Plus(temp1, temp2);
    r' := Regs(a, b, c, d, e, f, g, h);
  }

  // The 80 rounds, with the schedule made in the circle of sixteen words as they need it.
  method RunRounds(r0: Regs, w0: seq<Word>, ghost block: seq<byte>) returns (r: Regs, w: seq<Word>)
    requires Loaded(w0, block, 0)
    ensures r == Rounds(r0, Schedule(block, 80), 80) && |w| == 16
  {
    hide NextWord, WordAt, Schedule, Round, K, InCircle, Loaded;
    KLength();
    r, w := r0, w0;
    var t := 0;
    CircleEmpty(w, block);
    while t < 80
      invariant t <= 80 && |w| == 16 && InCircle(w, block, t) && Loaded(w, block, t)
      invariant r == Rounds(r0, Schedule(block, 80), t)
    {
      if t < 16 {
        CircleStart(w, block, t);
      } else {
        CircleStep(w, block, t);
        w := w[t % 16 := AddedInPlace(w[t % 16], w[(t + 1) % 16], w[(t + 9) % 16], w[(t + 14) % 16])];
      }
      r := Step(r, K[t], w[t % 16]);
      t := t + 1;
    }
  }

  class Sha512Context {
    var h: Regs
    // Shares its memory with the sixteen words of the schedule.
    const buffer: array<byte>
    var size: nat
    var totalSize: nat
    // What has been hashed so far.
    ghost var msg: seq<byte>

    ghost predicate Valid()
      reads this, buffer
    {
      && buffer.Length == BLOCK && size < BLOCK
      && buffer[..size] == Left(BLOCK, msg) && h == Fold(Compress, BLOCK, H0, msg) && totalSize == Wrap(|msg|)
    }

    constructor ()
      ensures Valid() && msg == [] && fresh(buffer)
    {
      h, size, totalSize, msg := H0, 0, 0, [];
      buffer := new byte[BLOCK];
    }

    /** The in-place schedule and the 80 rounds compute the standard's compression function.
        The block is overwritten with the last words of the schedule. */
    method ProcessBlock()
      requires buffer.Length == BLOCK
      modifies this`h, buffer
      ensures h == Compress(old(h), old(buffer[..]))
    {
      hide Schedule, Rounds, Sum;
      var w := LoadWords();
      var r: Regs;
      r, w := RunRounds(h, w, buffer[..]);
      h := Sum(h, r);
      LeaveWords(w);
    }

    // Each word of the block, converted to the host's order.
    method LoadWords() returns (w: seq<Word>)
      requires buffer.Length == BLOCK
      ensures Loaded(w, buffer[..], 0)
    {
      w := seq(16, _ => 0);
      var t := 0;
      while t < 16
        invariant t <= 16 && |w| == 16 && forall j :: 0 <= j < t ==> w[j] == WordAt(buffer[..], j)
      {
        w := w[t := WordAt(buffer[..], t)];
        t := t + 1;
      }
    }

    method LeaveWords(w: seq<Word>)
      requires buffer.Length == BLOCK && |w| == 16
      modifies buffer
    {
      forall i | 0 <= i < BLOCK {
        buffer[i] := HostByte(w[i / 8], i % 8);
      }
    }

    method CopyIn(data: seq<byte>, at: nat)
      requires at + |data| <= buffer.Length
      modifies buffer
      ensures buffer[..at + |data|] == old(buffer[..at]) + data
    {
      forall i | 0 <= i < |data| {
        buffer[at + i] := data[i];
      }
    }

    // A chunk that the buffer has room for.
    method Absorb(chunk: seq<byte>)
      requires Valid() && size + |chunk| <= BLOCK
      modifies this, buffer
      ensures Valid() && msg == old(msg) + chunk
    {
      hide Fold, Left, Compress, Wrap;
      Absorbed(Compress, BLOCK, H0, msg, chunk);
      WrapAdd(|msg|, |chunk|);
      ghost var b := Left(BLOCK, msg) + chunk;
      CopyIn(chunk, size);
      size := size + |chunk|;
      totalSize := Wrap(totalSize + |chunk|);
      msg := msg + chunk;
      assert buffer[..size] == b;
      if size == BLOCK {
        assert buffer[..] == b;
        ProcessBlock();
        size := 0;
        assert buffer[..size] == Left(BLOCK, msg);
      }
    }

    /** However the message is cut up, the context stands for the whole of it. */
    method Update(data: seq<byte>)
      requires Valid()
      modifies this, buffer
      ensures Valid() && msg == old(msg) + data
    {
      hide Valid;
      var rest := data;
      assert old(msg) + [] == old(msg);
      while rest != []
        invariant Valid() && |rest| <= |data| && rest == data[|data| - |rest|..]
        invariant msg == old(msg) + data[..|data| - |rest|]
        decreases |rest|
      {
        SizeBelow();
        var n := Min(|rest|, BLOCK - size);
        Absorb(rest[..n]);
        assert data[..|data| - |rest|] + rest[..n] == data[..|data| - |rest| + n];
        rest := rest[n..];
      }
      assert data[..|data|] == data;
    }

    /** The digest of all that was hashed; the standard's, for messages under 2^64 bits. */
    method Final() returns (digest: seq<byte>)
      requires Valid()
      modifies this, buffer
      ensures digest == Digest(Fold(Compress, BLOCK, H0, ProgramPad(old(msg))))
      ensures 8 * |old(msg)| < WORD ==> digest == Hash(old(msg))
    {
      hide Fold, Left, Compress, Digest, LengthField, Pad, Zeros, Wrap;
      ghost var m := msg;
      BitCount(|m|);
      var totalBits := Wrap(totalSize * 8);
      var paddingSize := PaddingSize();
      Update([0x80] + Zeros(paddingSize - 1));
      LastBlock(m, LengthField(totalBits));
      AppendLength(LengthField(totalBits));
      digest := Digest(h);
      if 8 * |m| < WORD {
        PadsAgree(m);
      }
    }

    // Up to byte 112 of this block or of the next.
    method PaddingSize() returns (n: nat)
      requires Valid()
      ensures n == PadZeros(|msg|) + 1
    {
      hide Fold, Left, Compress;
      LeftLength(BLOCK, msg);
      n := if size < 112 then 112 - size else BLOCK + 112 - size;
    }

    // The two last words of the block are set, and it is processed.
    method AppendLength(field: seq<byte>)
      requires Valid() && size == 112 && |field| == 16
      modifies this`h, buffer
      ensures h == Compress(old(h), Left(BLOCK, old(msg)) + field)
    {
      hide Fold, Left, Compress;
      CopyIn(field, 112);
      assert buffer[..] == buffer[..112 + 16];
      ProcessBlock();
    }

    lemma SizeBelow()
      requires Valid()
      ensures size < BLOCK
    {
    }
  }

  lemma KLength()
    ensures |K| == 80
  {
  }

  /** The whole message at once. */
  method Sha512Hash(data: seq<byte>) returns (digest: seq<byte>)
    ensures 8 * |data| < WORD ==> digest == Hash(data)
  {
    hide Hash, Digest, Fold, ProgramPad;
    var context := new Sha512Context();
    context.Update(data);
    assert [] + data == data;
    digest := context.Final();
  }
}
