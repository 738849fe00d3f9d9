/** What the two hash functions share: bytes and numbers, and folding over blocks. */
module BlockHash {
  import opened ByteSeq
  import opened Numbers

  // ---------- Big-endian numbers ----------

  lemma Powers()
    ensures Power(0x100, 4) == 0x1_0000_0000 && Power(0x100, 8) == 0x1_0000_0000_0000_0000
    ensures Power(0x100, 16) == 0x1_0000_0000_0000_0000 * 0x1_0000_0000_0000_0000
  {
    assert Power(0x100, 2) == 0x1_0000;
    assert Power(0x100, 6) == 0x1_0000_0000_0000;
    assert Power(0x100, 10) == 0x1_0000_0000_0000_0000_0000;
    assert Power(0x100, 12) == 0x1_0000_0000_0000_0000_0000_0000;
    assert Power(0x100, 14) == 0x1_0000_0000_0000_0000_0000_0000_0000;
  }

  // The last k bytes of n.
  function ToBytes(n: nat, k: nat): (s: seq<byte>)
    ensures |s| == k
  {
    if k == 0 then [] else ToBytes(n / 0x100, k - 1) + [n % 0x100]
  }

  function FromBytes(s: seq<byte>): (n: nat)
    ensures n < Power(0x100, |s|)
  {
    if s == [] then 0 else 0x100 * FromBytes(s[..|s| - 1]) + s[|s| - 1]
  }

  /** A number that fits is determined by its bytes. */
  lemma {:induction false} ThereAndBack(n: nat, k: nat)
    requires n < Power(0x100, k)
    ensures FromBytes(ToBytes(n, k)) == n
  {
    if k > 0 {
      ThereAndBack(n / 0x100, k - 1);
      assert ToBytes(n, k)[..k - 1] == ToBytes(n / 0x100, k - 1);
    }
  }

  /** The first byte has the highest place: byte i stands for itself times 256 to the power k - 1 - i. */
  lemma {:induction false} ByteOf(n: nat, k: nat, i: nat)
    requires i < k
    ensures ToBytes(n, k)[i] == n / Power(0x100, k - 1 - i) % 0x100
  {
    if i < k - 1 {
      ByteOf(n / 0x100, k - 1, i);
      DividedTwice(n, 0x100, Power(0x100, k - 2 - i));
    }
  }

  /** And the number has these bytes. */
  lemma {:induction false} NumberHas(s: seq<byte>, i: nat)
    requires i < |s|
    ensures FromBytes(s) / Power(0x100, |s| - 1 - i) % 0x100 == s[i]
  {
    var rest, last := s[..|s| - 1], s[|s| - 1];
    Divided(FromBytes(s), 0x100, FromBytes(rest), last);
    if i < |s| - 1 {
      NumberHas(rest, i);
      DividedTwice(FromBytes(s), 0x100, Power(0x100, |s| - 2 - i));
    }
  }

  // A number that fits in fewer bytes starts with zeros.
  lemma {:induction false} LeadingZeros(n: nat, j: nat, k: nat)
    requires n < Power(0x100, k)
    ensures ToBytes(n, j + k) == Zeros(j) + ToBytes(n, k)
  {
    if k > 0 {
      LeadingZeros(n / 0x100, j, k - 1);
    } else if j > 0 {
      LeadingZeros(0, j - 1, 0);
      assert Zeros(j) == Zeros(j - 1) + [0];
    }
  }

  lemma {:induction false} ZerosAreNothing(j: nat, s: seq<byte>)
    ensures FromBytes(Zeros(j) + s) == FromBytes(s)
  {
    var z := Zeros(j) + s;
    if s != [] {
      assert z[..|z| - 1] == Zeros(j) + s[..|s| - 1];
      ZerosAreNothing(j, s[..|s| - 1]);
    } else if j > 0 {
      assert z[..|z| - 1] == Zeros(j - 1) + s;
      ZerosAreNothing(j - 1, s);
    }
  }

  // ---------- Pieces of equal length ----------

  function Concat(parts: seq<seq<byte>>): seq<byte> {
    if parts == [] then [] else Concat(parts[..|parts| - 1]) + parts[|parts| - 1]
  }

  lemma {:induction false} PieceOf(parts: seq<seq<byte>>, size: nat, i: nat)
    requires i < |parts| && forall j :: 0 <= j < |parts| ==> |parts[j]| == size
    ensures |Concat(parts)| == |parts| * size && i * size + size <= |parts| * size
    ensures Concat(parts)[i * size..i * size + size] == parts[i]
  {
    var rest, n := parts[..|parts| - 1], |parts| - 1;
    ConcatLength(rest, size);
    TimesMore(i, |parts|, size);
    assert |parts| * size == n * size + size;
    if i < n {
      PieceOf(rest, size, i);
      assert Concat(parts)[i * size..i * size + size] == Concat(rest)[i * size..i * size + size];
    }
  }

  lemma {:induction false} ConcatLength(parts: seq<seq<byte>>, size: nat)
    requires forall j :: 0 <= j < |parts| ==> |parts[j]| == size
    ensures |Concat(parts)| == |parts| * size
  {
    if parts != [] {
      ConcatLength(parts[..|parts| - 1], size);
      assert |parts| * size == (|parts| - 1) * size + size;
    }
  }

  // ---------- Blocks ----------

  // Sixteen places in a row are different places of a circle of sixteen.
  lemma DifferentPlaces(j: nat, t: nat)
    requires t - 15 <= j <= t
    ensures j % 16 == t % 16 <==> j == t
  {
  }

  /** The fold of a compression function over the whole blocks of the data. */
  function Fold<H>(f: (H, seq<byte>) -> H, size: nat, h: H, data: seq<byte>): H
    requires 0 < size
    decreases |data|
  {
    if |data| < size then h else Fold(f, size, f(h, data[..size]), data[size..])
  }

  // What is left over.
  function Left(size: nat, data: seq<byte>): (s: seq<byte>)
    requires 0 < size
    ensures |s| < size
    decreases |data|
  {
    if |data| < size then data else Left(size, data[size..])
  }

  lemma {:induction false} LeftLength(size: nat, data: seq<byte>)
    requires 0 < size
    ensures |Left(size, data)| == |data| % size
    decreases |data|
  {
    if |data| >= size {
      LeftLength(size, data[size..]);
      Multiples(size, 1, |data| - size);
    }
  }

  /** Data may come in pieces: the fold of the first is carried on with what it left over. */
  lemma {:induction false} FoldSplit<H>(f: (H, seq<byte>) -> H, size: nat, h: H, data: seq<byte>, more: seq<byte>)
    requires 0 < size
    ensures Fold(f, size, h, data + more) == Fold(f, size, Fold(f, size, h, data), Left(size, data) + more)
    ensures Left(size, data + more) == Left(size, Left(size, data) + more)
    decreases |data|
  {
    if |data| >= size {
      FoldSplit(f, size, f(h, data[..size]), data[size..], more);
      assert (data + more)[..size] == data[..size] && (data + more)[size..] == data[size..] + more;
    }
  }

  lemma FoldOne<H>(f: (H, seq<byte>) -> H, size: nat, h: H, block: seq<byte>)
    requires 0 < size && |block| == size
    ensures Fold(f, size, h, block) == f(h, block) && Left(size, block) == []
  {
    assert block[..size] == block && block[size..] == [];
  }

  /** A chunk that fits either waits with what was left over, or completes a block. */
  lemma Absorbed<H>(f: (H, seq<byte>) -> H, size: nat, h0: H, msg: seq<byte>, chunk: seq<byte>)
    requires 0 < size && |Left(size, msg)| + |chunk| <= size
    ensures var b, h := Left(size, msg) + chunk, Fold(f, size, h0, msg);
      if |b| < size then Left(size, msg + chunk) == b && Fold(f, size, h0, msg + chunk) == h
      else Left(size, msg + chunk) == [] && Fold(f, size, h0, msg + chunk) == f(h, b)
  {
    FoldSplit(f, size, h0, msg, chunk);
    var b := Left(size, msg) + chunk;
    if |b| == size {
      FoldOne(f, size, Fold(f, size, h0, msg), b);
    }
  }
}
