/** The stream cipher of the channel: a permutation that changes with every byte. */
module MamboCipher {
  import opened Bits
  import opened ByteSeq
  import opened Numbers
  import opened Wrappers

  const STATE_LEN: nat := 256
  const KEY_LEN: nat := 16

  datatype Cipher = Cipher(buf: seq<byte>, ctr: byte, last: byte)

  function XorByte(x: byte, y: byte): (r: byte)
  {
    assert Power(2, 8) == 0x100 by { EightBits(0); PowerZero(); }
    XorFits(x, y, 8);
    Xor(x, y)
  }

  function Add(x: byte, y: int): byte { (x + y) % 0x100 }

  function Swapped(buf: seq<byte>, i: byte, j: byte): (r: seq<byte>)
    requires |buf| == STATE_LEN
    ensures |r| == STATE_LEN
  {
    buf[i := buf[j]][j := buf[i]]
  }

  // The next byte of the key stream, and the state after it.
  function Next(c: Cipher): (r: (byte, Cipher))
    requires |c.buf| == STATE_LEN
    ensures |r.1.buf| == STATE_LEN
  {
    var ret := XorByte(Add(c.buf[c.ctr], c.buf[c.last]), c.buf[XorByte(c.last, c.ctr)]);
    var ctr, last := Add(c.ctr, 1), c.buf[ret];
    (ret, Cipher(Swapped(c.buf, ctr, last), ctr, last))
  }

  // Two entries have changed places, and the others are as they were.
  ghost predicate Exchanged(buf: seq<byte>, buf': seq<byte>, i: byte, j: byte) {
    && |buf| == |buf'| == STATE_LEN && buf'[i] == buf[j] && buf'[j] == buf[i]
    && forall k :: 0 <= k < STATE_LEN && k != i && k != j ==> buf'[k] == buf[k]
  }

  // One byte as the generator makes it: the key byte, with the entry at last ^ ctr taken off, is the
  // sum of the entries at ctr and last; ctr moves on by one, last becomes the entry at the key
  // byte, and the entries at both new places are exchanged.
  ghost predicate StepsBy(c: Cipher, key: byte, c': Cipher) {
    && |c.buf| == |c'.buf| == STATE_LEN
    && XorByte(key, c.buf[XorByte(c.last, c.ctr)]) == (c.buf[c.ctr] as int + c.buf[c.last] as int) % 0x100
    && c'.ctr == (c.ctr + 1) % 0x100 && c'.last == c.buf[key]
    && Exchanged(c.buf, c'.buf, c'.ctr, c'.last)
  }

  // A run of the generator, a state after every byte.
  ghost predicate Generates(states: seq<Cipher>, keys: seq<byte>) {
    |states| == |keys| + 1 && forall i :: 0 <= i < |keys| ==> StepsBy(states[i], keys[i], states[i + 1])
  }

  /** Every bit of the result is set exactly when one of the two bytes has it set. */
  lemma XorByteBit(x: byte, y: byte, j: nat)
    ensures XorByte(x, y) / Power(2, j) % 2 == (x / Power(2, j) % 2 + y / Power(2, j) % 2) % 2
  {
    XorBit(x, y, j);
  }

  // Enciphering, and just as well deciphering, a message.
  function Crypt(c: Cipher, data: seq<byte>): (r: (seq<byte>, Cipher))
    requires |c.buf| == STATE_LEN
    ensures |r.0| == |data| && |r.1.buf| == STATE_LEN
  {
    if data == [] then ([], c)
    else
      var n := |data| - 1;
      var before := Crypt(c, data[..n]);
      var (key, after) := Next(before.1);
      (before.0 + [XorByte(data[n], key)], after)
  }

  function Identity(n: nat): (s: seq<byte>)
    requires n <= STATE_LEN
    ensures |s| == n
  {
    seq(n, i requires 0 <= i < n => i)
  }

  /** The state holds each of 0..255 once. */
  ghost predicate Permutation(buf: seq<byte>) {
    multiset(buf) == multiset(Identity(STATE_LEN))
  }

  // ---------- Keys ----------

  function MixedKey(key: seq<byte>, server: byte): (r: seq<byte>)
    requires |key| == KEY_LEN
    ensures |r| == KEY_LEN
  {
    seq(KEY_LEN, i requires 0 <= i < KEY_LEN => Add(Add(key[i], i * 101), server))
  }

  // The state after n swaps of the key schedule.
  function Shuffled(key: seq<byte>, n: nat): (buf: seq<byte>)
    requires |key| == KEY_LEN
    ensures |buf| == STATE_LEN
  {
    if n == 0 then Identity(STATE_LEN)
    else Swapped(Shuffled(key, n - 1), (n - 1) % STATE_LEN, (n - 1 + key[(n - 1) % KEY_LEN]) % 0x100)
  }

  // The state that a key gives; the counter is left as it was.
  function Keyed(key: seq<byte>, server: byte, ctr: byte): (c: Cipher)
    requires |key| == KEY_LEN
    ensures |c.buf| == STATE_LEN
  {
    var buf := Shuffled(MixedKey(key, server), STATE_LEN * 20);
    Cipher(buf, ctr, buf[buf[buf[1]]])
  }

  // The key schedule: from 0..255 in order, entry i mod 256 changes places, 20 times round, with the
  // entry that i and the key bytes, each mixed with its place and the side, add up to.
  ghost predicate Schedules(bufs: seq<seq<byte>>, key: seq<byte>, server: byte) {
    && |key| == KEY_LEN && |bufs| == 20 * STATE_LEN + 1 && |bufs[0]| == STATE_LEN
    && (forall i :: 0 <= i < STATE_LEN ==> bufs[0][i] == i)
    && forall i :: 0 <= i < 20 * STATE_LEN ==>
      Exchanged(bufs[i], bufs[i + 1], i % STATE_LEN, Partner(key, server, i))
  }

  function Partner(key: seq<byte>, server: byte, i: nat): byte
    requires |key| == KEY_LEN
  {
    var k := i % KEY_LEN;
    (i + (key[k] as int + k * 101 + server as int) % 0x100) % 0x100
  }

  ghost function Schedule(key: seq<byte>, server: byte): (bufs: seq<seq<byte>>)
    requires |key| == KEY_LEN
    ensures |bufs| == 20 * STATE_LEN + 1
  {
    seq(20 * STATE_LEN + 1, i requires 0 <= i <= 20 * STATE_LEN => Shuffled(MixedKey(key, server), i))
  }

  /** The state that a key gives is the last of its schedule. */
  lemma KeySchedule(key: seq<byte>, server: byte, ctr: byte)
    requires |key| == KEY_LEN
    ensures var c, bufs := Keyed(key, server, ctr), Schedule(key, server);
      && Schedules(bufs, key, server) && bufs[20 * STATE_LEN] == c.buf
      && c.ctr == ctr && c.last == c.buf[c.buf[c.buf[1]]]
  {
    hide Shuffled, Exchanged;
    var bufs, mixed := Schedule(key, server), MixedKey(key, server);
    ShuffleNothing(mixed);
    forall i | 0 <= i < 20 * STATE_LEN
      ensures Exchanged(bufs[i], bufs[i + 1], i % STATE_LEN, Partner(key, server, i))
    {
      ShuffleStep(mixed, i);
      MixedAt(key, server, i);
      SwapExchanges(bufs[i], i % STATE_LEN, Partner(key, server, i));
    }
  }

  lemma MixedAt(key: seq<byte>, server: byte, i: nat)
    requires |key| == KEY_LEN
    ensures (i + MixedKey(key, server)[i % KEY_LEN]) % 0x100 == Partner(key, server, i)
  {
    var k := i % KEY_LEN;
    AddTwice(key[k], k * 101, server);
  }

  lemma AddTwice(a: nat, b: nat, c: nat)
    ensures ((a + b) % 0x100 + c) % 0x100 == (a + b + c) % 0x100
  {
  }

  lemma SwapExchanges(buf: seq<byte>, i: byte, j: byte)
    requires |buf| == STATE_LEN
    ensures Exchanged(buf, Swapped(buf, i, j), i, j)
  {
  }

  // ---------- Properties ----------

  lemma SwapKeeps(buf: seq<byte>, i: byte, j: byte)
    requires |buf| == STATE_LEN
    ensures multiset(Swapped(buf, i, j)) == multiset(buf)
  {
  }

  lemma {:induction false} ShufflePermutes(key: seq<byte>, n: nat)
    requires |key| == KEY_LEN
    ensures Permutation(Shuffled(key, n))
  {
    hide Swapped;
    if n > 0 {
      ShufflePermutes(key, n - 1);
      SwapKeeps(Shuffled(key, n - 1), (n - 1) % STATE_LEN, (n - 1 + key[(n - 1) % KEY_LEN]) % 0x100);
    }
  }

  /** The state is a permutation from the start, and stays one with every byte. */
  lemma KeyedPermutation(key: seq<byte>, server: byte, ctr: byte)
    requires |key| == KEY_LEN
    ensures Permutation(Keyed(key, server, ctr).buf)
  {
    hide Shuffled, MixedKey;
    ShufflePermutes(MixedKey(key, server), STATE_LEN * 20);
  }

  lemma {:induction false} CryptPermutes(c: Cipher, data: seq<byte>)
    requires |c.buf| == STATE_LEN && Permutation(c.buf)
    ensures Permutation(Crypt(c, data).1.buf)
  {
    hide Swapped, XorByte, Add;
    if data != [] {
      var n := |data| - 1;
      CryptPermutes(c, data[..n]);
      var b := Crypt(c, data[..n]).1;
      var a := Next(b).1;
      SwapKeeps(b.buf, a.ctr, a.last);
    }
  }

  lemma NextSteps(c: Cipher)
    requires |c.buf| == STATE_LEN
    ensures var (key, c') := Next(c); StepsBy(c, key, c')
  {
    hide XorByte;
    XorByteTwice(Add(c.buf[c.ctr], c.buf[c.last]), c.buf[XorByte(c.last, c.ctr)]);
  }

  // The key bytes that lead from the message to what is sent.
  ghost function KeyBytes(data: seq<byte>, out: seq<byte>): (keys: seq<byte>)
    requires |data| == |out|
    ensures |keys| == |data|
  {
    seq(|data|, i requires 0 <= i < |data| => XorByte(data[i], out[i]))
  }

  ghost function States(c: Cipher, data: seq<byte>): (states: seq<Cipher>)
    requires |c.buf| == STATE_LEN
    ensures |states| == |data| + 1
  {
    seq(|data| + 1, i requires 0 <= i <= |data| => Crypt(c, data[..i]).1)
  }

  lemma {:induction false} CryptPrefix(c: Cipher, data: seq<byte>, i: nat)
    requires |c.buf| == STATE_LEN && i <= |data|
    ensures Crypt(c, data).0[..i] == Crypt(c, data[..i]).0
  {
    hide Next, XorByte;
    if i < |data| {
      CryptPrefix(c, data[..|data| - 1], i);
      assert data[..|data| - 1][..i] == data[..i];
    } else {
      assert data[..i] == data;
    }
  }

  /** Enciphering is exclusive or, byte by byte, with what the generator makes from the state on. */
  lemma StreamSteps(c: Cipher, data: seq<byte>)
    requires |c.buf| == STATE_LEN
    ensures var (out, c') := Crypt(c, data);
      && Generates(States(c, data), KeyBytes(data, out)) && States(c, data)[0] == c && States(c, data)[|data|] == c'
      && c'.ctr == (c.ctr + |data|) % 0x100
  {
    hide Next, XorByte, StepsBy;
    var (out, c') := Crypt(c, data);
    var states, keys := States(c, data), KeyBytes(data, out);
    forall i | 0 <= i < |data| ensures StepsBy(states[i], keys[i], states[i + 1]) {
      var (key, after) := Next(states[i]);
      assert data[..i + 1][..i] == data[..i];
      CryptPrefix(c, data, i + 1);
      assert out[i] == out[..i + 1][i] == XorByte(data[i], key);
      XorByteAgain(data[i], key);
      NextSteps(states[i]);
    }
    assert data[..0] == [] && data[..|data|] == data;
    CounterMoves(c, data);
  }

  lemma {:induction false} CounterMoves(c: Cipher, data: seq<byte>)
    requires |c.buf| == STATE_LEN
    ensures Crypt(c, data).1.ctr == (c.ctr + |data|) % 0x100
  {
    hide Next;
    if data != [] {
      CounterMoves(c, data[..|data| - 1]);
      var b := Crypt(c, data[..|data| - 1]).1;
      NextSteps(b);
      OneOn(c.ctr, |data| - 1);
    }
  }

  lemma OneOn(a: nat, n: nat)
    ensures ((a + n) % 0x100 + 1) % 0x100 == (a + (n + 1)) % 0x100
  {
  }

  lemma XorByteAgain(x: byte, y: byte)
    ensures XorByte(x, XorByte(x, y)) == y
  {
    hide Xor;
    XorCommutes(x, y);
    XorCommutes(x, XorByte(x, y));
    XorTwice(y, x);
  }

  lemma XorByteTwice(x: byte, y: byte)
    ensures XorByte(XorByte(x, y), y) == x
  {
    hide Xor;
    XorTwice(x, y);
  }

  /** Deciphering with the same state gives the message back, and leaves the same state. */
  lemma {:induction false} CryptTwice(c: Cipher, data: seq<byte>)
    requires |c.buf| == STATE_LEN
    ensures Crypt(c, Crypt(c, data).0) == (data, Crypt(c, data).1)
  {
    hide Next, XorByte;
    if data != [] {
      var n := |data| - 1;
      CryptTwice(c, data[..n]);
      var coded := Crypt(c, data).0;
      assert coded[..n] == Crypt(c, data[..n]).0;
      XorByteTwice(data[n], Next(Crypt(c, data[..n]).1).0);
      assert data[..n] + [data[n]] == data;
    }
  }

  lemma {:induction false} CountIdentity(n: nat, v: byte)
    requires n <= STATE_LEN
    ensures multiset(Identity(n))[v] == if v < n then 1 else 0
  {
    if n > 0 {
      CountIdentity(n - 1, v);
      assert Identity(n) == Identity(n - 1) + [n - 1];
    }
  }

  lemma EachByteOnce(buf: seq<byte>, v: byte)
    requires Permutation(buf)
    ensures multiset(buf)[v] == 1 && v in buf
  {
    CountIdentity(STATE_LEN, v);
    assert v in multiset(buf);
  }

  // ---------- The program ----------

  class CryptoState {
    const stateBuf: array<byte>
    var ctr: byte
    var last: byte
    var modifier: byte

    // Zeroed memory; no key yet.
    constructor ()
      ensures stateBuf.Length == STATE_LEN && fresh(stateBuf) && ctr == 0
    {
      stateBuf := new byte[STATE_LEN];
      ctr, last, modifier := 0, 0, 0;
    }

    ghost function View(): (c: Cipher)
      reads this, stateBuf
    {
      Cipher(stateBuf[..], ctr, last)
    }

    method Swap(i: byte, j: byte)
      requires stateBuf.Length == STATE_LEN
      modifies stateBuf
      ensures stateBuf[..] == Swapped(old(stateBuf[..]), i, j)
    {
      var temp := stateBuf[i];
      stateBuf[i] := stateBuf[j];
      stateBuf[j] := temp;
    }

    method PRGA() returns (ret: byte)
      requires stateBuf.Length == STATE_LEN
      modifies this, stateBuf
      ensures (ret, View()) == Next(old(View())) && StepsBy(old(View()), ret, View())
    {
      hide XorByte, Swapped;
      NextSteps(View());
      ret := stateBuf[ctr];
      ret := Add(ret, stateBuf[last]);
      ret := XorByte(ret, stateBuf[XorByte(last, ctr)]);
      ctr := Add(ctr, 1);
      last := stateBuf[ret];
      Swap(ctr, last);
    }

    /** The state is the one the key schedule ends in, for the counter it had; a permutation. */
    method InitCryptoState(origCryptoKey: seq<byte>, server: byte)
      requires stateBuf.Length == STATE_LEN && |origCryptoKey| == KEY_LEN
      modifies this, stateBuf
      ensures View() == Keyed(origCryptoKey, server, old(ctr)) && Permutation(View().buf)
      ensures Schedules(Schedule(origCryptoKey, server), origCryptoKey, server) && ctr == old(ctr)
      ensures View().buf == Schedule(origCryptoKey, server)[20 * STATE_LEN]
      ensures last == stateBuf[stateBuf[stateBuf[1]]]
    {
      hide Swapped, Permutation, Shuffled, Schedules, Schedule;
      KeySchedule(origCryptoKey, server, ctr);
      var cryptoKey := MixKey(origCryptoKey, server);
      forall i | 0 <= i < STATE_LEN {
        stateBuf[i] := i;
      }
      ShuffleNothing(cryptoKey);
      assert stateBuf[..] == Identity(STATE_LEN);
      var i := 0;
      while i < STATE_LEN * 20
        invariant i <= STATE_LEN * 20 && stateBuf[..] == Shuffled(cryptoKey, i) && ctr == old(ctr)
      {
        var jIdx := (i + cryptoKey[i % KEY_LEN]) % 0x100;
        ShuffleStep(cryptoKey, i);
        Swap(i % STATE_LEN, jIdx);
        i := i + 1;
      }
      modifier := server;
      last := stateBuf[stateBuf[stateBuf[1]]];
      KeyedPermutation(origCryptoKey, server, ctr);
    }

    static method MixKey(key: seq<byte>, server: byte) returns (cryptoKey: seq<byte>)
      requires |key| == KEY_LEN
      ensures cryptoKey == MixedKey(key, server)
    {
      cryptoKey := key;
      var i := 0;
      while i < KEY_LEN
        invariant i <= KEY_LEN == |cryptoKey|
        invariant forall k :: 0 <= k < KEY_LEN ==> cryptoKey[k] == if k < i then MixedKey(key, server)[k] else key[k]
      {
        cryptoKey := cryptoKey[i := Add(Add(cryptoKey[i], i * 101), server)];
        i := i + 1;
      }
    }

    // One key stream byte for each byte of the message, as writeBuffer and fillBuffer use it.
    method Stream(data: seq<byte>) returns (out: seq<byte>, ghost states: seq<Cipher>)
      requires stateBuf.Length == STATE_LEN
      modifies this, stateBuf
      ensures (out, View()) == Crypt(old(View()), data) && ctr == (old(ctr) + |data|) % 0x100
      ensures Generates(states, KeyBytes(data, out)) && states[0] == old(View()) && states[|data|] == View()
    {
      hide Next, XorByte;
      out := [];
      var i := 0;
      assert data[..0] == [];
      StreamSteps(View(), data);
      states := States(View(), data);
      while i < |data|
        invariant i <= |data| && (out, View()) == Crypt(old(View()), data[..i])
      {
        assert data[..i + 1][..i] == data[..i];
        var modVal := PRGA();
        out := out + [XorByte(data[i], modVal)];
        i := i + 1;
      }
      assert data[..i] == data;
    }
  }

  lemma ShuffleNothing(key: seq<byte>)
    requires |key| == KEY_LEN
    ensures Shuffled(key, 0) == Identity(STATE_LEN)
  {
  }

  lemma ShuffleStep(key: seq<byte>, n: nat)
    requires |key| == KEY_LEN
    ensures Shuffled(key, n + 1) == Swapped(Shuffled(key, n), n % STATE_LEN, (n + key[n % KEY_LEN]) % 0x100)
  {
  }
}
