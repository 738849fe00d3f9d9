/** The channel as a whole: lists of instructions enciphered by the client, deciphered, parsed
    and carried out by the server. */
module MamboChannel {
  import opened ByteSeq
  import opened Wrappers
  import opened MamboCipher
  import opened MamboInstr

  const BUF_LENGTH: nat := 4096
  const TO_SERVER: byte := 9

  // ---------- Lists of instructions ----------

  ghost predicate AllSendable(is_: seq<Instr>) {
    forall i :: 0 <= i < |is_| ==> Sendable(is_[i])
  }

  function Bytes(is_: seq<Instr>): seq<byte> {
    if is_ == [] then [] else Encoded(is_[0]) + Bytes(is_[1..])
  }

  function AllCommands(is_: seq<Instr>): seq<Cmd> {
    if is_ == [] then [] else Commands(is_[0]) + AllCommands(is_[1..])
  }

  function CommandsOf(lists: seq<seq<Instr>>): seq<Cmd> {
    if lists == [] then [] else AllCommands(lists[0]) + CommandsOf(lists[1..])
  }

  // A message: at least one instruction, and no longer than the server's buffer.
  ghost predicate Message(is_: seq<Instr>) {
    is_ != [] && AllSendable(is_) && |Bytes(is_)| <= BUF_LENGTH
  }

  ghost predicate Messages(lists: seq<seq<Instr>>) {
    forall i :: 0 <= i < |lists| ==> Message(lists[i])
  }

  // The cipher after the messages, one after the other.
  function After(c: Cipher, lists: seq<seq<Instr>>): (r: Cipher)
    requires |c.buf| == STATE_LEN
    ensures |r.buf| == STATE_LEN
    decreases |lists|
  {
    if lists == [] then c else After(Crypt(c, Bytes(lists[0])).1, lists[1..])
  }

  // What goes over the wire.
  function Wire(c: Cipher, lists: seq<seq<Instr>>): (w: seq<seq<byte>>)
    requires |c.buf| == STATE_LEN
    ensures |w| == |lists|
    decreases |lists|
  {
    if lists == [] then []
    else
      var (coded, c') := Crypt(c, Bytes(lists[0]));
      [coded] + Wire(c', lists[1..])
  }

  lemma {:induction false} WireSplit(c: Cipher, a: seq<seq<Instr>>, b: seq<seq<Instr>>)
    requires |c.buf| == STATE_LEN
    ensures Wire(c, a + b) == Wire(c, a) + Wire(After(c, a), b) && After(c, a + b) == After(After(c, a), b)
    decreases |a|
  {
    hide Crypt, Bytes;
    if a == [] {
      assert a + b == b;
    } else {
      WireSplit(Crypt(c, Bytes(a[0])).1, a[1..], b);
      assert (a + b)[1..] == a[1..] + b;
    }
  }

  lemma WireOne(c: Cipher, l: seq<Instr>)
    requires |c.buf| == STATE_LEN
    ensures Wire(c, [l]) == [Crypt(c, Bytes(l)).0] && After(c, [l]) == Crypt(c, Bytes(l)).1
  {
    hide Crypt, Bytes;
    assert [l][1..] == [];
    assert Wire(Crypt(c, Bytes(l)).1, []) == [] && After(Crypt(c, Bytes(l)).1, []) == Crypt(c, Bytes(l)).1;
  }

  /** Both ends' states remain permutations of 0..255 throughout. */
  lemma {:induction false} AfterPermutes(c: Cipher, lists: seq<seq<Instr>>)
    requires |c.buf| == STATE_LEN && Permutation(c.buf)
    ensures Permutation(After(c, lists).buf)
    decreases |lists|
  {
    hide Crypt, Bytes, Permutation;
    if lists != [] {
      CryptPermutes(c, Bytes(lists[0]));
      AfterPermutes(Crypt(c, Bytes(lists[0])).1, lists[1..]);
    }
  }

  // ---------- The client ----------

  // The instructions are encoded one after the other into the send buffer, which is enciphered.
  method SendInstructions(crypto: CryptoState, is_: seq<Instr>) returns (msg: seq<byte>)
    requires crypto.stateBuf.Length == STATE_LEN
    modifies crypto, crypto.stateBuf
    ensures (msg, crypto.View()) == Crypt(old(crypto.View()), Bytes(is_))
  {
    hide Crypt, Bytes, Generates, KeyBytes;
    var buffer := EncodeAll(is_);
    ghost var states;
    msg, states := crypto.Stream(buffer);
  }

  method EncodeAll(is_: seq<Instr>) returns (buffer: seq<byte>)
    ensures buffer == Bytes(is_)
  {
    hide Encoded;
    var offset := 0;
    buffer := [];
    assert is_[0..] == is_;
    while offset < |is_|
      invariant offset <= |is_| && buffer + Bytes(is_[offset..]) == Bytes(is_)
    {
      var i := is_[offset];
      assert is_[offset..][1..] == is_[offset + 1..];
      var one := EncodeInstruction(i.op, i.r1, i.r2, i.r3, i.long);
      WithPayload(i);
      Regroup(buffer, one, i.payload, Bytes(is_[offset + 1..]));
      buffer := buffer + one + i.payload;
      offset := offset + 1;
    }
    assert buffer + [] == buffer;
  }

  lemma Regroup(a: seq<byte>, b: seq<byte>, c: seq<byte>, d: seq<byte>)
    ensures a + ((b + c) + d) == a + b + c + d
  {
  }

  lemma WithPayload(i: Instr)
    ensures Encoded(i) == Encoded(i.(payload := [])) + i.payload
  {
  }

  // ---------- The server ----------

  class Server {
    const clientCryptoState: CryptoState
    const dataBuffer: array<byte>
    var dataOffset: nat
    var dataRead: nat

    constructor (crypto: CryptoState)
      ensures clientCryptoState == crypto && dataBuffer.Length == BUF_LENGTH && fresh(dataBuffer)
    {
      clientCryptoState := crypto;
      dataBuffer := new byte[BUF_LENGTH];
      dataOffset, dataRead := 0, 0;
    }

    ghost predicate Ready()
      reads clientCryptoState
    {
      clientCryptoState.stateBuf.Length == STATE_LEN && dataBuffer.Length == BUF_LENGTH
      && clientCryptoState.stateBuf != dataBuffer
    }

    // A message is read into the buffer and deciphered there; a longer one ends the program.
    method FillBuffer(msg: seq<byte>) returns (ok: bool)
      requires Ready()
      modifies this, dataBuffer, clientCryptoState, clientCryptoState.stateBuf
      ensures ok == (|msg| <= BUF_LENGTH)
      ensures ok ==> dataRead == |msg| && dataOffset == 0
      ensures ok ==> (dataBuffer[..dataRead], clientCryptoState.View()) == Crypt(old(clientCryptoState.View()), msg)
    {
      hide Crypt, Generates, KeyBytes;
      if |msg| > BUF_LENGTH {
        return false;
      }
      var plain;
      ghost var states;
      plain, states := clientCryptoState.Stream(msg);
      forall i | 0 <= i < |plain| {
        dataBuffer[i] := plain[i];
      }
      dataRead, dataOffset := |msg|, 0;
      assert dataBuffer[..dataRead] == plain;
      ok := true;
    }

    /** The cursor goes through the message instruction by instruction. Some(code) means that
        the program has ended; -1 stands for a read beyond the buffer. */
    method ParseMessage(ghost is_: seq<Instr>) returns (cmds: seq<Cmd>, ended: Option<int>)
      requires Ready() && dataOffset == 0 && dataRead <= BUF_LENGTH
      modifies this`dataOffset
      ensures Message(is_) && dataBuffer[..dataRead] == Bytes(is_) ==> ended.None? && cmds == AllCommands(is_)
    {
      hide Parse, Encoded, Commands, Bytes, AllCommands, Message;
      ghost var rest := is_;
      ghost var good := Message(is_) && dataBuffer[..dataRead] == Bytes(is_);
      if good {
        NotEmpty(is_);
      }
      cmds := [];
      while true
        invariant dataOffset < dataRead || (dataRead == dataOffset == 0 && !good)
        invariant good ==> Unread(dataBuffer[dataOffset..dataRead], cmds, rest, is_)
        decreases dataRead - dataOffset
      {
        ghost var buf := dataBuffer[dataOffset..];
        var parsed := ParseInstruction(dataBuffer[dataOffset..], dataRead - dataOffset);
        if good {
          assert buf == dataBuffer[dataOffset..dataRead] + dataBuffer[dataRead..];
          ParseNext(dataBuffer[dataOffset..dataRead], cmds, rest, is_, dataBuffer[dataRead..]);
          rest := rest[1..];
        }
        match parsed
        case NoBytes => return cmds, Some(1);
        case Exit(code) => return cmds, Some(code);
        case PastEnd => return cmds, Some(-1);
        case Ran(more, consumed) =>
          cmds := cmds + more;
          TakesSomething(buf, dataRead - dataOffset);
          if dataOffset + consumed >= dataRead {
            if good {
              NothingUnread(dataBuffer[dataOffset..dataRead], consumed, cmds, rest, is_);
            }
            dataOffset := dataOffset + consumed;
            return cmds, None;
          }
          assert dataBuffer[dataOffset..dataRead][consumed..] == dataBuffer[dataOffset + consumed..dataRead];
          dataOffset := dataOffset + consumed;
          if good {
            StillUnread(dataBuffer[dataOffset..dataRead], cmds, rest, is_);
          }
      }
    }

    /** All messages are read in turn, until there are no more or the program ends. What the
        client sends comes out as the commands it sent, in order, and leaves both ciphers alike. */
    method DoChallenge(messages: seq<seq<byte>>, ghost lists: seq<seq<Instr>>) returns (cmds: seq<Cmd>, code: int)
      requires Ready()
      modifies this, dataBuffer, clientCryptoState, clientCryptoState.stateBuf
      ensures Messages(lists) && messages == Wire(old(clientCryptoState.View()), lists) ==>
        && cmds == CommandsOf(lists) && code == 111
        && clientCryptoState.View() == After(old(clientCryptoState.View()), lists)
    {
      hide Crypt, Bytes, AllCommands, Message;
      ghost var c0 := clientCryptoState.View();
      ghost var good := Messages(lists) && messages == Wire(c0, lists);
      ghost var ahead := lists;
      var k := 0;
      cmds := [];
      while k < |messages|
        invariant k <= |messages| && Ready()
        invariant good ==> Messages(ahead) && messages[k..] == Wire(clientCryptoState.View(), ahead)
        invariant good ==> cmds + CommandsOf(ahead) == CommandsOf(lists)
        invariant good ==> After(clientCryptoState.View(), ahead) == After(c0, lists)
      {
        ghost var c := clientCryptoState.View();
        var ok := FillBuffer(messages[k]);
        ghost var now: seq<Instr> := [];
        if good {
          now := ahead[0];
          assert messages[k..][0] == messages[k] && messages[k..][1..] == messages[k + 1..];
          Deciphered(c, ahead);
          NotEmpty(now);
          ahead := ahead[1..];
        }
        if !ok {
          return cmds, 9;
        }
        if dataRead == 0 && k > 0 {
          return cmds, 0;
        }
        var more, ended := ParseMessage(now);
        if ended.Some? {
          return cmds, ended.value;
        }
        assert good ==> cmds + (more + CommandsOf(ahead)) == cmds + more + CommandsOf(ahead);
        cmds := cmds + more;
        k := k + 1;
      }
      code := 111;
      assert good ==> cmds + [] == cmds;
    }
  }

  // ---------- One message ----------

  // So much of the message is still to be parsed.
  ghost predicate Unread(buf: seq<byte>, cmds: seq<Cmd>, rest: seq<Instr>, is_: seq<Instr>) {
    AllSendable(rest) && rest != [] && buf == Bytes(rest) && cmds + AllCommands(rest) == AllCommands(is_)
  }

  lemma NotEmpty(is_: seq<Instr>)
    requires Message(is_)
    ensures |Bytes(is_)| >= 3 && Unread(Bytes(is_), [], is_, is_)
  {
    assert [] + AllCommands(is_) == AllCommands(is_);
  }

  lemma ParseNext(buf: seq<byte>, cmds: seq<Cmd>, rest: seq<Instr>, is_: seq<Instr>, stale: seq<byte>)
    requires Unread(buf, cmds, rest, is_)
    ensures |buf| > 0 && Parse(buf + stale, |buf|) == Ran(Commands(rest[0]), |Encoded(rest[0])|)
    ensures |Encoded(rest[0])| <= |buf| && buf[|Encoded(rest[0])|..] == Bytes(rest[1..])
    ensures cmds + Commands(rest[0]) + AllCommands(rest[1..]) == AllCommands(is_) && AllSendable(rest[1..])
  {
    hide Parse, Commands, Encoded;
    var i := rest[0];
    assert Encoded(i) + Bytes(rest[1..]) + stale == Encoded(i) + (Bytes(rest[1..]) + stale);
    ParseEncoded(i, Bytes(rest[1..]) + stale, |buf|);
    assert cmds + Commands(i) + AllCommands(rest[1..]) == cmds + (Commands(i) + AllCommands(rest[1..]));
  }

  lemma NothingUnread(buf: seq<byte>, consumed: nat, cmds: seq<Cmd>, rest: seq<Instr>, is_: seq<Instr>)
    requires consumed == |buf| && buf[consumed..] == Bytes(rest) && cmds + AllCommands(rest) == AllCommands(is_)
    ensures cmds == AllCommands(is_)
  {
    BytesLong(rest);
    assert cmds + [] == cmds;
  }

  lemma BytesLong(is_: seq<Instr>)
    ensures is_ != [] ==> |Bytes(is_)| >= 3
  {
  }

  // There is more to come as long as there are bytes.
  lemma StillUnread(buf: seq<byte>, cmds: seq<Cmd>, rest: seq<Instr>, is_: seq<Instr>)
    requires AllSendable(rest) && buf == Bytes(rest) && buf != [] && cmds + AllCommands(rest) == AllCommands(is_)
    ensures Unread(buf, cmds, rest, is_)
  {
    hide AllSendable;
  }

  lemma TakesSomething(buf: seq<byte>, n: nat)
    requires |buf| > 0 && Parse(buf, n).Ran?
    ensures Parse(buf, n).consumed >= 2
  {
  }

  lemma Deciphered(c: Cipher, lists: seq<seq<Instr>>)
    requires |c.buf| == STATE_LEN && Messages(lists) && lists != []
    ensures Message(lists[0]) && |Wire(c, lists)[0]| <= BUF_LENGTH && Messages(lists[1..])
    ensures Crypt(c, Wire(c, lists)[0]) == (Bytes(lists[0]), Crypt(c, Bytes(lists[0])).1)
    ensures Wire(c, lists)[1..] == Wire(Crypt(c, Bytes(lists[0])).1, lists[1..])
    ensures After(c, lists) == After(Crypt(c, Bytes(lists[0])).1, lists[1..])
  {
    hide Crypt, Bytes;
    CryptTwice(c, Bytes(lists[0]));
  }

  // ---------- Both ends ----------

  /** The whole run: both ends set up from the same key, all messages sent and received. The
      server carries out exactly the commands that the client encoded, in order; and the two
      ciphers are equal, and permutations of 0..255, at the end as at the start. */
  method Converse(key: seq<byte>, lists: seq<seq<Instr>>)
    returns (cmds: seq<Cmd>, ghost atClient: Cipher, ghost atServer: Cipher)
    requires |key| == KEY_LEN && Messages(lists)
    ensures cmds == CommandsOf(lists) && atClient == atServer && Permutation(atClient.buf)
  {
    hide Crypt, Bytes, Keyed, Permutation, CommandsOf, Schedules, Schedule;
    var clientEnd := new CryptoState();
    clientEnd.InitCryptoState(key, TO_SERVER);
    var serverEnd := new CryptoState();
    serverEnd.InitCryptoState(key, TO_SERVER);
    ghost var c0 := clientEnd.View();
    var server := new Server(serverEnd);
    var messages, i := [], 0;
    assert lists[..0] == [];
    while i < |lists|
      invariant i <= |lists| && messages == Wire(c0, lists[..i]) && clientEnd.View() == After(c0, lists[..i])
      invariant clientEnd.stateBuf.Length == STATE_LEN && fresh(clientEnd) && fresh(clientEnd.stateBuf)
      invariant serverEnd.View() == c0 && server.Ready()
    {
      var msg := SendInstructions(clientEnd, lists[i]);
      WireSplit(c0, lists[..i], [lists[i]]);
      WireOne(After(c0, lists[..i]), lists[i]);
      assert lists[..i + 1] == lists[..i] + [lists[i]];
      messages := messages + [msg];
      i := i + 1;
    }
    assert lists[..i] == lists;
    var code;
    cmds, code := server.DoChallenge(messages, lists);
    AfterPermutes(c0, lists);
    atClient, atServer := clientEnd.View(), serverEnd.View();
  }
}
