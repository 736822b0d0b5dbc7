/**
 The backend's end of a frontend's encrypted session: the outgoing buffer, the
 session key, and the IV that is replaced by the start of every packet sent.
 */
module Session {
  import opened Wrappers
  import opened Octets
  import opened Crypto
  import opened Message
  import opened Outgoing

  /** The fields of a frontend that the session code reads or writes. */
  datatype Server = Server(
    encrypted: bool,
    trusted: bool,
    key: Bytes,
    iv: Bytes,
    previousIV: Bytes,
    out: Bytes,
    pings: nat)

  /** HandleConnection generates both before a session becomes trusted. */
  predicate Keyed(s: Server) {
    s.trusted && s.encrypted ==> |s.key| == 16 && |s.iv| == 16
  }

  /** What SendMessages leaves behind, and the packets it writes (none or one). */
  ghost function Flushed(c: Aes, s: Server): (r: (Server, seq<Bytes>))
    requires Keyed(s)
    ensures Keyed(r.0)
  {
    if s.out == [] then (s, [])
    else if s.trusted && s.encrypted then
      var cipher := Encrypted(c, s.key, s.iv, s.out).value;
      (s.(out := [], previousIV := s.iv, iv := cipher[..16]), [cipher])
    else (s.(out := []), [s.out])
  }

  ghost function Rotated(c: Aes, s: Server, newKey: Block, newIV: Block): (r: (Server, seq<Bytes>))
    requires Keyed(s)
    ensures Keyed(r.0)
  {
    if !s.encrypted then (s, [])
    else
      var (flushed, packets) := Flushed(c, s.(out := s.out + Encode(Key(newKey, newIV))));
      (flushed.(key := newKey, iv := newIV), packets)
  }

  ghost function Ponged(c: Aes, s: Server, newKey: Block, newIV: Block): (r: (Server, seq<Bytes>))
    requires Keyed(s)
    ensures Keyed(r.0)
  {
    var pong := s.(pings := s.pings + 1, out := s.out + Encode(Pong));
    if pong.pings % 64 == 0 then Rotated(c, pong, newKey, newIV) else (pong, [])
  }

  // ---------------------------------------------------------------- connections

  const SCMD_HELLO_ACK: Byte := 1
  const SCMD_TRUSTED: Byte := 8

  /** A handshake that succeeds: what the greeting asks for, the random key and IV, and
      the blob that carries them, encrypted for the game server alone. */
  datatype Handshake = Handshake(encrypted: bool, key: Block, iv: Block, blob: Bytes)

  function HelloAck(blob: Bytes): Bytes {
    [SCMD_HELLO_ACK, (|blob| % 256) as Byte, (|blob| / 256 % 256) as Byte] + blob
  }

  /** The peer finds the blob behind an opcode and its length, low byte first. */
  lemma HelloAckRead(blob: Bytes)
    requires |blob| < 0x1_0000
    ensures var ack := HelloAck(blob);
            ack[0] == 1 && ack[1] as int + 256 * ack[2] as int == |blob| && ack[3..] == blob
  {
  }

  /** The frontend as the handshake of HandleConnection leaves it, and the packets written.
      The struct is the one of the connection before: a key no new one replaces, the
      previous IV, the ping count and the trusted flag are what they were. */
  ghost function Handshaken(c: Aes, s: Server, h: Handshake): (r: (Server, seq<Bytes>))
    requires Keyed(s)
    ensures Keyed(r.0)
  {
    var keyed := s.(encrypted := h.encrypted, key := if h.encrypted then h.key else s.key,
                    iv := if h.encrypted then h.iv else s.iv);
    var (greeted, first) := Flushed(c, keyed.(out := keyed.out + HelloAck(h.blob)));
    var (told, second) := Flushed(c, greeted.(out := greeted.out + [SCMD_TRUSTED]));
    (told.(trusted := true), first + second)
  }

  /** A connection ends when nothing more can be read, or on input the receive loop
      cannot decrypt; that way out leaves the frontend trusted. */
  datatype Ending = EndOfInput | Undecryptable

  function Ended(s: Server, e: Ending): Server {
    if e == EndOfInput then s.(trusted := false) else s
  }

  /** What the receive loop makes of one read from the connection. */
  datatype Received = Accepted(message: Bytes) | Disconnected | Panicked

  ghost function Receive(c: Aes, s: Server, input: Bytes): Received {
    if !s.encrypted || !s.trusted then Accepted(input)
    else
      match Decrypted(c, s.key, s.iv, input)
      case Panic => Panicked
      case Ok(plain) =>
        if |plain| > 0 then Accepted(plain)
        else
          // the second attempt is handed the emptied input of the first
          match Decrypted(c, s.key, s.previousIV, plain)
          case Panic => Panicked
          case Ok(again) => if |again| == 0 then Disconnected else Accepted(again)
  }

  class Frontend {
    const aes: Aes
    var encrypted: bool
    var trusted: bool
    var symmetricKey: Bytes
    var initVector: Bytes
    var previousIV: Bytes
    var messageOut: Bytes
    var pingCount: nat
    /** The packets written to the connection, oldest first. */
    var written: seq<Bytes>

    ghost function State(): Server
      reads this
    {
      Server(encrypted, trusted, symmetricKey, initVector, previousIV, messageOut, pingCount)
    }

    ghost predicate Valid()
      reads this
    {
      Keyed(State())
    }

    /** A frontend as it is loaded at startup. */
    constructor (aes: Aes)
      ensures Valid() && this.aes == aes && written == []
      ensures State() == Server(false, false, [], [], [], [], 0)
    {
      this.aes := aes;
      encrypted, trusted, symmetricKey, initVector, previousIV := false, false, [], [], [];
      messageOut, pingCount, written := [], 0, [];
    }

    /** The part of HandleConnection that sets up the session; the peer is taken to
        authenticate. */
    method Connect(h: Handshake)
      requires Valid()
      modifies this
      ensures Valid()
      ensures State() == Handshaken(aes, old(State()), h).0
      ensures written == old(written) + Handshaken(aes, old(State()), h).1
    {
      encrypted := h.encrypted;
      if encrypted {
        symmetricKey, initVector := h.key, h.iv;
      }
      messageOut := messageOut + HelloAck(h.blob);
      SendMessages();
      messageOut := messageOut + [SCMD_TRUSTED];
      SendMessages();
      trusted := true;
    }

    method Disconnect(e: Ending)
      requires Valid()
      modifies this`trusted
      ensures Valid()
      ensures State() == Ended(old(State()), e)
    {
      if e == EndOfInput {
        trusted := false;
      }
    }

    /** Appends one record to the outgoing buffer. */
    method Write(r: Record)
      requires Valid()
      modifies this`messageOut
      ensures Valid()
      ensures State() == old(State()).(out := old(messageOut) + Encode(r))
    {
      messageOut := messageOut + Encode(r);
    }

    method SendMessages()
      requires Valid()
      modifies this
      ensures Valid()
      ensures State() == Flushed(aes, old(State())).0
      ensures written == old(written) + Flushed(aes, old(State())).1
    {
      if |messageOut| == 0 {
        return;
      }
      if trusted && encrypted {
        var cipher := SymmetricEncrypt(aes, symmetricKey, initVector, messageOut);
        messageOut := cipher.value;
        previousIV := initVector;
        initVector := messageOut[..AES_IV_LENGTH];
      }
      written := written + [messageOut];
      messageOut := [];
    }

    /** The new key and IV are random bytes, here handed in. */
    method RotateKeys(newKey: Block, newIV: Block)
      requires Valid()
      modifies this
      ensures Valid()
      ensures State() == Rotated(aes, old(State()), newKey, newIV).0
      ensures written == old(written) + Rotated(aes, old(State()), newKey, newIV).1
    {
      if !encrypted {
        return;
      }
      Write(Key(newKey, newIV));
      SendMessages();
      symmetricKey := newKey;
      initVector := newIV;
    }

    method HandlePing(newKey: Block, newIV: Block)
      requires Valid()
      modifies this
      ensures Valid()
      ensures State() == Ponged(aes, old(State()), newKey, newIV).0
      ensures written == old(written) + Ponged(aes, old(State()), newKey, newIV).1
    {
      pingCount := pingCount + 1;
      Write(Pong);
      if pingCount % 64 == 0 {
        RotateKeys(newKey, newIV);
      }
    }

    method Read(input: Bytes) returns (r: Received)
      requires Valid()
      ensures r == Receive(aes, State(), input)
    {
      if !encrypted || !trusted {
        return Accepted(input);
      }
      var plain := SymmetricDecrypt(aes, symmetricKey, initVector, input);
      if plain.Panic? {
        return Panicked;
      }
      if |plain.value| == 0 {
        plain := SymmetricDecrypt(aes, symmetricKey, previousIV, plain.value);
        if plain.Panic? {
          return Panicked;
        }
        if |plain.value| == 0 {
          return Disconnected;
        }
      }
      r := Accepted(plain.value);
    }
  }

  // ---------------------------------------------------------------- the receive loop

  /** The retry with the previous IV never yields a message: once the first decryption
      comes back empty the session ends, by a panic while no previous IV exists. */
  lemma RetryNeverSucceeds(c: Aes, s: Server, input: Bytes)
    requires Keyed(s) && s.encrypted && s.trusted
    ensures Receive(c, s, input).Accepted? <==>
              Decrypted(c, s.key, s.iv, input).Ok? && Decrypted(c, s.key, s.iv, input).value != []
    ensures Receive(c, s, input).Panicked? <==>
              || |input| % 16 != 0
              || (|s.previousIV| != 16 && Decrypted(c, s.key, s.iv, input) == Ok([]))
  {
  }

  /** The empty message is such an input, under the right key and IV. */
  lemma EmptyMessageEnds(c: Aes, s: Server)
    requires Keyed(s) && s.encrypted && s.trusted
    ensures Receive(c, s, Encrypted(c, s.key, s.iv, []).value)
            == if |s.previousIV| == 16 then Disconnected else Panicked
  {
    RoundTrip(c, s.key, s.iv, []);
  }

  // ---------------------------------------------------------------- the handshake

  /** An encrypted packet is longer than what was to be sent. */
  lemma NeverInTheClear(c: Aes, s: Server)
    requires Keyed(s) && s.trusted && s.encrypted && s.out != []
    ensures var (s', packets) := Flushed(c, s);
            |packets| == 1 && packets[0] != s.out && s'.out == [] && Keyed(s')
  {
    CiphertextLength(c, s.key, s.iv, s.out);
  }

  /** The handshake after a connection is sent in the clear, as the peer can read it,
      exactly unless that connection ended on input that could not be decrypted and the
      new one is to be encrypted. */
  lemma HandshakeInTheClear(c: Aes, s: Server, e: Ending, h: Handshake)
    requires Keyed(s) && s.trusted
    ensures Handshaken(c, Ended(s, e), h).1 == [s.out + HelloAck(h.blob), [8]]
            <==> !(e == Undecryptable && h.encrypted)
  {
    var before := Ended(s, e);
    if before.trusted && h.encrypted {
      NeverInTheClear(c, before.(encrypted := true, key := h.key, iv := h.iv, out := s.out + HelloAck(h.blob)));
      var packets := Handshaken(c, before, h).1;
      assert packets[0] != s.out + HelloAck(h.blob);
    } else {
      hide HelloAck;
      assert [s.out + HelloAck(h.blob)] + [[SCMD_TRUSTED]] == [s.out + HelloAck(h.blob), [SCMD_TRUSTED]];
      assert [] + [SCMD_TRUSTED] == [SCMD_TRUSTED];
    }
  }

  /** A handshake in the clear leaves exactly the key and IV it handed to the peer. */
  lemma HandshakeSetsUp(c: Aes, s: Server, h: Handshake)
    requires Keyed(s) && !(s.trusted && h.encrypted)
    ensures Handshaken(c, s, h).0
            == Server(h.encrypted, true, if h.encrypted then h.key else s.key, if h.encrypted then h.iv else s.iv,
                      s.previousIV, [], s.pings)
  {
  }

  /** Where two IVs must agree for one to stand in for the other on a message. */
  predicate InterchangeableOn(iv: Block, other: Block, message: Bytes) {
    if |message| >= 16 then iv == other
    else iv[..|message|] == other[..|message|] && iv[15] == other[15]
  }

  /** Two messages that differ at i exactly where two IVs do, below k, and nowhere else. */
  lemma SamePrefix(bad: Bytes, good: Bytes, a: Block, b: Block, k: nat)
    requires |bad| == |good| && k <= |good| && k <= 16
    requires forall i | 0 <= i < k :: bad[i] == good[i] <==> a[i] == b[i]
    requires forall i | k <= i < |good| :: bad[i] == good[i]
    ensures bad == good <==> a[..k] == b[..k]
  {
    if a[..k] == b[..k] {
      forall i | 0 <= i < |good| ensures bad[i] == good[i] {
        if i < k {
          assert a[..k][i] == b[..k][i];
        }
      }
    }
  }

  /** What the server decrypts when the peer used another IV. */
  lemma Misread(c: Aes, key: Block, iv: Block, other: Block, message: Bytes)
    requires message != []
    ensures var bad := Decrypted(c, key, iv, Encrypted(c, key, other, message).value);
            && bad.Ok?
            && (|message| >= 16 ==> |bad.value| == |message|)
            && (|message| < 16 ==> (|bad.value| == |message| <==> iv[15] == other[15]))
            && (|bad.value| == |message| ==>
                  && (forall i | 0 <= i < |message| && i < 16 :: bad.value[i] == message[i] <==> iv[i] == other[i])
                  && (forall i | 16 <= i < |message| :: bad.value[i] == message[i]))
  {
    var sent := Encrypted(c, key, other, message).value;
    var n := |message|;
    RoundTrip(c, key, other, message);
    if n >= 16 {
      WrongIvLocality(c, key, other, iv, sent);
    } else {
      WrongIvOneBlock(c, key, other, iv, message);
      XorMoves((16 - n) as Byte, other[15], iv[15]);
    }
    var bad := Decrypted(c, key, iv, sent).value;
    forall i | 0 <= i < n && i < 16 && |bad| == n ensures bad[i] == message[i] <==> iv[i] == other[i] {
      XorMoves(message[i], other[i], iv[i]);
    }
  }

  /** A message the peer encrypted under another IV is accepted as sent exactly when the
      two IVs agree on the bytes that matter: in full from 16 bytes on. */
  lemma AcceptedAsSent(c: Aes, s: Server, other: Block, message: Bytes)
    requires Keyed(s) && s.encrypted && s.trusted && message != []
    ensures Receive(c, s, Encrypted(c, s.key, other, message).value) == Accepted(message)
            <==> InterchangeableOn(s.iv, other, message)
  {
    var iv: Block := s.iv;
    Misread(c, s.key, iv, other, message);
    var bad := Decrypted(c, s.key, iv, Encrypted(c, s.key, other, message).value).value;
    var k := if |message| < 16 then |message| else 16;
    if |bad| == |message| {
      SamePrefix(bad, message, iv, other, k);
      assert iv[..16] == iv && other[..16] == other;
    }
  }
}
