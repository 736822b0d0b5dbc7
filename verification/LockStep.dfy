/**
 The session as a protocol: the server, the packets in flight in order, and the
 game server at the other end, moving by atomic steps.

 The peer is not part of the repository. It is assumed to mirror SendMessages: after
 each packet its IV is the first 16 bytes of the ciphertext, and a Key record then
 installs the key and IV it carries.
 */
module LockStep {
  import opened Wrappers
  import opened Octets
  import opened Sequences
  import opened Crypto
  import opened Message
  import opened Outgoing
  import opened Session

  datatype Peer = Peer(encrypted: bool, key: Bytes, iv: Bytes)

  function Install(p: Peer, rs: seq<Record>): Peer
    decreases |rs|
  {
    if rs == [] then p
    else Install(if rs[0].Key? then p.(key := rs[0].key, iv := rs[0].iv) else p, rs[1..])
  }

  /** The records the peer reads from one packet, and the peer afterwards. */
  ghost function PeerReads(c: Aes, p: Peer, packet: Bytes): Option<(seq<Record>, Peer)> {
    var plain := if p.encrypted then Decrypted(c, p.key, p.iv, packet) else Ok(packet);
    if plain.Panic? || (p.encrypted && |packet| < 16) then None
    else
      match DecodeAll(plain.value)
      case None => None
      case Some(rs) => Some((rs, Install(if p.encrypted then p.(iv := packet[..16]) else p, rs)))
  }

  /** The peer's reading of a queue of packets, one list of records per packet. */
  ghost function Replay(c: Aes, p: Peer, wire: seq<Bytes>): Option<(seq<seq<Record>>, Peer)>
    decreases |wire|
  {
    if wire == [] then Some(([], p))
    else
      match PeerReads(c, p, wire[0])
      case None => None
      case Some(first) =>
        match Replay(c, first.1, wire[1..])
        case None => None
        case Some(rest) => Some(([first.0] + rest.0, rest.1))
  }

  /** What the emitters of backend/command.go write; only RotateKeys writes a Key. */
  type Plain = r: Record | !r.Key? witness Pong

  datatype Step =
    | Queue(r: Plain)
    | Send
    | Ping(newKey: Block, newIV: Block)
    | Deliver

  /** One connection. `joined` is the ping count it began with; `log` lists every record
      queued since, `pending` those still in the outgoing buffer, `sent` and `received` the
      records of each packet written and read. */
  datatype Net = Net(
    server: Server,
    wire: seq<Bytes>,
    peer: Peer,
    joined: nat,
    log: seq<Record>,
    pending: seq<Record>,
    sent: seq<seq<Record>>,
    received: seq<seq<Record>>,
    stuck: bool)

  /** The connection right after its handshake, the peer holding what the blob carried. A
      session that is not encrypted uses neither key nor IV, whatever they are. */
  ghost function Start(c: Aes, s: Server, h: Handshake): (n: Net)
    requires Keyed(s)
    ensures Keyed(n.server)
  {
    var peer := Peer(h.encrypted, if h.encrypted then h.key else s.key, if h.encrypted then h.iv else s.iv);
    Net(Handshaken(c, s, h).0, [], peer, s.pings, [], [], [], [], false)
  }

  predicate Rotates(s: Server) {
    s.encrypted && (s.pings + 1) % 64 == 0
  }

  /** The records a step queues. */
  function Queued(n: Net, step: Step): seq<Record> {
    match step
    case Queue(r) => [r]
    case Ping(k, v) => if Rotates(n.server) then [Pong, Key(k, v)] else [Pong]
    case _ => []
  }

  ghost function Next(c: Aes, n: Net, step: Step): Net
    requires Keyed(n.server)
  {
    var pending := n.pending + Queued(n, step);
    match step
    case Queue(r) =>
      n.(server := n.server.(out := n.server.out + Encode(r)), log := n.log + [r], pending := pending)
    case Send =>
      var (s, packets) := Flushed(c, n.server);
      n.(server := s, wire := n.wire + packets, pending := [],
         sent := n.sent + if packets == [] then [] else [pending])
    case Ping(k, v) =>
      var (s, packets) := Ponged(c, n.server, k, v);
      var log := n.log + Queued(n, step);
      if Rotates(n.server)
      then n.(server := s, wire := n.wire + packets, log := log, pending := [], sent := n.sent + [pending])
      else n.(server := s, log := log, pending := pending)
    case Deliver =>
      if n.wire == [] then n
      else
        match PeerReads(c, n.peer, n.wire[0])
        case None => n.(stuck := true)
        case Some(read) => n.(wire := n.wire[1..], peer := read.1, received := n.received + [read.0])
  }

  ghost function Run(c: Aes, n: Net, steps: seq<Step>): (r: Net)
    requires Keyed(n.server)
    ensures Keyed(r.server)
    decreases |steps|
  {
    if steps == [] then n else Run(c, Next(c, n, steps[0]), steps[1..])
  }

  function Flatten(rss: seq<seq<Record>>): seq<Record> {
    if rss == [] then [] else rss[0] + Flatten(rss[1..])
  }

  predicate NoKey(rs: seq<Record>) {
    forall i | 0 <= i < |rs| :: !rs[i].Key?
  }

  /** A Key record stands nowhere but at the end of its packet. */
  predicate KeyLast(rs: seq<Record>) {
    rs != [] && NoKey(rs[..|rs| - 1])
  }

  predicate AllKeyLast(rss: seq<seq<Record>>) {
    forall i | 0 <= i < |rss| :: KeyLast(rss[i])
  }

  lemma KeyLastOneMore(rss: seq<seq<Record>>, rs: seq<Record>)
    requires AllKeyLast(rss) && KeyLast(rs)
    ensures AllKeyLast(rss + [rs])
  {
  }

  function Keys(rss: seq<seq<Record>>): nat {
    if rss == [] then 0 else (if NoKey(rss[0]) then 0 else 1) + Keys(rss[1..])
  }

  // ---------------------------------------------------------------- the invariant

  /** The records: what was queued is what was sent followed by what is buffered. */
  predicate Accounted(n: Net) {
    && n.server.out == EncodeAll(n.pending) && NoKey(n.pending)
    && Flatten(n.sent) + n.pending == n.log
    && AllKeyLast(n.sent)
    && n.joined <= n.server.pings
    && Keys(n.sent) == (if n.server.encrypted then n.server.pings / 64 - n.joined / 64 else 0)
  }

  /** The keys: the packets in flight lead the peer to where the server is. */
  ghost predicate Synchronised(c: Aes, n: Net) {
    && !n.stuck
    && n.server.trusted && Keyed(n.server) && n.peer.encrypted == n.server.encrypted
    && var replay := Replay(c, n.peer, n.wire);
    && replay.Some?
    && n.received + replay.value.0 == n.sent
    && replay.value.1 == Peer(n.server.encrypted, n.server.key, n.server.iv)
    && (n.server.encrypted && n.wire != [] ==>
          var earlier := Replay(c, n.peer, n.wire[..|n.wire| - 1]);
          earlier.Some? && earlier.value.1.iv == n.server.previousIV)
  }

  ghost predicate InStep(c: Aes, n: Net) {
    Accounted(n) && Synchronised(c, n)
  }

  lemma {:induction false} ReplayOneMore(c: Aes, p: Peer, wire: seq<Bytes>, packet: Bytes)
    requires Replay(c, p, wire).Some? && PeerReads(c, Replay(c, p, wire).value.1, packet).Some?
    ensures var before := Replay(c, p, wire).value;
            var read := PeerReads(c, before.1, packet).value;
            Replay(c, p, wire + [packet]) == Some((before.0 + [read.0], read.1))
    decreases |wire|
  {
    hide PeerReads;
    var longer := wire + [packet];
    if wire == [] {
      ReplayOne(c, p, packet);
      assert longer == [packet];
      assert [] + [PeerReads(c, p, packet).value.0] == [PeerReads(c, p, packet).value.0];
    } else {
      var first := PeerReads(c, p, wire[0]).value;
      assert longer[0] == wire[0] && longer[1..] == wire[1..] + [packet];
      var rest := Replay(c, first.1, wire[1..]).value;
      var read := PeerReads(c, rest.1, packet).value;
      ReplayOneMore(c, first.1, wire[1..], packet);
      assert [first.0] + (rest.0 + [read.0]) == [first.0] + rest.0 + [read.0];
    }
  }

  lemma ReplayOne(c: Aes, p: Peer, packet: Bytes)
    requires PeerReads(c, p, packet).Some?
    ensures var read := PeerReads(c, p, packet).value;
            Replay(c, p, [packet]) == Some(([read.0], read.1))
  {
    var read := PeerReads(c, p, packet).value;
    assert [packet][1..] == [];
    assert Replay(c, read.1, []) == Some(([], read.1));
    assert [read.0] + [] == [read.0];
  }

  lemma {:induction false} FlattenOneMore(rss: seq<seq<Record>>, rs: seq<Record>)
    ensures Flatten(rss + [rs]) == Flatten(rss) + rs
  {
    if rss == [] {
      assert Flatten([rs]) == rs + Flatten([rs][1..]);
    } else {
      assert (rss + [rs])[1..] == rss[1..] + [rs];
      FlattenOneMore(rss[1..], rs);
    }
  }

  lemma {:induction false} KeysOneMore(rss: seq<seq<Record>>, rs: seq<Record>)
    ensures Keys(rss + [rs]) == Keys(rss) + (if NoKey(rs) then 0 else 1)
  {
    if rss != [] {
      assert (rss + [rs])[1..] == rss[1..] + [rs];
      KeysOneMore(rss[1..], rs);
    }
  }

  lemma {:induction false} InstallNoKey(p: Peer, rs: seq<Record>)
    requires NoKey(rs)
    ensures Install(p, rs) == p
    decreases |rs|
  {
    if rs != [] {
      InstallNoKey(p, rs[1..]);
    }
  }

  lemma {:induction false} InstallKeyLast(p: Peer, rs: seq<Record>, k: Block, v: Block)
    requires NoKey(rs)
    ensures Install(p, rs + [Key(k, v)]) == p.(key := k, iv := v)
    decreases |rs|
  {
    if rs == [] {
      assert [Key(k, v)][1..] == [];
    } else {
      assert (rs + [Key(k, v)])[1..] == rs[1..] + [Key(k, v)];
      InstallKeyLast(p, rs[1..], k, v);
    }
  }

  /** A peer with the server's key and IV reads a flushed packet as what was queued. */
  lemma FlushedIsRead(c: Aes, s: Server, p: Peer, rs: seq<Record>)
    requires Keyed(s) && s.trusted && rs != []
    requires p.encrypted == s.encrypted && p.key == s.key && p.iv == s.iv
    requires s.out == EncodeAll(rs)
    ensures var (s', packets) := Flushed(c, s);
            && |packets| == 1
            && PeerReads(c, p, packets[0]) == Some((rs, Install(p.(iv := s'.iv), rs)))
  {
    DecodeEncoded(rs);
    if s.encrypted {
      RoundTrip(c, s.key, s.iv, s.out);
    } else {
      assert p.(iv := s.iv) == p;
    }
  }

  // ---------------------------------------------------------------- each step

  lemma QueueKeepsStep(c: Aes, n: Net, r: Plain)
    requires InStep(c, n)
    ensures InStep(c, Next(c, n, Queue(r)))
  {
    EncodeAllAppend(n.pending, [r]);
    EncodeOne(r);
  }

  /** The common part of Send and of a rotating Ping. */
  lemma FlushKeepsReplay(c: Aes, n: Net, out: seq<Record>)
    requires InStep(c, n) && out != []
    ensures var s := n.server.(out := EncodeAll(out));
            var (s', packets) := Flushed(c, s);
            var before := Replay(c, n.peer, n.wire).value;
            && |packets| == 1
            && Replay(c, n.peer, n.wire + packets)
               == Some((before.0 + [out], Install(before.1.(iv := s'.iv), out)))
            && (n.wire + packets)[..|n.wire|] == n.wire
  {
    var s := n.server.(out := EncodeAll(out));
    var before := Replay(c, n.peer, n.wire).value;
    FlushedIsRead(c, s, before.1, out);
    ReplayOneMore(c, n.peer, n.wire, Flushed(c, s).1[0]);
    assert n.wire + Flushed(c, s).1 == n.wire + [Flushed(c, s).1[0]];
  }

  lemma SendAccounted(c: Aes, n: Net)
    requires Keyed(n.server) && Accounted(n) && n.pending != []
    ensures Accounted(Next(c, n, Send))
  {
    FlattenOneMore(n.sent, n.pending);
    KeysOneMore(n.sent, n.pending);
    KeyLastOneMore(n.sent, n.pending);
    assert n.pending + [] == n.pending;
    assert EncodeAll(n.pending) != [];
    assert EncodeAll([]) == [] && NoKey([]);
    hide Flatten, Keys, EncodeAll, Encrypted, AllKeyLast, KeyLast, NoKey;
    assert Flatten(n.sent) + n.pending == Flatten(n.sent) + n.pending + [];
  }

  lemma SendSynchronised(c: Aes, n: Net)
    requires InStep(c, n) && n.pending != []
    ensures Synchronised(c, Next(c, n, Send))
  {
    FlushKeepsReplay(c, n, n.pending);
    var before := Replay(c, n.peer, n.wire).value;
    var s' := Flushed(c, n.server).0;
    assert n.server.(out := EncodeAll(n.pending)) == n.server;
    InstallNoKey(before.1.(iv := s'.iv), n.pending);
    assert n.pending + [] == n.pending;
    hide Replay, PeerReads, Install, EncodeAll, Encrypted, Flatten, Keys;
    assert n.received + (before.0 + [n.pending]) == n.sent + [n.pending];
  }

  lemma SendKeepsStep(c: Aes, n: Net)
    requires InStep(c, n)
    ensures InStep(c, Next(c, n, Send))
  {
    if n.pending == [] {
      assert n.wire + [] == n.wire && n.sent + [] == n.sent;
      assert Next(c, n, Send) == n;
    } else {
      SendAccounted(c, n);
      SendSynchronised(c, n);
    }
  }

  lemma EncodeOne(r: Record)
    ensures EncodeAll([r]) == Encode(r)
  {
    assert [r][1..] == [];
    assert EncodeAll([r]) == Encode(r) + EncodeAll([]);
  }

  lemma EncodePong(pending: seq<Record>)
    ensures EncodeAll(pending + [Pong]) == EncodeAll(pending) + Encode(Pong)
  {
    EncodeAllAppend(pending, [Pong]);
    EncodeOne(Pong);
  }

  /** A rotating ping is a flush of the buffer with Pong and Key appended, after which
      the new key and IV are installed. */
  lemma RotationIsFlush(c: Aes, s: Server, pending: seq<Record>, k: Block, v: Block)
    requires Keyed(s) && Rotates(s) && s.out == EncodeAll(pending)
    ensures var full := s.(out := EncodeAll(pending + [Pong, Key(k, v)]));
            var (s', packets) := Flushed(c, full);
            Ponged(c, s, k, v) == (s'.(pings := s.pings + 1, key := k, iv := v), packets)
  {
    EncodePong(pending);
    EncodeAllAppend(pending + [Pong], [Key(k, v)]);
    EncodeOne(Key(k, v));
    assert pending + [Pong] + [Key(k, v)] == pending + [Pong, Key(k, v)];
    assert EncodeAll(pending + [Pong, Key(k, v)]) == s.out + Encode(Pong) + Encode(Key(k, v));
  }

  lemma RotationKeyLast(p: Peer, pending: seq<Record>, k: Block, v: Block)
    requires NoKey(pending)
    ensures var out := pending + [Pong, Key(k, v)];
            KeyLast(out) && !NoKey(out) && Install(p, out) == p.(key := k, iv := v)
  {
    var out := pending + [Pong, Key(k, v)];
    assert out[|out| - 1].Key? && out[..|out| - 1] == pending + [Pong];
    assert out == pending + [Pong] + [Key(k, v)];
    InstallKeyLast(p, pending + [Pong], k, v);
  }

  lemma FlushEmpties(c: Aes, s: Server)
    requires Keyed(s)
    ensures var s' := Flushed(c, s).0;
            s'.out == [] && s'.pings == s.pings && s'.encrypted == s.encrypted
  {
  }

  /** What a rotating ping does to the books. */
  lemma RotationBooks(c: Aes, n: Net, k: Block, v: Block)
    requires Keyed(n.server) && n.server.out == EncodeAll(n.pending) && Rotates(n.server)
    ensures var n' := Next(c, n, Ping(k, v));
            && n'.pending == [] && n'.sent == n.sent + [n.pending + [Pong, Key(k, v)]]
            && n'.log == n.log + [Pong, Key(k, v)]
            && n'.joined == n.joined
            && n'.server.out == [] && n'.server.pings == n.server.pings + 1
            && n'.server.encrypted == n.server.encrypted
  {
    RotationIsFlush(c, n.server, n.pending, k, v);
    FlushEmpties(c, n.server.(out := EncodeAll(n.pending + [Pong, Key(k, v)])));
    hide EncodeAll, Flushed, Ponged;
  }

  lemma RotationAccounted(c: Aes, n: Net, k: Block, v: Block)
    requires Keyed(n.server) && Accounted(n) && Rotates(n.server)
    ensures Accounted(Next(c, n, Ping(k, v)))
  {
    var out := n.pending + [Pong, Key(k, v)];
    NothingPending();
    hide EncodeAll, Flatten, Keys, Install, AllKeyLast, KeyLast, NoKey, Next;
    RotationBooks(c, n, k, v);
    RotationKeyLast(Peer(true, [], []), n.pending, k, v);
    FlattenOneMore(n.sent, out);
    KeysOneMore(n.sent, out);
    KeyLastOneMore(n.sent, out);
    var n' := Next(c, n, Ping(k, v));
    Concat(Flatten(n.sent), n.pending, [Pong, Key(k, v)]);
    assert Flatten(n'.sent) + n'.pending == Flatten(n.sent) + out;
    assert (n.server.pings + 1) / 64 == n.server.pings / 64 + 1;
  }

  lemma NothingPending()
    ensures EncodeAll([]) == [] && NoKey([])
  {
  }

  lemma RotationSynchronised(c: Aes, n: Net, k: Block, v: Block)
    requires InStep(c, n) && Rotates(n.server)
    ensures Synchronised(c, Next(c, n, Ping(k, v)))
  {
    var out := n.pending + [Pong, Key(k, v)];
    var full := n.server.(out := EncodeAll(out));
    var before := Replay(c, n.peer, n.wire).value;
    hide EncodeAll, Flatten, Keys, PeerReads, Install, Encrypted, KeyLast, AllKeyLast;
    RotationIsFlush(c, n.server, n.pending, k, v);
    FlushKeepsReplay(c, n, out);
    RotationKeyLast(before.1.(iv := Flushed(c, full).0.iv), n.pending, k, v);
    hide Replay, NoKey;
    assert n.received + (before.0 + [out]) == n.sent + [out];
  }

  lemma RotationKeepsStep(c: Aes, n: Net, k: Block, v: Block)
    requires InStep(c, n) && Rotates(n.server)
    ensures InStep(c, Next(c, n, Ping(k, v)))
  {
    RotationAccounted(c, n, k, v);
    RotationSynchronised(c, n, k, v);
    hide Accounted, Synchronised, Next;
  }

  lemma PingKeepsStep(c: Aes, n: Net, k: Block, v: Block)
    requires InStep(c, n)
    ensures InStep(c, Next(c, n, Ping(k, v)))
  {
    if Rotates(n.server) {
      RotationKeepsStep(c, n, k, v);
    } else {
      EncodePong(n.pending);
      assert Ponged(c, n.server, k, v)
             == (n.server.(pings := n.server.pings + 1, out := n.server.out + Encode(Pong)), []);
      hide Ponged, Replay, EncodeAll, Flatten, Keys, AllKeyLast;
    }
  }

  lemma DeliverKeepsStep(c: Aes, n: Net)
    requires InStep(c, n)
    ensures InStep(c, Next(c, n, Deliver))
  {
    hide PeerReads, EncodeAll, Flatten, Keys;
    if n.wire != [] {
      var read := PeerReads(c, n.peer, n.wire[0]).value;
      var rest := Replay(c, read.1, n.wire[1..]).value;
      assert n.received + ([read.0] + rest.0) == n.received + [read.0] + rest.0;
      if |n.wire| > 1 {
        var shorter := n.wire[..|n.wire| - 1];
        assert shorter[0] == n.wire[0] && shorter[1..] == n.wire[1..][..|n.wire| - 2];
      }
      PeerKeepsMode(c, n.peer, n.wire[0]);
    }
  }

  lemma {:induction false} InstallKeepsMode(p: Peer, rs: seq<Record>)
    ensures Install(p, rs).encrypted == p.encrypted
    decreases |rs|
  {
    if rs != [] {
      InstallKeepsMode(if rs[0].Key? then p.(key := rs[0].key, iv := rs[0].iv) else p, rs[1..]);
    }
  }

  lemma PeerKeepsMode(c: Aes, p: Peer, packet: Bytes)
    ensures PeerReads(c, p, packet).Some? ==> PeerReads(c, p, packet).value.1.encrypted == p.encrypted
  {
    var read := PeerReads(c, p, packet);
    if read.Some? {
      InstallKeepsMode(if p.encrypted then p.(iv := packet[..16]) else p, read.value.0);
    }
  }

  lemma StepKeepsStep(c: Aes, n: Net, step: Step)
    requires InStep(c, n)
    ensures InStep(c, Next(c, n, step))
  {
    match step {
      case Queue(r) => QueueKeepsStep(c, n, r);
      case Send => SendKeepsStep(c, n);
      case Ping(k, v) => PingKeepsStep(c, n, k, v);
      case Deliver => DeliverKeepsStep(c, n);
    }
  }

  lemma {:induction false} RunKeepsStep(c: Aes, n: Net, steps: seq<Step>)
    requires InStep(c, n)
    ensures InStep(c, Run(c, n, steps))
    decreases |steps|
  {
    if steps != [] {
      StepKeepsStep(c, n, steps[0]);
      RunKeepsStep(c, Next(c, n, steps[0]), steps[1..]);
    }
  }

  // ---------------------------------------------------------------- whole runs

  /** Lock-step: in every run of a connection whose handshake was in the clear, whatever the
      connections before left in the frontend, replaying the packets in flight from
      the peer gives the server's key and IV, and the records read so far, followed by
      those the replay reads, are the records of the packets sent. */
  lemma LockStepHolds(c: Aes, s: Server, h: Handshake, steps: seq<Step>)
    requires Keyed(s) && !(s.trusted && h.encrypted)
    ensures var n := Run(c, Start(c, s, h), steps);
            var replay := Replay(c, n.peer, n.wire);
            && !n.stuck && replay.Some?
            && replay.value.1 == Peer(h.encrypted, n.server.key, n.server.iv)
            && n.received + replay.value.0 == n.sent
            && Flatten(n.sent) + n.pending == n.log
            && n.server.out == EncodeAll(n.pending)
  {
    StartInStep(c, s, h);
    RunKeepsStep(c, Start(c, s, h), steps);
    ModeIsFixed(c, Start(c, s, h), steps);
  }

  lemma {:induction false} ModeIsFixed(c: Aes, n: Net, steps: seq<Step>)
    requires Keyed(n.server)
    ensures Run(c, n, steps).server.encrypted == n.server.encrypted && Run(c, n, steps).joined == n.joined
    decreases |steps|
  {
    if steps != [] {
      ModeIsFixed(c, Next(c, n, steps[0]), steps[1..]);
    }
  }

  /** A Key record is the last of its packet, and there is one such packet for each time
      the ping count, which runs on from earlier connections, passes a multiple of 64 in
      an encrypted session, none otherwise. */
  lemma KeyEndsItsPacket(c: Aes, s: Server, h: Handshake, steps: seq<Step>)
    requires Keyed(s) && !(s.trusted && h.encrypted)
    ensures var n := Run(c, Start(c, s, h), steps);
            && AllKeyLast(n.sent)
            && Keys(n.sent) == (if h.encrypted then n.server.pings / 64 - s.pings / 64 else 0)
  {
    StartInStep(c, s, h);
    RunKeepsStep(c, Start(c, s, h), steps);
    ModeIsFixed(c, Start(c, s, h), steps);
  }

  ghost function Drain(c: Aes, n: Net): Net
    requires InStep(c, n)
    decreases |n.wire|
  {
    DeliverKeepsStep(c, n);
    if n.wire == [] then n else Drain(c, Next(c, n, Deliver))
  }

  /** Once everything in flight has been delivered the peer has read exactly what was
      queued and not still buffered, and shares the server's key and IV. */
  lemma {:induction false} DrainedInStep(c: Aes, n: Net)
    requires InStep(c, n)
    ensures var d := Drain(c, n);
            && d.wire == []
            && Flatten(d.received) + n.pending == n.log
            && d.peer == Peer(n.server.encrypted, n.server.key, n.server.iv)
    decreases |n.wire|
  {
    if n.wire == [] {
      assert n.received + [] == n.sent;
      assert n.received == n.sent;
    } else {
      DeliverKeepsStep(c, n);
      DrainedInStep(c, Next(c, n, Deliver));
    }
  }

  lemma DrainedOverRuns(c: Aes, s: Server, h: Handshake, steps: seq<Step>)
    requires Keyed(s) && !(s.trusted && h.encrypted)
    ensures var n := Run(c, Start(c, s, h), steps);
            && InStep(c, n)
            && Flatten(Drain(c, n).received) + n.pending == n.log
            && Drain(c, n).peer == Peer(h.encrypted, n.server.key, n.server.iv)
  {
    hide Synchronised, Accounted;
    StartInStep(c, s, h);
    RunKeepsStep(c, Start(c, s, h), steps);
    ModeIsFixed(c, Start(c, s, h), steps);
    DrainedInStep(c, Run(c, Start(c, s, h), steps));
  }

  /** The window the receive loop counts on: while at most one packet is in flight, and
      it carries no key, the peer uses the server's key and its current or previous IV. */
  lemma IvWindow(c: Aes, n: Net)
    requires InStep(c, n) && n.server.encrypted && |n.wire| <= 1
    requires n.wire != [] ==> NoKey(n.sent[|n.sent| - 1])
    ensures n.peer.key == n.server.key
    ensures n.peer.iv == (if n.wire == [] then n.server.iv else n.server.previousIV)
  {
    var replay := Replay(c, n.peer, n.wire).value;
    if n.wire != [] {
      var read := PeerReads(c, n.peer, n.wire[0]).value;
      assert Replay(c, read.1, n.wire[1..]).value == ([], read.1);
      assert n.sent[|n.sent| - 1] == (n.received + replay.0)[|n.sent| - 1] == read.0;
      InstallNoKey(n.peer.(iv := n.wire[0][..16]), read.0);
      assert Replay(c, n.peer, n.wire[..0]).value.1 == n.peer;
    }
  }

  /** What the window is worth to the receive loop: with nothing in flight every message
      of the peer is accepted as sent; with one packet in flight only when the two IVs
      can stand in for each other, because the retry never succeeds. */
  lemma WindowOnReceive(c: Aes, n: Net, message: Bytes)
    requires InStep(c, n) && n.server.encrypted && |n.wire| <= 1 && message != []
    requires n.wire != [] ==> NoKey(n.sent[|n.sent| - 1])
    ensures |n.peer.iv| == 16
    ensures var sent := Encrypted(c, n.peer.key, n.peer.iv, message).value;
            var accepted := Receive(c, n.server, sent) == Accepted(message);
            && (n.wire == [] ==> accepted)
            && (n.wire != [] ==> (accepted <==> InterchangeableOn(n.server.iv, n.server.previousIV, message)))
  {
    IvWindow(c, n);
    if n.wire != [] {
      assert PeerReads(c, n.peer, n.wire[0]).Some?;
    }
    AcceptedAsSent(c, n.server, n.peer.iv, message);
  }

  /** The same for every run of an encrypted session from its handshake. */
  lemma WindowOverRuns(c: Aes, s: Server, h: Handshake, steps: seq<Step>, message: Bytes)
    requires Keyed(s) && !s.trusted && h.encrypted && message != []
    ensures var n := Run(c, Start(c, s, h), steps);
            |n.wire| == 0 ==>
              && |n.peer.key| == 16 && |n.peer.iv| == 16
              && n.peer.key == n.server.key && n.peer.iv == n.server.iv
              && Receive(c, n.server, Encrypted(c, n.peer.key, n.peer.iv, message).value) == Accepted(message)
    ensures var n := Run(c, Start(c, s, h), steps);
            |n.wire| == 1 && n.sent != [] && NoKey(n.sent[|n.sent| - 1]) ==>
              && |n.peer.key| == 16 && |n.peer.iv| == 16 && |n.server.iv| == 16
              && n.peer.key == n.server.key && n.peer.iv == n.server.previousIV
              && (Receive(c, n.server, Encrypted(c, n.peer.key, n.peer.iv, message).value) == Accepted(message)
                  <==> InterchangeableOn(n.server.iv, n.server.previousIV, message))
  {
    hide Synchronised, Accounted, Receive;
    var start := Start(c, s, h);
    StartInStep(c, s, h);
    RunKeepsStep(c, start, steps);
    ModeIsFixed(c, start, steps);
    var n := Run(c, start, steps);
    if n.wire == [] || (|n.wire| == 1 && n.sent != [] && NoKey(n.sent[|n.sent| - 1])) {
      PacketsInFlightWereSent(c, n);
      InStepKeyed(c, n);
      IvWindow(c, n);
      WindowOnReceive(c, n, message);
    }
  }

  /** What the peer sends for a message: it encrypts as the server does, if at all. */
  ghost function PeerSends(c: Aes, p: Peer, message: Bytes): Bytes
    requires p.encrypted ==> |p.key| == 16 && |p.iv| == 16
  {
    if p.encrypted then Encrypted(c, p.key, p.iv, message).value else message
  }

  /** A session that is not encrypted needs no window: in every run, whatever is in flight,
      the peer sends its messages as they are, and each is accepted as sent. */
  lemma ClearSessions(c: Aes, s: Server, h: Handshake, steps: seq<Step>, message: Bytes)
    requires Keyed(s) && !h.encrypted
    ensures var n := Run(c, Start(c, s, h), steps);
            && !n.peer.encrypted && PeerSends(c, n.peer, message) == message
            && Receive(c, n.server, message) == Accepted(message)
  {
    StartInStep(c, s, h);
    RunKeepsStep(c, Start(c, s, h), steps);
    ModeIsFixed(c, Start(c, s, h), steps);
  }

  lemma StartInStep(c: Aes, s: Server, h: Handshake)
    requires Keyed(s) && !(s.trusted && h.encrypted)
    ensures InStep(c, Start(c, s, h))
  {
    HandshakeSetsUp(c, s, h);
  }

  lemma InStepKeyed(c: Aes, n: Net)
    requires InStep(c, n) && n.server.encrypted
    ensures |n.server.key| == 16 && |n.server.iv| == 16
  {
  }

  lemma PacketsInFlightWereSent(c: Aes, n: Net)
    requires InStep(c, n)
    ensures n.wire != [] ==> n.sent != []
  {
    if n.wire != [] {
      assert Replay(c, n.peer, n.wire).value.0 != [];
    }
  }

  // ---------------------------------------------------------------- the next connection

  /** After a connection in step, the next one begins in step when its handshake is in the
      clear: unless the last ended on input that could not be decrypted and the next one
      is encrypted. Then the handshake itself is encrypted under the key it carries, and
      the peer has no key to read it with. Even one that came by key and IV in another way
      would be in step only if the IV moved on by the handshake came back to that one. */
  lemma NextConnection(c: Aes, n: Net, e: Ending, h: Handshake)
    requires InStep(c, n)
    ensures var next := Start(c, Ended(n.server, e), h);
            && (Handshaken(c, Ended(n.server, e), h).1 == [n.server.out + HelloAck(h.blob), [SCMD_TRUSTED]]
                <==> !(e == Undecryptable && h.encrypted))
            && (!(e == Undecryptable && h.encrypted) ==> InStep(c, next))
            && (e == Undecryptable && h.encrypted ==> (InStep(c, next) <==> next.server.iv == h.iv))
  {
    var s := Ended(n.server, e);
    HandshakeInTheClear(c, n.server, e, h);
    if e == Undecryptable && h.encrypted {
      LateHandshake(c, s, h);
    } else {
      StartInStep(c, s, h);
    }
  }

  lemma LateHandshake(c: Aes, s: Server, h: Handshake)
    requires Keyed(s) && s.trusted && h.encrypted
    ensures InStep(c, Start(c, s, h)) <==> Handshaken(c, s, h).0.iv == h.iv
  {
    var s' := Handshaken(c, s, h).0;
    hide Encrypted, HelloAck;
    assert s'.out == [] && s'.encrypted && s'.trusted && s'.key == h.key && s'.pings == s.pings;
    assert EncodeAll([]) == [];
  }

  /** Under the cipher that changes nothing, no IV comes back: a frontend left trusted is
      out of step after every encrypted handshake. */
  lemma LateHandshakeOutOfStep(s: Server, h: Handshake)
    requires Keyed(s) && s.trusted && h.encrypted && s.out == []
    ensures !InStep(Transparent(), Start(Transparent(), s, h))
  {
    var c := Transparent();
    LateHandshake(c, s, h);
    var keyed := s.(encrypted := true, key := h.key, iv := h.iv, out := HelloAck(h.blob));
    var first := Flushed(c, keyed).0;
    FlushUnchanged(keyed);
    FlushUnchanged(first.(out := [SCMD_TRUSTED]));
    assert [] + HelloAck(h.blob) == HelloAck(h.blob) && [] + [SCMD_TRUSTED] == [SCMD_TRUSTED];
    var i, ack := h.iv[0], SCMD_HELLO_ACK;
    assert Handshaken(c, s, h).0.iv[0] == Xor(SCMD_TRUSTED, Xor(ack, i));
    TwoBytes(SCMD_TRUSTED, ack, i);
  }

  lemma TwoBytes(a: Byte, b: Byte, i: Byte)
    ensures Xor(a, Xor(b, i)) == i <==> a == b
  {
    BitsCommute(a as int, Xor(b, i) as int);
    BitsCommute(b as int, i as int);
    XorMoves(i, b, a);
  }

  function Transparent(): Aes {
    BlockCipher((k, b) => b, (k, b) => b)
  }

  lemma FlushUnchanged(s: Server)
    requires Keyed(s) && s.trusted && s.encrypted && s.out != []
    ensures Flushed(Transparent(), s).0.iv[0] == Xor(s.out[0], s.iv[0])
  {
    var padded := PKCS5Padding(s.out, 16);
    assert padded[..16][0] == padded[0] == s.out[0];
    var cipher := CbcEncrypt(Transparent(), s.key, s.iv, padded);
    assert cipher[..16] == XorBlock(padded[..16], s.iv);
  }
}
