/**
 The records the backend appends to a frontend's outgoing buffer once the session
 is trusted, their bytes, and a reader for them.

 The reader stands for the game server's library, whose code is not in the
 repository; it is assumed to read the fields in the order they are written.
 */
module Outgoing {
  import opened Wrappers
  import opened Octets
  import opened Crypto
  import opened Message

  const SCMD_ERROR: Byte := 2
  const SCMD_PONG: Byte := 3
  const SCMD_COMMAND: Byte := 4
  const SCMD_SAY_CLIENT: Byte := 5
  const SCMD_SAY_ALL: Byte := 6
  const SCMD_KEY: Byte := 9

  datatype Record =
    | Error(client: Byte, severity: Byte, text: Text)
    | Pong
    | Command(text: Text)
    | SayClient(client: Byte, level: Byte, text: Text)
    | SayAll(level: Byte, text: Text)
    | Key(key: Block, iv: Block)

  /** The bytes of a record in front of its string. */
  function Header(r: Record): Bytes
    requires !r.Pong? && !r.Key?
  {
    match r
    case Error(client, severity, _) => [SCMD_ERROR, client, severity]
    case Command(_) => [SCMD_COMMAND]
    case SayClient(client, level, _) => [SCMD_SAY_CLIENT, client, level]
    case SayAll(level, _) => [SCMD_SAY_ALL, level]
  }

  function Encode(r: Record): (b: Bytes)
    ensures |b| > 0
  {
    match r
    case Pong => [SCMD_PONG]
    case Key(key, iv) => [SCMD_KEY] + key + iv
    case _ => Header(r) + Terminated(r.text)
  }

  function EncodeAll(rs: seq<Record>): Bytes {
    if rs == [] then [] else Encode(rs[0]) + EncodeAll(rs[1..])
  }

  function HeaderLength(op: Byte): Option<nat> {
    if op == SCMD_COMMAND then Some(1)
    else if op == SCMD_SAY_ALL then Some(2)
    else if op == SCMD_SAY_CLIENT || op == SCMD_ERROR then Some(3)
    else None
  }

  function Rebuild(header: Bytes, text: Text): Record
    requires |header| > 0 && HeaderLength(header[0]) == Some(|header|)
  {
    if header[0] == SCMD_COMMAND then Command(text)
    else if header[0] == SCMD_SAY_ALL then SayAll(header[1], text)
    else if header[0] == SCMD_SAY_CLIENT then SayClient(header[1], header[2], text)
    else Error(header[1], header[2], text)
  }

  /** The record at the front of the data and the bytes behind it. */
  function ReadRecord(data: Bytes): (r: Option<(Record, Bytes)>)
    requires data != []
    ensures r.Some? ==> |r.value.1| < |data|
  {
    if data[0] == SCMD_PONG then Some((Pong, data[1..]))
    else if data[0] == SCMD_KEY then
      if |data| < 33 then None else Some((Key(data[1..17], data[17..33]), data[33..]))
    else
      match HeaderLength(data[0])
      case None => None
      case Some(n) =>
        if |data| < n then None
        else
          match SplitText(data[n..])
          case None => None
          case Some(p) => Some((Rebuild(data[..n], p.0), p.1))
  }

  function DecodeAll(data: Bytes): Option<seq<Record>>
    decreases |data|
  {
    if data == [] then Some([])
    else
      match ReadRecord(data)
      case None => None
      case Some(p) =>
        match DecodeAll(p.1)
        case None => None
        case Some(rs) => Some([p.0] + rs)
  }

  /** Byte by byte, what the game server is sent. */
  lemma WireFormat(client: Byte, level: Byte, text: Text, key: Block, iv: Block)
    ensures Encode(Error(client, level, text)) == [2, client, level] + text + [0]
    ensures Encode(Pong) == [3]
    ensures Encode(Command(text)) == [4] + text + [0]
    ensures Encode(SayClient(client, level, text)) == [5, client, level] + text + [0]
    ensures Encode(SayAll(level, text)) == [6, level] + text + [0]
    ensures Encode(Key(key, iv)) == [9] + key + iv
  {
  }

  lemma ReadEncoded(r: Record, tail: Bytes)
    ensures ReadRecord(Encode(r) + tail) == Some((r, tail))
  {
    match r {
      case Pong => assert ([SCMD_PONG] + tail)[1..] == tail;
      case Key(key, iv) => ReadEncodedKey(key, iv, tail);
      case _ => ReadEncodedText(r, tail);
    }
  }

  lemma HeaderRebuilds(r: Record)
    requires !r.Pong? && !r.Key?
    ensures var header := Header(r);
            && header != [] && header[0] != SCMD_PONG && header[0] != SCMD_KEY
            && HeaderLength(header[0]) == Some(|header|) && Rebuild(header, r.text) == r
  {
  }

  lemma ReadEncodedText(r: Record, tail: Bytes)
    requires !r.Pong? && !r.Key?
    ensures ReadRecord(Header(r) + Terminated(r.text) + tail) == Some((r, tail))
  {
    HeaderRebuilds(r);
    TextAfter(Header(r), r.text, tail);
    hide Header, HeaderLength, Rebuild, SplitText, Terminated;
  }

  lemma ReadEncodedKey(key: Block, iv: Block, tail: Bytes)
    ensures ReadRecord(Encode(Key(key, iv)) + tail) == Some((Key(key, iv), tail))
  {
    var data := Encode(Key(key, iv)) + tail;
    assert data[1..17] == key && data[17..33] == iv && data[33..] == tail;
  }

  lemma {:induction false} EncodeAllAppend(a: seq<Record>, b: seq<Record>)
    ensures EncodeAll(a + b) == EncodeAll(a) + EncodeAll(b)
  {
    if a == [] {
      assert a + b == b;
    } else {
      assert (a + b)[1..] == a[1..] + b;
      EncodeAllAppend(a[1..], b);
    }
  }

  /** Reading the bytes of any list of records gives the list back. */
  lemma {:induction false} DecodeEncoded(rs: seq<Record>)
    ensures DecodeAll(EncodeAll(rs)) == Some(rs)
  {
    if rs != [] {
      ReadEncoded(rs[0], EncodeAll(rs[1..]));
      DecodeEncoded(rs[1..]);
      assert [rs[0]] + rs[1..] == rs;
    }
  }
}
