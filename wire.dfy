/** The wire format as values: how each read and write of the two runtimes moves through a byte
    region, and the layout of `Pos` and of the five tagged messages. The C++ and JS runtimes
    are proved against these functions. */
module Wire {
  import opened Bytes
  import Varint

  /** A fixed-width scalar of `width` bytes at `off`; too few bytes throw with the cursor
      unchanged. */
  function ParseScalar(s: seq<byte>, off: nat, width: nat): (r: Step<seq<byte>>)
    requires off <= |s|
    ensures r.Done? ==> r.next == off + width <= |s| && r.value == s[off..off + width]
    ensures r.Fail? <==> |s| < off + width
    ensures r.Fail? ==> r.at == off
  {
    if |s| < off + width then Fail(off) else Done(s[off..off + width], off + width)
  }

  /** A length-prefixed string: the varint of its length, then its bytes. */
  function EncodeString(t: seq<byte>): seq<byte>
  {
    Varint.Encode(|t|) + t
  }

  /** Reading a string: a varint length `n`, then `n` bytes. A missing length throws where the
      varint read threw; too few bytes throw with the cursor just past the length prefix. */
  function ParseString(s: seq<byte>, off: nat): (r: Step<seq<byte>>)
    requires off <= |s|
    ensures r.Done? ==> off + |r.value| < r.next <= |s| && r.value == s[r.next - |r.value|..r.next]
    ensures r.Fail? ==> off < r.at <= |s| || r.at == off == |s|
  {
    match Varint.Decode(s, off)
    case Fail(at) => Fail(at)
    case Done(n, k) => if |s| < k + n then Fail(k) else Done(s[k..k + n], k + n)
  }

  /** Two doubles, x then y. */
  datatype Pos = Pos(x: Float64, y: Float64)

  function EncodePos(p: Pos): seq<byte>
  {
    p.x + p.y
  }

  function ParsePos(s: seq<byte>, off: nat): (r: Step<Pos>)
    requires off <= |s|
    ensures r.Done? ==> r.next == off + 16 <= |s|
    ensures r.Fail? ==> off <= r.at <= |s|
  {
    match ParseScalar(s, off, 8)
    case Fail(at) => Fail(at)
    case Done(x, k) =>
      match ParseScalar(s, k, 8)
      case Fail(at) => Fail(at)
      case Done(y, k') => Done(Pos(x, y), k')
  }

  /** The five messages of the sample protocol. */
  datatype Message =
    | ClientRegisterMsg(name: seq<byte>)
    | ServerRegisterMsg
    | ClientUpdateMsg(pos: Pos)
    | ServerUpdateMsg(userId: seq<byte>, name: seq<byte>, pos: Pos)
    | ServerDeleteMsg(userId: seq<byte>)

  /** The five message types; a reader is chosen by the type of the value it reads into. */
  datatype MsgType = ClientRegister | ServerRegister | ClientUpdate | ServerUpdate | ServerDelete

  function TypeOf(m: Message): MsgType
  {
    match m
    case ClientRegisterMsg(_) => ClientRegister
    case ServerRegisterMsg => ServerRegister
    case ClientUpdateMsg(_) => ClientUpdate
    case ServerUpdateMsg(_, _, _) => ServerUpdate
    case ServerDeleteMsg(_) => ServerDelete
  }

  /** Each message type's `id_` constant. */
  function Tag(t: MsgType): byte
  {
    match t
    case ClientRegister => 0
    case ServerRegister => 1
    case ClientUpdate => 2
    case ServerUpdate => 3
    case ServerDelete => 4
  }

  /** The tags are 0 to 4, one per message type. */
  lemma TagsDistinct(a: MsgType, b: MsgType)
    ensures Tag(a) < 5
    ensures Tag(a) == Tag(b) <==> a == b
  {
  }

  function Id(m: Message): byte
  {
    Tag(TypeOf(m))
  }

  /** The fields of a message, in declared order. */
  function EncodeFields(m: Message): seq<byte>
  {
    match m
    case ClientRegisterMsg(name) => EncodeString(name)
    case ServerRegisterMsg => []
    case ClientUpdateMsg(pos) => EncodePos(pos)
    case ServerUpdateMsg(userId, name, pos) => EncodeString(userId) + EncodeString(name) + EncodePos(pos)
    case ServerDeleteMsg(userId) => EncodeString(userId)
  }

  /** What a message's writer appends: its tag byte, then its fields. */
  function Encode(m: Message): seq<byte>
  {
    [Id(m)] + EncodeFields(m)
  }

  function ParseClientRegisterMsg(s: seq<byte>, off: nat): Step<Message>
    requires off <= |s|
  {
    match ParseString(s, off)
    case Fail(at) => Fail(at)
    case Done(name, k) => Done(ClientRegisterMsg(name), k)
  }

  function ParseServerRegisterMsg(s: seq<byte>, off: nat): Step<Message>
    requires off <= |s|
  {
    Done(ServerRegisterMsg, off)
  }

  function ParseClientUpdateMsg(s: seq<byte>, off: nat): Step<Message>
    requires off <= |s|
  {
    match ParsePos(s, off)
    case Fail(at) => Fail(at)
    case Done(pos, k) => Done(ClientUpdateMsg(pos), k)
  }

  function ParseServerUpdateMsg(s: seq<byte>, off: nat): Step<Message>
    requires off <= |s|
  {
    match ParseString(s, off)
    case Fail(at) => Fail(at)
    case Done(userId, k1) =>
      match ParseString(s, k1)
      case Fail(at) => Fail(at)
      case Done(name, k2) =>
        match ParsePos(s, k2)
        case Fail(at) => Fail(at)
        case Done(pos, k3) => Done(ServerUpdateMsg(userId, name, pos), k3)
  }

  function ParseServerDeleteMsg(s: seq<byte>, off: nat): Step<Message>
    requires off <= |s|
  {
    match ParseString(s, off)
    case Fail(at) => Fail(at)
    case Done(userId, k) => Done(ServerDeleteMsg(userId), k)
  }

  /** The reader for type `t`: the overload the caller picks by the type of the value it reads
      into. None of them reads a tag. */
  function ParseAs(t: MsgType, s: seq<byte>, off: nat): Step<Message>
    requires off <= |s|
  {
    match t
    case ClientRegister => ParseClientRegisterMsg(s, off)
    case ServerRegister => ParseServerRegisterMsg(s, off)
    case ClientUpdate => ParseClientUpdateMsg(s, off)
    case ServerUpdate => ParseServerUpdateMsg(s, off)
    case ServerDelete => ParseServerDeleteMsg(s, off)
  }

  // ---------------------------------------------------------------------------------------
  // Round trips

  lemma ParseStringEncode(s: seq<byte>, off: nat, t: seq<byte>)
    requires At(s, off, EncodeString(t))
    ensures ParseString(s, off) == Done(t, off + |EncodeString(t)|)
  {
    AtAppend(s, off, Varint.Encode(|t|), t);
    Varint.DecodeEncode(s, off, |t|);
  }

  lemma ParsePosEncode(s: seq<byte>, off: nat, p: Pos)
    requires At(s, off, EncodePos(p))
    ensures ParsePos(s, off) == Done(p, off + 16)
  {
    AtAppend(s, off, p.x, p.y);
  }

  /** Reading `m`'s fields with the reader of its own type gives `m` back and consumes exactly
      the encoded fields, whatever follows them. */
  lemma ParseAsEncodeFields(s: seq<byte>, off: nat, m: Message)
    requires At(s, off, EncodeFields(m))
    ensures ParseAs(TypeOf(m), s, off) == Done(m, off + |EncodeFields(m)|)
  {
    match m
    case ClientRegisterMsg(name) =>
      ParseStringEncode(s, off, name);
    case ServerRegisterMsg =>
    case ClientUpdateMsg(pos) =>
      ParsePosEncode(s, off, pos);
    case ServerUpdateMsg(userId, name, pos) =>
      ParseServerUpdateEncode(s, off, userId, name, pos);
    case ServerDeleteMsg(userId) =>
      ParseStringEncode(s, off, userId);
  }

  lemma ParseServerUpdateEncode(s: seq<byte>, off: nat, userId: seq<byte>, name: seq<byte>, pos: Pos)
    requires At(s, off, EncodeString(userId) + EncodeString(name) + EncodePos(pos))
    ensures ParseServerUpdateMsg(s, off) ==
      Done(ServerUpdateMsg(userId, name, pos), off + |EncodeString(userId) + EncodeString(name) + EncodePos(pos)|)
  {
    var a, b, c := EncodeString(userId), EncodeString(name), EncodePos(pos);
    assert a + b + c == a + (b + c);
    AtAppend(s, off, a, b + c);
    ParseStringEncode(s, off, userId);
    var k1 := off + |a|;
    ParseNamePosEncode(s, k1, name, pos);
    var k2 := k1 + |b|;
    assert ParseString(s, off) == Done(userId, k1);
    assert ParseString(s, k1) == Done(name, k2);
    assert ParsePos(s, k2) == Done(pos, k2 + |c|);
  }

  /** The last two fields of a ServerUpdateMsg read back. */
  lemma ParseNamePosEncode(s: seq<byte>, k: nat, name: seq<byte>, pos: Pos)
    requires At(s, k, EncodeString(name) + EncodePos(pos))
    ensures ParseString(s, k) == Done(name, k + |EncodeString(name)|)
    ensures ParsePos(s, k + |EncodeString(name)|) == Done(pos, k + |EncodeString(name)| + 16)
  {
    AtAppend(s, k, EncodeString(name), EncodePos(pos));
    ParseStringEncode(s, k, name);
    ParsePosEncode(s, k + |EncodeString(name)|, pos);
  }

  /** The caller's side of the protocol: the serialized message starts with its tag, and
      reading the rest with the matching reader reproduces the message and consumes every
      remaining byte. */
  lemma RoundTrip(m: Message)
    ensures Encode(m)[0] == Id(m)
    ensures ParseAs(TypeOf(m), Encode(m)[1..], 0) == Done(m, |Encode(m)| - 1)
  {
    var rest := Encode(m)[1..];
    assert rest == EncodeFields(m);
    assert At(rest, 0, EncodeFields(m)) by { assert rest[0..|EncodeFields(m)|] == rest; }
    ParseAsEncodeFields(rest, 0, m);
  }

  // ---------------------------------------------------------------------------------------
  // Layout facts

  lemma PosLength(p: Pos)
    ensures |EncodePos(p)| == 16
    ensures EncodePos(p)[..8] == p.x && EncodePos(p)[8..] == p.y
  {
  }

  /** ServerRegisterMsg serializes to the single byte 1, and its reader consumes nothing. */
  lemma ServerRegisterLayout(s: seq<byte>, off: nat)
    requires off <= |s|
    ensures Encode(ServerRegisterMsg) == [1]
    ensures ParseAs(ServerRegister, s, off) == Done(ServerRegisterMsg, off)
  {
  }

  lemma ServerUpdateLength(userId: seq<byte>, name: seq<byte>, pos: Pos)
    ensures |Encode(ServerUpdateMsg(userId, name, pos))| ==
      1 + |Varint.Encode(|userId|)| + |userId| + |Varint.Encode(|name|)| + |name| + 16
  {
  }

  // ---------------------------------------------------------------------------------------
  // Truncation

  lemma ParseStringCut(s: seq<byte>, off: nat, t: seq<byte>)
    requires CutAt(s, off, EncodeString(t))
    ensures ParseString(s, off).Fail?
  {
    CutAppend(s, off, Varint.Encode(|t|), t);
    if CutAt(s, off, Varint.Encode(|t|)) {
      Varint.DecodeCut(s, off, |t|);
    } else {
      Varint.DecodeEncode(s, off, |t|);
    }
  }

  lemma ParsePosCut(s: seq<byte>, off: nat, p: Pos)
    requires CutAt(s, off, EncodePos(p))
    ensures ParsePos(s, off).Fail?
  {
  }

  /** The three fields of a ServerUpdateMsg cut short: one of them is cut, and its read throws. */
  lemma ParseServerUpdateCut(s: seq<byte>, off: nat, userId: seq<byte>, name: seq<byte>, pos: Pos)
    requires CutAt(s, off, EncodeString(userId) + EncodeString(name) + EncodePos(pos))
    ensures ParseServerUpdateMsg(s, off).Fail?
  {
    var a, b, c := EncodeString(userId), EncodeString(name), EncodePos(pos);
    assert a + b + c == a + (b + c);
    CutAppend(s, off, a, b + c);
    if CutAt(s, off, a) {
      ParseStringCut(s, off, userId);
    } else {
      ParseStringEncode(s, off, userId);
      ParseServerUpdateCutAfterUserId(s, off, userId, name, pos);
    }
  }

  lemma ParseServerUpdateCutAfterUserId(s: seq<byte>, off: nat, userId: seq<byte>, name: seq<byte>, pos: Pos)
    requires off <= |s|
    requires ParseString(s, off) == Done(userId, off + |EncodeString(userId)|)
    requires CutAt(s, off + |EncodeString(userId)|, EncodeString(name) + EncodePos(pos))
    ensures ParseServerUpdateMsg(s, off).Fail?
  {
    var k, b := off + |EncodeString(userId)|, EncodeString(name);
    CutAppend(s, k, b, EncodePos(pos));
    if CutAt(s, k, b) {
      ParseStringCut(s, k, name);
    } else {
      ParseStringEncode(s, k, name);
      ParsePosCut(s, k + |b|, pos);
    }
  }

  /** Reading fields that were cut short throws instead of producing a message. */
  lemma ParseAsCut(s: seq<byte>, off: nat, m: Message)
    requires CutAt(s, off, EncodeFields(m))
    ensures ParseAs(TypeOf(m), s, off).Fail?
  {
    match m
    case ClientRegisterMsg(name) =>
      ParseStringCut(s, off, name);
    case ServerRegisterMsg =>
    case ClientUpdateMsg(pos) =>
      ParsePosCut(s, off, pos);
    case ServerUpdateMsg(userId, name, pos) =>
      ParseServerUpdateCut(s, off, userId, name, pos);
    case ServerDeleteMsg(userId) =>
      ParseStringCut(s, off, userId);
  }

  /** A serialized message with at least one field, its tag removed and its last byte dropped,
      makes the matching reader throw rather than succeed. */
  lemma DropLastByteThrows(m: Message)
    requires m != ServerRegisterMsg
    ensures |Encode(m)| >= 2
    ensures ParseAs(TypeOf(m), Encode(m)[1..|Encode(m)| - 1], 0).Fail?
  {
    var f := EncodeFields(m);
    assert |f| > 0 by {
      if m.ClientUpdateMsg? { assert |f| == 16; }
    }
    var s := Encode(m)[1..|Encode(m)| - 1];
    assert s == f[..|f| - 1];
    assert CutAt(s, 0, f);
    ParseAsCut(s, 0, m);
  }
}
