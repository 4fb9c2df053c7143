/** The JS sample protocol: `Pos` and the five message classes, with their `InBuffer` readers,
    `OutBuffer` writers (tag first), and the per-class `serialize` / `deserialize`. Strings are
    JS strings (UTF-16 code units); the message types and tags are those of the C++ side. */
module JsProtocol {
  import opened Bytes
  import Varint
  import Wire
  import opened JsIo

  /** The five messages, with JS strings for their string fields. */
  datatype Message =
    | ClientRegisterMsg(name: seq<CodeUnit>)
    | ServerRegisterMsg
    | ClientUpdateMsg(pos: Wire.Pos)
    | ServerUpdateMsg(userId: seq<CodeUnit>, name: seq<CodeUnit>, pos: Wire.Pos)
    | ServerDeleteMsg(userId: seq<CodeUnit>)

  function TypeOf(m: Message): Wire.MsgType
  {
    match m
    case ClientRegisterMsg(_) => Wire.ClientRegister
    case ServerRegisterMsg => Wire.ServerRegister
    case ClientUpdateMsg(_) => Wire.ClientUpdate
    case ServerUpdateMsg(_, _, _) => Wire.ServerUpdate
    case ServerDeleteMsg(_) => Wire.ServerDelete
  }

  /** The class's static `id`. */
  function Id(m: Message): byte
  {
    Wire.Tag(TypeOf(m))
  }

  /** Every string is short enough for `writeSize`, whose 32-bit shifts only terminate below
      2^31. */
  predicate Writable(m: Message)
  {
    match m
    case ClientRegisterMsg(name) => |name| < 0x8000_0000
    case ServerRegisterMsg => true
    case ClientUpdateMsg(_) => true
    case ServerUpdateMsg(userId, name, _) => |userId| < 0x8000_0000 && |name| < 0x8000_0000
    case ServerDeleteMsg(userId) => |userId| < 0x8000_0000
  }

  // ---------------------------------------------------------------------------------------
  // What the writers push and what the readers read

  function EncodePos(p: Wire.Pos): seq<int>
  {
    Units(p.x) + Units(p.y)
  }

  function EncodeFields(m: Message): seq<int>
  {
    match m
    case ClientRegisterMsg(name) => EncodeString(name)
    case ServerRegisterMsg => []
    case ClientUpdateMsg(pos) => EncodePos(pos)
    case ServerUpdateMsg(userId, name, pos) => EncodeString(userId) + EncodeString(name) + EncodePos(pos)
    case ServerDeleteMsg(userId) => EncodeString(userId)
  }

  /** The elements a message's writer pushes: its `id`, then its fields. */
  function Encode(m: Message): seq<int>
  {
    [Id(m) as int] + EncodeFields(m)
  }

  /** `readString` at `off`: a length `n`, then `n` elements, each one code unit. */
  function ParseString(s: seq<byte>, off: nat): (r: Read<seq<CodeUnit>>)
    ensures off < r.next && r.next == Decode(s, off).next + |r.value|
  {
    var len := Decode(s, off);
    Read(Units(BytesAt(s, len.next, len.value)), len.next + len.value)
  }

  /** `readPos` at `off`: two doubles, always 16 elements on. */
  function ParsePos(s: seq<byte>, off: nat): (r: Read<Wire.Pos>)
    ensures r.next == off + 16
  {
    Read(Wire.Pos(BytesAt(s, off, 8), BytesAt(s, off + 8, 8)), off + 16)
  }

  function ParseClientRegisterMsg(s: seq<byte>, off: nat): Read<Message>
  {
    var name := ParseString(s, off);
    Read(ClientRegisterMsg(name.value), name.next)
  }

  function ParseServerRegisterMsg(s: seq<byte>, off: nat): Read<Message>
  {
    Read(ServerRegisterMsg, off)
  }

  function ParseClientUpdateMsg(s: seq<byte>, off: nat): Read<Message>
  {
    var pos := ParsePos(s, off);
    Read(ClientUpdateMsg(pos.value), pos.next)
  }

  function ParseServerUpdateMsg(s: seq<byte>, off: nat): Read<Message>
  {
    var userId := ParseString(s, off);
    var name := ParseString(s, userId.next);
    var pos := ParsePos(s, name.next);
    Read(ServerUpdateMsg(userId.value, name.value, pos.value), pos.next)
  }

  function ParseServerDeleteMsg(s: seq<byte>, off: nat): Read<Message>
  {
    var userId := ParseString(s, off);
    Read(ServerDeleteMsg(userId.value), userId.next)
  }

  /** The `readX` of message type `t`; none reads a tag, and none can fail. */
  function ParseAs(t: Wire.MsgType, s: seq<byte>, off: nat): (r: Read<Message>)
    ensures TypeOf(r.value) == t
    ensures off <= r.next
  {
    match t
    case ClientRegister => ParseClientRegisterMsg(s, off)
    case ServerRegister => ParseServerRegisterMsg(s, off)
    case ClientUpdate => ParseClientUpdateMsg(s, off)
    case ServerUpdate => ParseServerUpdateMsg(s, off)
    case ServerDelete => ParseServerDeleteMsg(s, off)
  }

  // ---------------------------------------------------------------------------------------
  // Readers and writers

  method ReadPos(buf: InBuffer) returns (p: Wire.Pos)
    modifies buf
    ensures ParsePos(buf.data, old(buf.offset)) == Read(p, buf.offset)
  {
    var x := buf.ReadDouble();
    var y := buf.ReadDouble();
    p := Wire.Pos(x, y);
  }

  method WritePos(buf: OutBuffer, el: Wire.Pos)
    modifies buf
    ensures buf.elems == old(buf.elems) + EncodePos(el)
  {
    buf.WriteDouble(el.x);
    buf.WriteDouble(el.y);
  }

  method ReadClientRegisterMsg(buf: InBuffer) returns (m: Message)
    modifies buf
    ensures ParseClientRegisterMsg(buf.data, old(buf.offset)) == Read(m, buf.offset)
  {
    var name := buf.ReadString();
    m := ClientRegisterMsg(name);
  }

  method WriteClientRegisterMsg(buf: OutBuffer, el: Message)
    requires el.ClientRegisterMsg? && Writable(el)
    modifies buf
    ensures buf.elems == old(buf.elems) + Encode(el)
  {
    buf.WriteChar(Id(el) as int);
    buf.WriteString(el.name);
  }

  /** The reader of a message without fields reads nothing. */
  method ReadServerRegisterMsg(buf: InBuffer) returns (m: Message)
    ensures ParseServerRegisterMsg(buf.data, buf.offset) == Read(m, buf.offset)
  {
    m := ServerRegisterMsg;
  }

  method WriteServerRegisterMsg(buf: OutBuffer, el: Message)
    requires el.ServerRegisterMsg?
    modifies buf
    ensures buf.elems == old(buf.elems) + Encode(el)
  {
    buf.WriteChar(Id(el) as int);
  }

  method ReadClientUpdateMsg(buf: InBuffer) returns (m: Message)
    modifies buf
    ensures ParseClientUpdateMsg(buf.data, old(buf.offset)) == Read(m, buf.offset)
  {
    var pos := ReadPos(buf);
    m := ClientUpdateMsg(pos);
  }

  method WriteClientUpdateMsg(buf: OutBuffer, el: Message)
    requires el.ClientUpdateMsg?
    modifies buf
    ensures buf.elems == old(buf.elems) + Encode(el)
  {
    buf.WriteChar(Id(el) as int);
    WritePos(buf, el.pos);
  }

  method ReadServerUpdateMsg(buf: InBuffer) returns (m: Message)
    modifies buf
    ensures ParseServerUpdateMsg(buf.data, old(buf.offset)) == Read(m, buf.offset)
  {
    var userId := buf.ReadString();
    var name := buf.ReadString();
    var pos := ReadPos(buf);
    m := ServerUpdateMsg(userId, name, pos);
  }

  method WriteServerUpdateMsg(buf: OutBuffer, el: Message)
    requires el.ServerUpdateMsg? && Writable(el)
    modifies buf
    ensures buf.elems == old(buf.elems) + Encode(el)
  {
    ghost var before := buf.elems;
    buf.WriteChar(Id(el) as int);
    ghost var withTag := buf.elems;
    buf.WriteString(el.userId);
    ghost var withUserId := buf.elems;
    buf.WriteString(el.name);
    ghost var withName := buf.elems;
    WritePos(buf, el.pos);
    AppendSteps(before, [Id(el) as int], withTag, EncodeString(el.userId), withUserId,
      EncodeString(el.name), withName, EncodePos(el.pos), buf.elems);
  }

  method ReadServerDeleteMsg(buf: InBuffer) returns (m: Message)
    modifies buf
    ensures ParseServerDeleteMsg(buf.data, old(buf.offset)) == Read(m, buf.offset)
  {
    var userId := buf.ReadString();
    m := ServerDeleteMsg(userId);
  }

  method WriteServerDeleteMsg(buf: OutBuffer, el: Message)
    requires el.ServerDeleteMsg? && Writable(el)
    modifies buf
    ensures buf.elems == old(buf.elems) + Encode(el)
  {
    buf.WriteChar(Id(el) as int);
    buf.WriteString(el.userId);
  }

  /** `buf.write<Class>(msg)`, the writer of the message's class. */
  method Write(buf: OutBuffer, msg: Message)
    requires Writable(msg)
    modifies buf
    ensures buf.elems == old(buf.elems) + Encode(msg)
  {
    match msg
    case ClientRegisterMsg(_) => WriteClientRegisterMsg(buf, msg);
    case ServerRegisterMsg => WriteServerRegisterMsg(buf, msg);
    case ClientUpdateMsg(_) => WriteClientUpdateMsg(buf, msg);
    case ServerUpdateMsg(_, _, _) => WriteServerUpdateMsg(buf, msg);
    case ServerDeleteMsg(_) => WriteServerDeleteMsg(buf, msg);
  }

  /** `deserialize(buffer)` of a class of type `t`: its reader, from the buffer's cursor. */
  method Deserialize(t: Wire.MsgType, buf: InBuffer) returns (m: Message)
    modifies buf
    ensures ParseAs(t, buf.data, old(buf.offset)) == Read(m, buf.offset)
  {
    match t
    case ClientRegister => m := ReadClientRegisterMsg(buf);
    case ServerRegister => m := ReadServerRegisterMsg(buf);
    case ClientUpdate => m := ReadClientUpdateMsg(buf);
    case ServerUpdate => m := ReadServerUpdateMsg(buf);
    case ServerDelete => m := ReadServerDeleteMsg(buf);
  }

  // ---------------------------------------------------------------------------------------
  // The JS side against the C++ wire format

  /** The C++ message whose strings are the JS strings cut to one byte per code unit, as a
      `Uint8Array` store cuts them. */
  function ToWire(m: Message): (w: Wire.Message)
    ensures Wire.TypeOf(w) == TypeOf(m)
  {
    match m
    case ClientRegisterMsg(name) => Wire.ClientRegisterMsg(Uint8(name))
    case ServerRegisterMsg => Wire.ServerRegisterMsg
    case ClientUpdateMsg(pos) => Wire.ClientUpdateMsg(pos)
    case ServerUpdateMsg(userId, name, pos) => Wire.ServerUpdateMsg(Uint8(userId), Uint8(name), pos)
    case ServerDeleteMsg(userId) => Wire.ServerDeleteMsg(Uint8(userId))
  }

  /** The JS message `readString` builds from a C++ message: one code unit per byte. */
  function FromWire(w: Wire.Message): (m: Message)
    ensures TypeOf(m) == Wire.TypeOf(w)
  {
    match w
    case ClientRegisterMsg(name) => ClientRegisterMsg(Units(name))
    case ServerRegisterMsg => ServerRegisterMsg
    case ClientUpdateMsg(pos) => ClientUpdateMsg(pos)
    case ServerUpdateMsg(userId, name, pos) => ServerUpdateMsg(Units(userId), Units(name), pos)
    case ServerDeleteMsg(userId) => ServerDeleteMsg(Units(userId))
  }

  /** Every code unit is below 256, so it survives the cut to a byte. */
  predicate Latin1(t: seq<CodeUnit>)
  {
    forall i :: 0 <= i < |t| ==> t[i] < 0x100
  }

  predicate Latin1Msg(m: Message)
  {
    match m
    case ClientRegisterMsg(name) => Latin1(name)
    case ServerRegisterMsg => true
    case ClientUpdateMsg(_) => true
    case ServerUpdateMsg(userId, name, _) => Latin1(userId) && Latin1(name)
    case ServerDeleteMsg(userId) => Latin1(userId)
  }

  lemma Uint8Append(a: seq<int>, b: seq<int>)
    ensures Uint8(a + b) == Uint8(a) + Uint8(b)
  {
    assert Uint8(a + b) == Uint8(a) + Uint8(b) by {
      forall i | 0 <= i < |a + b|
        ensures Uint8(a + b)[i] == (Uint8(a) + Uint8(b))[i]
      {
        if i < |a| {
          assert (a + b)[i] == a[i];
        } else {
          assert (a + b)[i] == b[i - |a|];
        }
      }
    }
  }

  /** A string survives the trip through bytes exactly when it is Latin-1. */
  lemma StringThroughBytes(t: seq<CodeUnit>)
    ensures Units(Uint8(t)) == t <==> Latin1(t)
  {
    if !Latin1(t) {
      var i :| 0 <= i < |t| && t[i] >= 0x100;
      assert Units(Uint8(t))[i] != t[i];
    }
  }

  /** What a JS `writeString` serializes to is the C++ encoding of the string cut to bytes. */
  lemma SerializeString(t: seq<CodeUnit>)
    ensures Uint8(EncodeString(t)) == Wire.EncodeString(Uint8(t))
  {
    Uint8Append(Units(Varint.Encode(|t|)), t);
    Uint8Units(Varint.Encode(|t|));
  }

  lemma SerializePosBytes(p: Wire.Pos)
    ensures Uint8(EncodePos(p)) == Wire.EncodePos(p)
  {
    Uint8Append(Units(p.x), Units(p.y));
    Uint8Units(p.x);
    Uint8Units(p.y);
  }

  /** The bytes the JS `serialize` of any message produces are the bytes the C++ `serialize`
      produces for the same message with its strings cut to bytes. */
  lemma SerializeMatchesWire(m: Message)
    ensures Uint8(Encode(m)) == Wire.Encode(ToWire(m))
  {
    Uint8Append([Id(m) as int], EncodeFields(m));
    assert Uint8([Id(m) as int]) == [Id(m)];
    match m
    case ClientRegisterMsg(name) =>
      SerializeString(name);
    case ServerRegisterMsg =>
    case ClientUpdateMsg(pos) =>
      SerializePosBytes(pos);
    case ServerUpdateMsg(userId, name, pos) =>
      Uint8Append(EncodeString(userId) + EncodeString(name), EncodePos(pos));
      Uint8Append(EncodeString(userId), EncodeString(name));
      SerializeString(userId);
      SerializeString(name);
      SerializePosBytes(pos);
    case ServerDeleteMsg(userId) =>
      SerializeString(userId);
  }

  /** Converting a JS message to bytes and back loses nothing exactly when its strings are
      Latin-1; a C++ message survives the trip the other way always. */
  lemma WireRoundTrip(m: Message, w: Wire.Message)
    ensures FromWire(ToWire(m)) == m <==> Latin1Msg(m)
    ensures ToWire(FromWire(w)) == w
  {
    match m
    case ClientRegisterMsg(name) =>
      StringThroughBytes(name);
    case ServerRegisterMsg =>
    case ClientUpdateMsg(_) =>
    case ServerUpdateMsg(userId, name, _) =>
      StringThroughBytes(userId);
      StringThroughBytes(name);
    case ServerDeleteMsg(userId) =>
      StringThroughBytes(userId);
    match w
    case ClientRegisterMsg(name) =>
      Uint8Units(name);
    case ServerRegisterMsg =>
    case ClientUpdateMsg(_) =>
    case ServerUpdateMsg(userId, name, _) =>
      Uint8Units(userId);
      Uint8Units(name);
    case ServerDeleteMsg(userId) =>
      Uint8Units(userId);
  }

  lemma {:induction false} BytesAtInside(s: seq<byte>, off: nat, n: nat)
    requires off + n <= |s|
    ensures BytesAt(s, off, n) == s[off..off + n]
  {
    if n > 0 {
      BytesAtInside(s, off, n - 1);
    }
  }

  lemma ParseStringAgrees(s: seq<byte>, off: nat)
    requires off <= |s|
    ensures Wire.ParseString(s, off).Done? ==>
      ParseString(s, off) == Read(Units(Wire.ParseString(s, off).value), Wire.ParseString(s, off).next)
    ensures Wire.ParseString(s, off).Fail? ==> ParseString(s, off).next > |s|
  {
    DecodeAgrees(s, off);
    var len := Varint.Decode(s, off);
    if len.Done? && len.next + len.value <= |s| {
      BytesAtInside(s, len.next, len.value);
    }
  }

  lemma ParsePosAgrees(s: seq<byte>, off: nat)
    requires off <= |s|
    ensures Wire.ParsePos(s, off).Done? ==>
      ParsePos(s, off) == Read(Wire.ParsePos(s, off).value, Wire.ParsePos(s, off).next)
    ensures Wire.ParsePos(s, off).Fail? ==> ParsePos(s, off).next > |s|
  {
    if off + 16 <= |s| {
      BytesAtInside(s, off, 8);
      BytesAtInside(s, off + 8, 8);
    }
  }

  /** The JS readers on bytes the C++ readers accept: the same message, one code unit per byte,
      and the same cursor. On bytes where the C++ reader throws, the JS reader does not fail:
      it runs past the end of the array and returns a message built from the zeros that
      `undefined` becomes. */
  lemma ParseAsAgrees(t: Wire.MsgType, s: seq<byte>, off: nat)
    requires off <= |s|
    ensures Wire.ParseAs(t, s, off).Done? ==>
      ParseAs(t, s, off) == Read(FromWire(Wire.ParseAs(t, s, off).value), Wire.ParseAs(t, s, off).next)
    ensures Wire.ParseAs(t, s, off).Fail? ==> ParseAs(t, s, off).next > |s|
  {
    match t
    case ClientRegister =>
      ParseStringAgrees(s, off);
    case ServerRegister =>
    case ClientUpdate =>
      ParsePosAgrees(s, off);
    case ServerUpdate =>
      ParseStringAgrees(s, off);
      var a := Wire.ParseString(s, off);
      if a.Done? {
        ParseStringAgrees(s, a.next);
        var b := Wire.ParseString(s, a.next);
        if b.Done? {
          ParsePosAgrees(s, b.next);
        }
      }
    case ServerDelete =>
      ParseStringAgrees(s, off);
  }

  /** The JS round trip: reading back the serialized fields of a Latin-1 message with the reader
      of its own class gives the message back and ends exactly at the end of the bytes. */
  lemma RoundTrip(m: Message)
    requires Latin1Msg(m)
    ensures Uint8(Encode(m))[0] == Id(m)
    ensures ParseAs(TypeOf(m), Uint8(Encode(m))[1..], 0) == Read(m, |Encode(m)| - 1)
  {
    SerializeMatchesWire(m);
    var w := ToWire(m);
    Wire.RoundTrip(w);
    ParseAsAgrees(TypeOf(m), Wire.Encode(w)[1..], 0);
    WireRoundTrip(m, w);
  }

  /** Bytes written by the C++ `serialize` are read by the JS reader of the same type as the
      same message, one code unit per byte. */
  lemma ReadsCppBytes(w: Wire.Message)
    ensures ParseAs(Wire.TypeOf(w), Wire.Encode(w)[1..], 0) == Read(FromWire(w), |Wire.Encode(w)| - 1)
  {
    Wire.RoundTrip(w);
    ParseAsAgrees(Wire.TypeOf(w), Wire.Encode(w)[1..], 0);
  }

  /** The instance `serialize()` of a message: a fresh `OutBuffer`, its writer, and the
      `Uint8Array` of the pushed elements. Those bytes are the C++ encoding of the message with
      its strings cut to bytes. */
  method Serialize(msg: Message) returns (bytes: seq<byte>)
    requires Writable(msg)
    ensures bytes == Uint8(Encode(msg))
    ensures bytes == Wire.Encode(ToWire(msg))
  {
    var buf := new OutBuffer();
    Write(buf, msg);
    bytes := buf.Serialize();
    SerializeMatchesWire(msg);
  }

  /** `Pos.serialize()`: its 16 bytes, x then y. */
  method SerializePos(pos: Wire.Pos) returns (bytes: seq<byte>)
    ensures bytes == Wire.EncodePos(pos)
    ensures |bytes| == 16 && bytes[..8] == pos.x && bytes[8..] == pos.y
  {
    var buf := new OutBuffer();
    WritePos(buf, pos);
    bytes := buf.Serialize();
    SerializePosBytes(pos);
  }
}
