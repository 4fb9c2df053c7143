/** The C++ sample protocol: `Pos` and the five tagged messages, each with a reader (`operator>>`)
    that starts at the first field and a writer (`operator<<`) that emits the tag byte first, and
    the generic `serialize`. */
module CppProtocol {
  import opened Bytes
  import opened Wire
  import opened CppIo

  method ReadPos(buf: InBuffer) returns (r: Result<Pos>)
    requires buf.Valid()
    modifies buf
    ensures buf.Valid()
    ensures ParsePos(buf.data, old(buf.offset)) == StepOf(r, buf.offset)
  {
    var x := buf.ReadScalar(8);
    if x.Oom? {
      return Oom;
    }
    var y := buf.ReadScalar(8);
    if y.Oom? {
      return Oom;
    }
    r := Ok(Pos(x.value, y.value));
  }

  method WritePos(buf: OutBuffer, el: Pos)
    requires buf.Valid()
    modifies buf, buf.p
    ensures buf.Valid() && buf.Contents() == old(buf.Contents()) + EncodePos(el)
    ensures buf.p == old(buf.p) || fresh(buf.p)
  {
    buf.WriteScalar(el.x);
    buf.WriteScalar(el.y);
  }

  method ReadClientRegisterMsg(buf: InBuffer) returns (r: Result<Message>)
    requires buf.Valid()
    modifies buf
    ensures buf.Valid()
    ensures ParseClientRegisterMsg(buf.data, old(buf.offset)) == StepOf(r, buf.offset)
  {
    var name := buf.ReadString();
    if name.Oom? {
      return Oom;
    }
    r := Ok(ClientRegisterMsg(name.value));
  }

  method WriteClientRegisterMsg(buf: OutBuffer, el: Message)
    requires el.ClientRegisterMsg?
    requires buf.Valid()
    modifies buf, buf.p
    ensures buf.Valid() && buf.Contents() == old(buf.Contents()) + Encode(el)
    ensures buf.p == old(buf.p) || fresh(buf.p)
  {
    buf.WriteScalar([Id(el)]);
    buf.WriteString(el.name);
  }

  /** The reader of a message without fields reads nothing. */
  method ReadServerRegisterMsg(buf: InBuffer) returns (r: Result<Message>)
    requires buf.Valid()
    ensures ParseServerRegisterMsg(buf.data, buf.offset) == StepOf(r, buf.offset)
  {
    r := Ok(ServerRegisterMsg);
  }

  method WriteServerRegisterMsg(buf: OutBuffer, el: Message)
    requires el.ServerRegisterMsg?
    requires buf.Valid()
    modifies buf, buf.p
    ensures buf.Valid() && buf.Contents() == old(buf.Contents()) + Encode(el)
    ensures buf.p == old(buf.p) || fresh(buf.p)
  {
    buf.WriteScalar([Id(el)]);
  }

  method ReadClientUpdateMsg(buf: InBuffer) returns (r: Result<Message>)
    requires buf.Valid()
    modifies buf
    ensures buf.Valid()
    ensures ParseClientUpdateMsg(buf.data, old(buf.offset)) == StepOf(r, buf.offset)
  {
    var pos := ReadPos(buf);
    if pos.Oom? {
      return Oom;
    }
    r := Ok(ClientUpdateMsg(pos.value));
  }

  method WriteClientUpdateMsg(buf: OutBuffer, el: Message)
    requires el.ClientUpdateMsg?
    requires buf.Valid()
    modifies buf, buf.p
    ensures buf.Valid() && buf.Contents() == old(buf.Contents()) + Encode(el)
    ensures buf.p == old(buf.p) || fresh(buf.p)
  {
    buf.WriteScalar([Id(el)]);
    WritePos(buf, el.pos);
  }

  method ReadServerUpdateMsg(buf: InBuffer) returns (r: Result<Message>)
    requires buf.Valid()
    modifies buf
    ensures buf.Valid()
    ensures ParseServerUpdateMsg(buf.data, old(buf.offset)) == StepOf(r, buf.offset)
  {
    var userId := buf.ReadString();
    if userId.Oom? {
      return Oom;
    }
    var name := buf.ReadString();
    if name.Oom? {
      return Oom;
    }
    var pos := ReadPos(buf);
    if pos.Oom? {
      return Oom;
    }
    r := Ok(ServerUpdateMsg(userId.value, name.value, pos.value));
  }

  method WriteServerUpdateMsg(buf: OutBuffer, el: Message)
    requires el.ServerUpdateMsg?
    requires buf.Valid()
    modifies buf, buf.p
    ensures buf.Valid() && buf.Contents() == old(buf.Contents()) + Encode(el)
    ensures buf.p == old(buf.p) || fresh(buf.p)
  {
    ghost var before := buf.Contents();
    buf.WriteScalar([Id(el)]);
    ghost var withTag := buf.Contents();
    buf.WriteString(el.userId);
    ghost var withUserId := buf.Contents();
    buf.WriteString(el.name);
    ghost var withName := buf.Contents();
    WritePos(buf, el.pos);
    AppendSteps(before, [Id(el)], withTag, EncodeString(el.userId), withUserId,
      EncodeString(el.name), withName, EncodePos(el.pos), buf.Contents());
  }

  method ReadServerDeleteMsg(buf: InBuffer) returns (r: Result<Message>)
    requires buf.Valid()
    modifies buf
    ensures buf.Valid()
    ensures ParseServerDeleteMsg(buf.data, old(buf.offset)) == StepOf(r, buf.offset)
  {
    var userId := buf.ReadString();
    if userId.Oom? {
      return Oom;
    }
    r := Ok(ServerDeleteMsg(userId.value));
  }

  method WriteServerDeleteMsg(buf: OutBuffer, el: Message)
    requires el.ServerDeleteMsg?
    requires buf.Valid()
    modifies buf, buf.p
    ensures buf.Valid() && buf.Contents() == old(buf.Contents()) + Encode(el)
    ensures buf.p == old(buf.p) || fresh(buf.p)
  {
    buf.WriteScalar([Id(el)]);
    buf.WriteString(el.userId);
  }

  /** `buf << msg`: the writer overload selected by the message's type. */
  method Write(buf: OutBuffer, msg: Message)
    requires buf.Valid()
    modifies buf, buf.p
    ensures buf.Valid() && buf.Contents() == old(buf.Contents()) + Encode(msg)
    ensures buf.p == old(buf.p) || fresh(buf.p)
  {
    match msg
    case ClientRegisterMsg(_) => WriteClientRegisterMsg(buf, msg);
    case ServerRegisterMsg => WriteServerRegisterMsg(buf, msg);
    case ClientUpdateMsg(_) => WriteClientUpdateMsg(buf, msg);
    case ServerUpdateMsg(_, _, _) => WriteServerUpdateMsg(buf, msg);
    case ServerDeleteMsg(_) => WriteServerDeleteMsg(buf, msg);
  }

  /** `serialize(msg)`: a fresh buffer, `<< msg`, and the written bytes: the tag, then the fields. */
  method Serialize(msg: Message) returns (bytes: seq<byte>)
    ensures bytes == Encode(msg)
    ensures bytes[0] == Id(msg)
  {
    var buffer := new OutBuffer();
    Write(buffer, msg);
    bytes := buffer.AsString();
  }

  /** `serialize` applied to a `Pos`: exactly its 16 bytes, x then y. */
  method SerializePos(pos: Pos) returns (bytes: seq<byte>)
    ensures |bytes| == 16 && bytes[..8] == pos.x && bytes[8..] == pos.y
  {
    var buffer := new OutBuffer();
    WritePos(buffer, pos);
    bytes := buffer.AsString();
  }
}
