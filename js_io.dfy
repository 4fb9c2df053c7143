/** The JS runtime: `InBuffer`, a `Uint8Array` with a cursor and no bounds checks, and
    `OutBuffer`, an `Array` of numbers that `serialize` turns into a `Uint8Array`. */
module JsIo {
  import opened Bytes
  import Varint
  import Wire

  /** An element read from a typed array: a byte, or `undefined` past the end. */
  datatype Elem = Undefined | Defined(b: byte)

  function ElemAt(s: seq<byte>, i: nat): Elem
  {
    if i < |s| then Defined(s[i]) else Undefined
  }

  /** The byte an element becomes under `& 0x7f`, `& 0x80`, a store into a `Uint8Array` or
      `String.fromCharCode`: `undefined` becomes 0. */
  function ByteOf(e: Elem): byte
  {
    if e.Defined? then e.b else 0
  }

  /** One UTF-16 code unit of a JS string. */
  type CodeUnit = x: int | 0 <= x < 0x10000

  /** `ToUint8`, the conversion of a number stored into a `Uint8Array`. */
  function ToUint8(x: int): byte
  {
    (x % 0x100) as byte
  }

  function Uint8(xs: seq<int>): (r: seq<byte>)
    ensures |r| == |xs|
    ensures forall i :: 0 <= i < |xs| ==> r[i] as int == xs[i] % 0x100
  {
    seq(|xs|, i requires 0 <= i < |xs| => ToUint8(xs[i]))
  }

  /** Bytes as code units (or as the numbers pushed onto an `OutBuffer`). */
  function Units(bs: seq<byte>): (r: seq<CodeUnit>)
    ensures |r| == |bs|
    ensures forall i :: 0 <= i < |bs| ==> r[i] == bs[i] as int
  {
    seq(|bs|, i requires 0 <= i < |bs| => bs[i] as CodeUnit)
  }

  lemma Uint8Units(bs: seq<byte>)
    ensures Uint8(Units(bs)) == bs
  {
  }

  /** The elements `writeString` pushes: the length's varint bytes, then the code units. */
  function EncodeString(t: seq<CodeUnit>): seq<int>
  {
    Units(Varint.Encode(|t|)) + t
  }

  /** A read that cannot throw: the value, and where the cursor ends. */
  datatype Read<T> = Read(value: T, next: nat)

  /** `readSize` from `off` on, having accumulated `acc`. Past the end `readChar` yields
      `undefined`, whose bits are all clear, so the loop stops there. */
  function From(s: seq<byte>, off: nat, acc: nat): (r: Read<nat>)
    ensures off < r.next
    ensures off <= |s| ==> r.next <= |s| + 1
    decreases |s| - off
  {
    var b := ByteOf(ElemAt(s, off));
    var acc' := acc * 128 + Low7(b) as nat;
    if HasMore(b) then From(s, off + 1, acc') else Read(acc', off + 1)
  }

  function Decode(s: seq<byte>, off: nat): Read<nat>
  {
    From(s, off, 0)
  }

  /** `n` elements read one at a time from `off`, each `undefined` turned into 0. */
  function BytesAt(s: seq<byte>, off: nat, n: nat): (r: seq<byte>)
    ensures |r| == n
    ensures forall i :: 0 <= i < n ==> r[i] == if off + i < |s| then s[off + i] else 0
  {
    if n == 0 then [] else BytesAt(s, off, n - 1) + [ByteOf(ElemAt(s, off + n - 1))]
  }

  lemma {:induction false} FromAgrees(s: seq<byte>, off: nat, acc: nat)
    requires off <= |s|
    ensures Varint.From(s, off, acc).Done? ==>
      From(s, off, acc) == Read(Varint.From(s, off, acc).value, Varint.From(s, off, acc).next)
    ensures Varint.From(s, off, acc).Fail? ==> From(s, off, acc).next == |s| + 1
    decreases |s| - off
  {
    if off < |s| && HasMore(s[off]) {
      FromAgrees(s, off + 1, acc * 128 + Low7(s[off]) as nat);
    }
  }

  /** Where the C++ `read_size` succeeds, `readSize` reads the same number and stops at the same
      place; where the C++ one throws, `readSize` reads one element past the end instead. */
  lemma DecodeAgrees(s: seq<byte>, off: nat)
    requires off <= |s|
    ensures Varint.Decode(s, off).Done? ==>
      Decode(s, off) == Read(Varint.Decode(s, off).value, Varint.Decode(s, off).next)
    ensures Varint.Decode(s, off).Fail? ==> Decode(s, off).next == |s| + 1
  {
    FromAgrees(s, off, 0);
  }

  class InBuffer {
    /** The bytes the `Uint8Array` was built from. */
    const data: seq<byte>
    var offset: nat

    constructor (inp: seq<byte>)
      ensures data == inp && offset == 0
    {
      data := inp;
      offset := 0;
    }

    /** `readChar`: the element at the cursor, which moves by one; no bounds check. */
    method ReadChar() returns (c: Elem)
      modifies this
      ensures offset == old(offset) + 1
      ensures c == ElemAt(data, old(offset))
    {
      offset := offset + 1;
      c := ElemAt(data, offset - 1);
    }

    method ReadSize() returns (n: nat)
      modifies this
      ensures Decode(data, old(offset)) == Read(n, offset)
    {
      var ans: nat := 0;
      while true
        invariant old(offset) <= offset
        invariant From(data, offset, ans) == Decode(data, old(offset))
        decreases |data| + 1 - offset
      {
        var c := ReadChar();
        ans := ans * 128 + Low7(ByteOf(c)) as nat;
        if !HasMore(ByteOf(c)) {
          return ans;
        }
      }
    }

    /** `readDouble`: eight elements into a fresh 8-byte buffer, reinterpreted as a double. */
    method ReadDouble() returns (d: Float64)
      modifies this
      ensures d == BytesAt(data, old(offset), 8)
      ensures offset == old(offset) + 8
    {
      var bytesBuf := new byte[8];
      for i := 0 to 8
        invariant offset == old(offset) + i
        invariant bytesBuf[..i] == BytesAt(data, old(offset), i)
      {
        var c := ReadChar();
        bytesBuf[i] := ByteOf(c);
      }
      d := bytesBuf[..];
    }

    /** `readString`: a length, then that many elements, one code unit each. */
    method ReadString() returns (s: seq<CodeUnit>)
      modifies this
      ensures var len := Decode(data, old(offset));
        s == Units(BytesAt(data, len.next, len.value)) && offset == len.next + len.value
    {
      var sz := ReadSize();
      ghost var start := offset;
      var result: seq<CodeUnit> := [];
      for i := 0 to sz
        invariant offset == start + i
        invariant result == Units(BytesAt(data, start, i))
      {
        var c := ReadChar();
        result := result + [ByteOf(c) as CodeUnit];
      }
      s := result;
    }
  }

  class OutBuffer {
    /** The elements of the `Array`, in push order. */
    var elems: seq<int>

    constructor ()
      ensures elems == []
    {
      elems := [];
    }

    /** `serialize`: `new Uint8Array(this)`, every element cut to its low eight bits. */
    method Serialize() returns (r: seq<byte>)
      ensures r == Uint8(elems)
    {
      r := Uint8(elems);
    }

    /** `writeChar`: push one element. */
    method WriteChar(c: int)
      modifies this
      ensures elems == old(elems) + [c]
    {
      elems := elems + [c];
    }

    /** `writeSize`: the same algorithm as the C++ `write_size`, on a JS array. For
        `0 <= n < 2^31` the 32-bit `&` and `>>=` are `% 128` and `/ 128`. */
    method WriteSize(n: nat)
      requires n < 0x8000_0000
      modifies this
      ensures elems == old(elems) + Units(Varint.Encode(n))
    {
      var out := Varint.Collect(n);
      out := Reverse(out);
      for i := 0 to |out|
        invariant elems == old(elems) + Units(out[..i])
      {
        WriteChar(out[i] as int);
        assert Units(out[..i + 1]) == Units(out[..i]) + [out[i] as int];
      }
      assert out[..|out|] == out;
    }

    /** `writeDouble`: the eight bytes of the double, one element each. */
    method WriteDouble(d: Float64)
      modifies this
      ensures elems == old(elems) + Units(d)
    {
      for i := 0 to 8
        invariant elems == old(elems) + Units(d[..i])
      {
        WriteChar(d[i] as int);
        assert Units(d[..i + 1]) == Units(d[..i]) + [d[i] as int];
      }
      assert d[..8] == d;
    }

    /** `writeString`: the length in code units, then one element per code unit. */
    method WriteString(t: seq<CodeUnit>)
      requires |t| < 0x8000_0000
      modifies this
      ensures elems == old(elems) + EncodeString(t)
    {
      WriteSize(|t|);
      ghost var withLength := elems;
      for i := 0 to |t|
        invariant elems == withLength + t[..i]
      {
        WriteChar(t[i]);
        assert t[..i + 1] == t[..i] + [t[i]];
      }
      assert t[..|t|] == t;
    }
  }
}
