/** The C++ runtime: `InBuffer`, a bounds-checked cursor over a borrowed byte region, and
    `OutBuffer`, an owned byte array that grows by doubling. */
module CppIo {
  import opened Bytes
  import Varint
  import Wire

  class InBuffer {
    /** The borrowed region `p[0, _size)`; the reader never changes it. */
    const data: seq<byte>
    var offset: nat

    ghost predicate Valid()
      reads this
    {
      offset <= |data|
    }

    constructor (view: seq<byte>)
      ensures Valid() && data == view && offset == 0
    {
      data := view;
      offset := 0;
    }

    function Size(): (n: nat)
      ensures n == |data|
    {
      |data|
    }

    /** `operator>>` on a scalar of `width` bytes: throws with the cursor unchanged when fewer
        than `width` bytes remain, and otherwise yields the next `width` bytes. */
    method ReadScalar(width: nat) returns (r: Result<seq<byte>>)
      requires Valid()
      modifies this
      ensures Valid()
      ensures r.Oom? <==> |data| < old(offset) + width
      ensures r.Oom? ==> offset == old(offset)
      ensures r.Ok? ==> r.value == data[old(offset)..old(offset) + width] && offset == old(offset) + width
      ensures Wire.ParseScalar(data, old(offset), width) == StepOf(r, offset)
    {
      if Size() < offset + width {
        return Oom;
      }
      r := Ok(data[offset..offset + width]);
      offset := offset + width;
    }

    /** `read_size`: one `char` at a time, shifting the accumulator by seven bits, while the
        byte read has its 0x80 bit set. */
    method ReadSize() returns (r: Result<nat>)
      requires Valid()
      modifies this
      ensures Valid()
      ensures Varint.Decode(data, old(offset)) == StepOf(r, offset)
    {
      var ans: nat := 0;
      while true
        invariant Valid() && old(offset) <= offset
        invariant Varint.From(data, offset, ans) == Varint.Decode(data, old(offset))
        decreases |data| - offset
      {
        var c := ReadScalar(1);
        if c.Oom? {
          return Oom;
        }
        var b := c.value[0];
        ans := ans * 128 + Low7(b) as nat;
        if !HasMore(b) {
          return Ok(ans);
        }
      }
    }

    /** `operator>>` on a string: a varint length, then that many bytes. */
    method ReadString() returns (r: Result<seq<byte>>)
      requires Valid()
      modifies this
      ensures Valid()
      ensures Wire.ParseString(data, old(offset)) == StepOf(r, offset)
    {
      var sz := ReadSize();
      if sz.Oom? {
        return Oom;
      }
      if Size() < offset + sz.value {
        return Oom;
      }
      r := Ok(data[offset..offset + sz.value]);
      offset := offset + sz.value;
    }
  }

  /** `OutBuffer::INIT`, the capacity of a fresh buffer. */
  const INIT: nat := 64

  /** The capacities a buffer can have: `INIT` doubled zero or more times. */
  ghost predicate IsCapacity(c: nat)
  {
    c == INIT || (c > INIT && c % 2 == 0 && IsCapacity(c / 2))
  }

  function Pow2(k: nat): (r: nat)
    ensures r >= 1
  {
    if k == 0 then 1 else 2 * Pow2(k - 1)
  }

  /** Every capacity is `64 * 2^k`. */
  lemma {:induction false} CapacityIsDoubling(c: nat)
    requires IsCapacity(c)
    ensures exists k: nat :: c == INIT * Pow2(k)
  {
    if c == INIT {
      assert c == INIT * Pow2(0);
    } else {
      CapacityIsDoubling(c / 2);
      var k: nat :| c / 2 == INIT * Pow2(k);
      assert c == INIT * Pow2(k + 1);
    }
  }

  /** Conversely, `INIT` doubled any number of times is a capacity the buffer can reach. */
  lemma {:induction false} DoublingIsCapacity(k: nat)
    ensures IsCapacity(INIT * Pow2(k))
  {
    if k > 0 {
      DoublingIsCapacity(k - 1);
      assert INIT * Pow2(k) == 2 * (INIT * Pow2(k - 1));
    }
  }

  /** `realloc` to a larger size: a fresh array whose first bytes are the old ones. */
  method Realloc(a: array<byte>, n: nat) returns (b: array<byte>)
    requires a.Length <= n
    ensures fresh(b) && b.Length == n && b[..a.Length] == a[..]
  {
    b := new byte[n];
    var i := 0;
    while i < a.Length
      invariant 0 <= i <= a.Length
      invariant b[..i] == a[..i]
    {
      b[i] := a[i];
      i := i + 1;
    }
  }

  /** `memcpy(dst + at, src, |src|)`. */
  method Memcpy(dst: array<byte>, at: nat, src: seq<byte>)
    requires at + |src| <= dst.Length
    modifies dst
    ensures dst[..] == old(dst[..at]) + src + old(dst[at + |src|..])
  {
    var i := 0;
    while i < |src|
      invariant 0 <= i <= |src|
      invariant forall k :: 0 <= k < dst.Length && !(at <= k < at + i) ==> dst[k] == old(dst[k])
      invariant forall k :: 0 <= k < i ==> dst[at + k] == src[k]
    {
      dst[at + i] := src[i];
      i := i + 1;
    }
    assert dst[..] == old(dst[..at]) + src + old(dst[at + |src|..]) by {
      forall k | 0 <= k < dst.Length
        ensures dst[k] == (old(dst[..at]) + src + old(dst[at + |src|..]))[k]
      {
        if k >= at && k < at + |src| {
          assert dst[at + (k - at)] == src[k - at];
        }
      }
    }
  }

  class OutBuffer {
    var p: array<byte>
    var size: nat
    var bufsize: nat

    ghost predicate Valid()
      reads this
    {
      p.Length == bufsize && size <= bufsize && IsCapacity(bufsize)
    }

    /** The bytes written so far, `[0, size)`. */
    ghost function Contents(): seq<byte>
      reads this, p
      requires Valid()
    {
      p[..size]
    }

    constructor ()
      ensures Valid() && fresh(p) && bufsize == INIT && Contents() == []
    {
      p := new byte[INIT];
      size := 0;
      bufsize := INIT;
    }

    /** `increase_size(sz)`: the logical size grows by exactly `sz`; when it outgrows the capacity,
        the capacity doubles until it fits and the buffer moves, keeping every byte below the
        old size. The new tail is uninitialised. */
    method IncreaseSize(sz: nat)
      requires Valid()
      modifies this
      ensures Valid()
      ensures size == old(size) + sz
      ensures p[..old(size)] == old(Contents())
      ensures old(bufsize) <= bufsize
      ensures bufsize == old(bufsize) || bufsize / 2 < size
      ensures p == old(p) || fresh(p)
    {
      size := size + sz;
      if bufsize < size {
        while bufsize < size
          invariant size == old(size) + sz && p == old(p)
          invariant IsCapacity(bufsize) && old(bufsize) <= bufsize
          invariant bufsize == old(bufsize) || bufsize / 2 < size
          decreases size - bufsize
        {
          bufsize := bufsize * 2;
        }
        p := Realloc(p, bufsize);
      }
    }

    /** `operator<<` on a scalar, given as its `sizeof(T)` bytes. */
    method WriteScalar(v: seq<byte>)
      requires Valid()
      modifies this, p
      ensures Valid() && Contents() == old(Contents()) + v
      ensures old(bufsize) <= bufsize
      ensures p == old(p) || fresh(p)
    {
      IncreaseSize(|v|);
      Memcpy(p, size - |v|, v);
    }

    /** `write_size(n)`: collect the digits least significant first (`Varint.Collect`), then
        append them one `char` at a time in reverse. */
    method WriteSize(n: nat)
      requires Valid()
      modifies this, p
      ensures Valid() && Contents() == old(Contents()) + Varint.Encode(n)
      ensures old(bufsize) <= bufsize
      ensures p == old(p) || fresh(p)
    {
      var out := Varint.Collect(n);
      ghost var start := Contents();
      var i := |out|;
      while i > 0
        invariant Valid() && 0 <= i <= |out|
        invariant Contents() == start + Reverse(out)[..|out| - i]
        invariant old(bufsize) <= bufsize
        invariant p == old(p) || fresh(p)
      {
        i := i - 1;
        ghost var before := Contents();
        WriteScalar([out[i]]);
        AppendReversed(start, out, i + 1, before, Contents());
      }
    }

    /** `operator<<` on a string: the varint of its length, then its bytes. */
    method WriteString(t: seq<byte>)
      requires Valid()
      modifies this, p
      ensures Valid() && Contents() == old(Contents()) + Wire.EncodeString(t)
      ensures old(bufsize) <= bufsize
      ensures p == old(p) || fresh(p)
    {
      WriteSize(|t|);
      IncreaseSize(|t|);
      Memcpy(p, size - |t|, t);
    }

    /** `as_string`: a copy of the written prefix `[0, size)`. */
    method AsString() returns (r: seq<byte>)
      requires Valid()
      ensures r == Contents()
    {
      r := p[..size];
    }
  }
}
