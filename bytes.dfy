/** Bytes, the outcome of a read, and the few bit operations the codec applies to a byte. */
module Bytes {

  newtype byte = x: int | 0 <= x < 0x100

  /** An 8-byte scalar (a C++ `double`, a JS `Float64Array` element), kept as its raw
      in-memory bytes. The model never interprets them. */
  type Float64 = s: seq<byte> | |s| == 8 witness [0, 0, 0, 0, 0, 0, 0, 0]

  /** The outcome of one read on the C++ reader: a value, or the thrown "OOM". */
  datatype Result<T> = Ok(value: T) | Oom

  /** A read described on the whole byte region: `Done(v, next)` yields `v` and leaves the
      cursor at `next`; `Fail(at)` throws with the cursor left at `at`. */
  datatype Step<T> = Done(value: T, next: nat) | Fail(at: nat)

  /** The step a reader method took, seen from its result and the cursor it left. */
  function StepOf<T>(r: Result<T>, offset: nat): Step<T>
  {
    if r.Ok? then Done(r.value, offset) else Fail(offset)
  }

  /** `b & 0x7f` */
  function Low7(b: byte): byte
  {
    b % 0x80
  }

  /** `(b & 0x80) != 0` */
  predicate HasMore(b: byte)
  {
    b >= 0x80
  }

  /** `b ^ 0x80` */
  function FlipHigh(b: byte): byte
  {
    if b >= 0x80 then b - 0x80 else b + 0x80
  }

  function Reverse<T>(s: seq<T>): (r: seq<T>)
    ensures |r| == |s|
    ensures forall k :: 0 <= k < |s| ==> r[k] == s[|s| - 1 - k]
  {
    if s == [] then [] else Reverse(s[1..]) + [s[0]]
  }

  /** Walking `s` backwards from index `i` extends the reversal's prefix by `s[i - 1]`. */
  lemma {:induction false} ReversePrefix<T>(s: seq<T>, i: nat)
    requires 0 < i <= |s|
    ensures Reverse(s)[..|s| - i + 1] == Reverse(s)[..|s| - i] + [s[i - 1]]
  {
    var r := Reverse(s);
    assert r[|s| - i] == s[i - 1];
    assert r[..|s| - i + 1] == r[..|s| - i] + [r[|s| - i]];
  }

  /** Appending `s[i - 1]` to what holds `Reverse(s)[..|s| - i]` gives the next prefix. */
  lemma AppendReversed<T>(base: seq<T>, s: seq<T>, i: nat, before: seq<T>, after: seq<T>)
    requires 0 < i <= |s|
    requires before == base + Reverse(s)[..|s| - i] && after == before + [s[i - 1]]
    ensures after == base + Reverse(s)[..|s| - i + 1]
  {
    ReversePrefix(s, i);
  }

  /** Replacing the first element replaces the last element of the reversal. */
  lemma ReverseUpdateFirst<T>(s: seq<T>, x: T)
    requires |s| > 0
    ensures Reverse(s[0 := x]) == Reverse(s)[..|s| - 1] + [x]
  {
    var u := s[0 := x];
    forall k | 0 <= k < |s| - 1
      ensures Reverse(u)[k] == Reverse(s)[k]
    {
      assert Reverse(u)[k] == u[|s| - 1 - k];
    }
  }

  /** Four appends one after the other append the four parts together. */
  lemma AppendSteps<T>(s0: seq<T>, a: seq<T>, s1: seq<T>, b: seq<T>, s2: seq<T>, c: seq<T>, s3: seq<T>, d: seq<T>, s4: seq<T>)
    requires s1 == s0 + a && s2 == s1 + b && s3 == s2 + c && s4 == s3 + d
    ensures s4 == s0 + (a + (b + c + d))
  {
  }

  /** `e` occurs in `s` starting at `off`. */
  ghost predicate At<T>(s: seq<T>, off: nat, e: seq<T>)
  {
    off + |e| <= |s| && s[off..off + |e|] == e
  }

  /** The bytes of `s` from `off` on are a proper prefix of `e`: `e` was cut short. */
  ghost predicate CutAt<T>(s: seq<T>, off: nat, e: seq<T>)
  {
    off <= |s| < off + |e| && s[off..] == e[..|s| - off]
  }

  lemma AtAppend<T>(s: seq<T>, off: nat, a: seq<T>, b: seq<T>)
    requires At(s, off, a + b)
    ensures At(s, off, a) && At(s, off + |a|, b)
  {
    assert s[off..off + |a|] == (a + b)[..|a|];
    assert s[off + |a|..off + |a| + |b|] == (a + b)[|a|..];
  }

  /** A cut-short `a + b` is either a cut-short `a`, or a whole `a` followed by a cut-short `b`. */
  lemma CutAppend<T>(s: seq<T>, off: nat, a: seq<T>, b: seq<T>)
    requires CutAt(s, off, a + b)
    ensures CutAt(s, off, a) || (At(s, off, a) && CutAt(s, off + |a|, b))
  {
    if |s| < off + |a| {
      assert s[off..] == (a + b)[..|s| - off] == a[..|s| - off];
    } else {
      assert s[off..off + |a|] == s[off..][..|a|] == (a + b)[..|a|] == a;
      assert s[off + |a|..] == s[off..][|a|..] == (a + b)[|a|..|s| - off] == b[..|s| - off - |a|];
    }
  }
}
