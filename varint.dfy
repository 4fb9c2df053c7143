/** The length prefix of the wire format: a non-negative number written as base-128 digits,
    most significant digit first. Every byte but the last has its 0x80 bit set; the last has it
    clear. This is the big-endian layout of the subidentifiers of ITU-T X.690 section 8.19.2,
    not LEB128. */
module Varint {
  import opened Bytes

  /** Reference definition: the base-128 digits of `n`, most significant first, with no
      leading zero digit (`[0]` for zero). */
  function Digits(n: nat): (ds: seq<nat>)
    ensures |ds| >= 1
    ensures forall i :: 0 <= i < |ds| ==> ds[i] < 128
    ensures n > 0 ==> ds[0] > 0
  {
    if n < 128 then [n] else Digits(n / 128) + [n % 128]
  }

  /** The number a sequence of base-128 digits spells, most significant first. */
  function Value(ds: seq<nat>): nat
  {
    if ds == [] then 0 else Value(ds[..|ds| - 1]) * 128 + ds[|ds| - 1]
  }

  lemma {:induction false} DigitsValue(n: nat)
    ensures Value(Digits(n)) == n
  {
    if n >= 128 {
      DigitsValue(n / 128);
      var ds := Digits(n);
      assert ds[..|ds| - 1] == Digits(n / 128);
    }
  }

  /** The digits of `m`, most significant first, each with the continuation bit set;
      nothing for zero. */
  function Marked(m: nat): seq<byte>
  {
    if m == 0 then [] else Marked(m / 128) + [(m % 128 + 128) as byte]
  }

  /** What `write_size(n)` appends: the digits of `n` above the last one, marked, then the last
      digit with the continuation bit clear. */
  function Encode(n: nat): seq<byte>
  {
    Marked(n / 128) + [(n % 128) as byte]
  }

  lemma {:induction false} MarkedShape(m: nat)
    requires m > 0
    ensures |Marked(m)| == |Digits(m)|
    ensures forall i :: 0 <= i < |Marked(m)| ==> Marked(m)[i] as nat == Digits(m)[i] + 128
  {
    if m >= 128 {
      MarkedShape(m / 128);
    }
  }

  /** Encode writes the reference digits of `n` in order, and sets the 0x80 bit on every byte
      except the last. */
  lemma EncodeShape(n: nat)
    ensures |Encode(n)| == |Digits(n)|
    ensures forall i :: 0 <= i < |Encode(n)| ==>
      Encode(n)[i] as nat == Digits(n)[i] + (if i < |Encode(n)| - 1 then 128 else 0)
  {
    if n >= 128 {
      MarkedShape(n / 128);
    }
  }

  /** The continuation bit marks exactly the bytes that are not last, and the first byte of a
      positive number is never a bare leading zero digit (0x80). */
  lemma EncodeContinuation(n: nat)
    ensures forall i :: 0 <= i < |Encode(n)| ==> (HasMore(Encode(n)[i]) <==> i < |Encode(n)| - 1)
    ensures n > 0 ==> Encode(n)[0] != 0 && Encode(n)[0] != 0x80
    ensures n == 0 ==> Encode(n) == [0]
  {
    EncodeShape(n);
  }

  /** One turn of both writers' collecting loop: the low digit of what is left, with the 0x80
      bit, goes to the end of what was collected. */
  lemma CollectStep(n: nat, inp: nat, out: seq<byte>)
    requires inp != 0 && Marked(n) == Marked(inp) + Reverse(out)
    ensures Marked(n) == Marked(inp / 128) + Reverse(out + [(inp % 128 + 128) as byte])
  {
    var c := (inp % 128 + 128) as byte;
    assert Reverse(out + [c]) == [c] + Reverse(out);
  }

  /** The step both writers take after collecting the marked digits least significant first:
      a single zero byte when nothing was collected, and otherwise the 0x80 bit of the first
      digit collected flipped. Reversed, that is the encoding. */
  lemma FinishCollected(n: nat, collected: seq<byte>, out: seq<byte>)
    requires Marked(n) == Reverse(collected)
    requires out == if |collected| == 0 then [0] else collected[0 := FlipHigh(collected[0])]
    ensures Reverse(out) == Encode(n)
  {
    if n == 0 {
      assert |collected| == 0;
    } else {
      var high := Marked(n / 128);
      var last := (n % 128 + 128) as byte;
      assert Reverse(collected) == high + [last];
      assert |collected| == |high| + 1;
      assert collected[0] == last by {
        assert Reverse(collected)[|high|] == collected[0];
      }
      ReverseUpdateFirst(collected, FlipHigh(last));
      assert Reverse(collected)[..|high|] == high;
    }
  }

  /** The first half of both writers: collect the digits of `n` least significant first, each
      with the 0x80 bit; then push a zero byte when there were none, and otherwise clear the bit
      on the first digit collected. Read backwards, that is the encoding of `n`. */
  method Collect(n: nat) returns (out: seq<byte>)
    ensures Reverse(out) == Encode(n)
  {
    out := [];
    var inp := n;
    while inp != 0
      invariant Marked(n) == Marked(inp) + Reverse(out)
    {
      var c := (inp % 128 + 128) as byte;
      CollectStep(n, inp, out);
      out := out + [c];
      inp := inp / 128;
    }
    ghost var collected := out;
    if |out| == 0 {
      out := out + [0];
    } else {
      out := out[0 := FlipHigh(out[0])];
    }
    FinishCollected(n, collected, out);
  }

  /** A single byte exactly when `n` fits in seven bits. */
  lemma EncodeSingleByte(n: nat)
    ensures |Encode(n)| == 1 <==> n < 128
  {
    EncodeShape(n);
    if n >= 128 {
      MarkedShape(n / 128);
    }
  }

  /** What `read_size` does from `off` on, having accumulated `acc`: read a byte (throwing at the
      end of the region), shift the accumulator by seven bits and add the byte's low seven
      bits, and go on while the byte's 0x80 bit is set. */
  function From(s: seq<byte>, off: nat, acc: nat): (r: Step<nat>)
    requires off <= |s|
    ensures r.Done? ==> off < r.next <= |s|
    ensures r.Fail? ==> r.at == |s|
    decreases |s| - off
  {
    if off == |s| then Fail(off)
    else
      var b := s[off];
      var acc' := acc * 128 + Low7(b) as nat;
      if HasMore(b) then From(s, off + 1, acc') else Done(acc', off + 1)
  }

  /** `read_size` at cursor `off`. */
  function Decode(s: seq<byte>, off: nat): Step<nat>
    requires off <= |s|
  {
    From(s, off, 0)
  }

  lemma {:induction false} FromMarked(s: seq<byte>, off: nat, m: nat)
    requires At(s, off, Marked(m))
    ensures From(s, off, 0) == From(s, off + |Marked(m)|, m)
  {
    if m > 0 {
      var b := (m % 128 + 128) as byte;
      AtAppend(s, off, Marked(m / 128), [b]);
      FromMarked(s, off, m / 128);
      var k := off + |Marked(m / 128)|;
      assert s[k] == b;
      assert From(s, k, m / 128) == From(s, k + 1, m);
    }
  }

  /** Round trip: decoding what `write_size(n)` wrote gives `n` back and moves the cursor past
      exactly the encoded bytes, whatever follows them. */
  lemma DecodeEncode(s: seq<byte>, off: nat, n: nat)
    requires At(s, off, Encode(n))
    ensures Decode(s, off) == Done(n, off + |Encode(n)|)
  {
    AtAppend(s, off, Marked(n / 128), [(n % 128) as byte]);
    FromMarked(s, off, n / 128);
  }

  /** Distinct lengths never share an encoding. */
  lemma EncodeInjective(a: nat, b: nat)
    requires Encode(a) == Encode(b)
    ensures a == b
  {
    DecodeEncode(Encode(a), 0, a);
    DecodeEncode(Encode(b), 0, b);
  }

  lemma {:induction false} FromAllMarked(s: seq<byte>, off: nat, acc: nat)
    requires off <= |s|
    requires forall i :: off <= i < |s| ==> HasMore(s[i])
    ensures From(s, off, acc) == Fail(|s|)
    decreases |s| - off
  {
    if off < |s| {
      FromAllMarked(s, off + 1, acc * 128 + Low7(s[off]) as nat);
    }
  }

  /** A length prefix cut short makes `read_size` throw, with the cursor at the end. */
  lemma DecodeCut(s: seq<byte>, off: nat, n: nat)
    requires CutAt(s, off, Encode(n))
    ensures Decode(s, off) == Fail(|s|)
  {
    EncodeContinuation(n);
    forall i | off <= i < |s|
      ensures HasMore(s[i])
    {
      assert s[i] == s[off..][i - off] == Encode(n)[i - off];
    }
    FromAllMarked(s, off, 0);
  }
}
