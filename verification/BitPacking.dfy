/** Bits packed into bytes, the first bit of a group highest. */
module BitPacking {

  import opened Bytes
  import opened Powers

  /** The number a group of bits stands for, first bit highest. */
  function Value(bits: seq<bool>): (v: nat)
    ensures v < Pow2(|bits|)
  {
    if |bits| == 0 then 0 else 2 * Value(bits[..|bits| - 1]) + if bits[|bits| - 1] then 1 else 0
  }

  function BitsOf(v: nat, n: nat): (bits: seq<bool>)
    ensures |bits| == n
  {
    if n == 0 then [] else BitsOf(v / 2, n - 1) + [v % 2 == 1]
  }

  lemma {:induction false} BitsOfValue(bits: seq<bool>)
    ensures BitsOf(Value(bits), |bits|) == bits
  {
    if |bits| > 0 {
      var most := bits[..|bits| - 1];
      BitsOfValue(most);
      assert Value(bits) / 2 == Value(most);
      assert bits == most + [bits[|bits| - 1]];
    }
  }

  lemma ValueSnoc(bits: seq<bool>, b: bool)
    ensures Value(bits + [b]) == 2 * Value(bits) + if b then 1 else 0
  {
    assert (bits + [b])[..|bits|] == bits;
  }

  function Zeros(n: nat): seq<bool> {
    seq(n, _ => false)
  }

  lemma {:induction false} ValuePadded(bits: seq<bool>, n: nat)
    ensures Value(bits + Zeros(n)) == Value(bits) * Pow2(n)
  {
    if n == 0 {
      assert bits + Zeros(0) == bits;
    } else {
      assert Pow2(n) == 2 * Pow2(n - 1);
      assert bits + Zeros(n) == (bits + Zeros(n - 1)) + [false];
      hide *;
      ValuePadded(bits, n - 1);
      ValueSnoc(bits + Zeros(n - 1), false);
      Doubled(Value(bits), Pow2(n - 1));
    }
  }

  lemma Doubled(a: nat, b: nat)
    ensures 2 * (a * b) == a * (2 * b)
  {
  }

  lemma ByteRange(bits: seq<bool>)
    requires |bits| == 8
    ensures Value(bits) < 256
  {
    assert Pow2(8) == 256 by { assert Pow2(4) == 16; }
  }

  /** Bits in groups of eight, the last group filled up with zeros. */
  function Pack(bits: seq<bool>): seq<Byte>
  {
    if |bits| == 0 then []
    else if |bits| < 8 then
      ByteRange(bits + Zeros(8 - |bits|));
      [Value(bits + Zeros(8 - |bits|))]
    else
      ByteRange(bits[..8]);
      [Value(bits[..8])] + Pack(bits[8..])
  }

  function Unpack(bytes: seq<Byte>): (bits: seq<bool>)
    ensures |bits| == 8 * |bytes|
  {
    if |bytes| == 0 then [] else BitsOf(bytes[0], 8) + Unpack(bytes[1..])
  }

  lemma {:induction false} UnpackPack(bits: seq<bool>)
    ensures |bits| <= |Unpack(Pack(bits))|
    ensures Unpack(Pack(bits))[..|bits|] == bits
  {
    if 0 < |bits| < 8 {
      BitsOfValue(bits + Zeros(8 - |bits|));
      assert Pack(bits)[1..] == [];
    } else if |bits| >= 8 {
      BitsOfValue(bits[..8]);
      UnpackPack(bits[8..]);
      assert Pack(bits)[1..] == Pack(bits[8..]);
      assert bits == bits[..8] + bits[8..];
    }
  }

  lemma PackStep(bits: seq<bool>)
    requires |bits| >= 8
    ensures Value(bits[..8]) < 256 && Pack(bits) == [Value(bits[..8])] + Pack(bits[8..])
  {
    ByteRange(bits[..8]);
  }

  lemma {:induction false} PackWhole(a: seq<bool>, b: seq<bool>)
    requires |a| % 8 == 0
    ensures Pack(a + b) == Pack(a) + Pack(b)
  {
    if |a| == 0 {
      assert a + b == b;
    } else {
      assert (a + b)[..8] == a[..8] && (a + b)[8..] == a[8..] + b;
      hide Pack, Value;
      PackWhole(a[8..], b);
      PackStep(a);
      PackStep(a + b);
    }
  }
}
