// Bytes, optional values and big-endian numerals (BN_bn2bin / BN_bin2bn).
module Bytes {
  type Byte = x: int | 0 <= x < 256
  type Bytes = seq<Byte>

  datatype Option<+T> = None | Some(value: T)

  // A C++ exception carries no data the callers look at, only the fact that it was thrown.
  datatype Result<+T> = Ok(value: T) | Thrown

  // The character codes of a literal; C++ chars are bytes.
  function Ascii(s: string): (r: Bytes)
    ensures |r| == |s|
  {
    seq(|s|, i requires 0 <= i < |s| => s[i] as int % 256)
  }

  function Pow256(k: nat): (r: nat)
    ensures r >= 1
  {
    if k == 0 then 1 else 256 * Pow256(k - 1)
  }

  // BN_bin2bn: the number a big-endian octet string stands for.
  function FromBytes(b: Bytes): nat {
    if b == [] then 0 else 256 * FromBytes(b[..|b| - 1]) + b[|b| - 1]
  }

  // BN_bn2bin into BN_num_bytes octets: no leading zero, and no octet at all for zero.
  function ToBytes(x: nat): Bytes {
    if x == 0 then [] else ToBytes(x / 256) + [x % 256]
  }

  // BN_bn2binpad: exactly len octets.
  function ToFixed(x: nat, len: nat): (r: Bytes)
    ensures |r| == len
  {
    if len == 0 then [] else ToFixed(x / 256, len - 1) + [x % 256]
  }

  lemma {:induction false} FromToBytes(x: nat)
    ensures FromBytes(ToBytes(x)) == x
    ensures ToBytes(x) != [] ==> ToBytes(x)[0] != 0
    ensures ToBytes(x) == [] <==> x == 0
  {
    if x != 0 {
      FromToBytes(x / 256);
      assert ToBytes(x)[..|ToBytes(x)| - 1] == ToBytes(x / 256);
    }
  }

  // The minimal numeral is the only numeral of its value without a leading zero.
  lemma {:induction false} ToFromBytes(b: Bytes)
    requires b != [] ==> b[0] != 0
    ensures ToBytes(FromBytes(b)) == b
  {
    if b != [] {
      var init := b[..|b| - 1];
      ToFromBytes(init);
      FromToBytes(FromBytes(init));
      assert b == init + [b[|b| - 1]];
      assert FromBytes(b) / 256 == FromBytes(init) && FromBytes(b) % 256 == b[|b| - 1];
    }
  }

  lemma {:induction false} FromToFixed(x: nat, len: nat)
    requires x < Pow256(len)
    ensures FromBytes(ToFixed(x, len)) == x
  {
    if len != 0 {
      FromToFixed(x / 256, len - 1);
      assert ToFixed(x, len)[..len - 1] == ToFixed(x / 256, len - 1);
    }
  }

  lemma {:induction false} ToFixedFrom(b: Bytes)
    ensures FromBytes(b) < Pow256(|b|)
    ensures ToFixed(FromBytes(b), |b|) == b
  {
    if b != [] {
      var init := b[..|b| - 1];
      ToFixedFrom(init);
      assert b == init + [b[|b| - 1]];
      assert FromBytes(b) / 256 == FromBytes(init) && FromBytes(b) % 256 == b[|b| - 1];
    }
  }

  // Octets to the left weigh more, by a factor of 256 each.
  lemma {:induction false} FromBytesAppend(a: Bytes, b: Bytes)
    ensures FromBytes(a + b) == FromBytes(a) * Pow256(|b|) + FromBytes(b)
    ensures |b| == 1 ==> FromBytes(b) == b[0]
  {
    if b == [] {
      assert a + b == a;
    } else {
      var init, last := b[..|b| - 1], b[|b| - 1];
      FromBytesAppend(a, init);
      assert (a + b)[..|a + b| - 1] == a + init;
      assert Pow256(|b|) == 256 * Pow256(|init|);
      Scaled(FromBytes(a), Pow256(|init|), FromBytes(init));
    }
  }

  lemma Scaled(x: int, p: int, y: int)
    ensures 256 * (x * p + y) == x * (256 * p) + 256 * y
  {
  }
}
