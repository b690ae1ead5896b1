// to_hex and generate_random_hex of crypto/CryptoUtil: text is the bytes of a std::string.
module Hex {
  import opened Bytes

  const DIGITS := "0123456789abcdef"

  function HexDigit(d: nat): (r: Byte)
    requires d < 16
  {
    if d < 10 then '0' as int + d else 'a' as int + d - 10
  }

  function DigitValue(b: Byte): (d: nat)
    ensures d < 16
  {
    if '0' as int <= b <= '9' as int then b - '0' as int
    else if 'a' as int <= b <= 'f' as int then b - 'a' as int + 10
    else 0
  }

  predicate IsHexText(t: Bytes) {
    forall i | 0 <= i < |t| :: '0' as int <= t[i] <= '9' as int || 'a' as int <= t[i] <= 'f' as int
  }

  // Two lower-case digits per byte, high half first.
  function HexOf(c: Bytes): (r: Bytes)
    ensures |r| == 2 * |c| && IsHexText(r)
  {
    if c == [] then []
    else HexOf(c[..|c| - 1]) + [HexDigit(c[|c| - 1] / 16), HexDigit(c[|c| - 1] % 16)]
  }

  function UnHex(t: Bytes): Bytes {
    seq(|t| / 2, i requires 0 <= i < |t| / 2 => 16 * DigitValue(t[2 * i]) + DigitValue(t[2 * i + 1]))
  }

  lemma DigitRoundTrip(d: nat)
    requires d < 16
    ensures DigitValue(HexDigit(d)) == d
  {
  }

  lemma {:induction false} HexAt(c: Bytes, i: nat)
    requires i < |c|
    ensures HexOf(c)[2 * i] == HexDigit(c[i] / 16) && HexOf(c)[2 * i + 1] == HexDigit(c[i] % 16)
  {
    if i < |c| - 1 {
      HexAt(c[..|c| - 1], i);
    }
  }

  lemma UnHexOfHex(c: Bytes)
    ensures UnHex(HexOf(c)) == c
  {
    forall i | 0 <= i < |c| ensures UnHex(HexOf(c))[i] == c[i] {
      HexAt(c, i);
      DigitRoundTrip(c[i] / 16);
      DigitRoundTrip(c[i] % 16);
    }
  }

  lemma HexInjective(c: Bytes, d: Bytes)
    ensures HexOf(c) == HexOf(d) <==> c == d
  {
    UnHexOfHex(c);
    UnHexOfHex(d);
  }

  // snprintf(buffer + at, 3, "%02x", b): two digits and a terminator.
  method PrintByte(buffer: array<Byte>, at: nat, b: Byte)
    requires at + 2 < buffer.Length
    modifies buffer
    ensures buffer[at] == HexDigit(b / 16) && buffer[at + 1] == HexDigit(b % 16) && buffer[at + 2] == 0
    ensures forall k | 0 <= k < buffer.Length && !(at <= k <= at + 2) :: buffer[k] == old(buffer[k])
  {
    buffer[at] := HexDigit(b / 16);
    buffer[at + 1] := HexDigit(b % 16);
    buffer[at + 2] := 0;
  }

  // Digit by digit, the high half of each byte first.
  ghost predicate HasDigitsOf(text: Bytes, c: Bytes) {
    && |text| == 2 * |c|
    && forall i | 0 <= i < |c| ::
         text[2 * i] == DIGITS[c[i] / 16] as int && text[2 * i + 1] == DIGITS[c[i] % 16] as int
  }

  // The string's buffer has room for its own terminator. Each round's terminator lands where the
  // next round writes, the last one on the string's own.
  method ToHex(c: Bytes) returns (output: Bytes)
    ensures output == HexOf(c)
    ensures HasDigitsOf(output, c)
  {
    var size := |c|;
    var buffer := new Byte[2 * size + 1](k => if k < 2 * size then ' ' as int else 0);
    var i := 0;
    while i < size
      invariant i <= size
      invariant forall k | 0 <= k < i ::
                  buffer[2 * k] == HexDigit(c[k] / 16) && buffer[2 * k + 1] == HexDigit(c[k] % 16)
    {
      PrintByte(buffer, i * 2, c[i]);
      i := i + 1;
    }
    output := buffer[..2 * size];
    forall k | 0 <= k < |output| ensures output[k] == HexOf(c)[k] {
      HexAt(c, k / 2);
      assert k == 2 * (k / 2) || k == 2 * (k / 2) + 1;
    }
    DigitsOf(c);
  }

  lemma DigitsOf(c: Bytes)
    ensures HasDigitsOf(HexOf(c), c)
  {
    forall i | 0 <= i < |c|
      ensures HexOf(c)[2 * i] == DIGITS[c[i] / 16] as int && HexOf(c)[2 * i + 1] == DIGITS[c[i] % 16] as int
    {
      HexAt(c, i);
      DigitIs(c[i] / 16);
      DigitIs(c[i] % 16);
    }
  }

  lemma DigitIs(d: nat)
    requires d < 16
    ensures HexDigit(d) == DIGITS[d] as int
  {
  }

  // RAND_bytes: any octets.
  method RandBytes(size: nat) returns (random: Bytes)
    ensures |random| == size
  {
    random := [];
    while |random| < size
      invariant |random| <= size
    {
      var octet: Byte := *;
      random := random + [octet];
    }
  }

  // Half as many random bytes, rounded up, printed and cut to the wanted length.
  method GenerateRandomHex(length: nat) returns (text: Bytes, ghost random: Bytes)
    ensures |text| == length && IsHexText(text)
    ensures |random| == (length + 1) / 2 && text == HexOf(random)[..length]
  {
    var temp := RandBytes((length + 1) / 2);
    random := temp;
    text := ToHex(temp);
    text := text[..length];
  }

  lemma HexHasNoNul(t: Bytes)
    requires IsHexText(t)
    ensures 0 !in t
  {
  }
}
