// crypto/ZkpSerialization.cpp: the proof as a protobuf message.
module ZkpCodec {
  import opened Bytes
  import opened Curve
  import opened Zkp

  datatype ZkpMessage = ZkpMessage(userId: Bytes, v: Bytes, r: Bytes)

  // The message of a field that was never set.
  const EMPTY_MESSAGE := ZkpMessage([], [], [])

  // BytesToEcPoint throws where OpenSSL cannot decode.
  function Deserialize(g: Group, m: ZkpMessage): Result<Proof>
    requires g.p > 0
  {
    match Decode(g, m.v)
    case None => Thrown
    case Some(q) => Ok(Proof(m.userId, q, FromBytes(m.r)))
  }

  // Compressed point, minimal big-endian scalar. A zero response has no octets, which the code
  // takes for a failure.
  function Serialized(g: Group, z: Proof): Result<ZkpMessage> {
    if ToBytes(z.r) == [] then Thrown
    else Ok(ZkpMessage(z.userId, EncodeCompressed(g, z.v), ToBytes(z.r)))
  }

  method Serialize(g: Group, z: Proof) returns (result: Result<ZkpMessage>)
    ensures result == Serialized(g, z)
  {
    var message := EMPTY_MESSAGE;
    message := message.(userId := z.userId);
    message := message.(v := EncodeCompressed(g, z.v));
    if |message.v| == 0 {
      return Thrown;
    }
    message := message.(r := ToBytes(z.r));
    if |message.r| == 0 {
      return Thrown;
    }
    return Ok(message);
  }

  // Serialization fails exactly for a zero response; otherwise deserializing gives the proof back.
  lemma SerializeRoundTrip(g: Group, z: Proof)
    requires Field(g) && OnCurve(g, z.v)
    ensures Serialized(g, z).Thrown? <==> z.r == 0
    ensures Serialized(g, z).Ok? ==> Deserialize(g, Serialized(g, z).value) == Ok(z)
  {
    FromToBytes(z.r);
    DecodeEncoded(g, z.v);
  }

  // The messages serialization produces are exactly the readable ones with a compressed point (or
  // the point at infinity) and a scalar of at least one octet without leading zeros.
  lemma SerializedExactly(g: Group, m: ZkpMessage)
    requires Field(g)
    ensures (exists z: Proof :: OnCurve(g, z.v) && Serialized(g, z) == Ok(m))
            <==>
            && Deserialize(g, m).Ok?
            && m.v[0] in {0, 2, 3}
            && m.r != [] && m.r[0] != 0
  {
    if z: Proof :| OnCurve(g, z.v) && Serialized(g, z) == Ok(m) {
      SerializeRoundTrip(g, z);
      FromToBytes(z.r);
    }
    if Deserialize(g, m).Ok? && m.v[0] in {0, 2, 3} && m.r != [] && m.r[0] != 0 {
      var z := Deserialize(g, m).value;
      DecodeForm(g, m.v, z.v);
      ToFromBytes(m.r);
      assert Serialized(g, z) == Ok(m);
    }
  }

  // The challenge is the same whichever form carried the points.
  lemma ChallengeAcrossWire(s: Suite, v: Point, pub: Point, userId: Bytes, generator: Point,
                            vWire: Bytes, pubWire: Bytes)
    requires Valid(s) && OnCurve(s.g, v) && OnCurve(s.g, pub)
    requires vWire in {EncodeCompressed(s.g, v), EncodeUncompressed(s.g, v)}
    requires pubWire in {EncodeCompressed(s.g, pub), EncodeUncompressed(s.g, pub)}
    ensures Decode(s.g, vWire).Some? && Decode(s.g, pubWire).Some?
    ensures Challenge(s, Decode(s.g, vWire).value, Decode(s.g, pubWire).value, userId, generator)
            == Challenge(s, v, pub, userId, generator)
  {
    DecodeEncoded(s.g, v);
    DecodeEncoded(s.g, pub);
  }
}
