/** api/XuperClient.java, verifyXuperSignature: a hex blob laid out as
    r(32) || s(32) || X(32) || Y(32) || message is sliced, the point (X, Y)
    is built on the xchain suite's curve, and three checks follow in order:
    the address derived from the point, the message, the ECDSA signature. */
module XuperClient {
  import opened JavaLang
  import opened CryptoPrimitives
  import CryptoClient

  function Pow256(n: nat): (r: nat)
    ensures r > 0
  {
    if n == 0 then 1 else 256 * Pow256(n - 1)
  }

  /** new BigInteger(1, bytes): the unsigned big-endian value of bytes. */
  function BigIntegerOf(bytes: Bytes): (v: nat)
    ensures v < Pow256(|bytes|)
  {
    if bytes == [] then 0
    else
      var front := BigIntegerOf(bytes[..|bytes| - 1]);
      assert front + 1 <= Pow256(|bytes| - 1);
      assert (front + 1) * 256 <= Pow256(|bytes| - 1) * 256;
      front * 256 + Unsigned(bytes[|bytes| - 1])
  }

  lemma BigIntegerOfSnoc(c: Bytes, z: JByte)
    ensures BigIntegerOf(c + [z]) == BigIntegerOf(c) * 256 + Unsigned(z)
  {
    assert (c + [z])[..|c|] == c;
  }

  /** The value is big-endian: the leading bytes weigh 256 to the power of
      the number of bytes after them. */
  lemma {:induction false} BigIntegerOfAppend(a: Bytes, b: Bytes)
    ensures BigIntegerOf(a + b) == BigIntegerOf(a) * Pow256(|b|) + BigIntegerOf(b)
  {
    if b == [] {
      assert a + b == a;
    } else {
      var n := |b| - 1;
      assert a + b == (a + b[..n]) + [b[n]];
      assert b == b[..n] + [b[n]];
      BigIntegerOfSnoc(a + b[..n], b[n]);
      BigIntegerOfSnoc(b[..n], b[n]);
      BigIntegerOfAppend(a, b[..n]);
      ShiftOneByte(BigIntegerOf(a), Pow256(n), BigIntegerOf(b[..n]), Unsigned(b[n]));
    }
  }

  lemma ShiftOneByte(x: int, k: int, y: int, u: int)
    ensures (x * k + y) * 256 + u == x * (256 * k) + (y * 256 + u)
  {
    assert (x * k + y) * 256 == x * k * 256 + y * 256;
    assert x * k * 256 == x * (256 * k);
  }

  lemma DivModBase(q: int, u: int)
    requires 0 <= u < 256
    ensures (q * 256 + u) / 256 == q && (q * 256 + u) % 256 == u
  {
  }

  /** Byte strings of one length with one value are equal: the value
      loses nothing. */
  lemma {:induction false} BigIntegerOfInjective(a: Bytes, b: Bytes)
    requires |a| == |b| && BigIntegerOf(a) == BigIntegerOf(b)
    ensures a == b
  {
    if a != [] {
      var n := |a| - 1;
      var qa, ua := BigIntegerOf(a[..n]), Unsigned(a[n]);
      var qb, ub := BigIntegerOf(b[..n]), Unsigned(b[n]);
      DivModBase(qa, ua);
      DivModBase(qb, ub);
      assert qa == qb && ua == ub;
      assert a[n] == b[n] by { assert NarrowToByte(ua) == a[n] && NarrowToByte(ub) == b[n]; }
      BigIntegerOfInjective(a[..n], b[..n]);
      assert a == a[..n] + [a[n]] && b == b[..n] + [b[n]];
    }
  }

  /** The parts of a signature blob. */
  datatype RawSignature = RawSignature(r: nat, s: nat, x: nat, y: nat, data: Bytes)

  /** The five Arrays.copyOfRange calls and the BigInteger conversions. A
      blob shorter than 128 bytes makes one of the copies throw; a blob of
      exactly 128 bytes has an empty message. */
  function ParseSignature(signature: Bytes): (r: Result<RawSignature>)
    ensures r.Ok? <==> |signature| >= 128
    ensures |signature| < 96 ==> r == Err(ArrayIndexOutOfBounds)
    ensures 96 <= |signature| < 128 ==> r == Err(IllegalArgument)
    ensures r.Ok? ==> r.value == RawSignature(
      BigIntegerOf(signature[0..32]), BigIntegerOf(signature[32..64]),
      BigIntegerOf(signature[64..96]), BigIntegerOf(signature[96..128]),
      signature[128..])
    ensures |signature| == 128 ==> r.Ok? && r.value.data == []
  {
    var rBytes := CopyOfRange(signature, 0, 32).value;
    var sBytes :- CopyOfRange(signature, 32, 64);
    var r := BigIntegerOf(rBytes);
    var s := BigIntegerOf(sBytes);
    var publicKeyX :- CopyOfRange(signature, 64, 96);
    var publicKeyY :- CopyOfRange(signature, 96, 128);
    var data :- CopyOfRange(signature, 128, |signature|);
    Ok(RawSignature(r, s, BigIntegerOf(publicKeyX), BigIntegerOf(publicKeyY), data))
  }

  /** The point verifyXuperSignature builds: always on the xchain curve
      (Ecc.curve, Ecc.domain), whichever suite derives the address. */
  function PublicKeyOf(raw: RawSignature): ECPoint
  {
    ECPoint(Nist, raw.x, raw.y)
  }

  /** verifyXuperSignature(chainAddress, sig, msg). A null chainAddress
      never matches; a null msg skips the message check. The message is
      compared as bytes. */
  function VerifyXuperSignature(p: Primitives, suite: CryptoClient.Suite, chainAddress: Option<string>, sig: string, msg: Option<Bytes>): (r: Result<bool>)
    ensures p.hexDecode(sig).None? ==> r == Err(MalformedHex)
    ensures p.hexDecode(sig).Some? && |p.hexDecode(sig).value| < 128 ==> r.Err?
    ensures p.hexDecode(sig).Some? && |p.hexDecode(sig).value| >= 128 ==>
      var raw := ParseSignature(p.hexDecode(sig).value).value;
      && (p.isValidPoint(Nist, raw.x, raw.y) ==> r.Ok?)
      && (!p.isValidPoint(Nist, raw.x, raw.y) ==> r == Err(InvalidPoint))
    ensures r.Ok? ==> p.hexDecode(sig).Some? && ParseSignature(p.hexDecode(sig).value).Ok?
    ensures r.Ok? ==>
      var raw := ParseSignature(p.hexDecode(sig).value).value;
      var point := PublicKeyOf(raw);
      && p.isValidPoint(Nist, raw.x, raw.y)
      && (chainAddress != Some(CryptoClient.GetAddressFromPublicKey(p, suite, point)) ==> r.value == false)
      && (msg.Some? && msg.value != raw.data ==> r.value == false)
      && (r.value <==> chainAddress == Some(CryptoClient.GetAddressFromPublicKey(p, suite, point))
                       && (msg.None? || msg.value == raw.data)
                       && p.ecdsaVerify(point, raw.data, raw.r, raw.s))
  {
    match p.hexDecode(sig)
    case None => Err(MalformedHex)
    case Some(signature) =>
      var raw :- ParseSignature(signature);
      if !p.isValidPoint(Nist, raw.x, raw.y) then Err(InvalidPoint)
      else
        var ecPoint := PublicKeyOf(raw);
        var address := CryptoClient.GetAddressFromPublicKey(p, suite, ecPoint);
        if Some(address) != chainAddress then Ok(false)
        else if msg.Some? && msg.value != raw.data then Ok(false)
        else Ok(p.ecdsaVerify(ecPoint, raw.data, raw.r, raw.s))
  }

  /** The result is true exactly when the blob parses into a valid point
      whose address is chainAddress, the message matches or is null, and
      the signature verifies over the message suffix. */
  lemma VerifyTrueIff(p: Primitives, suite: CryptoClient.Suite, chainAddress: Option<string>, sig: string, msg: Option<Bytes>)
    ensures VerifyXuperSignature(p, suite, chainAddress, sig, msg) == Ok(true) <==>
      && p.hexDecode(sig).Some?
      && var signature := p.hexDecode(sig).value;
      && |signature| >= 128
      && var x, y := BigIntegerOf(signature[64..96]), BigIntegerOf(signature[96..128]);
      && p.isValidPoint(Nist, x, y)
      && chainAddress == Some(CryptoClient.GetAddressFromPublicKey(p, suite, ECPoint(Nist, x, y)))
      && (msg.None? || msg.value == signature[128..])
      && p.ecdsaVerify(ECPoint(Nist, x, y), signature[128..], BigIntegerOf(signature[0..32]), BigIntegerOf(signature[32..64]))
  {
  }

  /** The address check comes first and the message check second: when
      either fails the answer is false whatever the signature verifier
      would say. */
  lemma ChecksInOrder(p: Primitives, suite: CryptoClient.Suite, chainAddress: Option<string>, sig: string, msg: Option<Bytes>,
                      otherVerify: (ECPoint, Bytes, int, int) -> bool)
    requires p.hexDecode(sig).Some? && |p.hexDecode(sig).value| >= 128
    requires var raw := ParseSignature(p.hexDecode(sig).value).value;
      p.isValidPoint(Nist, raw.x, raw.y)
      && (chainAddress != Some(CryptoClient.GetAddressFromPublicKey(p, suite, PublicKeyOf(raw)))
          || (msg.Some? && msg.value != raw.data))
    ensures VerifyXuperSignature(p, suite, chainAddress, sig, msg) == Ok(false)
    ensures VerifyXuperSignature(p.(ecdsaVerify := otherVerify), suite, chainAddress, sig, msg) == Ok(false)
  {
  }

  /** Once the address and the message have matched, a signature that does
      not verify gives the answer false, not an error, and one that verifies
      gives true. */
  lemma SignatureDecidesLast(p: Primitives, suite: CryptoClient.Suite, chainAddress: Option<string>, sig: string, msg: Option<Bytes>)
    requires p.hexDecode(sig).Some? && |p.hexDecode(sig).value| >= 128
    requires var raw := ParseSignature(p.hexDecode(sig).value).value;
      p.isValidPoint(Nist, raw.x, raw.y)
      && chainAddress == Some(CryptoClient.GetAddressFromPublicKey(p, suite, PublicKeyOf(raw)))
      && (msg.None? || msg.value == raw.data)
    ensures var raw := ParseSignature(p.hexDecode(sig).value).value;
      VerifyXuperSignature(p, suite, chainAddress, sig, msg) == Ok(p.ecdsaVerify(PublicKeyOf(raw), raw.data, raw.r, raw.s))
  {
  }

  /** A wrong address is rejected for every expected message, null included. */
  lemma AddressMismatchIgnoresMessage(p: Primitives, suite: CryptoClient.Suite, chainAddress: Option<string>, sig: string, msg1: Option<Bytes>, msg2: Option<Bytes>)
    requires p.hexDecode(sig).Some? && |p.hexDecode(sig).value| >= 128
    requires var raw := ParseSignature(p.hexDecode(sig).value).value;
      p.isValidPoint(Nist, raw.x, raw.y)
      && chainAddress != Some(CryptoClient.GetAddressFromPublicKey(p, suite, PublicKeyOf(raw)))
    ensures VerifyXuperSignature(p, suite, chainAddress, sig, msg1) == VerifyXuperSignature(p, suite, chainAddress, sig, msg2) == Ok(false)
  {
  }
}
