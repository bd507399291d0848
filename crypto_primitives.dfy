/** The records the account core passes around, and the primitives it calls
    but does not implement. Base58, the hash functions, AES, base64, Gson,
    the curve libraries and the mnemonic key files live outside the core;
    they are the fields of `Primitives`, arbitrary total functions that every
    operation of the model takes as a parameter, so nothing is assumed of
    them except where a lemma says so in its `requires`. */
module CryptoPrimitives {
  import opened JavaLang

  type Digest32 = s: Bytes | |s| == 32 witness seq(32, _ => 0)
  type Digest20 = s: Bytes | |s| == 20 witness seq(20, _ => 0)

  /** The curve a point was built on: the xchain suite's NIST curve (Ecc)
      or the national SM2 curve. */
  datatype Curve = Nist | Sm2

  /** An elliptic-curve point in affine coordinates. */
  datatype ECPoint = ECPoint(curve: Curve, x: int, y: int)

  /** xchain.sign.ECKeyPair: the scalar, the point and their JSON texts. */
  datatype ECKeyPair = ECKeyPair(privateKey: int, publicKey: ECPoint, jsonPublicKey: string, jsonPrivateKey: string)

  /** gm.sign.SM2KeyPair, as seen through its four getters. */
  datatype SM2KeyPair = SM2KeyPair(privateKey: int, publicKey: ECPoint, jsonPublicKey: string, jsonPrivateKey: string)

  /** account.ECDSAAccount: what mnemonic creation and recovery produce. */
  datatype ECDSAAccount = ECDSAAccount(mnemonic: string, ecKeyPair: ECKeyPair, address: string)

  /** account.PrivatePubKey as Gson fills it: D is null when absent. */
  datatype PrivatePubKey = PrivatePubKey(d: Option<int>)

  /** The contents of the files the core reads, by path. */
  type Disk = map<string, Bytes>

  /** The name, under a key directory, of the file holding the private key. */
  const PrivateKeyFileName := "/private.key"

  datatype Primitives = Primitives(
    base58Encode: Bytes -> string,                         // Base58.encode
    base58Decode: string -> Option<Bytes>,                 // Base58.decode; None when it throws
    base58EncodeChecked: (JByte, Bytes) -> string,         // Base58.encodeChecked(version, payload)
    nistVersion: JByte,                                    // Common.nist
    gmVersion: JByte,                                      // Common.gm
    sha256: Bytes -> Digest32,                             // xchain Hash.hashUsingSha256
    sm3: Bytes -> Digest32,                                // gm Hash.hashUsingSM3 over a whole array
    ripeMD160: Bytes -> Digest20,                          // Hash.ripeMD160
    encodeUncompressed: ECPoint -> Bytes,                  // ECPoint.getEncoded(false)
    base64Decode: Bytes -> Option<Bytes>,                  // decoding in Common.readFileWithBASE64Decode
    aesDecrypt: (Bytes, Bytes) -> Option<Bytes>,           // AES.decrypt(content, key)
    stringBytes: string -> Bytes,                          // String.getBytes(), platform charset
    bytesString: Bytes -> string,                          // new String(bytes), platform charset
    utf8String: Bytes -> string,                           // reading bytes as UTF-8
    parsePrivatePubKey: string -> Option<PrivatePubKey>,   // Gson fromJson(String); None when it throws or yields null
    readPrivatePubKey: string -> Option<PrivatePubKey>,    // Gson fromJson(JsonReader) on the text; None likewise
    ecKeyPairCreate: int -> ECKeyPair,                     // xchain ECKeyPair.create(BigInteger)
    sm2KeyPairCreate: int -> SM2KeyPair,                   // SM2KeyPair.create(BigInteger)
    isValidPoint: (Curve, int, int) -> bool,               // createPoint and ECPublicKeyParameters accept (x, y)
    ecdsaVerify: (ECPoint, Bytes, int, int) -> bool,       // ECDSASigner.verifySignature(data, r, s)
    hexDecode: string -> Option<Bytes>,                    // org.bouncycastle Hex.decode
    // The mnemonic key files of the two suites (xchain and gm FileKey).
    // Creation draws entropy; the drawn bytes are the last argument.
    xchainNewAccountWithMnemonic: (int, int, int, Bytes) -> ECDSAAccount,
    xchainAccountByMnemonic: (string, int) -> ECDSAAccount,
    gmNewAccountWithMnemonic: (int, int, int, Bytes) -> ECDSAAccount,
    gmAccountByMnemonic: (string, int) -> ECDSAAccount
  )

  /** Hash.doubleSha256: two rounds of SHA-256. */
  function DoubleSha256(p: Primitives, data: Bytes): Digest32
  {
    p.sha256(p.sha256(data))
  }

  /** Base58.decode inverts Base58.encode. */
  ghost predicate Base58RoundTrips(p: Primitives)
  {
    forall b :: p.base58Decode(p.base58Encode(b)) == Some(b)
  }

  /** The layout encodeChecked is documented to produce:
      version || payload || the first four bytes of doubleSha256(version || payload). */
  function CheckedLayout(p: Primitives, version: JByte, payload: Bytes): (raw: Bytes)
    ensures |raw| == |payload| + 5
    ensures raw[0] == version && raw[1..|payload| + 1] == payload
  {
    [version] + payload + DoubleSha256(p, [version] + payload)[..4]
  }

  /** Base58.encodeChecked Base58-encodes that layout. */
  ghost predicate EncodeCheckedAsDocumented(p: Primitives)
  {
    forall version, payload :: p.base58EncodeChecked(version, payload) == p.base58Encode(CheckedLayout(p, version, payload))
  }

  /** Gson's fromJson(String) reads one JSON value and then insists that
      the text is used up; fromJson(JsonReader) reads the same value and
      ignores anything after it. So wherever the first succeeds, the second
      yields the same object; on text with trailing data, such as
      {"D":1} x, only the second may succeed. */
  ghost predicate ReaderAgreesOnWholeValues(p: Primitives)
  {
    forall text :: p.parsePrivatePubKey(text).Some? ==> p.readPrivatePubKey(text) == p.parsePrivatePubKey(text)
  }

  /** Under the round trip, Base58 encoding loses nothing: distinct byte
      strings have distinct encodings. */
  lemma Base58EncodeInjective(p: Primitives, a: Bytes, b: Bytes)
    requires Base58RoundTrips(p)
    ensures p.base58Encode(a) == p.base58Encode(b) <==> a == b
  {
    assert Some(a) == p.base58Decode(p.base58Encode(a));
    assert Some(b) == p.base58Decode(p.base58Encode(b));
  }
}
