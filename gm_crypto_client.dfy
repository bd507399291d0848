/** The national suite, crypto/gm/GmCryptoClient.java: SM2 curve, SM3 hash.
    Every operation is a composition of primitives. */
module GmCryptoClient {
  import opened JavaLang
  import opened CryptoPrimitives

  /** The hash that is Base58Check-encoded into a gm address. */
  function AddressHash(p: Primitives, publicKey: ECPoint): Digest20
  {
    p.ripeMD160(p.sm3(p.encodeUncompressed(publicKey)))
  }

  /** getAddressFromPublicKey: version Common.gm, RIPEMD-160 of SM3 of the
      uncompressed point. */
  function GetAddressFromPublicKey(p: Primitives, publicKey: ECPoint): (address: string)
    ensures address == p.base58EncodeChecked(p.gmVersion, AddressHash(p, publicKey))
  {
    var hash := p.ripeMD160(p.sm3(p.encodeUncompressed(publicKey)));
    p.base58EncodeChecked(p.gmVersion, hash)
  }

  /** Hash.hashUsingSM3(data, offset, length): SM3 over that range. */
  function HashUsingSM3(p: Primitives, data: Bytes, offset: nat, length: nat): Digest32
    requires offset + length <= |data|
  {
    p.sm3(data[offset..offset + length])
  }

  /** The AES key getEcdsaPrivateKeyFromFileByPassword derives from a
      password: one SM3 round over all of its bytes. */
  function PasswordKey(p: Primitives, password: string): (key: Digest32)
    ensures key == p.sm3(p.stringBytes(password))
  {
    var bytes := p.stringBytes(password);
    assert bytes[0..|bytes|] == bytes;
    HashUsingSM3(p, bytes, 0, |bytes|)
  }

  /** getEcdsaPrivateKeyFromFileByPassword: read path + "/private.key",
      base64-decode it and AES-decrypt it with the password key. The plain
      text is returned as it is; nothing here checks that it holds a key. */
  function GetEcdsaPrivateKeyFromFileByPassword(p: Primitives, disk: Disk, path: string, password: string): (r: Result<Bytes>)
    ensures r.Ok? <==> path + PrivateKeyFileName in disk
                       && p.base64Decode(disk[path + PrivateKeyFileName]).Some?
                       && p.aesDecrypt(p.base64Decode(disk[path + PrivateKeyFileName]).value, PasswordKey(p, password)).Some?
    ensures r.Ok? ==> Some(r.value) == p.aesDecrypt(p.base64Decode(disk[path + PrivateKeyFileName]).value, PasswordKey(p, password))
    ensures path + PrivateKeyFileName !in disk ==> r == Err(NoSuchFile(path + PrivateKeyFileName))
  {
    var fileName := path + PrivateKeyFileName;
    if fileName !in disk then Err(NoSuchFile(fileName))
    else match p.base64Decode(disk[fileName])
      case None => Err(MalformedBase64)
      case Some(content) =>
        var newPasswd := PasswordKey(p, password);
        match p.aesDecrypt(content, newPasswd)
        case None => Err(DecryptionFailed)
        case Some(plain) => Ok(plain)
  }

  /** The ECKeyPair the gm client fills field by field from an SM2KeyPair. */
  function FromSM2KeyPair(sm2: SM2KeyPair): (keyPair: ECKeyPair)
  {
    ECKeyPair(sm2.privateKey, sm2.publicKey, sm2.jsonPublicKey, sm2.jsonPrivateKey)
  }

  /** getECKeyPairFromPrivateKey: all four fields come from one
      SM2KeyPair.create(privateKey). */
  function GetECKeyPairFromPrivateKey(p: Primitives, privateKey: int): (keyPair: ECKeyPair)
    ensures var sm2 := p.sm2KeyPairCreate(privateKey);
      && keyPair.privateKey == sm2.privateKey && keyPair.publicKey == sm2.publicKey
      && keyPair.jsonPublicKey == sm2.jsonPublicKey && keyPair.jsonPrivateKey == sm2.jsonPrivateKey
  {
    FromSM2KeyPair(p.sm2KeyPairCreate(privateKey))
  }

  /** createECKeyPair: the same copying from SM2KeyPair.create(), whose
      random draw is `drawn`. */
  function CreateECKeyPair(drawn: SM2KeyPair): (keyPair: ECKeyPair)
    ensures keyPair.privateKey == drawn.privateKey && keyPair.publicKey == drawn.publicKey
    ensures keyPair.jsonPublicKey == drawn.jsonPublicKey && keyPair.jsonPrivateKey == drawn.jsonPrivateKey
  {
    FromSM2KeyPair(drawn)
  }

  /** createNewAccountWithMnemonic: FileKey with a fixed third argument 1. */
  function CreateNewAccountWithMnemonic(p: Primitives, language: int, strength: int, entropy: Bytes): (account: ECDSAAccount)
    ensures account == p.gmNewAccountWithMnemonic(language, strength, 1, entropy)
  {
    p.gmNewAccountWithMnemonic(language, strength, 1, entropy)
  }

  /** retrieveAccountByMnemonic: mnemonic and language passed through. */
  function RetrieveAccountByMnemonic(p: Primitives, mnemonic: string, language: int): (account: ECDSAAccount)
    ensures account == p.gmAccountByMnemonic(mnemonic, language)
  {
    p.gmAccountByMnemonic(mnemonic, language)
  }

  /** A key pair rebuilt from a scalar is the one random creation would give
      had it drawn the SM2 pair for that scalar. */
  lemma ScalarAndRandomPathsAgree(p: Primitives, privateKey: int)
    ensures GetECKeyPairFromPrivateKey(p, privateKey) == CreateECKeyPair(p.sm2KeyPairCreate(privateKey))
  {
  }
}
