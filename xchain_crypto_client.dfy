/** The standard suite, crypto/xchain/XChainCryptoClient.java: NIST curve,
    SHA-256 family. Every operation is a composition of primitives. */
module XChainCryptoClient {
  import opened JavaLang
  import opened CryptoPrimitives

  /** The hash that is Base58Check-encoded into an xchain address. */
  function AddressHash(p: Primitives, publicKey: ECPoint): Digest20
  {
    p.ripeMD160(p.sha256(p.encodeUncompressed(publicKey)))
  }

  /** getAddressFromPublicKey: version Common.nist, RIPEMD-160 of SHA-256
      of the uncompressed point. */
  function GetAddressFromPublicKey(p: Primitives, publicKey: ECPoint): (address: string)
    ensures address == p.base58EncodeChecked(p.nistVersion, AddressHash(p, publicKey))
  {
    var hash := p.ripeMD160(p.sha256(p.encodeUncompressed(publicKey)));
    p.base58EncodeChecked(p.nistVersion, hash)
  }

  /** The AES key getEcdsaPrivateKeyFromFileByPassword derives from a password. */
  function PasswordKey(p: Primitives, password: string): (key: Digest32)
    ensures key == p.sha256(p.sha256(p.stringBytes(password)))
  {
    DoubleSha256(p, p.stringBytes(password))
  }

  /** getEcdsaPrivateKeyFromFileByPassword: read path + "/private.key",
      base64-decode it and AES-decrypt it with the password key. The plain
      text is returned as it is; nothing here checks that it holds a key. */
  function GetEcdsaPrivateKeyFromFileByPassword(p: Primitives, disk: Disk, path: string, password: string): (r: Result<Bytes>)
    ensures r.Ok? <==> path + PrivateKeyFileName in disk
                       && p.base64Decode(disk[path + PrivateKeyFileName]).Some?
                       && p.aesDecrypt(p.base64Decode(disk[path + PrivateKeyFileName]).value, PasswordKey(p, password)).Some?
    ensures r.Ok? ==> Some(r.value) == p.aesDecrypt(p.base64Decode(disk[path + PrivateKeyFileName]).value, PasswordKey(p, password))
    ensures path + PrivateKeyFileName !in disk ==> r == Err(NoSuchFile(path + PrivateKeyFileName))
  {
    var fileName := path + PrivateKeyFileName;
    if fileName !in disk then Err(NoSuchFile(fileName))
    else match p.base64Decode(disk[fileName])
      case None => Err(MalformedBase64)
      case Some(content) =>
        var newPasswd := DoubleSha256(p, p.stringBytes(password));
        match p.aesDecrypt(content, newPasswd)
        case None => Err(DecryptionFailed)
        case Some(plain) => Ok(plain)
  }

  /** getECKeyPairFromPrivateKey: exactly ECKeyPair.create(privateKey); no
      range check on the scalar happens here. */
  function GetECKeyPairFromPrivateKey(p: Primitives, privateKey: int): (keyPair: ECKeyPair)
    ensures keyPair == p.ecKeyPairCreate(privateKey)
  {
    p.ecKeyPairCreate(privateKey)
  }

  /** createNewAccountWithMnemonic: FileKey with a fixed third argument 1. */
  function CreateNewAccountWithMnemonic(p: Primitives, language: int, strength: int, entropy: Bytes): (account: ECDSAAccount)
    ensures account == p.xchainNewAccountWithMnemonic(language, strength, 1, entropy)
  {
    p.xchainNewAccountWithMnemonic(language, strength, 1, entropy)
  }

  /** retrieveAccountByMnemonic: mnemonic and language passed through. */
  function RetrieveAccountByMnemonic(p: Primitives, mnemonic: string, language: int): (account: ECDSAAccount)
    ensures account == p.xchainAccountByMnemonic(mnemonic, language)
  {
    p.xchainAccountByMnemonic(mnemonic, language)
  }
}
