/** api/CryptoClient.java: the choice of suite from the configured crypto
    string, and the Crypto interface calls the rest of the core makes,
    dispatched to the chosen suite. */
module CryptoClient {
  import opened JavaLang
  import opened CryptoPrimitives
  import XChainCryptoClient
  import GmCryptoClient

  /** The two implementations of the Crypto interface. */
  datatype Suite = XChain | Gm

  /** Config.CRYPTO_GM and Config.CRYPTO_CHAIN. */
  const CryptoGm := "gm"
  const CryptoChain := "xchain"

  /** getCryptoClient(config): "gm".equals(config.getCrypto()) picks the gm
      suite; every other value, null included, picks xchain. */
  function GetCryptoClient(crypto: Option<string>): (suite: Suite)
    ensures suite == Gm <==> crypto == Some(CryptoGm)
    ensures suite == XChain <==> crypto != Some(CryptoGm)
  {
    if crypto == Some(CryptoGm) then Gm else XChain
  }

  /** The selection is exact and case-sensitive, and absent or default
      settings select xchain. */
  lemma SelectionCases()
    ensures GetCryptoClient(Some("gm")) == Gm
    ensures GetCryptoClient(Some("GM")) == XChain
    ensures GetCryptoClient(Some("Gm")) == XChain
    ensures GetCryptoClient(Some(CryptoChain)) == XChain
    ensures GetCryptoClient(Some("")) == XChain
    ensures GetCryptoClient(None) == XChain
  {
  }

  // Crypto interface dispatch. Each contract states the composition the
  // chosen suite performs, so the two suites can be compared directly.

  /** getAddressFromPublicKey: the suite's version constant, RIPEMD-160 of
      the suite's hash (SHA-256 or SM3) of the uncompressed point. */
  function GetAddressFromPublicKey(p: Primitives, suite: Suite, publicKey: ECPoint): (address: string)
    ensures suite == XChain ==>
      address == p.base58EncodeChecked(p.nistVersion, p.ripeMD160(p.sha256(p.encodeUncompressed(publicKey))))
    ensures suite == Gm ==>
      address == p.base58EncodeChecked(p.gmVersion, p.ripeMD160(p.sm3(p.encodeUncompressed(publicKey))))
  {
    match suite
    case XChain => XChainCryptoClient.GetAddressFromPublicKey(p, publicKey)
    case Gm => GmCryptoClient.GetAddressFromPublicKey(p, publicKey)
  }

  /** getECKeyPairFromPrivateKey: the xchain pair for the scalar, or the
      four fields of the SM2 pair for it. */
  function GetECKeyPairFromPrivateKey(p: Primitives, suite: Suite, privateKey: int): (keyPair: ECKeyPair)
    ensures suite == XChain ==> keyPair == p.ecKeyPairCreate(privateKey)
    ensures suite == Gm ==>
      var sm2 := p.sm2KeyPairCreate(privateKey);
      keyPair == ECKeyPair(sm2.privateKey, sm2.publicKey, sm2.jsonPublicKey, sm2.jsonPrivateKey)
  {
    match suite
    case XChain => XChainCryptoClient.GetECKeyPairFromPrivateKey(p, privateKey)
    case Gm => GmCryptoClient.GetECKeyPairFromPrivateKey(p, privateKey)
  }

  /** The AES key of the suite's loader: SHA-256 twice, or SM3 once. */
  function PasswordKey(p: Primitives, suite: Suite, password: string): (key: Digest32)
    ensures suite == XChain ==> key == p.sha256(p.sha256(p.stringBytes(password)))
    ensures suite == Gm ==> key == p.sm3(p.stringBytes(password))
  {
    match suite
    case XChain => XChainCryptoClient.PasswordKey(p, password)
    case Gm => GmCryptoClient.PasswordKey(p, password)
  }

  /** getEcdsaPrivateKeyFromFileByPassword: one shared decryption of
      path + "/private.key" under the suite's password key. */
  function GetEcdsaPrivateKeyFromFileByPassword(p: Primitives, suite: Suite, disk: Disk, path: string, password: string): (r: Result<Bytes>)
    ensures r == DecryptKeyFile(p, disk, path + PrivateKeyFileName, PasswordKey(p, suite, password))
  {
    match suite
    case XChain => XChainCryptoClient.GetEcdsaPrivateKeyFromFileByPassword(p, disk, path, password)
    case Gm => GmCryptoClient.GetEcdsaPrivateKeyFromFileByPassword(p, disk, path, password)
  }

  /** createNewAccountWithMnemonic: the suite's key file, fixed third argument 1. */
  function CreateNewAccountWithMnemonic(p: Primitives, suite: Suite, language: int, strength: int, entropy: Bytes): (account: ECDSAAccount)
    ensures suite == XChain ==> account == p.xchainNewAccountWithMnemonic(language, strength, 1, entropy)
    ensures suite == Gm ==> account == p.gmNewAccountWithMnemonic(language, strength, 1, entropy)
  {
    match suite
    case XChain => XChainCryptoClient.CreateNewAccountWithMnemonic(p, language, strength, entropy)
    case Gm => GmCryptoClient.CreateNewAccountWithMnemonic(p, language, strength, entropy)
  }

  /** retrieveAccountByMnemonic: the suite's key file, arguments passed through. */
  function RetrieveAccountByMnemonic(p: Primitives, suite: Suite, mnemonic: string, language: int): (account: ECDSAAccount)
    ensures suite == XChain ==> account == p.xchainAccountByMnemonic(mnemonic, language)
    ensures suite == Gm ==> account == p.gmAccountByMnemonic(mnemonic, language)
  {
    match suite
    case XChain => XChainCryptoClient.RetrieveAccountByMnemonic(p, mnemonic, language)
    case Gm => GmCryptoClient.RetrieveAccountByMnemonic(p, mnemonic, language)
  }

  /** The plain decryption both loaders perform once they hold a key. */
  function DecryptKeyFile(p: Primitives, disk: Disk, fileName: string, key: Bytes): Result<Bytes>
  {
    if fileName !in disk then Err(NoSuchFile(fileName))
    else match p.base64Decode(disk[fileName])
      case None => Err(MalformedBase64)
      case Some(content) =>
        match p.aesDecrypt(content, key)
        case None => Err(DecryptionFailed)
        case Some(plain) => Ok(plain)
  }

  /** The two loaders differ in the key they derive and in nothing else:
      both read path + "/private.key" and decrypt it unvalidated. And the
      two keys are built differently: SHA-256 twice against SM3 once. */
  lemma LoadersDifferOnlyInPasswordKey(p: Primitives, suite: Suite, disk: Disk, path: string, password: string)
    ensures GetEcdsaPrivateKeyFromFileByPassword(p, suite, disk, path, password)
         == DecryptKeyFile(p, disk, path + PrivateKeyFileName, PasswordKey(p, suite, password))
    ensures PasswordKey(p, XChain, password) == p.sha256(p.sha256(p.stringBytes(password)))
    ensures PasswordKey(p, Gm, password) == p.sm3(p.stringBytes(password))
  {
  }

  /** A loader reads no file but path + "/private.key". */
  lemma LoaderReadsOnlyPrivateKeyFile(p: Primitives, suite: Suite, disk1: Disk, disk2: Disk, path: string, password: string)
    requires path + PrivateKeyFileName in disk1 <==> path + PrivateKeyFileName in disk2
    requires path + PrivateKeyFileName in disk1 ==> disk1[path + PrivateKeyFileName] == disk2[path + PrivateKeyFileName]
    ensures GetEcdsaPrivateKeyFromFileByPassword(p, suite, disk1, path, password)
         == GetEcdsaPrivateKeyFromFileByPassword(p, suite, disk2, path, password)
  {
    LoadersDifferOnlyInPasswordKey(p, suite, disk1, path, password);
    LoadersDifferOnlyInPasswordKey(p, suite, disk2, path, password);
  }

  /** A loader sees the password only through the key derived from it. */
  lemma LoaderDependsOnlyOnPasswordKey(p: Primitives, suite: Suite, disk: Disk, path: string, pw1: string, pw2: string)
    requires PasswordKey(p, suite, pw1) == PasswordKey(p, suite, pw2)
    ensures GetEcdsaPrivateKeyFromFileByPassword(p, suite, disk, path, pw1)
         == GetEcdsaPrivateKeyFromFileByPassword(p, suite, disk, path, pw2)
  {
    LoadersDifferOnlyInPasswordKey(p, suite, disk, path, pw1);
    LoadersDifferOnlyInPasswordKey(p, suite, disk, path, pw2);
  }

  /** With distinct version constants, an encodeChecked of the documented
      shape and a Base58 that round-trips, no xchain address is a gm
      address: the two suites' addresses cannot be confused. */
  lemma SuiteAddressesDiffer(p: Primitives, xchainKey: ECPoint, gmKey: ECPoint)
    requires Base58RoundTrips(p) && EncodeCheckedAsDocumented(p)
    requires p.nistVersion != p.gmVersion
    ensures GetAddressFromPublicKey(p, XChain, xchainKey) != GetAddressFromPublicKey(p, Gm, gmKey)
  {
    var a := CheckedLayout(p, p.nistVersion, XChainCryptoClient.AddressHash(p, xchainKey));
    var b := CheckedLayout(p, p.gmVersion, GmCryptoClient.AddressHash(p, gmKey));
    assert a != b by { assert a[0] != b[0]; }
    Base58EncodeInjective(p, a, b);
  }
}
