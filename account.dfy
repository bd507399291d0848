/** api/Account.java, identity part: the key pair and the AK address that
    is derived from it, the mutable contract-account name and what depends
    on it, and the loaders that rebuild an account from key files. The
    suite that CryptoClient.getCryptoClient() would pick from the global
    configuration is a parameter. */
module Accounts {
  import opened JavaLang
  import opened CryptoPrimitives
  import CryptoClient

  /** What create(ECKeyPair) builds before wrapping it in an Account. */
  datatype Identity = Identity(keyPair: ECKeyPair, address: string)

  /** The address of an identity is the one its suite derives from its
      public key. */
  predicate Derived(p: Primitives, suite: CryptoClient.Suite, id: Identity)
  {
    id.address == CryptoClient.GetAddressFromPublicKey(p, suite, id.keyPair.publicKey)
  }

  /** create(ECKeyPair): keep the pair, derive the address. */
  function KeyPairIdentity(p: Primitives, suite: CryptoClient.Suite, keyPair: ECKeyPair): (id: Identity)
    ensures id.keyPair == keyPair && Derived(p, suite, id)
  {
    Identity(keyPair, CryptoClient.GetAddressFromPublicKey(p, suite, keyPair.publicKey))
  }

  /** create(cli.getECKeyPairFromPrivateKey(d)), the last step of every loader. */
  function RebuiltIdentity(p: Primitives, suite: CryptoClient.Suite, d: int): (id: Identity)
    ensures id.keyPair == CryptoClient.GetECKeyPairFromPrivateKey(p, suite, d) && Derived(p, suite, id)
  {
    KeyPairIdentity(p, suite, CryptoClient.GetECKeyPairFromPrivateKey(p, suite, d))
  }

  const MsgInvalidPrivateKey := "invalid private.key file"
  const MsgAddressMismatch := "address and private key not match."
  const MsgPublicKeyMismatch := "public key and private key not match."

  const AddressFile := "/address"
  const PublicKeyFile := "/public.key"

  /** Files.readAllBytes. */
  function ReadAllBytes(disk: Disk, fileName: string): (r: Result<Bytes>)
    ensures r.Ok? <==> fileName in disk
    ensures r.Ok? ==> r.value == disk[fileName]
    ensures r.Err? ==> r.error == NoSuchFile(fileName)
  {
    if fileName in disk then Ok(disk[fileName]) else Err(NoSuchFile(fileName))
  }

  /** Parsing PrivatePubKey from JSON text with one of the two Gson entry
      points and insisting on D, as all three loaders do. */
  function ScalarOfJson(parse: string -> Option<PrivatePubKey>, text: string): (r: Result<int>)
    ensures parse(text).None? ==> r == Err(MalformedJson)
    ensures parse(text).Some? && parse(text).value.d.None? ==> r == Err(Runtime(MsgInvalidPrivateKey))
    ensures r.Ok? <==> parse(text).Some? && parse(text).value.d.Some?
    ensures r.Ok? ==> r.value == parse(text).value.d.value
  {
    match parse(text)
    case None => Err(MalformedJson)
    case Some(json) =>
      if json.d.None? then Err(Runtime(MsgInvalidPrivateKey)) else Ok(json.d.value)
  }

  /** The body of the try block of getAccountFromPlainFile: read the three
      files in order, rebuild the pair from D, then check the stored
      address and the stored public key against the rebuilt ones. */
  function LoadPlainFile(p: Primitives, suite: CryptoClient.Suite, disk: Disk, path: string): Result<Identity>
  {
    var address :- ReadAllBytes(disk, path + AddressFile);
    var pubKey :- ReadAllBytes(disk, path + PublicKeyFile);
    var priKey :- ReadAllBytes(disk, path + PrivateKeyFileName);
    var d :- ScalarOfJson(p.parsePrivatePubKey, p.bytesString(priKey));
    var id := RebuiltIdentity(p, suite, d);
    if id.address != p.bytesString(address) then Err(Runtime(MsgAddressMismatch))
    else if id.keyPair.jsonPublicKey != p.bytesString(pubKey) then Err(Runtime(MsgPublicKeyMismatch))
    else Ok(id)
  }

  /** The three files agree: D is present in private.key, and the account
      rebuilt from it has the stored address and the stored public key. */
  predicate PlainFilesAgree(p: Primitives, suite: CryptoClient.Suite, disk: Disk, path: string)
  {
    && path + AddressFile in disk && path + PublicKeyFile in disk && path + PrivateKeyFileName in disk
    && ScalarOfJson(p.parsePrivatePubKey, p.bytesString(disk[path + PrivateKeyFileName])).Ok?
    && var id := RebuiltIdentity(p, suite, ScalarOfJson(p.parsePrivatePubKey, p.bytesString(disk[path + PrivateKeyFileName])).value);
       && id.address == p.bytesString(disk[path + AddressFile])
       && id.keyPair.jsonPublicKey == p.bytesString(disk[path + PublicKeyFile])
  }

  /** getAccountFromPlainFile(path): every failure is rethrown wrapped in a
      RuntimeException. On success the identity is the one rebuilt from D,
      its address is derived from its key, and it matches both files. */
  function PlainFileIdentity(p: Primitives, suite: CryptoClient.Suite, disk: Disk, path: string): (r: Result<Identity>)
    ensures r.Ok? <==> PlainFilesAgree(p, suite, disk, path)
    ensures r.Ok? ==>
      && r.value == RebuiltIdentity(p, suite, ScalarOfJson(p.parsePrivatePubKey, p.bytesString(disk[path + PrivateKeyFileName])).value)
      && Derived(p, suite, r.value)
      && r.value.address == p.bytesString(disk[path + AddressFile])
      && r.value.keyPair.jsonPublicKey == p.bytesString(disk[path + PublicKeyFile])
    ensures r.Err? ==> r.error.Wrapped?
    ensures path + AddressFile !in disk ==> r == Err(Wrapped(NoSuchFile(path + AddressFile)))
    ensures path + AddressFile in disk && path + PublicKeyFile !in disk ==> r == Err(Wrapped(NoSuchFile(path + PublicKeyFile)))
    ensures path + AddressFile in disk && path + PublicKeyFile in disk && path + PrivateKeyFileName !in disk ==>
      r == Err(Wrapped(NoSuchFile(path + PrivateKeyFileName)))
    ensures path + AddressFile in disk && path + PublicKeyFile in disk && path + PrivateKeyFileName in disk ==>
      var sk := ScalarOfJson(p.parsePrivatePubKey, p.bytesString(disk[path + PrivateKeyFileName]));
      && (sk.Err? ==> r == Err(Wrapped(sk.error)))
      && (sk.Ok? && RebuiltIdentity(p, suite, sk.value).address != p.bytesString(disk[path + AddressFile]) ==>
            r == Err(Wrapped(Runtime(MsgAddressMismatch))))
      && (sk.Ok? && RebuiltIdentity(p, suite, sk.value).address == p.bytesString(disk[path + AddressFile])
          && RebuiltIdentity(p, suite, sk.value).keyPair.jsonPublicKey != p.bytesString(disk[path + PublicKeyFile]) ==>
            r == Err(Wrapped(Runtime(MsgPublicKeyMismatch))))
  {
    match LoadPlainFile(p, suite, disk, path)
    case Ok(id) => Ok(id)
    case Err(e) => Err(Wrapped(e))
  }

  /** The plain-file loader accepts the files an identity rebuilt from D
      would be stored as. */
  lemma PlainFileAcceptsStoredIdentity(p: Primitives, suite: CryptoClient.Suite, disk: Disk, path: string, d: int)
    requires path + AddressFile in disk && path + PublicKeyFile in disk && path + PrivateKeyFileName in disk
    requires ScalarOfJson(p.parsePrivatePubKey, p.bytesString(disk[path + PrivateKeyFileName])) == Ok(d)
    requires p.bytesString(disk[path + AddressFile]) == RebuiltIdentity(p, suite, d).address
    requires p.bytesString(disk[path + PublicKeyFile]) == RebuiltIdentity(p, suite, d).keyPair.jsonPublicKey
    ensures PlainFileIdentity(p, suite, disk, path) == Ok(RebuiltIdentity(p, suite, d))
  {
  }

  /** Replacing the address file of a loadable directory with one that reads
      differently makes the load fail with the address mismatch. */
  lemma TamperedAddressRejected(p: Primitives, suite: CryptoClient.Suite, disk: Disk, path: string, forged: Bytes)
    requires PlainFileIdentity(p, suite, disk, path).Ok?
    requires p.bytesString(forged) != p.bytesString(disk[path + AddressFile])
    ensures PlainFileIdentity(p, suite, disk[path + AddressFile := forged], path) == Err(Wrapped(Runtime(MsgAddressMismatch)))
  {
    var forgedDisk := disk[path + AddressFile := forged];
    assert path + AddressFile != path + PrivateKeyFileName by {
      assert (path + AddressFile)[|path| + 1] != (path + PrivateKeyFileName)[|path| + 1];
    }
    assert path + AddressFile != path + PublicKeyFile by {
      assert (path + AddressFile)[|path| + 1] != (path + PublicKeyFile)[|path| + 1];
    }
    assert forgedDisk[path + PrivateKeyFileName] == disk[path + PrivateKeyFileName];
    assert forgedDisk[path + PublicKeyFile] == disk[path + PublicKeyFile];
  }

  /** Replacing the public-key file of a loadable directory with one that
      reads differently makes the load fail with the public-key mismatch. */
  lemma TamperedPublicKeyRejected(p: Primitives, suite: CryptoClient.Suite, disk: Disk, path: string, forged: Bytes)
    requires PlainFileIdentity(p, suite, disk, path).Ok?
    requires p.bytesString(forged) != p.bytesString(disk[path + PublicKeyFile])
    ensures PlainFileIdentity(p, suite, disk[path + PublicKeyFile := forged], path) == Err(Wrapped(Runtime(MsgPublicKeyMismatch)))
  {
    var forgedDisk := disk[path + PublicKeyFile := forged];
    assert path + PublicKeyFile != path + PrivateKeyFileName by {
      assert (path + PublicKeyFile)[|path| + 2] != (path + PrivateKeyFileName)[|path| + 2];
    }
    assert path + PublicKeyFile != path + AddressFile by {
      assert (path + PublicKeyFile)[|path| + 1] != (path + AddressFile)[|path| + 1];
    }
    assert forgedDisk[path + PrivateKeyFileName] == disk[path + PrivateKeyFileName];
    assert forgedDisk[path + AddressFile] == disk[path + AddressFile];
  }

  /** getAccountFromFile(path, password): the suite loader decrypts
      path + "/private.key", the plain text must hold D, and the account is
      rebuilt from it. Nothing is wrapped and nothing is cross-checked. */
  function FileIdentity(p: Primitives, suite: CryptoClient.Suite, disk: Disk, path: string, password: string): (r: Result<Identity>)
    ensures var plain := CryptoClient.GetEcdsaPrivateKeyFromFileByPassword(p, suite, disk, path, password);
      && (plain.Err? ==> r == Err(plain.error))
      && (plain.Ok? ==> var sk := ScalarOfJson(p.parsePrivatePubKey, p.bytesString(plain.value));
            && (sk.Err? ==> r == Err(sk.error))
            && (sk.Ok? ==> r == Ok(RebuiltIdentity(p, suite, sk.value))))
    ensures r.Ok? ==> Derived(p, suite, r.value)
  {
    var plain :- CryptoClient.GetEcdsaPrivateKeyFromFileByPassword(p, suite, disk, path, password);
    var d :- ScalarOfJson(p.parsePrivatePubKey, p.bytesString(plain));
    Ok(RebuiltIdentity(p, suite, d))
  }

  /** create(InputStream): the stream is read through a JsonReader, so text
      after the JSON value is not looked at. A failure of the reader is
      wrapped, a missing D is not. */
  function StreamIdentity(p: Primitives, suite: CryptoClient.Suite, stream: Bytes): (r: Result<Identity>)
    ensures var sk := ScalarOfJson(p.readPrivatePubKey, p.utf8String(stream));
      && (sk == Err(MalformedJson) ==> r == Err(Wrapped(MalformedJson)))
      && (sk == Err(Runtime(MsgInvalidPrivateKey)) ==> r == Err(Runtime(MsgInvalidPrivateKey)))
      && (sk.Ok? ==> r == Ok(RebuiltIdentity(p, suite, sk.value)))
    ensures r.Ok? ==> Derived(p, suite, r.value)
  {
    match ScalarOfJson(p.readPrivatePubKey, p.utf8String(stream))
    case Err(e) => if e == MalformedJson then Err(Wrapped(e)) else Err(e)
    case Ok(d) => Ok(RebuiltIdentity(p, suite, d))
  }

  /** A key file without D is refused with "invalid private.key file" by
      each loader: wrapped by the plain-file loader, as it is by the other
      two. */
  lemma MissingScalarRejected(p: Primitives, suite: CryptoClient.Suite, disk: Disk, path: string, password: string, stream: Bytes)
    ensures path + AddressFile in disk && path + PublicKeyFile in disk && path + PrivateKeyFileName in disk
            && p.parsePrivatePubKey(p.bytesString(disk[path + PrivateKeyFileName])) == Some(PrivatePubKey(None))
            ==> PlainFileIdentity(p, suite, disk, path) == Err(Wrapped(Runtime(MsgInvalidPrivateKey)))
    ensures var plain := CryptoClient.GetEcdsaPrivateKeyFromFileByPassword(p, suite, disk, path, password);
            plain.Ok? && p.parsePrivatePubKey(p.bytesString(plain.value)) == Some(PrivatePubKey(None))
            ==> FileIdentity(p, suite, disk, path, password) == Err(Runtime(MsgInvalidPrivateKey))
    ensures p.readPrivatePubKey(p.utf8String(stream)) == Some(PrivatePubKey(None))
            ==> StreamIdentity(p, suite, stream) == Err(Runtime(MsgInvalidPrivateKey))
  {
  }

  /** Whatever the source of D, every loader that succeeds yields the same
      identity for the same key text: a plain key directory, an encrypted
      key directory whose private.key decrypts to that text, and a stream
      holding it. */
  lemma LoadersAgreeOnScalar(p: Primitives, suite: CryptoClient.Suite, plainDisk: Disk, plainPath: string,
                             encDisk: Disk, encPath: string, password: string, stream: Bytes)
    requires ReaderAgreesOnWholeValues(p)
    requires PlainFileIdentity(p, suite, plainDisk, plainPath).Ok?
    requires FileIdentity(p, suite, encDisk, encPath, password).Ok?
    requires p.bytesString(plainDisk[plainPath + PrivateKeyFileName])
          == p.bytesString(CryptoClient.GetEcdsaPrivateKeyFromFileByPassword(p, suite, encDisk, encPath, password).value)
          == p.utf8String(stream)
    ensures PlainFileIdentity(p, suite, plainDisk, plainPath).value
         == FileIdentity(p, suite, encDisk, encPath, password).value
         == StreamIdentity(p, suite, stream).value
  {
    assert p.parsePrivatePubKey(p.utf8String(stream)).Some?;
  }

  /** The stream loader accepts every key text the String-based loaders
      accept, with the same result, and it may accept more: text that
      fromJson(String) refuses for its trailing data, but fromJson(JsonReader)
      reads, loads from a stream and fails from a file. */
  lemma StreamAcceptsTrailingData(p: Primitives, suite: CryptoClient.Suite, disk: Disk, path: string, password: string, stream: Bytes)
    requires ReaderAgreesOnWholeValues(p)
    ensures var plain := CryptoClient.GetEcdsaPrivateKeyFromFileByPassword(p, suite, disk, path, password);
      plain.Ok? && p.bytesString(plain.value) == p.utf8String(stream) && FileIdentity(p, suite, disk, path, password).Ok?
      ==> StreamIdentity(p, suite, stream) == FileIdentity(p, suite, disk, path, password)
    ensures var plain := CryptoClient.GetEcdsaPrivateKeyFromFileByPassword(p, suite, disk, path, password);
      plain.Ok? && p.bytesString(plain.value) == p.utf8String(stream)
      && p.parsePrivatePubKey(p.utf8String(stream)).None? && p.readPrivatePubKey(p.utf8String(stream)).Some?
      && p.readPrivatePubKey(p.utf8String(stream)).value.d.Some?
      ==> StreamIdentity(p, suite, stream).Ok? && FileIdentity(p, suite, disk, path, password) == Err(MalformedJson)
  {
    var text := p.utf8String(stream);
    if p.parsePrivatePubKey(text).Some? {
      assert p.readPrivatePubKey(text) == p.parsePrivatePubKey(text);
    }
  }

  /** An account. The key pair, the AK address and the mnemonic are fixed at
      construction; only the contract-account name changes. A null Java
      string is None. */
  class Account {
    const keyPair: ECKeyPair
    const address: string
    const mnemonic: Option<string>
    var contractAccount: Option<string>

    constructor (keyPair: ECKeyPair, address: string, mnemonic: Option<string>)
      ensures this.keyPair == keyPair && this.address == address && this.mnemonic == mnemonic
      ensures contractAccount == None
    {
      this.keyPair := keyPair;
      this.address := address;
      this.mnemonic := mnemonic;
      contractAccount := None;
    }

    function AsIdentity(): Identity
    {
      Identity(keyPair, address)
    }

    /** getAddress: the contract-account name whenever one is set, even the
        empty one, and the AK address otherwise. */
    function GetAddress(): (r: string)
      reads this
      ensures contractAccount.Some? ==> r == contractAccount.value
      ensures contractAccount.None? ==> r == address
    {
      if contractAccount.Some? then contractAccount.value else address
    }

    /** getAKAddress: always the derived address. */
    function GetAKAddress(): (r: string)
      ensures r == address
    {
      address
    }

    function GetMnemonic(): (r: Option<string>)
      ensures r == mnemonic
    {
      mnemonic
    }

    function GetContractAccount(): (r: Option<string>)
      reads this
      ensures r == contractAccount
    {
      contractAccount
    }

    function GetKeyPair(): (r: ECKeyPair)
      ensures r == keyPair
    {
      keyPair
    }

    /** getAuthRequireId: always ends in the AK address; with a contract
        name it is that name, a slash, and the AK address. */
    function GetAuthRequireId(): (r: string)
      reads this
      ensures |address| <= |r| && r[|r| - |address|..] == address
      ensures contractAccount.None? ==> r == address
      ensures contractAccount.Some? ==>
        var name := contractAccount.value;
        |r| == |name| + 1 + |address| && r[..|name|] == name && r[|name|] == '/'
      ensures contractAccount.Some? ==> r == GetAddress() + "/" + GetAKAddress()
    {
      if contractAccount.Some? then contractAccount.value + "/" + address else address
    }

    /** HasContractAccount: compares with "" only, so an account that never
        had a name set (null) reports true, and one that was removed reports
        false. */
    function HasContractAccount(): (r: bool)
      reads this
      ensures r <==> contractAccount != Some("")
      ensures contractAccount.None? ==> r
    {
      contractAccount != Some("")
    }

    /** setContractAccount(name): name is taken as it is, null included. */
    method SetContractAccount(name: Option<string>)
      modifies this
      ensures contractAccount == name
      ensures name.Some? ==> GetAddress() == name.value && GetAuthRequireId() == name.value + "/" + address
      ensures name.None? ==> GetAddress() == address && GetAuthRequireId() == address
    {
      contractAccount := name;
    }

    /** RemoveContractAccount: sets the name to "", not to null. Afterwards
        getAddress is "" and getAuthRequireId is "/" + address. */
    method RemoveContractAccount()
      modifies this
      ensures contractAccount == Some("")
      ensures GetAddress() == "" && GetAuthRequireId() == "/" + address && !HasContractAccount()
    {
      contractAccount := Some("");
    }

    /** create(ECKeyPair). */
    static method CreateFromKeyPair(p: Primitives, suite: CryptoClient.Suite, keyPair: ECKeyPair) returns (account: Account)
      ensures fresh(account)
      ensures account.AsIdentity() == KeyPairIdentity(p, suite, keyPair)
      ensures account.mnemonic == None && account.contractAccount == None
      ensures account.HasContractAccount()
    {
      var address := CryptoClient.GetAddressFromPublicKey(p, suite, keyPair.publicKey);
      account := new Account(keyPair, address, None);
    }

    /** getAccountFromPlainFile(path). */
    static method GetAccountFromPlainFile(p: Primitives, suite: CryptoClient.Suite, disk: Disk, path: string) returns (r: Result<Account>)
      ensures r.Ok? <==> PlainFileIdentity(p, suite, disk, path).Ok?
      ensures r.Err? ==> r.error == PlainFileIdentity(p, suite, disk, path).error
      ensures r.Ok? ==> fresh(r.value) && r.value.AsIdentity() == PlainFileIdentity(p, suite, disk, path).value
                        && r.value.mnemonic == None && r.value.contractAccount == None
    {
      var loaded := PlainFileIdentity(p, suite, disk, path);
      if loaded.Err? {
        return Err(loaded.error);
      }
      var account := CreateFromKeyPair(p, suite, loaded.value.keyPair);
      return Ok(account);
    }

    /** getAccountFromFile(path, password). */
    static method GetAccountFromFile(p: Primitives, suite: CryptoClient.Suite, disk: Disk, path: string, password: string) returns (r: Result<Account>)
      ensures r.Ok? <==> FileIdentity(p, suite, disk, path, password).Ok?
      ensures r.Err? ==> r.error == FileIdentity(p, suite, disk, path, password).error
      ensures r.Ok? ==> fresh(r.value) && r.value.AsIdentity() == FileIdentity(p, suite, disk, path, password).value
                        && r.value.mnemonic == None && r.value.contractAccount == None
    {
      var loaded := FileIdentity(p, suite, disk, path, password);
      if loaded.Err? {
        return Err(loaded.error);
      }
      var account := CreateFromKeyPair(p, suite, loaded.value.keyPair);
      return Ok(account);
    }

    /** create(InputStream), the stream's bytes given whole. */
    static method CreateFromStream(p: Primitives, suite: CryptoClient.Suite, stream: Bytes) returns (r: Result<Account>)
      ensures r.Ok? <==> StreamIdentity(p, suite, stream).Ok?
      ensures r.Err? ==> r.error == StreamIdentity(p, suite, stream).error
      ensures r.Ok? ==> fresh(r.value) && r.value.AsIdentity() == StreamIdentity(p, suite, stream).value
                        && r.value.mnemonic == None && r.value.contractAccount == None
    {
      var loaded := StreamIdentity(p, suite, stream);
      if loaded.Err? {
        return Err(loaded.error);
      }
      var account := CreateFromKeyPair(p, suite, loaded.value.keyPair);
      return Ok(account);
    }

    /** create(strength, language): the suite's mnemonic creation, called
        with the two arguments in the order (language, strength); the drawn
        entropy is a parameter. */
    static method Create(p: Primitives, suite: CryptoClient.Suite, strength: int, language: int, entropy: Bytes) returns (account: Account)
      ensures fresh(account)
      ensures var created := CryptoClient.CreateNewAccountWithMnemonic(p, suite, language, strength, entropy);
        account.keyPair == created.ecKeyPair && account.address == created.address
        && account.mnemonic == Some(created.mnemonic) && account.contractAccount == None
    {
      var created := CryptoClient.CreateNewAccountWithMnemonic(p, suite, language, strength, entropy);
      account := new Account(created.ecKeyPair, created.address, Some(created.mnemonic));
    }

    /** retrieve(mnemonic, language). */
    static method Retrieve(p: Primitives, suite: CryptoClient.Suite, mnemonic: string, language: int) returns (account: Account)
      ensures fresh(account)
      ensures var recovered := CryptoClient.RetrieveAccountByMnemonic(p, suite, mnemonic, language);
        account.keyPair == recovered.ecKeyPair && account.address == recovered.address
        && account.mnemonic == Some(recovered.mnemonic) && account.contractAccount == None
    {
      var recovered := CryptoClient.RetrieveAccountByMnemonic(p, suite, mnemonic, language);
      account := new Account(recovered.ecKeyPair, recovered.address, Some(recovered.mnemonic));
    }
  }

  /** A removal, then setting a name, then setting null: the AK address and
      the key pair never move, and only the name decides getAddress. */
  method ContractAccountLifecycle(account: Account, name: string)
    modifies account
    ensures account.contractAccount == None
    ensures account.GetAddress() == account.GetAKAddress() && account.HasContractAccount()
  {
    account.RemoveContractAccount();
    assert account.GetAddress() == "" && !account.HasContractAccount();
    account.SetContractAccount(Some(name));
    assert account.GetAddress() == name && account.GetAuthRequireId() == name + "/" + account.address;
    account.SetContractAccount(None);
  }
}
