# xuper-java-sdk account and address layer, in Dafny

This project models the account and address layer of the XuperChain Java SDK:

- The hand-written upper-case hex codec of `Account`.
- The two conversions between a chain "AK" address and a 20-byte EVM address.
- The identity an `Account` holds: a fixed key pair and AK address, plus a
  mutable contract-account name.
- The three loaders that rebuild an account from key files or a stream.
- The raw signature verifier `XuperClient.verifyXuperSignature`.
- The two crypto suites, the standard `xchain` suite and the national `gm`
  suite, and the rule `CryptoClient.getCryptoClient` uses to pick one from
  the configured crypto string.

The cryptographic primitives are not modelled. These are Base58, SHA-256,
SM3, RIPEMD-160, AES, base64, Gson, point construction, ECDSA verification,
key-pair creation and the mnemonic key files. They are the fields of one
`Primitives` record of arbitrary total functions, which every operation takes
as a parameter. No property of them is assumed globally. A lemma that needs
one states it as a `requires`:

- `Base58RoundTrips`: Base58 decoding inverts encoding.
- `EncodeCheckedAsDocumented`: `Base58.encodeChecked(v, h)` encodes
  `v ‖ h ‖ first4(doubleSha256(v ‖ h))`.
- `ReaderAgreesOnWholeValues`: where Gson's fromJson(String) succeeds,
  fromJson(JsonReader) yields the same object.
- Conditions on the version constants `Common.nist` and `Common.gm`.

Java details that matter are modelled explicitly:

- Bytes are signed (`JByte`, -128..127).
- `>>` is floor division, `& 0xF` is `% 16`, and a `(byte)` cast wraps.
- `Integer.parseInt(_, 16)` accepts a leading sign on a two-character string.
  So `hexStringToBytes("-1")` is `[-1]`.
- `Arrays.copyOfRange` throws `IllegalArgumentException` when `from > to`
  and `ArrayIndexOutOfBoundsException` when `from` lies outside the array.
  It pads with zeros past the end.
- A Java `null` is `None`. A thrown exception is an `Err`. A
  `RuntimeException` wrapping another is `Wrapped`.

The suite that the argument-less `CryptoClient.getCryptoClient()` reads from
the global configuration is a `suite` parameter. The files the loaders read
are a `Disk` map from path to contents. The entropy drawn by mnemonic creation
is a parameter.

Files:

- `java_lang.dfy`: the JDK behaviour the core relies on.
- `crypto_primitives.dfy`: the records and the primitives.
- `xchain_crypto_client.dfy` and `gm_crypto_client.dfy`: the two suites.
- `crypto_client.dfy`: suite selection and dispatch.
- `account_codec.dfy`: the hex codec and the EVM bridge.
- `account.dfy`: the `Account` class and the loaders.
- `xuper_client.dfy`: the signature verifier.

## Model

| member | source | states |
|---|---|---|
| JavaLang.NibblesOfByte | src/main/java/com/baidu/xuper/api/Account.java:131-132 | `(b >> 4) & 0xF` and `b & 0xF` on a signed byte, with `>>` as ShiftRight4 (floor division by 16), are the high and low nibble of its unsigned value |
| JavaLang.Unsigned | src/main/java/com/baidu/xuper/api/XuperClient.java:568-569 | the unsigned value 0..255 that a signed byte carries, congruent to it modulo 256 |
| JavaLang.NarrowToByte | src/main/java/com/baidu/xuper/api/Account.java:194 | the (byte) cast keeps the value modulo 256 and leaves values already in -128..127 unchanged |
| JavaLang.Mask0xF | src/main/java/com/baidu/xuper/api/Account.java:131-132 | `& 0xF` yields a value in 0..15 |
| JavaLang.ToHexString | src/main/java/com/baidu/xuper/api/Account.java:131-132 | Integer.toHexString of a nibble is one lower-case hex digit whose value is the nibble |
| JavaLang.ToUpperCase | src/main/java/com/baidu/xuper/api/Account.java:136 | on ASCII text, toUpperCase(Locale.ROOT) keeps the length and upper-cases each letter on its own |
| JavaLang.ToUpperCaseConcat | src/main/java/com/baidu/xuper/api/Account.java:136 | upper-casing a concatenation is the concatenation of the upper-cased parts |
| JavaLang.HexDigitValue | src/main/java/com/baidu/xuper/api/Account.java:194 | the digit value Integer.parseInt uses lies in 0..15 |
| JavaLang.ParseHexInt2 | src/main/java/com/baidu/xuper/api/Account.java:194 | parsing two characters in base 16 succeeds exactly when the second is a hex digit and the first is a hex digit or a sign; two digits give 16·hi+lo; a sign and a digit give the digit's value, negated for '-'; the value lies in -15..255 |
| JavaLang.CopyOfRange | src/main/java/com/baidu/xuper/api/XuperClient.java:566-574 | fails exactly when from > to (IllegalArgument) or from is outside the array (ArrayIndexOutOfBounds); otherwise returns to-from bytes, the slice when it fits, zero-padded beyond the end |
| JavaLang.ArrayCopy | src/main/java/com/baidu/xuper/api/Account.java:178-184 | System.arraycopy: the destination range holds the source range and every other element is unchanged |
| AccountCodec.HexUpper | src/main/java/com/baidu/xuper/api/Account.java:128-137 | 2·n characters, each in 0-9A-F; character 2i is the high nibble of byte i and character 2i+1 its low nibble |
| AccountCodec.HexEncodeUpperToString | src/main/java/com/baidu/xuper/api/Account.java:128-137 | the StringBuilder loop with the final upper-casing yields exactly HexUpper(bytes) |
| AccountCodec.UpperOfLowerDigit | src/main/java/com/baidu/xuper/api/Account.java:131-136 | upper-casing the lower-case digit Integer.toHexString gives for a nibble yields its upper-case digit |
| AccountCodec.HexDecode | src/main/java/com/baidu/xuper/api/Account.java:191-197 | succeeds exactly when every full pair of characters parses; ⌊len/2⌋ bytes; a failure is a NumberFormatException |
| AccountCodec.HexStringToBytes | src/main/java/com/baidu/xuper/api/Account.java:191-197 | the array-filling loop yields exactly HexDecode(hex), failing as soon as a pair does not parse |
| AccountCodec.HexRoundTrip | src/main/java/com/baidu/xuper/api/Account.java:191-197 | decoding an encoding gives the bytes back |
| AccountCodec.HexDecodeThenEncode | src/main/java/com/baidu/xuper/api/Account.java:128-137 | encoding the decoding of an even-length hex-digit string gives it back upper-cased |
| AccountCodec.PairReencodes | src/main/java/com/baidu/xuper/api/Account.java:131-132 | re-encoding a parsed pair of hex digits gives the two digits upper-cased |
| AccountCodec.DigitRoundTrip | src/main/java/com/baidu/xuper/api/Account.java:194 | every nibble's upper-case digit parses back to the nibble |
| AccountCodec.DigitAsUpper | src/main/java/com/baidu/xuper/api/Account.java:136 | a hex digit's value, written as an upper-case digit, is the digit upper-cased |
| AccountCodec.OddTrailingCharacterIgnored | src/main/java/com/baidu/xuper/api/Account.java:192 | a trailing odd character, whatever it is, does not change the decoding |
| AccountCodec.SignedPairAccepted | src/main/java/com/baidu/xuper/api/Account.java:194 | "-1" decodes to the byte -1 like "FF", "+f" to 15 like "0F", and "1-" is refused |
| AccountCodec.AKToEVM | src/main/java/com/baidu/xuper/api/Account.java:146-158 | null fails with "akAddress is null"; undecodable Base58 fails; fewer than 21 decoded bytes fail with "bad address"; otherwise the upper-case hex of decoded bytes [1,21), 40 characters |
| AccountCodec.XchainAKToEVMAddress | src/main/java/com/baidu/xuper/api/Account.java:146-158 | the method with its array copy yields exactly AKToEVM |
| AccountCodec.EVMToAK | src/main/java/com/baidu/xuper/api/Account.java:167-188 | null fails with "evmAddress is null"; a bad pair fails to parse; anything but 20 decoded bytes fails with "bad address"; otherwise Base58 of 0x01 ‖ h ‖ first4(doubleSha256(0x01 ‖ h)) |
| AccountCodec.EvmAddressToXchainAK | src/main/java/com/baidu/xuper/api/Account.java:167-188 | the method building bufVersion, strSlice and slice with array copies yields exactly EVMToAK |
| AccountCodec.EvmAcceptedLengths | src/main/java/com/baidu/xuper/api/Account.java:171-174 | an EVM address is accepted exactly when it has 40 or 41 characters and its first 40 parse pair by pair |
| AccountCodec.VersionAndChecksumIgnored | src/main/java/com/baidu/xuper/api/Account.java:150-157 | two AK addresses agreeing on decoded bytes [1,21) map to the same EVM address: the version byte and checksum are never checked |
| AccountCodec.EvmRoundTrip | src/main/java/com/baidu/xuper/api/Account.java:146-188 | for 40 hex digits h, the AK address of h converts back to h upper-cased |
| AccountCodec.AKRoundTrip | src/main/java/com/baidu/xuper/api/Account.java:146-188 | an AK address of the layout the reverse conversion builds survives the trip through its EVM form |
| AccountCodec.XChainAddressBridge | src/main/java/com/baidu/xuper/api/Account.java:176-180 | when Common.nist is 1, every xchain address maps to its RIPEMD-160 hash in hex and back to itself |
| AccountCodec.GmAddressBridge | src/main/java/com/baidu/xuper/api/Account.java:176-180 | a gm address has an EVM form, but converting it back always uses version 1, so when Common.gm is not 1 it yields a different address |
| CryptoPrimitives.CheckedLayout | src/main/java/com/baidu/xuper/api/Account.java:176-184 | the checked layout is five bytes longer than the payload, starts with the version and carries the payload |
| XChainCryptoClient.GetAddressFromPublicKey | src/main/java/com/baidu/xuper/crypto/xchain/XChainCryptoClient.java:137-141 | encodeChecked with Common.nist of RIPEMD-160 of SHA-256 of the uncompressed point |
| XChainCryptoClient.PasswordKey | src/main/java/com/baidu/xuper/crypto/xchain/XChainCryptoClient.java:114 | the key is SHA-256 applied twice to the password bytes |
| XChainCryptoClient.GetEcdsaPrivateKeyFromFileByPassword | src/main/java/com/baidu/xuper/crypto/xchain/XChainCryptoClient.java:111-116 | reads path + "/private.key" only; succeeds exactly when it exists, base64-decodes and AES-decrypts under the password key; returns the plain text unvalidated |
| XChainCryptoClient.GetECKeyPairFromPrivateKey | src/main/java/com/baidu/xuper/crypto/xchain/XChainCryptoClient.java:158-160 | exactly ECKeyPair.create(privateKey), no range check |
| XChainCryptoClient.CreateNewAccountWithMnemonic | src/main/java/com/baidu/xuper/crypto/xchain/XChainCryptoClient.java:71-73 | the mnemonic key file called with a fixed third argument 1 |
| XChainCryptoClient.RetrieveAccountByMnemonic | src/main/java/com/baidu/xuper/crypto/xchain/XChainCryptoClient.java:84-86 | mnemonic and language passed through unchanged |
| GmCryptoClient.GetAddressFromPublicKey | src/main/java/com/baidu/xuper/crypto/gm/GmCryptoClient.java:129-134 | encodeChecked with Common.gm of RIPEMD-160 of SM3 of the uncompressed point |
| GmCryptoClient.PasswordKey | src/main/java/com/baidu/xuper/crypto/gm/GmCryptoClient.java:106 | one SM3 round over the whole password byte array, offset 0 and full length, through HashUsingSM3 (Hash.hashUsingSM3 over a range) |
| GmCryptoClient.GetEcdsaPrivateKeyFromFileByPassword | src/main/java/com/baidu/xuper/crypto/gm/GmCryptoClient.java:103-108 | reads path + "/private.key" only; succeeds exactly when it exists, base64-decodes and AES-decrypts under the SM3 key; returns the plain text unvalidated |
| GmCryptoClient.GetECKeyPairFromPrivateKey | src/main/java/com/baidu/xuper/crypto/gm/GmCryptoClient.java:157-165 | all four fields come from one SM2KeyPair.create(privateKey) |
| GmCryptoClient.CreateECKeyPair | src/main/java/com/baidu/xuper/crypto/gm/GmCryptoClient.java:142-150 | all four fields come from the one randomly drawn SM2 key pair |
| GmCryptoClient.CreateNewAccountWithMnemonic | src/main/java/com/baidu/xuper/crypto/gm/GmCryptoClient.java:63-65 | the gm mnemonic key file called with a fixed third argument 1 |
| GmCryptoClient.RetrieveAccountByMnemonic | src/main/java/com/baidu/xuper/crypto/gm/GmCryptoClient.java:76-78 | mnemonic and language passed through unchanged |
| GmCryptoClient.ScalarAndRandomPathsAgree | src/main/java/com/baidu/xuper/crypto/gm/GmCryptoClient.java:142-165 | rebuilding from a scalar and random creation copy an SM2 key pair the same way |
| CryptoClient.GetCryptoClient | src/main/java/com/baidu/xuper/api/CryptoClient.java:14-19 | gm exactly when the crypto setting equals "gm"; xchain for every other value, null included |
| CryptoClient.SelectionCases | src/main/java/com/baidu/xuper/api/CryptoClient.java:15-18 | "gm" selects gm; "GM", "Gm", "xchain", "" and null select xchain |
| CryptoClient.GetAddressFromPublicKey | src/main/java/com/baidu/xuper/api/Account.java:293 | the configured suite derives the address: xchain uses Common.nist and SHA-256, gm uses Common.gm and SM3, both under RIPEMD-160 and encodeChecked |
| CryptoClient.GetECKeyPairFromPrivateKey | src/main/java/com/baidu/xuper/api/Account.java:107 | xchain gives ECKeyPair.create(d); gm gives the four fields of SM2KeyPair.create(d) |
| CryptoClient.PasswordKey | src/main/java/com/baidu/xuper/crypto/xchain/XChainCryptoClient.java:114 | xchain derives the AES key with SHA-256 twice, gm with SM3 once |
| CryptoClient.GetEcdsaPrivateKeyFromFileByPassword | src/main/java/com/baidu/xuper/api/Account.java:209 | either suite decrypts path + "/private.key" with one shared procedure under its own password key |
| CryptoClient.CreateNewAccountWithMnemonic | src/main/java/com/baidu/xuper/api/Account.java:48 | the configured suite's mnemonic key file, called with (language, strength, 1) |
| CryptoClient.RetrieveAccountByMnemonic | src/main/java/com/baidu/xuper/api/Account.java:61 | the configured suite's mnemonic recovery, arguments passed through |
| CryptoClient.LoadersDifferOnlyInPasswordKey | src/main/java/com/baidu/xuper/crypto/xchain/XChainCryptoClient.java:111-116 | both suites' loaders decrypt path + "/private.key" the same way and differ only in the key: SHA-256 twice against SM3 once |
| CryptoClient.LoaderReadsOnlyPrivateKeyFile | src/main/java/com/baidu/xuper/crypto/gm/GmCryptoClient.java:103-108 | a loader's result depends on no file but path + "/private.key" |
| CryptoClient.LoaderDependsOnlyOnPasswordKey | src/main/java/com/baidu/xuper/crypto/xchain/XChainCryptoClient.java:113-115 | a loader sees the password only through the key derived from it |
| CryptoClient.SuiteAddressesDiffer | src/main/java/com/baidu/xuper/crypto/gm/GmCryptoClient.java:130-132 | with distinct version constants, no xchain address equals a gm address |
| Accounts.KeyPairIdentity | src/main/java/com/baidu/xuper/api/Account.java:291-295 | create(ECKeyPair) keeps the pair and derives the address from its public key |
| Accounts.RebuiltIdentity | src/main/java/com/baidu/xuper/api/Account.java:216 | the identity rebuilt from D holds the suite's pair for D and the address derived from it |
| Accounts.ScalarOfJson | src/main/java/com/baidu/xuper/api/Account.java:101-104 | with either Gson entry point: unparsable JSON fails; a missing D fails with "invalid private.key file"; otherwise D |
| Accounts.ReadAllBytes | src/main/java/com/baidu/xuper/api/Account.java:96-98 | Files.readAllBytes yields the file's contents when it exists and a NoSuchFile error naming it otherwise |
| Accounts.PlainFileIdentity | src/main/java/com/baidu/xuper/api/Account.java:94-120 | succeeds exactly when the three files exist, D is present, and the rebuilt address and public key equal the stored ones; the result is the rebuilt identity; every failure is wrapped; the first missing file, a missing D, an address mismatch and then a public-key mismatch each give their own error, in that order |
| Accounts.PlainFileAcceptsStoredIdentity | src/main/java/com/baidu/xuper/api/Account.java:94-120 | files holding an identity's D, address and public key load as that identity |
| Accounts.TamperedAddressRejected | src/main/java/com/baidu/xuper/api/Account.java:108-110 | changing the address file of a loadable directory gives "address and private key not match." |
| Accounts.TamperedPublicKeyRejected | src/main/java/com/baidu/xuper/api/Account.java:112-114 | changing the public-key file of a loadable directory gives "public key and private key not match." |
| Accounts.FileIdentity | src/main/java/com/baidu/xuper/api/Account.java:207-217 | the suite loader's errors pass through; a bad JSON or missing D fails; otherwise the identity rebuilt from D, unwrapped and not cross-checked |
| Accounts.StreamIdentity | src/main/java/com/baidu/xuper/api/Account.java:270-285 | a JSON reader failure is wrapped; a missing D fails unwrapped with "invalid private.key file"; otherwise the identity rebuilt from D |
| Accounts.MissingScalarRejected | src/main/java/com/baidu/xuper/api/Account.java:213-215 | all three loaders refuse a key file without D with "invalid private.key file" (getAccountFromPlainFile at lines 102-104, wrapped; create(InputStream) at lines 281-283) |
| Accounts.LoadersAgreeOnScalar | src/main/java/com/baidu/xuper/api/Account.java:207-217 | a plain key directory whose private.key holds some key text, a separate encrypted key directory whose private.key decrypts to the same text, and a stream holding it all load the same identity when they load, given that the JsonReader parse agrees with the String parse where that succeeds |
| Accounts.StreamAcceptsTrailingData | src/main/java/com/baidu/xuper/api/Account.java:270-277 | create(InputStream) loads whatever getAccountFromFile loads from the same key text, with the same identity; text that only the JsonReader parse accepts, such as a value with trailing data, loads from a stream while getAccountFromFile fails on it |
| Accounts.Account.constructor | src/main/java/com/baidu/xuper/api/Account.java:28-37 | the final fields are set and no contract name is set |
| Accounts.Account.GetAddress | src/main/java/com/baidu/xuper/api/Account.java:237-242 | the contract name when one is set, even "", and the AK address otherwise |
| Accounts.Account.GetAKAddress | src/main/java/com/baidu/xuper/api/Account.java:247-249 | always the derived address |
| Accounts.Account.GetMnemonic | src/main/java/com/baidu/xuper/api/Account.java:254-256 | the mnemonic, null for accounts not made from one |
| Accounts.Account.GetContractAccount | src/main/java/com/baidu/xuper/api/Account.java:261-263 | the contract name as stored |
| Accounts.Account.GetKeyPair | src/main/java/com/baidu/xuper/api/Account.java:310-312 | the key pair fixed at construction |
| Accounts.Account.GetAuthRequireId | src/main/java/com/baidu/xuper/api/Account.java:332-337 | always ends in the AK address; with a contract name it is the name, "/", and the AK address; without one it is the AK address |
| Accounts.Account.HasContractAccount | src/main/java/com/baidu/xuper/api/Account.java:342-344 | true exactly when the name is not "", so true on a fresh account |
| Accounts.Account.SetContractAccount | src/main/java/com/baidu/xuper/api/Account.java:317-320 | stores the name as given, null included; getAddress and getAuthRequireId follow it |
| Accounts.Account.RemoveContractAccount | src/main/java/com/baidu/xuper/api/Account.java:325-327 | sets the name to "" rather than null: getAddress becomes "", getAuthRequireId "/" + address, and HasContractAccount false |
| Accounts.Account.CreateFromKeyPair | src/main/java/com/baidu/xuper/api/Account.java:291-295 | a fresh account with the pair, the derived address, no mnemonic and no contract name |
| Accounts.Account.GetAccountFromPlainFile | src/main/java/com/baidu/xuper/api/Account.java:94-120 | fails exactly as PlainFileIdentity does, otherwise a fresh account holding that identity |
| Accounts.Account.GetAccountFromFile | src/main/java/com/baidu/xuper/api/Account.java:207-217 | fails exactly as FileIdentity does, otherwise a fresh account holding that identity |
| Accounts.Account.CreateFromStream | src/main/java/com/baidu/xuper/api/Account.java:270-285 | fails exactly as StreamIdentity does, otherwise a fresh account holding that identity |
| Accounts.Account.Create | src/main/java/com/baidu/xuper/api/Account.java:46-50 | the suite's mnemonic creation with the arguments swapped to (language, strength); key pair, address and mnemonic kept |
| Accounts.Account.Retrieve | src/main/java/com/baidu/xuper/api/Account.java:59-63 | the suite's mnemonic recovery; key pair, address and mnemonic kept |
| Accounts.ContractAccountLifecycle | src/main/java/com/baidu/xuper/api/Account.java:317-344 | after a removal and two settings, the contract account is null again, the key pair and AK address are unchanged and getAddress is back to the AK address |
| XuperClient.BigIntegerOf | src/main/java/com/baidu/xuper/api/XuperClient.java:568-569 | new BigInteger(1, bytes) is below 256^n for n bytes |
| XuperClient.BigIntegerOfAppend | src/main/java/com/baidu/xuper/api/XuperClient.java:568-569 | the value is big-endian: BigInteger(1, a ‖ b) is value(a)·256^len(b) + value(b) |
| XuperClient.BigIntegerOfInjective | src/main/java/com/baidu/xuper/api/XuperClient.java:568-569 | equal-length byte strings with equal values are equal |
| XuperClient.ParseSignature | src/main/java/com/baidu/xuper/api/XuperClient.java:566-574 | succeeds exactly for blobs of at least 128 bytes; r, s, X, Y are bytes [0,32), [32,64), [64,96), [96,128) read unsigned big-endian and the message is [128, len); shorter blobs throw (ArrayIndexOutOfBounds below 96, IllegalArgument from 96 to 127); 128 bytes give an empty message |
| XuperClient.VerifyXuperSignature | src/main/java/com/baidu/xuper/api/XuperClient.java:564-612 | undecodable hex fails and blobs under 128 bytes give no answer; a blob of at least 128 bytes whose point (X, Y) is invalid on the xchain curve fails with InvalidPoint, and one whose point is valid always yields an answer: false when the address derived from that point differs from chainAddress, false when a non-null message differs, otherwise the ECDSA verdict. The point is always built on the xchain curve, whichever suite derives the address |
| XuperClient.VerifyTrueIff | src/main/java/com/baidu/xuper/api/XuperClient.java:582-611 | true exactly when the point is valid on the xchain curve, its address under the configured suite is chainAddress, the message matches or is null, and (r, s) verifies over the message suffix |
| XuperClient.ChecksInOrder | src/main/java/com/baidu/xuper/api/XuperClient.java:596-602 | an address or message mismatch gives false whatever the signature verifier would say |
| XuperClient.SignatureDecidesLast | src/main/java/com/baidu/xuper/api/XuperClient.java:604-611 | once address and message have matched, the answer is exactly the ECDSA verdict: a failed check is false, not an error |
| XuperClient.AddressMismatchIgnoresMessage | src/main/java/com/baidu/xuper/api/XuperClient.java:596-599 | a wrong address gives false for every expected message, null included |

## Left out

- The primitives are left abstract, for the reasons given above. They live in files that are not part of this model or in BouncyCastle: Base58, the hashes, AES, base64, ECDSA and SM2, point arithmetic, and ECKeyPair/SM2KeyPair creation.
- AccountCodec.HexDecode: text is modelled as a sequence of Unicode scalar values, while Java's length() and substring count UTF-16 code units. The model matches Java only for text without supplementary-plane characters. For example, 40 hex digits followed by U+1F600 are 42 units in Java, which throw NumberFormatException on the 21st pair, but 41 characters in the model, which drops the last one.
- AccountCodec.HexStringToBytes, AccountCodec.EVMToAK, AccountCodec.EvmAddressToXchainAK, AccountCodec.EvmAcceptedLengths and AccountCodec.OddTrailingCharacterIgnored: they inherit the same counting of characters in place of UTF-16 code units.
- JavaLang.ToUpperCase: models Locale.ROOT upper-casing of ASCII letters only, and leaves every other character unchanged. Java also upper-cases non-ASCII letters ('é' to 'É') and can change the length ("ß" to "SS"). Every caller passes hex digits only, so the model's uses do not depend on it.
- Integer.parseInt also accepts non-ASCII Unicode digits through Character.digit. The model parses ASCII digits only.
- Gson is two parameters: `parsePrivatePubKey` for fromJson(String), which getAccountFromPlainFile and getAccountFromFile call, and `readPrivatePubKey` for fromJson(JsonReader), which create(InputStream) calls and which does not insist that the text ends after the value. The only property assumed relating them is `ReaderAgreesOnWholeValues`. A parse that throws and one that yields null are both `MalformedJson`. In getAccountFromFile and create(InputStream), a null parse result becomes a NullPointerException in the source, and that distinction is not kept.
- Null arguments are not modelled: Dafny strings cannot be null. In Java a null `sig` or `password` throws NullPointerException at `Hex.decode` and `password.getBytes()`, and a null `path` becomes the text "null" in `path + "/address"`, so the read fails.
- Charsets are parameters: `stringBytes`, `bytesString`, `utf8String`. Strings the source compares after `new String(bytes)` are compared after that conversion.
- XuperClient.VerifyXuperSignature: the expected message is taken as bytes and compared with the message suffix as bytes. The source compares strings after a platform-charset decoding.
- Accounts.Account.HasContractAccount: models the reference comparison `!=` with "" as value inequality. A name equal to "" but not the interned literal would differ in Java.
- Point construction is an opaque validity predicate, `isValidPoint`. An invalid point, modelled as `InvalidPoint`, stands for whatever BouncyCastle throws.
- create(String keyPath) is not modelled. It only opens a stream and wraps what create(InputStream) throws.
- create() and createECKeyPair of the xchain suite are not modelled: they draw random keys. The gm suite's copy of a drawn pair is modelled with the drawn pair as a parameter.
- createAndSaveToFile and retrieveAccountByMnemonicAndSavePrivKey are not modelled: they write files.
- generateEntropy, generateMnemonic, signECDSA, encryptByEcdsaKey and decryptByEcdsaKey are not modelled: they are primitives or randomness outside this layer.
- Provider registration in the XChainCryptoClient constructor is not modelled: it is a global side effect.
- Configuration loading is not modelled. Only the crypto string matters, and it is a parameter.
- The version constants Common.nist and Common.gm are parameters, as Common is not part of this model. XChainAddressBridge and GmAddressBridge state what follows for each value.
- XchainAKToEVMAddress and EvmAddressToXchainAK take and return immutable sequences. The arrays they fill are local to them.
