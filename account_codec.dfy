/** The static codec part of api/Account.java: the hand-written upper-case
    hex encoder and the hex decoder, and the two conversions between a chain
    ("AK") address and a 20-byte EVM address. Each Java method is a Dafny
    method written as the source writes it (loops, fresh arrays, copies),
    proved equal to a specification function; the properties are lemmas
    about those functions. */
module AccountCodec {
  import opened JavaLang
  import opened CryptoPrimitives
  import XChainCryptoClient
  import GmCryptoClient

  /** The upper-case hexadecimal digit of 0 <= n < 16. */
  function UpperHexDigit(n: int): char
    requires 0 <= n < 16
  {
    if n < 10 then ('0' as int + n) as char else ('A' as int + n - 10) as char
  }

  predicate IsUpperHexDigit(c: char) { '0' <= c <= '9' || 'A' <= c <= 'F' }

  /** Upper-case hex text of bytes: two digits per byte, high nibble first. */
  function HexUpper(bytes: Bytes): (s: string)
    ensures |s| == 2 * |bytes|
    ensures forall i :: 0 <= i < |bytes| ==>
      s[2 * i] == UpperHexDigit(Unsigned(bytes[i]) / 16) && s[2 * i + 1] == UpperHexDigit(Unsigned(bytes[i]) % 16)
    ensures forall j :: 0 <= j < |s| ==> IsUpperHexDigit(s[j])
  {
    if bytes == [] then []
    else
      var last := Unsigned(bytes[|bytes| - 1]);
      HexUpper(bytes[..|bytes| - 1]) + [UpperHexDigit(last / 16), UpperHexDigit(last % 16)]
  }

  /** Upper-casing Integer.toHexString of a nibble gives its upper-case digit. */
  lemma UpperOfLowerDigit(n: int)
    requires 0 <= n < 16
    ensures ToUpperCase(ToHexString(n)) == [UpperHexDigit(n)]
  {
    assert ToUpperCase(ToHexString(n))[0] == UpperChar(LowerHexDigit(n));
  }

  /** hexEncodeUpperToString: for every byte append Integer.toHexString of
      (b >> 4) & 0xF and of b & 0xF, then upper-case the whole text. */
  method HexEncodeUpperToString(bytes: Bytes) returns (s: string)
    ensures s == HexUpper(bytes)
  {
    var result: string := [];
    var index, len := 0, |bytes|;
    while index <= len - 1
      invariant 0 <= index <= len
      invariant ToUpperCase(result) == HexUpper(bytes[..index])
    {
      var invalue1 := ToHexString(Mask0xF(ShiftRight4(bytes[index])));
      var intValue2 := ToHexString(Mask0xF(bytes[index]));
      NibblesOfByte(bytes[index]);
      UpperOfLowerDigit(Mask0xF(ShiftRight4(bytes[index])));
      UpperOfLowerDigit(Mask0xF(bytes[index]));
      ToUpperCaseConcat(result, invalue1);
      ToUpperCaseConcat(result + invalue1, intValue2);
      assert bytes[..index + 1][..index] == bytes[..index];
      result := result + invalue1;
      result := result + intValue2;
      index := index + 1;
    }
    assert bytes[..index] == bytes;
    s := ToUpperCase(result);
  }

  /** Integer.parseInt of the characters 2k and 2k + 1 of hex. */
  function PairAt(hex: string, k: int): Option<int>
    requires 0 <= k < |hex| / 2
  {
    ParseHexInt2(hex[2 * k], hex[2 * k + 1])
  }

  predicate AllPairsParse(hex: string)
  {
    forall k :: 0 <= k < |hex| / 2 ==> PairAt(hex, k).Some?
  }

  /** The byte the decoder stores for pair k. */
  function DecodedByte(hex: string, k: int): JByte
    requires 0 <= k < |hex| / 2
  {
    match PairAt(hex, k)
    case Some(v) => NarrowToByte(v)
    case None => 0
  }

  /** What hexStringToBytes returns: one byte per pair of characters, a
      trailing odd character ignored, NumberFormatException when a pair does
      not parse. */
  function HexDecode(hex: string): (r: Result<Bytes>)
    ensures r.Ok? <==> AllPairsParse(hex)
    ensures r.Err? ==> r.error == NumberFormat
    ensures r.Ok? ==> |r.value| == |hex| / 2
  {
    if AllPairsParse(hex) then Ok(seq(|hex| / 2, k requires 0 <= k < |hex| / 2 => DecodedByte(hex, k)))
    else Err(NumberFormat)
  }

  /** hexStringToBytes: fill a byte[hex.length() / 2] pair by pair. */
  method HexStringToBytes(hex: string) returns (r: Result<Bytes>)
    ensures r == HexDecode(hex)
  {
    var bytes := new JByte[|hex| / 2];
    for i := 0 to bytes.Length
      invariant forall k :: 0 <= k < i ==> PairAt(hex, k).Some? && bytes[k] == DecodedByte(hex, k)
    {
      var v := ParseHexInt2(hex[i * 2], hex[i * 2 + 1]);
      if v.None? {
        assert !PairAt(hex, i).Some?;
        return Err(NumberFormat);
      }
      bytes[i] := NarrowToByte(v.value);
    }
    assert bytes[..] == HexDecode(hex).value;
    r := Ok(bytes[..]);
  }

  lemma DigitRoundTrip(n: int)
    requires 0 <= n < 16
    ensures HexDigitValue(UpperHexDigit(n)) == Some(n)
  {
  }

  /** Decoding reverses encoding: hexStringToBytes(hexEncodeUpperToString(b)) == b. */
  lemma {:induction false} HexRoundTrip(bytes: Bytes)
    ensures HexDecode(HexUpper(bytes)) == Ok(bytes)
  {
    var hex := HexUpper(bytes);
    forall k | 0 <= k < |bytes|
      ensures PairAt(hex, k) == Some(Unsigned(bytes[k])) && DecodedByte(hex, k) == bytes[k]
    {
      var u := Unsigned(bytes[k]);
      DigitRoundTrip(u / 16);
      DigitRoundTrip(u % 16);
      assert PairAt(hex, k) == Some(16 * (u / 16) + u % 16);
    }
    assert HexDecode(hex).value == bytes;
  }

  /** Encoding what was decoded gives back the text, upper-cased, when the
      text is an even number of hex digits. */
  lemma {:induction false} HexDecodeThenEncode(hex: string)
    requires |hex| % 2 == 0
    requires forall i :: 0 <= i < |hex| ==> IsHexDigit(hex[i])
    ensures HexDecode(hex).Ok? && HexUpper(HexDecode(hex).value) == ToUpperCase(hex)
  {
    assert AllPairsParse(hex) by {
      forall k | 0 <= k < |hex| / 2 ensures PairAt(hex, k).Some? {
        assert IsHexDigit(hex[2 * k]) && IsHexDigit(hex[2 * k + 1]);
      }
    }
    var bytes := HexDecode(hex).value;
    var enc := HexUpper(bytes);
    var upper := ToUpperCase(hex);
    forall k | 0 <= k < |hex| / 2
      ensures enc[2 * k] == upper[2 * k] && enc[2 * k + 1] == upper[2 * k + 1]
    {
      assert IsHexDigit(hex[2 * k]) && IsHexDigit(hex[2 * k + 1]);
      PairReencodes(hex[2 * k], hex[2 * k + 1]);
      assert bytes[k] == DecodedByte(hex, k);
    }
    forall j | 0 <= j < |hex| ensures enc[j] == upper[j] {
      var k := j / 2;
      if j % 2 == 0 { assert j == 2 * k; } else { assert j == 2 * k + 1; }
    }
  }

  /** One pair of hex digits, parsed, narrowed and encoded again. */
  lemma PairReencodes(c0: char, c1: char)
    requires IsHexDigit(c0) && IsHexDigit(c1)
    ensures var b := NarrowToByte(ParseHexInt2(c0, c1).value);
      UpperHexDigit(Unsigned(b) / 16) == UpperChar(c0) && UpperHexDigit(Unsigned(b) % 16) == UpperChar(c1)
  {
    var hi, lo := HexDigitValue(c0).value, HexDigitValue(c1).value;
    var v := 16 * hi + lo;
    assert ParseHexInt2(c0, c1).value == v;
    assert Unsigned(NarrowToByte(v)) == v;
    assert v / 16 == hi && v % 16 == lo;
    DigitAsUpper(c0);
    DigitAsUpper(c1);
  }

  lemma DigitAsUpper(c: char)
    requires IsHexDigit(c)
    ensures UpperHexDigit(HexDigitValue(c).value) == UpperChar(c)
  {
  }

  /** An odd trailing character is dropped, whatever it is. */
  lemma OddTrailingCharacterIgnored(hex: string, c: char)
    requires |hex| % 2 == 0
    ensures HexDecode(hex + [c]) == HexDecode(hex)
  {
    var h := hex + [c];
    assert |h| / 2 == |hex| / 2;
    forall k | 0 <= k < |hex| / 2 ensures PairAt(h, k) == PairAt(hex, k) {
      assert h[2 * k] == hex[2 * k] && h[2 * k + 1] == hex[2 * k + 1];
    }
    if AllPairsParse(hex) {
      assert HexDecode(h).value == HexDecode(hex).value;
    }
  }

  /** Integer.parseInt accepts a sign, so "-1" decodes to the byte 0xFF, the
      same byte "FF" decodes to. */
  lemma SignedPairAccepted()
    ensures HexDecode("-1") == Ok([-1]) && HexDecode("FF") == Ok([-1])
    ensures HexDecode("+f") == Ok([15]) && HexDecode("0F") == Ok([15])
    ensures HexDecode("1-").Err?
  {
    assert PairAt("-1", 0) == Some(-1);
    assert PairAt("FF", 0) == Some(255);
    assert PairAt("+f", 0) == Some(15);
    assert PairAt("0F", 0) == Some(15);
    assert PairAt("1-", 0) == None;
    assert HexDecode("-1").value == [-1];
    assert HexDecode("FF").value == [-1];
    assert HexDecode("+f").value == [15];
    assert HexDecode("0F").value == [15];
  }

  const MsgAkAddressNull := "akAddress is null"
  const MsgEvmAddressNull := "evmAddress is null"
  const MsgBadAddress := "bad address"

  /** What xchainAKToEVMAddress returns: the upper-case hex of bytes [1, 21)
      of the Base58 decoding; neither the version byte nor the checksum is
      looked at. */
  function AKToEVM(p: Primitives, akAddress: Option<string>): (r: Result<string>)
    ensures akAddress.None? ==> r == Err(Runtime(MsgAkAddressNull))
    ensures akAddress.Some? && p.base58Decode(akAddress.value).None? ==> r == Err(MalformedBase58)
    ensures akAddress.Some? && p.base58Decode(akAddress.value).Some? ==>
      var raw := p.base58Decode(akAddress.value).value;
      if |raw| < 21 then r == Err(Runtime(MsgBadAddress)) else r == Ok(HexUpper(raw[1..21]))
    ensures r.Ok? ==> |r.value| == 40 && forall j :: 0 <= j < 40 ==> IsUpperHexDigit(r.value[j])
  {
    if akAddress.None? then Err(Runtime(MsgAkAddressNull))
    else match p.base58Decode(akAddress.value)
      case None => Err(MalformedBase58)
      case Some(rawAddr) =>
        if |rawAddr| < 21 then Err(Runtime(MsgBadAddress))
        else
          var ripemd160Hash := CopyOfRange(rawAddr, 1, 21).value;
          Ok(HexUpper(ripemd160Hash))
  }

  /** xchainAKToEVMAddress as the source writes it. */
  method XchainAKToEVMAddress(p: Primitives, akAddress: Option<string>) returns (r: Result<string>)
    ensures r == AKToEVM(p, akAddress)
  {
    if akAddress.None? {
      return Err(Runtime(MsgAkAddressNull));
    }
    var decoded := p.base58Decode(akAddress.value);
    if decoded.None? {
      return Err(MalformedBase58);
    }
    var rawAddr := decoded.value;
    if |rawAddr| < 21 {
      return Err(Runtime(MsgBadAddress));
    }
    var ripemd160Hash := CopyOfRange(rawAddr, 1, 21).value;
    var hex := HexEncodeUpperToString(ripemd160Hash);
    return Ok(hex);
  }

  /** The 25 bytes evmAddressToXchainAK Base58-encodes for a 20-byte hash:
      version 1, the hash, the first four bytes of doubleSha256 of both. */
  function EvmChecked(p: Primitives, hash: Bytes): Bytes
  {
    [1] + hash + DoubleSha256(p, [1] + hash)[..4]
  }

  /** What evmAddressToXchainAK returns. */
  function EVMToAK(p: Primitives, evmAddress: Option<string>): (r: Result<string>)
    ensures evmAddress.None? ==> r == Err(Runtime(MsgEvmAddressNull))
    ensures evmAddress.Some? && HexDecode(evmAddress.value).Err? ==> r == Err(NumberFormat)
    ensures evmAddress.Some? && HexDecode(evmAddress.value).Ok? ==>
      var hash := HexDecode(evmAddress.value).value;
      if |hash| != 20 then r == Err(Runtime(MsgBadAddress)) else r == Ok(p.base58Encode(EvmChecked(p, hash)))
  {
    if evmAddress.None? then Err(Runtime(MsgEvmAddressNull))
    else
      var outputRipemd160 :- HexDecode(evmAddress.value);
      if |outputRipemd160| != 20 then Err(Runtime(MsgBadAddress))
      else Ok(p.base58Encode(EvmChecked(p, outputRipemd160)))
  }

  /** evmAddressToXchainAK as the source writes it, with its array copies. */
  method EvmAddressToXchainAK(p: Primitives, evmAddress: Option<string>) returns (r: Result<string>)
    ensures r == EVMToAK(p, evmAddress)
  {
    if evmAddress.None? {
      return Err(Runtime(MsgEvmAddressNull));
    }
    var outputRipemd160 :- HexStringToBytes(evmAddress.value);
    if |outputRipemd160| != 20 {
      return Err(Runtime(MsgBadAddress));
    }
    var bufVersion := new JByte[1];
    bufVersion[0] := 1;
    var strSlice := new JByte[|outputRipemd160| + bufVersion.Length];
    ArrayCopy(bufVersion[..], 0, strSlice, 0, bufVersion.Length);
    ArrayCopy(outputRipemd160, 0, strSlice, 1, |outputRipemd160|);
    assert strSlice[..] == [1] + outputRipemd160;
    var checkCode := DoubleSha256(p, strSlice[..]);
    var slice := new JByte[strSlice.Length + 4];
    ArrayCopy(strSlice[..], 0, slice, 0, strSlice.Length);
    ArrayCopy(checkCode, 0, slice, strSlice.Length, 4);
    assert slice[..] == EvmChecked(p, outputRipemd160);
    var encode := p.base58Encode(slice[..]);
    return Ok(encode);
  }

  /** The conversion accepts exactly 40 or 41 characters of text whose
      first 40 characters parse pair by pair. */
  lemma EvmAcceptedLengths(p: Primitives, evm: string)
    ensures EVMToAK(p, Some(evm)).Ok? <==> (|evm| == 40 || |evm| == 41) && AllPairsParse(evm)
  {
  }

  /** Two AK addresses whose decodings agree on bytes [1, 21) have the same
      EVM address, whatever their version bytes and checksums. */
  lemma VersionAndChecksumIgnored(p: Primitives, a1: string, a2: string)
    requires p.base58Decode(a1).Some? && p.base58Decode(a2).Some?
    requires |p.base58Decode(a1).value| >= 21 && |p.base58Decode(a2).value| >= 21
    requires p.base58Decode(a1).value[1..21] == p.base58Decode(a2).value[1..21]
    ensures AKToEVM(p, Some(a1)) == AKToEVM(p, Some(a2))
  {
  }

  /** EVM round trip: xchainAKToEVMAddress(evmAddressToXchainAK(h)) is h
      upper-cased, for any 40 hex digits h. */
  lemma EvmRoundTrip(p: Primitives, evm: string)
    requires Base58RoundTrips(p)
    requires |evm| == 40 && forall i :: 0 <= i < |evm| ==> IsHexDigit(evm[i])
    ensures EVMToAK(p, Some(evm)).Ok?
    ensures AKToEVM(p, Some(EVMToAK(p, Some(evm)).value)) == Ok(ToUpperCase(evm))
  {
    HexDecodeThenEncode(evm);
    var hash := HexDecode(evm).value;
    var raw := EvmChecked(p, hash);
    assert p.base58Decode(p.base58Encode(raw)) == Some(raw);
    assert raw[1..21] == hash;
  }

  /** AK round trip: an address of the layout evmAddressToXchainAK builds
      survives the trip through its EVM form. */
  lemma AKRoundTrip(p: Primitives, hash: Bytes)
    requires Base58RoundTrips(p)
    requires |hash| == 20
    ensures var ak := p.base58Encode(EvmChecked(p, hash));
      AKToEVM(p, Some(ak)) == Ok(HexUpper(hash)) && EVMToAK(p, Some(HexUpper(hash))) == Ok(ak)
  {
    var raw := EvmChecked(p, hash);
    assert p.base58Decode(p.base58Encode(raw)) == Some(raw);
    assert raw[1..21] == hash;
    HexRoundTrip(hash);
  }

  /** With Common.nist == 1 and encodeChecked of its documented shape, the
      EVM address of an xchain account is the upper-case hex of its
      RIPEMD-160 hash, and converting that back yields the account's own
      address: the bridge is a bijection on xchain addresses. */
  lemma XChainAddressBridge(p: Primitives, publicKey: ECPoint)
    requires Base58RoundTrips(p) && EncodeCheckedAsDocumented(p)
    requires p.nistVersion == 1
    ensures var address := XChainCryptoClient.GetAddressFromPublicKey(p, publicKey);
      var evm := HexUpper(XChainCryptoClient.AddressHash(p, publicKey));
      AKToEVM(p, Some(address)) == Ok(evm) && EVMToAK(p, Some(evm)) == Ok(address)
  {
    var hash := XChainCryptoClient.AddressHash(p, publicKey);
    assert CheckedLayout(p, 1, hash) == EvmChecked(p, hash);
    AKRoundTrip(p, hash);
  }

  /** A gm address has an EVM form too (the version byte is not checked),
      but evmAddressToXchainAK always rebuilds with version 1 and the xchain
      double SHA-256, so when Common.gm is not 1 the trip back yields a
      different address. */
  lemma GmAddressBridge(p: Primitives, publicKey: ECPoint)
    requires Base58RoundTrips(p) && EncodeCheckedAsDocumented(p)
    requires p.gmVersion != 1
    ensures var address := GmCryptoClient.GetAddressFromPublicKey(p, publicKey);
      var evm := HexUpper(GmCryptoClient.AddressHash(p, publicKey));
      AKToEVM(p, Some(address)) == Ok(evm) && EVMToAK(p, Some(evm)).Ok? && EVMToAK(p, Some(evm)).value != address
  {
    var hash := GmCryptoClient.AddressHash(p, publicKey);
    var raw := CheckedLayout(p, p.gmVersion, hash);
    assert p.base58Decode(p.base58Encode(raw)) == Some(raw);
    assert raw[1..21] == hash;
    HexRoundTrip(hash);
    var back := EvmChecked(p, hash);
    assert raw != back by { assert raw[0] != back[0]; }
    Base58EncodeInjective(p, raw, back);
  }
}
