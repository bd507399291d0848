/** The pieces of Java and the JDK whose exact behaviour the account core
    depends on: signed bytes and the (byte) cast, the shift and mask
    operators used on them, Integer.toHexString / Integer.parseInt on hex
    digits, String.toUpperCase on ASCII, Arrays.copyOfRange and
    System.arraycopy, and the exceptions these raise. */
module JavaLang {

  datatype Option<+T> = None | Some(value: T)

  /** What a Java call can throw, as far as this core distinguishes it. */
  datatype Exception =
    | NumberFormat                  // Integer.parseInt rejected its text
    | ArrayIndexOutOfBounds         // Arrays.copyOfRange / System.arraycopy
    | IllegalArgument               // Arrays.copyOfRange with from > to
    | NoSuchFile(path: string)      // a file read found nothing at path
    | MalformedBase58               // Base58.decode rejected its text
    | MalformedBase64               // the base64 decoding of a key file failed
    | MalformedHex                  // Hex.decode rejected its text
    | MalformedJson                 // Gson could not produce a PrivatePubKey
    | DecryptionFailed              // AES.decrypt failed
    | InvalidPoint                  // the coordinates are not a point of the curve
    | Runtime(message: string)      // new RuntimeException(message)
    | Wrapped(cause: Exception)     // new RuntimeException(cause)

  /** A value or the exception that ended the computation. */
  datatype Result<+T> = Ok(value: T) | Err(error: Exception) {
    predicate IsFailure() { Err? }
    function PropagateFailure<U>(): Result<U> requires Err? { Err(error) }
    function Extract(): T requires Ok? { value }
  }

  /** A Java byte: signed, two's complement. */
  type JByte = x: int | -128 <= x < 128

  type Bytes = seq<JByte>

  /** The value 0..255 whose bit pattern the byte carries. */
  function Unsigned(b: JByte): (u: int)
    ensures 0 <= u < 256
    ensures (u - b) % 256 == 0
  {
    if b < 0 then b + 256 else b
  }

  /** The narrowing cast (byte) v: keeps the low eight bits of v. */
  function NarrowToByte(v: int): (b: JByte)
    ensures (b - v) % 256 == 0
    ensures -128 <= v < 128 ==> b == v
  {
    (v + 128) % 256 - 128
  }

  /** `x >> 4` on a Java int: the arithmetic shift rounds toward negative
      infinity, which is what Dafny's `/` does for a positive divisor. */
  function ShiftRight4(x: int): int { x / 16 }

  /** `x & 0xF` on a Java int: the low four bits of the two's complement
      representation, which is the non-negative remainder modulo 16. */
  function Mask0xF(x: int): (r: int)
    ensures 0 <= r < 16
  {
    x % 16
  }

  /** The four bits `(b >> 4) & 0xF` and `b & 0xF` of a byte that is sign
      extended to an int are its high and low nibble. */
  lemma NibblesOfByte(b: JByte)
    ensures Mask0xF(ShiftRight4(b)) == Unsigned(b) / 16
    ensures Mask0xF(b) == Unsigned(b) % 16
  {
    if b < 0 {
      assert ShiftRight4(b) == Unsigned(b) / 16 - 16;
    }
  }

  /** Integer.toHexString(n) for 0 <= n < 16: one lower-case digit. */
  function ToHexString(n: int): (s: string)
    requires 0 <= n < 16
    ensures |s| == 1 && ('0' <= s[0] <= '9' || 'a' <= s[0] <= 'f')
    ensures HexDigitValue(s[0]) == Some(n)
  {
    [LowerHexDigit(n)]
  }

  function LowerHexDigit(n: int): char
    requires 0 <= n < 16
  {
    if n < 10 then ('0' as int + n) as char else ('a' as int + n - 10) as char
  }

  /** The character Locale.ROOT upper-casing gives for an ASCII character. */
  function UpperChar(c: char): char
  {
    if 'a' <= c <= 'z' then (c as int - 32) as char else c
  }

  /** String.toUpperCase(Locale.ROOT) on text made of ASCII characters. */
  function ToUpperCase(s: string): (r: string)
    ensures |r| == |s|
    ensures forall i :: 0 <= i < |s| ==> r[i] == UpperChar(s[i])
  {
    seq(|s|, i requires 0 <= i < |s| => UpperChar(s[i]))
  }

  lemma ToUpperCaseConcat(a: string, b: string)
    ensures ToUpperCase(a + b) == ToUpperCase(a) + ToUpperCase(b)
  {
    assert forall i :: 0 <= i < |a + b| ==>
      ToUpperCase(a + b)[i] == (ToUpperCase(a) + ToUpperCase(b))[i];
  }

  /** Character.digit(c, 16) on ASCII: the value of a hexadecimal digit. */
  function HexDigitValue(c: char): (v: Option<int>)
    ensures v.Some? ==> 0 <= v.value < 16
  {
    if '0' <= c <= '9' then Some(c as int - '0' as int)
    else if 'a' <= c <= 'f' then Some(c as int - 'a' as int + 10)
    else if 'A' <= c <= 'F' then Some(c as int - 'A' as int + 10)
    else None
  }

  predicate IsHexDigit(c: char) { HexDigitValue(c).Some? }

  /** Integer.parseInt(s, 16) on a string s of exactly two characters: a
      leading '-' or '+' sign followed by one digit is accepted, as are two
      digits; anything else throws NumberFormatException. */
  function ParseHexInt2(c0: char, c1: char): (r: Option<int>)
    ensures r.Some? ==> -15 <= r.value < 256
    ensures IsHexDigit(c0) && IsHexDigit(c1) ==>
      r == Some(16 * HexDigitValue(c0).value + HexDigitValue(c1).value)
    ensures (c0 == '-' || c0 == '+') && IsHexDigit(c1) ==>
      r == Some(if c0 == '-' then -HexDigitValue(c1).value else HexDigitValue(c1).value)
    ensures r.Some? <==> IsHexDigit(c1) && (IsHexDigit(c0) || c0 == '-' || c0 == '+')
  {
    match HexDigitValue(c1)
    case None => None
    case Some(low) =>
      if c0 == '-' then Some(-low)
      else if c0 == '+' then Some(low)
      else match HexDigitValue(c0)
        case None => None
        case Some(high) => Some(16 * high + low)
  }

  /** Arrays.copyOfRange(a, from, to) on a byte array: an array of length
      to - from, copied from a and padded with zeros past its end. */
  function CopyOfRange(a: Bytes, from: int, to: int): (r: Result<Bytes>)
    ensures r.Err? <==> from > to || from < 0 || from > |a|
    ensures r.Err? ==> r.error == (if from > to then IllegalArgument else ArrayIndexOutOfBounds)
    ensures r.Ok? ==> |r.value| == to - from
    ensures r.Ok? && to <= |a| ==> r.value == a[from..to]
    ensures r.Ok? ==> forall k :: 0 <= k < to - from ==>
      r.value[k] == if from + k < |a| then a[from + k] else 0
  {
    if to - from < 0 then Err(IllegalArgument)
    else if from < 0 || from > |a| then Err(ArrayIndexOutOfBounds)
    else
      var end := if to <= |a| then to else |a|;
      Ok(a[from..end] + seq(to - end, _ => 0))
  }

  /** System.arraycopy(src, srcPos, dest, destPos, length) with bounds that
      the callers in this core always meet; src and dest never alias there,
      so the source is passed by value. */
  method ArrayCopy(src: Bytes, srcPos: nat, dest: array<JByte>, destPos: nat, length: nat)
    requires srcPos + length <= |src| && destPos + length <= dest.Length
    modifies dest
    ensures dest[..] == old(dest[..destPos]) + src[srcPos..srcPos + length] + old(dest[destPos + length..])
  {
    for k := 0 to length
      invariant forall j :: destPos <= j < destPos + k ==> dest[j] == src[srcPos + (j - destPos)]
      invariant forall j :: 0 <= j < dest.Length && !(destPos <= j < destPos + k) ==> dest[j] == old(dest[j])
    {
      dest[destPos + k] := src[srcPos + k];
    }
    ghost var expected := old(dest[..destPos]) + src[srcPos..srcPos + length] + old(dest[destPos + length..]);
    assert |expected| == dest.Length;
    assert forall j :: 0 <= j < dest.Length ==> dest[j] == expected[j];
  }
}
