/** Hex strings as the compression library reads and prints them. */
module Hex {
  import opened Outcomes
  import opened Text

  type Byte = b: nat | b < 256

  datatype HexError = NotHexString | OddLength

  // ---------------------------------------------------------------- reading

  predicate IsHexDigit(c: char) {
    '0' <= c <= '9' || 'a' <= c <= 'f' || 'A' <= c <= 'F'
  }

  /** The digits of a hex string: blanks around it and a `0x` before it are dropped. */
  function HexString(data: string): (r: Result<string, HexError>)
    ensures r.Ok? ==> AllHex(r.value) && |r.value| % 2 == 0
  {
    var t := Trim(data);
    var digits := if |t| >= 2 && t[0] == '0' && (t[1] == 'x' || t[1] == 'X') then t[2..] else t;
    if !AllHex(digits) then Err(NotHexString)
    else if |digits| % 2 != 0 then Err(OddLength)
    else Ok(digits)
  }

  predicate AllHex(digits: string) {
    forall i | 0 <= i < |digits| :: IsHexDigit(digits[i])
  }

  function DigitValue(c: char): nat
    requires IsHexDigit(c)
  {
    if '0' <= c <= '9' then (c - '0') as nat
    else if 'a' <= c <= 'f' then 10 + (c - 'a') as nat
    else 10 + (c - 'A') as nat
  }

  function HexToBytes(digits: string): (bytes: seq<Byte>)
    requires |digits| % 2 == 0 && AllHex(digits)
    ensures 2 * |bytes| == |digits|
  {
    if digits == "" then []
    else [16 * DigitValue(digits[0]) + DigitValue(digits[1])] + HexToBytes(digits[2..])
  }

  function ReadBytes(data: string): Result<seq<Byte>, HexError> {
    var digits :- HexString(data);
    Ok(HexToBytes(digits))
  }

  // ---------------------------------------------------------------- printing

  function DigitOf(v: nat): (c: char)
    requires v < 16
    ensures IsHexDigit(c) && DigitValue(c) == v && c != 'x' && c != 'X'
  {
    if v < 10 then '0' + v as char else 'a' + (v - 10) as char
  }

  function Digits(bytes: seq<Byte>): (digits: string)
    ensures |digits| == 2 * |bytes| && AllHex(digits)
  {
    if bytes == [] then ""
    else [DigitOf(bytes[0] / 16), DigitOf(bytes[0] % 16)] + Digits(bytes[1..])
  }

  function BytesToHex(bytes: seq<Byte>): string {
    "0x" + Digits(bytes)
  }

  // ---------------------------------------------------------------- round trip

  lemma {:induction false} DigitsReadBack(bytes: seq<Byte>)
    ensures HexToBytes(Digits(bytes)) == bytes
  {
    if bytes == [] {
    } else {
      DigitsReadBack(bytes[1..]);
      assert Digits(bytes)[2..] == Digits(bytes[1..]);
    }
  }

  lemma DigitsAreNotBlank(c: char)
    requires IsHexDigit(c) || c == 'x'
    ensures !IsSpace(c)
  {
  }

  /** Printed bytes read back as themselves, whatever they are. */
  lemma PrintedBytesReadBack(bytes: seq<Byte>)
    ensures ReadBytes(BytesToHex(bytes)) == Ok(bytes)
  {
    var s, digits := BytesToHex(bytes), Digits(bytes);
    DigitsAreNotBlank(s[0]);
    DigitsAreNotBlank(s[|s| - 1]);
    NothingToTrim(s);
    assert s[0] == '0' && s[1] == 'x' && s[2..] == digits;
    assert HexString(s) == Ok(digits);
    DigitsReadBack(bytes);
  }
}
