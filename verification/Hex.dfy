/** Bytes as hexadecimal text: `bytes.hex` and `bytes.fromhex`. */
module Hex {
  import opened Wrappers

  type Byte = b: int | 0 <= b < 256

  const DIGITS: string := "0123456789abcdef"

  function DigitValue(c: char): (v: Option<int>)
    ensures v.Some? ==> 0 <= v.value < 16
  {
    if '0' <= c <= '9' then Some(c as int - '0' as int)
    else if 'a' <= c <= 'f' then Some(c as int - 'a' as int + 10)
    else if 'A' <= c <= 'F' then Some(c as int - 'A' as int + 10)
    else None
  }

  predicate IsBlank(c: char) {
    c == ' ' || c == '\t' || c == '\n' || c == 11 as char || c == 12 as char || c == '\r'
  }

  function ToHex(bytes: seq<Byte>): string {
    if bytes == [] then "" else [DIGITS[bytes[0] / 16], DIGITS[bytes[0] % 16]] + ToHex(bytes[1..])
  }

  /** Blanks may stand between bytes; anything else that is no pair of digits is an error. */
  function FromHex(text: string): Option<seq<Byte>> {
    if text == "" then Some([])
    else if IsBlank(text[0]) then FromHex(text[1..])
    else if |text| < 2 then None
    else
      var high, low, rest := DigitValue(text[0]), DigitValue(text[1]), FromHex(text[2..]);
      if high.None? || low.None? || rest.None? then None
      else Some([16 * high.value + low.value] + rest.value)
  }

  lemma DigitOf(v: int)
    requires 0 <= v < 16
    ensures DigitValue(DIGITS[v]) == Some(v) && !IsBlank(DIGITS[v])
  {
  }

  /** Two digits a byte, the high one first. */
  lemma HexDigits(b: Byte, rest: seq<Byte>)
    ensures ToHex([]) == ""
    ensures ToHex([b] + rest) == ["0123456789abcdef"[b / 16], "0123456789abcdef"[b % 16]] + ToHex(rest)
  {
    assert ([b] + rest)[1..] == rest;
  }

  /** The digits that are read, of either case. */
  lemma DigitReads(c: char, v: int)
    ensures DigitValue(c) == Some(v)
       <==> 0 <= v < 16 && (c == "0123456789abcdef"[v] || c == "0123456789ABCDEF"[v])
  {
    if 0 <= v < 10 {
      assert DIGITS[v] == "0123456789abcdef"[v] == "0123456789ABCDEF"[v];
      DigitOf(v);
    }
  }

  lemma ReadByte(b: Byte, text: string, rest: seq<Byte>)
    requires FromHex(text) == Some(rest)
    ensures FromHex([DIGITS[b / 16], DIGITS[b % 16]] + text) == Some([b] + rest)
  {
    var whole := [DIGITS[b / 16], DIGITS[b % 16]] + text;
    DigitOf(b / 16);
    DigitOf(b % 16);
    assert whole[2..] == text;
  }

  /** What is stored is read back byte for byte. */
  lemma {:induction false} HexRoundTrip(bytes: seq<Byte>)
    ensures FromHex(ToHex(bytes)) == Some(bytes)
  {
    if bytes != [] {
      HexRoundTrip(bytes[1..]);
      ReadByte(bytes[0], ToHex(bytes[1..]), bytes[1..]);
      assert bytes == [bytes[0]] + bytes[1..];
    }
  }
}
