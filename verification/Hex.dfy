/** Hexadecimal text: the parser of the manual mutator and the printer of mish2jsonl. */
module Hex {
  import opened Common

  // ----- the printer -----

  /** `"0123456789abcdef"[n]`. */
  function HexDigit(n: nat): byte
    requires n < 16
  {
    if n < 10 then 48 + n else 87 + n
  }

  function HexText(bytes: seq<byte>): (text: seq<byte>)
    ensures |text| == 2 * |bytes|
  {
    if bytes == [] then []
    else HexText(bytes[..|bytes| - 1]) + [HexDigit(bytes[|bytes| - 1] / 16), HexDigit(bytes[|bytes| - 1] % 16)]
  }

  /** The hex loop of `m_cohort_print_json`.  The length byte comes from the stream and is not checked by the source; the
      result says whether every access falls into the slot's bytes and the fixed buffer.  It is false at the first access
      that does not, from where on the source's behaviour is undefined. */
  method PrintHex(input: InputSlot, hexbuf: array<byte>) returns (inside: bool)
    requires |input.raw| == INSN_MAXLEN && hexbuf.Length == 2 * INSN_MAXLEN + 1
    modifies hexbuf
    ensures inside <==> input.len <= INSN_MAXLEN
    ensures inside ==> hexbuf[..2 * input.len] == HexText(CountedBytes(input)) && hexbuf[2 * input.len] == 0
  {
    for i := 0 to input.len
      invariant i <= INSN_MAXLEN && hexbuf[..2 * i] == HexText(input.raw[..i])
    {
      if i >= |input.raw| || i * 2 + 1 >= hexbuf.Length {
        return false;
      }
      hexbuf[i * 2] := HexDigit(input.raw[i] / 16);
      hexbuf[i * 2 + 1] := HexDigit(input.raw[i] % 16);
      assert input.raw[..i + 1][..i] == input.raw[..i];
    }
    if input.len * 2 >= hexbuf.Length {
      return false;
    }
    hexbuf[input.len * 2] := 0;
    inside := true;
  }

  // ----- the parser -----

  /** A byte read as a (signed) `char`. */
  function SignedChar(c: byte): int {
    if c < 128 then c else c - 256
  }

  /** C's remainder takes the sign of its left operand. */
  function Remainder(a: int, b: nat): int
    requires b > 0
  {
    if a >= 0 then a % b else -((-a) % b)
  }

  /** `(c % 32 + 9) % 25`. */
  function Nibble(c: byte): int {
    Remainder(Remainder(SignedChar(c), 32) + 9, 25)
  }

  function HexByte(high: byte, low: byte): byte {
    (Nibble(high) * 16 + Nibble(low)) % 256
  }

  /** Pairs of characters, an odd last one ignored; no character is refused. */
  function ParseHex(text: seq<byte>): (bytes: seq<byte>)
    ensures |bytes| == |text| / 2
  {
    if |text| < 2 then [] else [HexByte(text[0], text[1])] + ParseHex(text[2..])
  }

  lemma {:induction false} ParseHexAt(text: seq<byte>, k: nat)
    requires k < |text| / 2
    ensures ParseHex(text)[k] == HexByte(text[2 * k], text[2 * k + 1])
  {
    if k > 0 {
      ParseHexAt(text[2..], k - 1);
    }
  }

  /** `hex2bytes`. */
  method Hex2Bytes(outbuf: array<byte>, input: seq<byte>, inputLen: nat)
    requires inputLen <= |input| && inputLen / 2 <= outbuf.Length
    modifies outbuf
    ensures outbuf[..inputLen / 2] == ParseHex(input[..inputLen])
    ensures outbuf[inputLen / 2..] == old(outbuf[inputLen / 2..])
  {
    var i, j := 0, 0;
    while j < inputLen / 2
      invariant i == 2 * j && j <= inputLen / 2
      invariant forall k :: 0 <= k < j ==> outbuf[k] == ParseHex(input[..inputLen])[k]
      invariant outbuf[inputLen / 2..] == old(outbuf[inputLen / 2..])
    {
      ParseHexAt(input[..inputLen], j);
      outbuf[j] := (Nibble(input[i]) * 16 + Nibble(input[i + 1])) % 256;
      i, j := i + 2, j + 1;
    }
  }

  /** Where `strlen` finds the end of a line whose first newline has been overwritten. */
  function LineLength(line: seq<byte>): (n: nat)
    ensures n <= |line|
    ensures n < |line| ==> line[n] == 10 || line[n] == 0
    ensures forall k :: 0 <= k < n ==> line[k] != 10 && line[k] != 0
  {
    if line == [] || line[0] == 10 || line[0] == 0 then 0 else 1 + LineLength(line[1..])
  }

  /** `manual_candidate`; `line` is what `getline` gave.  A slot is filled from 1 to 30 characters, so that a line of one
      character gives the empty candidate and the odd last character of a longer line is dropped. */
  method ManualCandidate(line: Option<seq<byte>>, raw: array<byte>, before: byte) returns (filled: bool, len: byte)
    requires raw.Length == INSN_MAXLEN
    modifies raw
    ensures filled <==> line.Some? && 1 <= LineLength(line.value) <= 2 * INSN_MAXLEN
    ensures filled ==> len == LineLength(line.value) / 2
                       && raw[..len] == ParseHex(line.value[..LineLength(line.value)])
                       && raw[len..] == old(raw[..])[len..]
                       && SlotInBounds(InputSlot(len, raw[..]))
    ensures !filled ==> raw[..] == old(raw[..]) && len == before
  {
    len := before;
    if line.None? {
      return false, len;
    }
    var linelen := LineLength(line.value);
    if linelen == 0 || linelen > INSN_MAXLEN * 2 {
      return false, len;
    }
    Hex2Bytes(raw, line.value, linelen);
    len := linelen / 2;
    filled := true;
  }

  // ----- round trips -----

  predicate IsHexDigit(c: byte) {
    48 <= c <= 57 || 65 <= c <= 70 || 97 <= c <= 102
  }

  predicate AllHex(text: seq<byte>) {
    forall k :: 0 <= k < |text| ==> IsHexDigit(text[k])
  }

  function Lower(c: byte): byte {
    if 65 <= c <= 90 then c + 32 else c
  }

  function LowerText(text: seq<byte>): (r: seq<byte>)
    ensures |r| == |text| && forall k :: 0 <= k < |r| ==> r[k] == Lower(text[k])
  {
    if text == [] then [] else [Lower(text[0])] + LowerText(text[1..])
  }

  lemma NibbleOfDigit(n: nat)
    requires n < 16
    ensures Nibble(HexDigit(n)) == n && IsHexDigit(HexDigit(n))
  {
    if n < 10 {
      assert (48 + n) % 32 == 16 + n && (25 + n) % 25 == n;
    } else {
      assert (87 + n) % 32 == n - 9;
    }
  }

  lemma DecimalNibble(c: byte)
    requires 48 <= c <= 57
    ensures Nibble(c) == c - 48
  {
    assert c % 32 == c - 32;
    assert (c % 32 + 9) % 25 == c - 48;
  }

  lemma UpperNibble(c: byte)
    requires 65 <= c <= 70
    ensures Nibble(c) == c - 55
  {
    assert c % 32 == c - 64;
  }

  lemma LowerNibble(c: byte)
    requires 97 <= c <= 102
    ensures Nibble(c) == c - 87
  {
    assert c % 32 == c - 96;
  }

  lemma DigitOfNibble(c: byte)
    requires IsHexDigit(c)
    ensures 0 <= Nibble(c) < 16 && HexDigit(Nibble(c)) == Lower(c)
  {
    if c <= 57 {
      DecimalNibble(c);
    } else if c <= 70 {
      UpperNibble(c);
    } else {
      LowerNibble(c);
    }
  }

  lemma ByteOfDigits(n: byte)
    ensures HexByte(HexDigit(n / 16), HexDigit(n % 16)) == n
  {
    NibbleOfDigit(n / 16);
    NibbleOfDigit(n % 16);
  }

  lemma DigitsOfByte(high: byte, low: byte)
    requires IsHexDigit(high) && IsHexDigit(low)
    ensures var n := HexByte(high, low); HexDigit(n / 16) == Lower(high) && HexDigit(n % 16) == Lower(low)
  {
    DigitOfNibble(high);
    DigitOfNibble(low);
    Halves(Nibble(high), Nibble(low));
  }

  lemma Halves(h: nat, l: nat)
    requires h < 16 && l < 16
    ensures (h * 16 + l) % 256 == h * 16 + l && (h * 16 + l) / 16 == h && (h * 16 + l) % 16 == l
  {
  }

  lemma {:induction false} HexTextAt(bytes: seq<byte>, k: nat)
    requires k < |bytes|
    ensures HexText(bytes)[2 * k] == HexDigit(bytes[k] / 16) && HexText(bytes)[2 * k + 1] == HexDigit(bytes[k] % 16)
  {
    if k < |bytes| - 1 {
      HexTextAt(bytes[..|bytes| - 1], k);
    }
  }

  /** `hex2bytes` undoes the printer on every sequence of bytes. */
  lemma ParsePrinted(bytes: seq<byte>)
    ensures ParseHex(HexText(bytes)) == bytes
  {
    var text := HexText(bytes);
    forall k | 0 <= k < |bytes|
      ensures ParseHex(text)[k] == bytes[k]
    {
      ParseHexAt(text, k);
      HexTextAt(bytes, k);
      ByteOfDigits(bytes[k]);
    }
  }

  /** Printing what was parsed lower-cases a text of whole pairs exactly when the text is hexadecimal. */
  lemma PrintParsed(text: seq<byte>)
    requires |text| % 2 == 0
    ensures HexText(ParseHex(text)) == LowerText(text) <==> AllHex(text)
  {
    if AllHex(text) {
      PrintHexText(text);
    } else {
      var j :| 0 <= j < |text| && !IsHexDigit(text[j]);
      PrintedAt(text, j);
      assert HexText(ParseHex(text))[j] != LowerText(text)[j];
    }
  }

  lemma PrintHexText(text: seq<byte>)
    requires |text| % 2 == 0 && AllHex(text)
    ensures HexText(ParseHex(text)) == LowerText(text)
  {
    forall j | 0 <= j < |text|
      ensures HexText(ParseHex(text))[j] == LowerText(text)[j]
    {
      PrintedAt(text, j);
    }
  }

  lemma PrintedAt(text: seq<byte>, j: nat)
    requires |text| % 2 == 0 && j < |text|
    ensures IsHexDigit(HexText(ParseHex(text))[j])
    ensures AllHex(text) ==> HexText(ParseHex(text))[j] == Lower(text[j])
  {
    PairBack(text, j / 2);
    assert j == 2 * (j / 2) || j == 2 * (j / 2) + 1;
  }

  lemma PairBack(text: seq<byte>, k: nat)
    requires k < |text| / 2
    ensures var printed := HexText(ParseHex(text));
            && IsHexDigit(printed[2 * k]) && IsHexDigit(printed[2 * k + 1])
            && (IsHexDigit(text[2 * k]) && IsHexDigit(text[2 * k + 1]) ==>
                  printed[2 * k] == Lower(text[2 * k]) && printed[2 * k + 1] == Lower(text[2 * k + 1]))
  {
    HexTextAt(ParseHex(text), k);
    ParseHexAt(text, k);
    var n := HexByte(text[2 * k], text[2 * k + 1]);
    NibbleOfDigit(n / 16);
    NibbleOfDigit(n % 16);
    if IsHexDigit(text[2 * k]) && IsHexDigit(text[2 * k + 1]) {
      DigitsOfByte(text[2 * k], text[2 * k + 1]);
    }
  }

  /** Two slots print alike exactly when the bytes that count are the same. */
  lemma HexTextInjective(a: seq<byte>, b: seq<byte>)
    ensures HexText(a) == HexText(b) <==> a == b
  {
    ParsePrinted(a);
    ParsePrinted(b);
  }
}
