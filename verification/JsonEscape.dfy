/** Escaping of result texts for JSON, and its inverse after section 7 of RFC 7159. */
module JsonEscape {
  import opened Common
  import opened Hex

  const QUOTE: byte := 34
  const BACKSLASH: byte := 92

  /** One byte of the text: the two-character forms, `\u00xx` for the other control characters, or itself. */
  function EscapeByte(c: byte): (r: seq<byte>)
    ensures 1 <= |r| <= 6
  {
    if c == QUOTE || c == BACKSLASH then [BACKSLASH, c]
    else if c == 10 then [BACKSLASH, 110]
    else if c == 13 then [BACKSLASH, 114]
    else if c == 9 then [BACKSLASH, 116]
    else if c == 8 then [BACKSLASH, 98]
    else if c == 12 then [BACKSLASH, 102]
    else if c < 0x20 then [BACKSLASH, 117, 48, 48, HexDigit(c / 16), HexDigit(c % 16)]
    else [c]
  }

  function Escape(s: seq<byte>): (r: seq<byte>)
    ensures |s| <= |r| <= 6 * |s|
  {
    if s == [] then [] else EscapeByte(s[0]) + Escape(s[1..])
  }

  lemma {:induction false} EscapeSnoc(s: seq<byte>, c: byte)
    ensures Escape(s + [c]) == Escape(s) + EscapeByte(c)
  {
    if s == [] {
      assert [c][1..] == [];
    } else {
      assert (s + [c])[1..] == s[1..] + [c];
      EscapeSnoc(s[1..], c);
    }
  }

  // ----- the program -----

  /** The text before the first NUL. */
  function CString(buffer: seq<byte>): (s: seq<byte>)
    ensures s <= buffer && 0 !in s
    ensures |s| < |buffer| ==> buffer[|s|] == 0
  {
    if buffer == [] || buffer[0] == 0 then [] else [buffer[0]] + CString(buffer[1..])
  }

  class Output {
    const bytes: array<byte>
    var at: nat

    constructor (size: nat)
      ensures fresh(bytes) && bytes.Length == size && at == 0
    {
      bytes := new byte[size](i => 0);
      at := 0;
    }

    /** `*out++ = c`. */
    method Put(c: byte)
      requires at < bytes.Length
      modifies this`at, bytes
      ensures at == old(at) + 1 && bytes[..at] == old(bytes[..at]) + [c]
    {
      bytes[at] := c;
      at := at + 1;
    }

    /** `out += sprintf(out, "\\u%04x", c)`, which also writes a NUL behind the six characters. */
    method PutControl(c: byte)
      requires c < 0x20 && at + 6 < bytes.Length
      modifies this`at, bytes
      ensures at == old(at) + 6
      ensures bytes[..at] == old(bytes[..at]) + [BACKSLASH, 117, 48, 48, HexDigit(c / 16), HexDigit(c % 16)]
    {
      bytes[at], bytes[at + 1], bytes[at + 2], bytes[at + 3] := BACKSLASH, 117, 48, 48;
      bytes[at + 4], bytes[at + 5], bytes[at + 6] := HexDigit(c / 16), HexDigit(c % 16), 0;
      at := at + 6;
    }

    /** The body of the loop. */
    method PutEscaped(c: byte)
      requires at + 6 < bytes.Length
      modifies this`at, bytes
      ensures at == old(at) + |EscapeByte(c)| && at < bytes.Length && bytes[..at] == old(bytes[..at]) + EscapeByte(c)
    {
      ghost var before := bytes[..at];
      if c == QUOTE || c == BACKSLASH {
        Put(BACKSLASH);
        Put(c);
      } else if c == 10 {
        Put(BACKSLASH);
        Put(110);
      } else if c == 13 {
        Put(BACKSLASH);
        Put(114);
      } else if c == 9 {
        Put(BACKSLASH);
        Put(116);
      } else if c == 8 {
        Put(BACKSLASH);
        Put(98);
      } else if c == 12 {
        Put(BACKSLASH);
        Put(102);
      } else if c < 0x20 {
        PutControl(c);
      } else {
        Put(c);
      }
      assert bytes[..at] == before + EscapeByte(c);
    }

    /** The loop over the text. */
    method PutText(text: seq<byte>)
      requires at == 0 && bytes.Length == 6 * |text| + 1
      modifies this`at, bytes
      ensures at == |Escape(text)| && bytes[..at] == Escape(text)
    {
      for i := 0 to |text|
        invariant at <= 6 * i && bytes[..at] == Escape(text[..i])
      {
        ghost var before := text[..i];
        EscapeSnoc(before, text[i]);
        assert text[..i + 1] == before + [text[i]];
        PutEscaped(text[i]);
      }
      assert text[..|text|] == text;
    }
  }

  /** `json_escape_string`: the cursor stays within six bytes for each byte of input, and the NUL behind the text fits. */
  method JsonEscapeString(input: Option<seq<byte>>) returns (output: Option<array<byte>>)
    requires input.Some? ==> 0 in input.value
    ensures output.None? <==> input.None?
    ensures output.Some? ==>
              var text := Escape(CString(input.value));
              && output.value.Length == 6 * |CString(input.value)| + 1 > |text|
              && output.value[..|text|] == text && output.value[|text|] == 0
  {
    if input.None? {
      return None;
    }
    var text := CString(input.value);
    var out := new Output(|text| * 6 + 1);
    out.PutText(text);
    out.bytes[out.at] := 0;
    return Some(out.bytes);
  }

  // ----- the inverse -----

  function HexValue(c: byte): (v: nat)
    ensures v < 16
  {
    if 48 <= c <= 57 then c - 48 else if 65 <= c <= 70 then c - 55 else if 97 <= c <= 102 then c - 87 else 0
  }

  /** A code point of the basic plane in UTF-8. */
  function Utf8(code: nat): seq<byte>
    requires code < 0x1_0000
  {
    if code < 0x80 then [code]
    else if code < 0x800 then [0xC0 + code / 64, 0x80 + code % 64]
    else [0xE0 + code / 4096, 0x80 + code / 64 % 64, 0x80 + code % 64]
  }

  datatype Token = Token(bytes: seq<byte>, rest: seq<byte>)

  /** One character of a JSON string: a bare byte other than quote, backslash and control characters, or an escape. */
  function Character(b: seq<byte>): (r: Option<Token>)
    ensures r.Some? ==> |r.value.rest| < |b|
  {
    if b == [] || b[0] < 0x20 || b[0] == QUOTE then None
    else if b[0] != BACKSLASH then Some(Token([b[0]], b[1..]))
    else if |b| < 2 then None
    else if b[1] in [QUOTE, BACKSLASH, 47] then Some(Token([b[1]], b[2..]))
    else if b[1] == 98 then Some(Token([8], b[2..]))
    else if b[1] == 102 then Some(Token([12], b[2..]))
    else if b[1] == 110 then Some(Token([10], b[2..]))
    else if b[1] == 114 then Some(Token([13], b[2..]))
    else if b[1] == 116 then Some(Token([9], b[2..]))
    else if b[1] != 117 || |b| < 6 || !AllHex(b[2..6]) then None
    else
      var code := 4096 * HexValue(b[2]) + 256 * HexValue(b[3]) + 16 * HexValue(b[4]) + HexValue(b[5]);
      if 0xD800 <= code < 0xE000 then None else Some(Token(Utf8(code), b[6..]))
  }

  /** The text of a string up to its closing quote, and what follows the quote. */
  function ReadText(b: seq<byte>): (r: Option<Token>)
    ensures r.Some? ==> |r.value.rest| < |b|
    decreases |b|
  {
    if b != [] && b[0] == QUOTE then Some(Token([], b[1..]))
    else
      match Character(b)
      case None => None
      case Some(first) =>
        match ReadText(first.rest)
        case None => None
        case Some(others) => Some(Token(first.bytes + others.bytes, others.rest))
  }

  lemma ReadEscapedByte(c: byte, tail: seq<byte>)
    ensures Character(EscapeByte(c) + tail) == Some(Token([c], tail))
  {
    var e := EscapeByte(c);
    var b := e + tail;
    assert b[|e|..] == tail;
    if |e| == 6 {
      NibbleOfDigit(c / 16);
      NibbleOfDigit(c % 16);
      assert b[2..6] == e[2..6];
      assert HexValue(b[4]) == c / 16 && HexValue(b[5]) == c % 16;
    }
  }

  /** Put between quotes in any JSON document, an escaped text reads back as the text, and reading stops at the closing
      quote: so it holds no bare quote, control character or stray backslash. */
  lemma {:induction false} EscapeReadsBack(s: seq<byte>, tail: seq<byte>)
    ensures ReadText(Escape(s) + [QUOTE] + tail) == Some(Token(s, tail))
  {
    var b := Escape(s) + [QUOTE] + tail;
    if s == [] {
      assert b[1..] == tail;
    } else {
      var others := Escape(s[1..]) + [QUOTE] + tail;
      assert b == EscapeByte(s[0]) + others;
      ReadEscapedByte(s[0], others);
      EscapeReadsBack(s[1..], tail);
      assert [s[0]] + s[1..] == s;
    }
  }

  /** No byte of the escaped text is a control character, so it stays on one line. */
  lemma {:induction false} EscapedIsPrintable(s: seq<byte>)
    ensures forall i :: 0 <= i < |Escape(s)| ==> Escape(s)[i] >= 0x20
  {
    if s != [] {
      EscapedIsPrintable(s[1..]);
    }
  }

  /** Six bytes for each are reached exactly by texts of control characters without a short form. */
  lemma {:induction false} WorstCase(s: seq<byte>)
    ensures |Escape(s)| == 6 * |s| <==> forall i :: 0 <= i < |s| ==> s[i] < 0x20 && s[i] !in [8, 9, 10, 12, 13]
  {
    if s != [] {
      WorstCase(s[1..]);
      assert s == [s[0]] + s[1..];
    }
  }

  /** What stands for itself between quotes. */
  predicate Plain(s: seq<byte>) {
    forall i :: 0 <= i < |s| ==> s[i] >= 0x20 && s[i] != QUOTE && s[i] != BACKSLASH
  }

  /** Nothing is escaped that need not be. */
  lemma {:induction false} EscapeOnlyWhereNeeded(s: seq<byte>)
    ensures Escape(s) == s <==> Plain(s)
    ensures |Escape(s)| == |s| ==> Plain(s)
  {
    if s != [] {
      EscapeOnlyWhereNeeded(s[1..]);
      assert s == [s[0]] + s[1..];
    }
  }

  /** Different texts stay different. */
  lemma EscapeInjective(s: seq<byte>, t: seq<byte>)
    ensures Escape(s) == Escape(t) <==> s == t
  {
    EscapeReadsBack(s, []);
    EscapeReadsBack(t, []);
  }
}
