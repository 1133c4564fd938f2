/** JSON texts, and reading them.

`ReadValue` is a reader after sections 2 to 7 of RFC 7159, for the values that occur here: objects, arrays, strings and
natural numbers.  `Lawful` says of any reader that it does with the forms of text that occur here what the grammar says.
 */
module JsonText {
  import opened Common
  import opened Hex
  import opened JsonEscape

  const SPACE: byte := 32
  const COMMA: byte := 44
  const COLON: byte := 58
  const OPEN_ARRAY: byte := 91
  const CLOSE_ARRAY: byte := 93
  const OPEN_OBJECT: byte := 123
  const CLOSE_OBJECT: byte := 125

  function Ascii(s: string): (b: seq<byte>)
    ensures |b| == |s|
  {
    seq(|s|, i requires 0 <= i < |s| => s[i] as int % 256)
  }

  /** `%u` and `%lu`. */
  function Decimal(n: nat): seq<byte> {
    if n < 10 then [48 + n] else Decimal(n / 10) + [48 + n % 10]
  }

  // ----- forms of JSON text, with what follows them -----

  /** `"key": ` */
  function Field(key: string, rest: seq<byte>): seq<byte> {
    [QUOTE] + (Ascii(key) + ([QUOTE, COLON, SPACE] + rest))
  }

  /** `"..."`, the text as it is. */
  function Quoted(text: seq<byte>, rest: seq<byte>): seq<byte> {
    [QUOTE] + (text + ([QUOTE] + rest))
  }

  // ----- the reader -----

  datatype Json = Num(n: nat) | Str(bytes: seq<byte>) | Arr(items: seq<Json>) | Obj(members: seq<Member>)

  datatype Member = Member(key: seq<byte>, value: Json)

  datatype Read<+T> = Fail | Got(value: T, rest: seq<byte>)

  function SkipSpace(b: seq<byte>): (r: seq<byte>)
    ensures |r| <= |b|
  {
    if b != [] && b[0] in [SPACE, 9, 10, 13] then SkipSpace(b[1..]) else b
  }

  predicate IsDigit(c: byte) {
    48 <= c <= 57
  }

  function DigitRun(b: seq<byte>): (n: nat)
    ensures n <= |b|
    ensures forall i :: 0 <= i < n ==> IsDigit(b[i])
    ensures n < |b| ==> !IsDigit(b[n])
  {
    if b == [] || !IsDigit(b[0]) then 0 else 1 + DigitRun(b[1..])
  }

  function DigitsValue(s: seq<byte>): nat
    requires forall i :: 0 <= i < |s| ==> IsDigit(s[i])
  {
    if s == [] then 0
    else
      assert IsDigit(s[|s| - 1]);
      10 * DigitsValue(s[..|s| - 1]) + (s[|s| - 1] as int - 48)
  }

  /** A natural number without leading zeros. */
  function ReadNumber(b: seq<byte>): (r: Read<Json>)
    ensures r.Got? ==> |r.rest| < |b|
  {
    var n := DigitRun(b);
    if n == 0 || (n > 1 && b[0] == 48) then Fail else Got(Num(DigitsValue(b[..n])), b[n..])
  }

  function ReadString(b: seq<byte>): (r: Read<seq<byte>>)
    ensures r.Got? ==> |r.rest| < |b|
  {
    if b == [] || b[0] != QUOTE then Fail
    else
      match ReadText(b[1..])
      case None => Fail
      case Some(text) => Got(text.bytes, text.rest)
  }

  function Prepend<T>(first: T, r: Read<seq<T>>): Read<seq<T>> {
    match r
    case Fail => Fail
    case Got(others, rest) => Got([first] + others, rest)
  }

  function ReadValue(b: seq<byte>): (r: Read<Json>)
    ensures r.Got? ==> |r.rest| < |b|
    decreases |b|, 0
  {
    var s := SkipSpace(b);
    if s == [] then Fail
    else if s[0] == QUOTE then
      match ReadString(s)
      case Fail => Fail
      case Got(bytes, rest) => Got(Str(bytes), rest)
    else if s[0] == OPEN_ARRAY then
      var inner := SkipSpace(s[1..]);
      if inner != [] && inner[0] == CLOSE_ARRAY then Got(Arr([]), inner[1..])
      else
        match ReadItems(s[1..])
        case Fail => Fail
        case Got(items, rest) => Got(Arr(items), rest)
    else if s[0] == OPEN_OBJECT then
      var inner := SkipSpace(s[1..]);
      if inner != [] && inner[0] == CLOSE_OBJECT then Got(Obj([]), inner[1..])
      else
        match ReadMembers(s[1..])
        case Fail => Fail
        case Got(members, rest) => Got(Obj(members), rest)
    else ReadNumber(s)
  }

  /** The items of an array and its closing bracket. */
  function ReadItems(b: seq<byte>): (r: Read<seq<Json>>)
    ensures r.Got? ==> |r.rest| < |b|
    decreases |b|, 1
  {
    match ReadValue(b)
    case Fail => Fail
    case Got(item, after) =>
      var s := SkipSpace(after);
      if s == [] then Fail
      else if s[0] == CLOSE_ARRAY then Got([item], s[1..])
      else if s[0] == COMMA then Prepend(item, ReadItems(s[1..]))
      else Fail
  }

  /** The members of an object and its closing brace. */
  function ReadMembers(b: seq<byte>): (r: Read<seq<Member>>)
    ensures r.Got? ==> |r.rest| < |b|
    decreases |b|, 1
  {
    match ReadString(SkipSpace(b))
    case Fail => Fail
    case Got(key, afterKey) =>
      var colon := SkipSpace(afterKey);
      if colon == [] || colon[0] != COLON then Fail
      else
        match ReadValue(colon[1..])
        case Fail => Fail
        case Got(value, after) =>
          var s := SkipSpace(after);
          if s == [] then Fail
          else if s[0] == CLOSE_OBJECT then Got([Member(key, value)], s[1..])
          else if s[0] == COMMA then Prepend(Member(key, value), ReadMembers(s[1..]))
          else Fail
  }

  /** A whole JSON text. */
  function ReadJson(b: seq<byte>): Option<Json> {
    match ReadValue(b)
    case Fail => None
    case Got(value, rest) => if SkipSpace(rest) == [] then Some(value) else None
  }

  function Get(json: Json, key: string): Option<Json> {
    if json.Obj? then Find(json.members, Ascii(key)) else None
  }

  function Find(members: seq<Member>, key: seq<byte>): Option<Json> {
    if members == [] then None
    else if members[0].key == key then Some(members[0].value)
    else Find(members[1..], key)
  }

  // ----- strings without escapes -----

  lemma {:induction false} PlainReads(s: seq<byte>, rest: seq<byte>)
    requires Plain(s)
    ensures ReadText(s + ([QUOTE] + rest)) == Some(Token(s, rest))
  {
    var b := s + ([QUOTE] + rest);
    if s == [] {
      assert b == [QUOTE] + rest && b[1..] == rest;
    } else {
      PlainReads(s[1..], rest);
      assert b[1..] == s[1..] + ([QUOTE] + rest);
      assert [s[0]] + s[1..] == s;
    }
  }

  /** Reading consumes at least what it yields, and no more only if it meets no escape. */
  lemma {:induction false} Consumes(b: seq<byte>)
    ensures var r := ReadText(b);
            r.Some? ==>
              var n := |b| - |r.value.rest| - 1;
              && |r.value.bytes| <= n && (n == |r.value.bytes| ==> Plain(b[..n]))
    decreases |b|
  {
    if ReadText(b).Some? && b[0] != QUOTE {
      var first := Character(b).value;
      Consumes(first.rest);
      var others := ReadText(first.rest).value;
      var n := |b| - |others.rest| - 1;
      if n == |first.bytes + others.bytes| {
        assert first.rest == b[1..];
        assert b[..n][1..] == b[1..][..n - 1];
        forall i | 0 <= i < n
          ensures b[..n][i] >= 0x20 && b[..n][i] != QUOTE && b[..n][i] != BACKSLASH
        {
          if i > 0 {
            assert b[..n][i] == b[1..][..n - 1][i - 1];
          }
        }
      }
    }
  }

  /** A character yields no more than it takes. */
  lemma CharacterTakes(b: seq<byte>)
    requires Character(b).Some?
    ensures var t := Character(b).value; |t.bytes| <= |b| - |t.rest| && t.rest == b[|b| - |t.rest|..]
  {
  }

  /** A quote in front of the closing one is escaped, and so yields a quote in an earlier place. */
  lemma {:induction false} QuoteInside(b: seq<byte>, q: nat) returns (k: nat)
    requires ReadText(b).Some? && q < |b| - |ReadText(b).value.rest| - 1 && b[q] == QUOTE
    ensures k < q && k < |ReadText(b).value.bytes| && ReadText(b).value.bytes[k] == QUOTE
    decreases |b|
  {
    assert b[0] != QUOTE;
    var first := Character(b).value;
    var used := |b| - |first.rest|;
    CharacterTakes(b);
    if q < used {
      EscapedQuote(b, q);
      k := 0;
    } else {
      k := QuoteInside(first.rest, q - used);
      k := |first.bytes| + k;
    }
  }

  lemma HexAt(b: seq<byte>)
    requires |b| >= 6 && AllHex(b[2..6])
    ensures IsHexDigit(b[2]) && IsHexDigit(b[3]) && IsHexDigit(b[4]) && IsHexDigit(b[5])
  {
    assert b[2] == b[2..6][0] && b[3] == b[2..6][1] && b[4] == b[2..6][2] && b[5] == b[2..6][3];
  }

  lemma EscapedQuote(b: seq<byte>, q: nat)
    requires Character(b).Some? && 0 < q < |b| - |Character(b).value.rest| && b[q] == QUOTE
    ensures q == 1 && Character(b).value.bytes == [QUOTE]
  {
    assert b[0] == BACKSLASH;
    if b[1] == 117 {
      HexAt(b);
    }
  }

  /** If reading yields what it reads, there is no quote in front of the closing one. */
  lemma {:induction false} NoQuoteInside(b: seq<byte>, q: nat)
    requires ReadText(b).Some? && ReadText(b).value.bytes <= b && q < |b| - |ReadText(b).value.rest| - 1
    ensures b[q] != QUOTE
    decreases q
  {
    if b[q] == QUOTE {
      var k := QuoteInside(b, q);
      NoQuoteInside(b, k);
    }
  }

  /** A text that is put between quotes as it is reads back exactly if it is plain. */
  lemma ReadsAsItself(s: seq<byte>, rest: seq<byte>)
    ensures var r := ReadText(s + ([QUOTE] + rest));
            && (Plain(s) ==> r == Some(Token(s, rest)))
            && (r.Some? && r.value.bytes == s ==> Plain(s))
  {
    var b := s + ([QUOTE] + rest);
    if Plain(s) {
      PlainReads(s, rest);
    } else if ReadText(b).Some? && ReadText(b).value.bytes == s {
      Consumes(b);
      var n := |b| - |ReadText(b).value.rest| - 1;
      assert b[|s|] == QUOTE && b[..|s|] == s;
      if n > |s| {
        NoQuoteInside(b, |s|);
      }
    }
  }

  // ----- numbers -----

  lemma {:induction false} DigitsOf(n: nat)
    ensures forall i :: 0 <= i < |Decimal(n)| ==> IsDigit(Decimal(n)[i])
    ensures |Decimal(n)| > 0 && DigitsValue(Decimal(n)) == n && (|Decimal(n)| > 1 ==> Decimal(n)[0] != 48)
    ensures n > 0 ==> Decimal(n)[0] != 48
  {
    if n < 10 {
      assert Decimal(n)[..0] == [];
    } else {
      DigitsOf(n / 10);
      var d := Decimal(n);
      assert d[..|d| - 1] == Decimal(n / 10);
    }
  }

  lemma {:induction false} RunOf(s: seq<byte>, rest: seq<byte>)
    requires (forall i :: 0 <= i < |s| ==> IsDigit(s[i])) && (rest != [] ==> !IsDigit(rest[0]))
    ensures DigitRun(s + rest) == |s|
  {
    if s == [] {
      assert s + rest == rest;
    } else {
      assert (s + rest)[1..] == s[1..] + rest;
      RunOf(s[1..], rest);
    }
  }

  lemma Spaced(b: seq<byte>)
    requires b != [] && b[0] !in [SPACE, 9, 10, 13]
    ensures SkipSpace(b) == b && SkipSpace([SPACE] + b) == b
  {
    assert ([SPACE] + b)[1..] == b;
  }

  lemma NumberReads(n: nat, rest: seq<byte>)
    requires rest != [] && rest[0] in [COMMA, SPACE]
    ensures ReadValue([SPACE] + (Decimal(n) + rest)) == Got(Num(n), rest)
  {
    DigitsOf(n);
    RunOf(Decimal(n), rest);
    var b := Decimal(n) + rest;
    assert b[..|Decimal(n)|] == Decimal(n) && b[|Decimal(n)|..] == rest;
    Spaced(b);
    assert b[0] == Decimal(n)[0];
  }

  // ----- readers -----

  datatype Reader = Reader(value: seq<byte> -> Read<Json>, members: seq<byte> -> Read<seq<Member>>,
                           items: seq<byte> -> Read<seq<Json>>)

  function M(key: string, value: Json): Member {
    Member(Ascii(key), value)
  }

  // What a reader does with the forms that occur in a line.  Each law is a consequence of the grammar, and all that is
  // used of it.

  ghost predicate NumberLaw(r: Reader, n: nat, rest: seq<byte>) {
    rest != [] && rest[0] == COMMA ==> r.value([SPACE] + (Decimal(n) + rest)) == Got(Num(n), rest)
  }

  ghost predicate EscapeLaw(r: Reader, s: seq<byte>, rest: seq<byte>) {
    r.value([SPACE] + Quoted(Escape(s), rest)) == Got(Str(s), rest)
  }

  ghost predicate QuoteLaw(r: Reader, s: seq<byte>, rest: seq<byte>) {
    var read := r.value([SPACE] + Quoted(s, rest));
    (Plain(s) ==> read == Got(Str(s), rest)) && (!Plain(s) ==> read.Fail? || read.value != Str(s))
  }

  ghost predicate ObjectLaw(r: Reader, key: string, rest: seq<byte>) {
    var read := match r.members(Field(key, rest))
                case Fail => Fail
                case Got(members, after) => Got(Obj(members), after);
    r.value([OPEN_OBJECT, SPACE] + Field(key, rest)) == r.value([SPACE] + ([OPEN_OBJECT, SPACE] + Field(key, rest))) == read
  }

  /** Behind a member there are more members or the end of the object; a space in front does not matter. */
  ghost predicate MemberLaw(r: Reader, key: string, rest: seq<byte>, more: seq<byte>) {
    Plain(Ascii(key)) ==>
      var value, read := r.value([SPACE] + rest), r.members(Field(key, rest));
      && r.members([SPACE] + Field(key, rest)) == read
      && (read.Got? ==> value.Got? && read.value != [] && read.value[0] == M(key, value.value))
      && (value.Got? && value.rest == [COMMA] + more ==> read == Prepend(M(key, value.value), r.members(more)))
      && (value.Got? && (value.rest == [CLOSE_OBJECT] + more || value.rest == [SPACE, CLOSE_OBJECT] + more) ==>
            read == Got([M(key, value.value)], more))
  }

  ghost predicate ItemLaw(r: Reader, b: seq<byte>, more: seq<byte>) {
    var value, read := r.value(b), r.items(b);
    && (read.Got? ==> value.Got? && read.value != [] && read.value[0] == value.value)
    && (value.Got? && value.rest == [COMMA] + more ==> read == Prepend(value.value, r.items(more)))
    && (value.Got? && value.rest == [CLOSE_ARRAY] + more ==> read == Got([value.value], more))
  }

  ghost predicate ArrayLaw(r: Reader, rest: seq<byte>) {
    && r.value([SPACE] + ([OPEN_ARRAY] + ([CLOSE_ARRAY] + rest))) == Got(Arr([]), rest)
    && (rest != [] && rest[0] == OPEN_OBJECT ==>
          r.value([SPACE] + ([OPEN_ARRAY] + rest)) ==
          match r.items(rest) case Fail => Fail case Got(items, after) => Got(Arr(items), after))
  }

  ghost predicate Lawful(r: Reader) {
    && (forall n: nat, rest :: NumberLaw(r, n, rest))
    && (forall s, rest :: EscapeLaw(r, s, rest) && QuoteLaw(r, s, rest))
    && (forall key, rest :: ObjectLaw(r, key, rest))
    && (forall key, rest, more :: MemberLaw(r, key, rest, more))
    && (forall b, more :: ItemLaw(r, b, more))
    && (forall rest :: ArrayLaw(r, rest))
  }

  // ----- the reader above keeps these laws -----

  function Rfc7159(): Reader {
    Reader(ReadValue, ReadMembers, ReadItems)
  }

  lemma KeepsNumberLaw(n: nat, rest: seq<byte>)
    ensures NumberLaw(Rfc7159(), n, rest)
  {
    if rest != [] && rest[0] == COMMA {
      NumberReads(n, rest);
    }
  }

  lemma QuotedReads(raw: seq<byte>, rest: seq<byte>, text: Option<Token>)
    requires ReadText(raw + ([QUOTE] + rest)) == text
    ensures ReadValue([SPACE] + Quoted(raw, rest)) == if text.None? then Fail else Got(Str(text.value.bytes), text.value.rest)
  {
    Spaced(Quoted(raw, rest));
    assert Quoted(raw, rest)[1..] == raw + ([QUOTE] + rest);
  }

  lemma Associate(a: seq<byte>, b: seq<byte>, c: seq<byte>)
    ensures (a + b) + c == a + (b + c)
  {
  }

  lemma KeepsEscapeLaw(s: seq<byte>, rest: seq<byte>)
    ensures EscapeLaw(Rfc7159(), s, rest)
  {
    EscapeReadsBack(s, rest);
    Associate(Escape(s), [QUOTE], rest);
    QuotedReads(Escape(s), rest, Some(Token(s, rest)));
  }

  lemma KeepsQuoteLaw(s: seq<byte>, rest: seq<byte>)
    ensures QuoteLaw(Rfc7159(), s, rest)
  {
    ReadsAsItself(s, rest);
    QuotedReads(s, rest, ReadText(s + ([QUOTE] + rest)));
  }

  lemma KeyReads(key: string, rest: seq<byte>)
    requires Plain(Ascii(key))
    ensures ReadString(Field(key, rest)) == Got(Ascii(key), [COLON, SPACE] + rest)
  {
    var behind := [COLON, SPACE] + rest;
    PlainReads(Ascii(key), behind);
    assert [QUOTE, COLON, SPACE] + rest == [QUOTE] + behind;
    assert Field(key, rest)[1..] == Ascii(key) + ([QUOTE] + behind);
  }

  lemma KeepsMemberLaw(key: string, rest: seq<byte>, more: seq<byte>)
    ensures MemberLaw(Rfc7159(), key, rest, more)
  {
    if Plain(Ascii(key)) {
      var b := Field(key, rest);
      KeyReads(key, rest);
      Spaced(b);
      var behind := [COLON, SPACE] + rest;
      Spaced(behind);
      assert behind[1..] == [SPACE] + rest;
      Punctuation(more);
    }
  }

  lemma Punctuation(more: seq<byte>)
    ensures SkipSpace([COMMA] + more) == [COMMA] + more && ([COMMA] + more)[1..] == more
    ensures SkipSpace([CLOSE_ARRAY] + more) == [CLOSE_ARRAY] + more && ([CLOSE_ARRAY] + more)[1..] == more
    ensures SkipSpace([CLOSE_OBJECT] + more) == SkipSpace([SPACE, CLOSE_OBJECT] + more) == [CLOSE_OBJECT] + more
    ensures ([CLOSE_OBJECT] + more)[1..] == more
  {
    Spaced([COMMA] + more);
    Spaced([CLOSE_ARRAY] + more);
    Spaced([CLOSE_OBJECT] + more);
    assert [SPACE, CLOSE_OBJECT] + more == [SPACE] + ([CLOSE_OBJECT] + more);
  }

  lemma KeepsObjectLaw(key: string, rest: seq<byte>)
    ensures ObjectLaw(Rfc7159(), key, rest)
  {
    var b := [OPEN_OBJECT, SPACE] + Field(key, rest);
    Spaced(b);
    Spaced(Field(key, rest));
    assert b[1..] == [SPACE] + Field(key, rest);
    SpaceBeforeMembers(Field(key, rest));
  }

  lemma SpaceBeforeMembers(b: seq<byte>)
    requires b != [] && b[0] == QUOTE
    ensures ReadMembers([SPACE] + b) == ReadMembers(b)
  {
    Spaced(b);
  }

  lemma KeepsItemLaw(b: seq<byte>, more: seq<byte>)
    ensures ItemLaw(Rfc7159(), b, more)
  {
    Punctuation(more);
  }

  lemma KeepsArrayLaw(rest: seq<byte>)
    ensures ArrayLaw(Rfc7159(), rest)
  {
    var empty, full := [OPEN_ARRAY] + ([CLOSE_ARRAY] + rest), [OPEN_ARRAY] + rest;
    Spaced(empty);
    assert empty[1..] == [CLOSE_ARRAY] + rest;
    Punctuation(rest);
    if rest != [] && rest[0] == OPEN_OBJECT {
      Spaced(full);
      Spaced(rest);
      assert full[1..] == rest;
    }
  }

  /** The reader above is one that keeps the laws. */
  lemma Rfc7159Lawful()
    ensures Lawful(Rfc7159())
  {
    var r := Rfc7159();
    forall n: nat, rest
      ensures NumberLaw(r, n, rest)
    {
      KeepsNumberLaw(n, rest);
    }
    forall s, rest
      ensures EscapeLaw(r, s, rest) && QuoteLaw(r, s, rest)
    {
      KeepsEscapeLaw(s, rest);
      KeepsQuoteLaw(s, rest);
    }
    forall key, rest
      ensures ObjectLaw(r, key, rest)
    {
      KeepsObjectLaw(key, rest);
    }
    forall key, rest, more
      ensures MemberLaw(r, key, rest, more)
    {
      KeepsMemberLaw(key, rest, more);
    }
    forall b, more
      ensures ItemLaw(r, b, more)
    {
      KeepsItemLaw(b, more);
    }
    forall rest
      ensures ArrayLaw(r, rest)
    {
      KeepsArrayLaw(rest);
    }
  }
}
