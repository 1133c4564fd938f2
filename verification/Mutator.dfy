/** The candidate generators, on any sequence of random numbers, so that what holds here holds for either generator; and
which candidates come out of them: exactly those of the described shapes. */
module Mutator {
  import opened Common

  // ----- shapes of candidates -----

  const LEGACY_PREFIXES: seq<byte> := [0xf0, 0xf3, 0xf2, 0x2e, 0x36, 0x3e, 0x26, 0x64, 0x65, 0x66, 0x67]

  const CANDIDATE_MAXLEN: nat := 28

  predicate LegacyPrefixes(s: seq<byte>) {
    forall i :: 0 <= i < |s| ==> s[i] in LEGACY_PREFIXES
  }

  /** Raw, escaped, VEX, XOP and EVEX opcodes. */
  predicate IsOpcode(op: seq<byte>) {
    || |op| == 1
    || (|op| == 2 && op[0] == 0x0f)
    || (|op| == 3 && ((op[0] == 0x0f && op[1] in [0x38, 0x3a]) || op[0] == 0xc5))
    || (|op| == 4 && op[0] in [0xc4, 0x8f])
    || (|op| == 5 && op[0] == 0x62)
  }

  predicate ValueSize(n: nat) {
    n == 0 || n == 1 || n == 2 || n == 4 || n == 8
  }

  datatype Parts = Parts(legacy: seq<byte>, rex: seq<byte>, opcode: seq<byte>, modrm: seq<byte>,
                         disp: seq<byte>, imm: seq<byte>)
  {
    function Bytes(): seq<byte> {
      legacy + rex + opcode + modrm + disp + imm
    }
  }

  /** Four prefixes, perhaps a REX byte, an opcode, ModR/M and SIB, perhaps a displacement and an immediate. */
  predicate SlidingParts(p: Parts) {
    && |p.legacy| == 4 && LegacyPrefixes(p.legacy)
    && |p.rex| <= 1 && IsOpcode(p.opcode) && |p.modrm| == 2
    && ValueSize(|p.disp|) && ValueSize(|p.imm|)
  }

  ghost predicate IsSliding(c: seq<byte>) {
    exists p: Parts :: SlidingParts(p) && p.Bytes() == c
  }

  ghost predicate AllSliding(cs: seq<seq<byte>>) {
    forall i :: 0 <= i < |cs| ==> IsSliding(cs[i])
  }

  lemma SlidingLength(c: seq<byte>)
    requires IsSliding(c)
    ensures 7 <= |c| <= CANDIDATE_MAXLEN
  {
    var p :| SlidingParts(p) && p.Bytes() == c;
    assert |c| == |p.legacy| + |p.rex| + |p.opcode| + |p.modrm| + |p.disp| + |p.imm|;
  }

  /** At most four prefixes, perhaps a proper REX byte, an opcode, and up to seven more bytes, cut to fit. */
  predicate StructuredParts(p: Parts) {
    && |p.legacy| <= 4 && LegacyPrefixes(p.legacy)
    && |p.rex| <= 1 && (p.rex != [] ==> 0x40 <= p.rex[0] <= 0x4f)
    && IsOpcode(p.opcode) && |p.modrm| <= 2 && |p.disp| <= 5 && p.imm == []
    && |p.Bytes()| <= INSN_MAXLEN
  }

  ghost predicate IsStructured(c: seq<byte>) {
    exists p: Parts :: StructuredParts(p) && p.Bytes() == c
  }

  lemma StructuredLength(c: seq<byte>)
    requires IsStructured(c)
    ensures 1 <= |c| <= INSN_MAXLEN
  {
    var p :| StructuredParts(p) && p.Bytes() == c;
    assert |c| == |p.legacy| + |p.rex| + |p.opcode| + |p.modrm| + |p.disp| + |p.imm|;
  }

  // ----- random choices -----

  /** A random number as its eight bytes, the lowest first. */
  type Long = s: seq<byte> | |s| == 8 witness [0, 0, 0, 0, 0, 0, 0, 0]

  /** The numbers to come, whatever generator they come from. */
  type Draws = nat -> Long

  class Dice {
    const draws: Draws
    var at: nat  // how many have been drawn

    constructor (draws: Draws)
      ensures this.draws == draws && at == 0
    {
      this.draws := draws;
      at := 0;
    }

    method RandLong() returns (r: Long)
      modifies this
      ensures r == draws(old(at)) && at == old(at) + 1
    {
      r := draws(at);
      at := at + 1;
    }

    /** The low byte of a random number. */
    method RandByte() returns (r: byte)
      modifies this
      ensures r == draws(old(at))[0] && at == old(at) + 1
    {
      var long := RandLong();
      r := long[0];
    }

    method RandPrefix() returns (b: byte)
      modifies this
      ensures b == LEGACY_PREFIXES[draws(old(at))[0] % 11] && at == old(at) + 1
    {
      var r := RandByte();
      b := LEGACY_PREFIXES[r % 11];
    }

    /** `n` random bytes. */
    method RandBytes(n: nat) returns (s: seq<byte>)
      modifies this
      ensures s == BytesOf(draws, old(at), n) && at == old(at) + n
    {
      s := [];
      for i := 0 to n
        invariant s == BytesOf(draws, old(at), i) && at == old(at) + i
      {
        var b := RandByte();
        s := s + [b];
      }
    }

    /** `rand_opcode`. */
    method RandOpcode() returns (op: seq<byte>)
      modifies this
      ensures op == OpcodeOf(draws, old(at)).0 && at == OpcodeOf(draws, old(at)).1
    {
      var form := RandByte();
      var bytes;
      match form % 8
      case 0 =>
        bytes := RandBytes(1);
        op := [] + bytes;
      case 1 =>
        bytes := RandBytes(1);
        op := [0x0f] + bytes;
      case 2 =>
        bytes := RandBytes(1);
        op := [0x0f, 0x38] + bytes;
      case 3 =>
        bytes := RandBytes(1);
        op := [0x0f, 0x3a] + bytes;
      case 4 =>
        bytes := RandBytes(2);
        op := [0xc5] + bytes;
      case 5 =>
        bytes := RandBytes(3);
        op := [0xc4] + bytes;
      case 6 =>
        bytes := RandBytes(3);
        op := [0x8f] + bytes;
      case _ =>
        bytes := RandBytes(4);
        op := [0x62] + bytes;
    }

    /** The bytes of a displacement or immediate: none, or the low 1, 2, 4 or 8 bytes of a random number. */
    method RandValue() returns (value: seq<byte>)
      modifies this
      ensures value == ValueOf(draws, old(at)).0 && at == ValueOf(draws, old(at)).1 && ValueSize(|value|)
    {
      var some := RandByte();
      if some % 2 == 0 {
        var size := RandByte();
        var bytes := RandLong();
        value := bytes[..ValueBytes(size)];
      } else {
        value := [];
      }
    }

    /** A prefix from the table, any byte, or none. */
    method RandAnyRex() returns (rex: seq<byte>)
      modifies this
      ensures (rex, at) == AnyRexOf(draws, old(at))
    {
      var choice := RandByte();
      match choice % 3
      case 0 =>
        var which := RandByte();
        rex := [0x40 + which % 16];
      case 1 =>
        rex := RandBytes(1);
      case _ =>
        rex := [];
    }

    /** A prefix from the table, or none. */
    method RandRex() returns (rex: seq<byte>)
      modifies this
      ensures (rex, at) == RexOf(draws, old(at))
    {
      rex := [];
      var choice := RandByte();
      if choice % 2 != 0 {
        var which := RandByte();
        rex := [0x40 + which % 16];
      }
    }

    method RandOptional() returns (s: seq<byte>)
      modifies this
      ensures s == OptionalOf(draws, old(at)).0 && at == OptionalOf(draws, old(at)).1 && |s| <= 1
    {
      var some := RandByte();
      if some % 2 != 0 {
        s := RandBytes(1);
      } else {
        s := [];
      }
    }
  }

  // ----- what the draws make, and how many have been drawn then -----

  function BytesOf(d: Draws, at: nat, n: nat): (s: seq<byte>)
    ensures |s| == n && forall i :: 0 <= i < n ==> s[i] == d(at + i)[0]
  {
    seq(n, i requires 0 <= i < n => d(at + i)[0])
  }

  function PrefixesOf(d: Draws, at: nat, n: nat): (s: seq<byte>)
    ensures |s| == n && LegacyPrefixes(s) && forall i :: 0 <= i < n ==> s[i] == LEGACY_PREFIXES[d(at + i)[0] % 11]
  {
    seq(n, i requires 0 <= i < n => LEGACY_PREFIXES[d(at + i)[0] % 11])
  }

  /** What opcodes of a format begin with, and how many random bytes follow. */
  function Escapes(format: nat): seq<byte>
    requires format < 8
  {
    match format
    case 0 => []
    case 1 => [0x0f]
    case 2 => [0x0f, 0x38]
    case 3 => [0x0f, 0x3a]
    case 4 => [0xc5]
    case 5 => [0xc4]
    case 6 => [0x8f]
    case _ => [0x62]
  }

  function FreeCount(format: nat): (n: nat)
    requires format < 8
    ensures 1 <= n <= 5 - |Escapes(format)|
  {
    match format
    case 4 => 2
    case 5 => 3
    case 6 => 3
    case 7 => 4
    case _ => 1
  }

  function OpcodeOf(d: Draws, at: nat): (r: (seq<byte>, nat))
    ensures 1 <= |r.0| <= 5
  {
    var format := d(at)[0] % 8;
    (Escapes(format) + BytesOf(d, at + 1, FreeCount(format)), at + 1 + FreeCount(format))
  }

  lemma OpcodeSound(d: Draws, at: nat)
    ensures IsOpcode(OpcodeOf(d, at).0)
  {
    var format := d(at)[0] % 8;
    OpcodeForm(format, BytesOf(d, at + 1, FreeCount(format)));
  }

  lemma OpcodeForm(format: nat, bytes: seq<byte>)
    requires format < 8 && |bytes| == FreeCount(format)
    ensures IsOpcode(Escapes(format) + bytes)
  {
  }

  /** `1 << (r % 4)` */
  function ValueBytes(r: byte): (n: nat)
    ensures n > 0 && ValueSize(n)
  {
    if r % 4 == 0 then 1 else if r % 4 == 1 then 2 else if r % 4 == 2 then 4 else 8
  }

  function ValueOf(d: Draws, at: nat): (r: (seq<byte>, nat))
    ensures ValueSize(|r.0|)
  {
    if d(at)[0] % 2 == 0 then (d(at + 2)[..ValueBytes(d(at + 1)[0])], at + 3) else ([], at + 1)
  }

  function OptionalOf(d: Draws, at: nat): (r: (seq<byte>, nat))
    ensures |r.0| <= 1
  {
    if d(at)[0] % 2 != 0 then (BytesOf(d, at + 1, 1), at + 2) else ([], at + 1)
  }

  /** A prefix from the table, any byte, or none. */
  function AnyRexOf(d: Draws, at: nat): (r: (seq<byte>, nat))
    ensures |r.0| <= 1
  {
    match d(at)[0] % 3
    case 0 => ([0x40 + d(at + 1)[0] % 16], at + 2)
    case 1 => (BytesOf(d, at + 1, 1), at + 2)
    case _ => ([], at + 1)
  }

  /** A prefix from the table, or none. */
  function RexOf(d: Draws, at: nat): (r: (seq<byte>, nat))
    ensures |r.0| <= 1 && (r.0 != [] ==> 0x40 <= r.0[0] <= 0x4f)
  {
    if d(at)[0] % 2 != 0 then ([0x40 + d(at + 1)[0] % 16], at + 2) else ([], at + 1)
  }

  /** ModR/M and SIB, displacement and immediate. */
  function OperandsOf(d: Draws, at: nat): (r: (seq<byte>, nat)) {
    var (disp, a) := ValueOf(d, at + 2);
    var (imm, b) := ValueOf(d, a);
    (BytesOf(d, at, 2) + disp + imm, b)
  }

  /** The prefixes and the REX byte of a sliding candidate. */
  function SlidingFrontOf(d: Draws, at: nat): (r: (seq<byte>, nat))
    ensures 4 <= |r.0| <= 5
  {
    var (rex, a) := AnyRexOf(d, at + 4);
    (PrefixesOf(d, at, 4) + rex, a)
  }

  function SlidingOf(d: Draws, at: nat): (r: (seq<byte>, nat)) {
    var (front, a) := SlidingFrontOf(d, at);
    var (op, b) := OpcodeOf(d, a);
    var (operands, c) := OperandsOf(d, b);
    (front + op + operands, c)
  }

  /** The prefixes and the REX byte of a structured candidate. */
  function FrontOf(d: Draws, at: nat): (r: (seq<byte>, nat))
    ensures |r.0| <= 5
  {
    var n := d(at)[0] % 5;
    var (rex, a) := RexOf(d, at + 1 + n);
    (PrefixesOf(d, at + 1, n) + rex, a)
  }

  /** ModR/M and SIB, each perhaps. */
  function OptionalsOf(d: Draws, at: nat): (r: (seq<byte>, nat))
    ensures |r.0| <= 2
  {
    var (modrm, a) := OptionalOf(d, at);
    var (sib, b) := OptionalOf(d, a);
    (modrm + sib, b)
  }

  function TailOf(d: Draws, at: nat, room: nat): (s: seq<byte>)
    ensures |s| <= room && |s| <= 5
  {
    d(at)[..Min(d(at + 1)[0] % 6, room)]
  }

  /** All of a structured candidate but its tail. */
  function BodyOf(d: Draws, at: nat): (r: (seq<byte>, nat))
    ensures 1 <= |r.0| <= 12
  {
    var (front, a) := FrontOf(d, at);
    var (op, b) := OpcodeOf(d, a);
    var (optional, c) := OptionalsOf(d, b);
    (front + op + optional, c)
  }

  function StructuredOf(d: Draws, at: nat): (r: (seq<byte>, nat))
    ensures 1 <= |r.0| <= INSN_MAXLEN
  {
    var (body, a) := BodyOf(d, at);
    (body + TailOf(d, a, INSN_MAXLEN - |body|), a + 2)
  }

  /** The slot of a havoc candidate. */
  function HavocOf(d: Draws, at: nat): InputSlot {
    InputSlot(d(at)[0] % INSN_MAXLEN + 1, d(at + 1) + d(at + 2)[..7])
  }

  /** `memcpy`. */
  method Copy(buffer: array<byte>, at: nat, bytes: seq<byte>)
    requires at + |bytes| <= buffer.Length
    modifies buffer
    ensures buffer[..at + |bytes|] == old(buffer[..at]) + bytes
    ensures forall k :: at + |bytes| <= k < buffer.Length ==> buffer[k] == old(buffer[k])
  {
    forall k | 0 <= k < |bytes| {
      buffer[at + k] := bytes[k];
    }
  }

  /** The loop over legacy prefixes. */
  method PutPrefixes(buffer: array<byte>, n: nat, dice: Dice)
    requires n <= buffer.Length
    modifies buffer, dice
    ensures buffer[..n] == PrefixesOf(dice.draws, old(dice.at), n) && dice.at == old(dice.at) + n
    ensures forall k :: n <= k < buffer.Length ==> buffer[k] == old(buffer[k])
  {
    for i := 0 to n
      invariant buffer[..i] == PrefixesOf(dice.draws, old(dice.at), i) && dice.at == old(dice.at) + i
      invariant forall k :: i <= k < buffer.Length ==> buffer[k] == old(buffer[k])
    {
      var prefix := dice.RandPrefix();
      Copy(buffer, i, [prefix]);
    }
  }

  // ----- windows -----

  /** The instructions tried for one candidate: all its windows of 15 bytes from left to right, or the whole of a short
      one. */
  function Windows(c: seq<byte>): (w: seq<seq<byte>>)
    ensures w != []
  {
    if |c| <= INSN_MAXLEN then [c] else seq(|c| - 14, (k: nat) requires k < |c| - 14 => c[k..k + 15])
  }

  function AllWindows(cs: seq<seq<byte>>): seq<seq<byte>> {
    if cs == [] then [] else AllWindows(cs[..|cs| - 1]) + Windows(cs[|cs| - 1])
  }

  /** Each window is tried in its place, none twice, and between them they hold every byte of the candidate. */
  lemma WindowsCover(c: seq<byte>, at: nat)
    requires at < |c|
    ensures exists k :: 0 <= k < |Windows(c)| && k <= at < k + |Windows(c)[k]| && Windows(c)[k][at - k] == c[at]
    ensures forall k :: 0 <= k < |Windows(c)| ==> |Windows(c)[k]| == if |c| < 15 then |c| else 15
  {
    var k := if at < |Windows(c)| then at else |Windows(c)| - 1;
    if |c| > INSN_MAXLEN {
      forall j | 0 <= j < |Windows(c)|
        ensures Windows(c)[j] == c[j..j + INSN_MAXLEN]
      {
        WindowAt(c, j);
      }
    }
    assert Windows(c)[k] == if |c| > INSN_MAXLEN then c[k..k + INSN_MAXLEN] else c;
    assert k <= at < k + |Windows(c)[k]| && Windows(c)[k][at - k] == c[at];
  }

  // ----- the static candidate -----

  class Slider {
    var off: nat
    var len: nat
    const insn: array<byte>
    const dice: Dice

    ghost predicate Valid()
      reads this, insn
    {
      && insn.Length == CANDIDATE_MAXLEN
      && (off > 0 ==> off + INSN_MAXLEN <= len <= CANDIDATE_MAXLEN && IsSliding(insn[..len]))
    }

    constructor (dice: Dice)
      ensures Valid() && off == 0 && fresh(insn) && this.dice == dice
    {
      off, len := 0, 0;
      insn := new byte[28](i => 0);
      this.dice := dice;
    }

    method Append(bytes: seq<byte>)
      requires insn.Length == CANDIDATE_MAXLEN && len + |bytes| <= CANDIDATE_MAXLEN
      modifies this`len, insn
      ensures len == old(len) + |bytes| && insn[..len] == old(insn[..len]) + bytes
      ensures forall k :: len <= k < CANDIDATE_MAXLEN ==> insn[k] == old(insn[k])
    {
      Copy(insn, len, bytes);
      len := len + |bytes|;
    }

    /** A zeroed candidate with its four legacy prefixes. */
    method ClearAndPutPrefixes()
      requires insn.Length == CANDIDATE_MAXLEN
      modifies this, insn, dice
      ensures off == 0 && len == 4 && insn[..len] == PrefixesOf(dice.draws, old(dice.at), 4)
      ensures dice.at == old(dice.at) + 4 && forall k :: len <= k < CANDIDATE_MAXLEN ==> insn[k] == 0
    {
      forall k | 0 <= k < insn.Length {
        insn[k] := 0;
      }
      off, len := 0, 0;
      PutPrefixes(insn, 4, dice);
      len := len + 4;
    }

    method AppendFront()
      requires insn.Length == CANDIDATE_MAXLEN
      modifies this, insn, dice
      ensures off == 0 && 4 <= len <= 5 && (insn[..len], dice.at) == SlidingFrontOf(dice.draws, old(dice.at))
      ensures forall k :: len <= k < CANDIDATE_MAXLEN ==> insn[k] == 0
    {
      ClearAndPutPrefixes();
      var rex := dice.RandAnyRex();
      Append(rex);
    }

    /** `build_sliding_candidate`. */
    method BuildSlidingCandidate()
      requires insn.Length == CANDIDATE_MAXLEN
      modifies this, insn, dice
      ensures off == 0 && 7 <= len <= CANDIDATE_MAXLEN && IsSliding(insn[..len])
      ensures (insn[..len], dice.at) == SlidingOf(dice.draws, old(dice.at))
      ensures forall k :: len <= k < CANDIDATE_MAXLEN ==> insn[k] == 0
    {
      SlidingSound(dice.draws, dice.at);
      AppendFront();
      var opcode := dice.RandOpcode();
      Append(opcode);
      AppendOperands();
      SlidingLength(insn[..len]);
    }

    method AppendValue()
      requires insn.Length == CANDIDATE_MAXLEN && len <= 20
      modifies this`len, insn, dice
      ensures len == old(len) + |ValueOf(dice.draws, old(dice.at)).0|
      ensures insn[..len] == old(insn[..len]) + ValueOf(dice.draws, old(dice.at)).0
      ensures dice.at == ValueOf(dice.draws, old(dice.at)).1
      ensures forall k :: len <= k < CANDIDATE_MAXLEN ==> insn[k] == old(insn[k])
    {
      var value := dice.RandValue();
      Append(value);
    }

    /** ModR/M and SIB, displacement and immediate. */
    method AppendOperands()
      requires insn.Length == CANDIDATE_MAXLEN && len <= 10
      modifies this`len, insn, dice
      ensures len <= CANDIDATE_MAXLEN
      ensures insn[..len] == old(insn[..len]) + OperandsOf(dice.draws, old(dice.at)).0
      ensures dice.at == OperandsOf(dice.draws, old(dice.at)).1
      ensures forall k :: len <= k < CANDIDATE_MAXLEN ==> insn[k] == old(insn[k])
    {
      ghost var before := insn[..len];
      var modrm := dice.RandBytes(2);
      Append(modrm);
      ghost var disp, a := ValueOf(dice.draws, dice.at).0, ValueOf(dice.draws, dice.at).1;
      AppendValue();
      ghost var imm := ValueOf(dice.draws, a).0;
      AppendValue();
      Behind(before, modrm, disp, imm);
    }

    /** `sliding_candidate`: the next window of the current candidate, or the first of a new one. */
    method SlidingCandidate(raw: array<byte>) returns (slotLen: byte)
      requires Valid() && raw.Length == INSN_MAXLEN && raw != insn
      modifies this, insn, raw, dice
      ensures Valid() && 7 <= len <= CANDIDATE_MAXLEN && IsSliding(insn[..len])
      ensures old(off) > 0 ==> len == old(len) && insn[..] == old(insn[..]) && dice.at == old(dice.at)
      ensures old(off) == 0 ==> (insn[..len], dice.at) == SlidingOf(dice.draws, old(dice.at))
      ensures 7 <= slotLen <= INSN_MAXLEN && forall k :: slotLen <= k < INSN_MAXLEN ==> raw[k] == old(raw[k])
      ensures SlotInBounds(InputSlot(slotLen, raw[..]))
      ensures old(off) < |Windows(insn[..len])| && raw[..slotLen] == Windows(insn[..len])[old(off)]
      ensures off == if old(off) + 1 == |Windows(insn[..len])| then 0 else old(off) + 1
    {
      if off == 0 {
        BuildSlidingCandidate();
      }
      SlidingLength(insn[..len]);
      slotLen := EmitWindow(raw);
    }

    /** The second half of `sliding_candidate`. */
    method EmitWindow(raw: array<byte>) returns (slotLen: byte)
      requires raw.Length == INSN_MAXLEN && raw != insn && insn.Length == CANDIDATE_MAXLEN
      requires 7 <= len <= CANDIDATE_MAXLEN && (off == 0 || off + INSN_MAXLEN <= len)
      modifies this`off, raw
      ensures 7 <= slotLen <= INSN_MAXLEN && forall k :: slotLen <= k < INSN_MAXLEN ==> raw[k] == old(raw[k])
      ensures old(off) < |Windows(insn[..len])| && raw[..slotLen] == Windows(insn[..len])[old(off)]
      ensures off == if old(off) + 1 == |Windows(insn[..len])| then 0 else old(off) + 1
      ensures off > 0 ==> off + INSN_MAXLEN <= len
    {
      if len <= INSN_MAXLEN {
        Copy(raw, 0, insn[..len]);
        slotLen := len;
        off := 0;
      } else {
        WindowAt(insn[..len], off);
        Wrap(off + 1, len - INSN_MAXLEN + 1);
        assert insn[..len][off..off + INSN_MAXLEN] == insn[off..off + INSN_MAXLEN];
        Copy(raw, 0, insn[off..off + INSN_MAXLEN]);
        slotLen := INSN_MAXLEN;
        off := (off + 1) % (len - INSN_MAXLEN + 1);
      }
    }

    /** `slots` are the windows of the candidates in `built`, from number `from` on, up to where the slider stands. */
    ghost predicate Emitted(built: seq<seq<byte>>, from: nat, slots: seq<seq<byte>>)
      reads this, insn
    {
      && Valid() && AllSliding(built)
      && (off > 0 ==> built != [] && built[|built| - 1] == insn[..len])
      && Stretch(built, from, slots, off)
    }

    method EmitOne(raw: array<byte>, ghost slots: seq<seq<byte>>, ghost from: nat, ghost built: seq<seq<byte>>)
        returns (slot: InputSlot, ghost longer: seq<seq<byte>>, ghost now: seq<seq<byte>>)
      requires Emitted(built, from, slots) && raw.Length == INSN_MAXLEN && raw != insn
      modifies this, insn, raw, dice
      ensures SlotInBounds(slot) && longer == slots + [CountedBytes(slot)]
      ensures Emitted(now, from, longer) && built <= now
    {
      ghost var o, last := off, insn[..if off > 0 then len else 0];
      var slotLen := SlidingCandidate(raw);
      ghost var c := insn[..len];
      slot := InputSlot(slotLen, raw[..]);
      assert CountedBytes(slot) == raw[..slotLen];
      assert o > 0 ==> c == last;
      longer := slots + [CountedBytes(slot)];
      now := if o == 0 then built + [c] else built;
      BuiltNext(built, o, c);
      StretchNext(built, from, slots, o, c, CountedBytes(slot), off);
    }

    /** The mutator called `n` times, as main does to fill chunks.  The slots stay within their buffers, and the bytes that
        count are an unbroken stretch of the windows of the candidates built, from where the slider stood to where it
        stands; `built` begins with the candidate it was on. */
    method Fill(n: nat, raw: array<byte>)
        returns (filled: seq<InputSlot>, ghost slots: seq<seq<byte>>, ghost built: seq<seq<byte>>)
      requires Valid() && raw.Length == INSN_MAXLEN && raw != insn
      modifies this, insn, raw, dice
      ensures |filled| == |slots| == n
      ensures forall i :: 0 <= i < n ==> SlotInBounds(filled[i]) && CountedBytes(filled[i]) == slots[i]
      ensures Emitted(built, old(off), slots)
      ensures old(off) > 0 ==> built != [] && built[0] == old(insn[..len])
    {
      filled, slots := [], [];
      built := if off > 0 then [insn[..len]] else [];
      StretchStart(insn[..if off > 0 then len else 0], off);
      ghost var from, first := off, built;
      for i := 0 to n
        invariant |filled| == |slots| == i && first <= built && Emitted(built, from, slots)
        invariant forall j :: 0 <= j < i ==> SlotInBounds(filled[j]) && CountedBytes(filled[j]) == slots[j]
      {
        var slot;
        slot, slots, built := EmitOne(raw, slots, from, built);
        filled := filled + [slot];
      }
    }
  }

  lemma Behind(before: seq<byte>, a: seq<byte>, b: seq<byte>, c: seq<byte>)
    ensures before + a + b + c == before + (a + b + c)
  {
  }

  lemma BuiltNext(built: seq<seq<byte>>, o: nat, c: seq<byte>)
    requires AllSliding(built) && IsSliding(c) && (o > 0 ==> built != [] && built[|built| - 1] == c)
    ensures var now := if o == 0 then built + [c] else built;
            AllSliding(now) && built <= now && now != [] && now[|now| - 1] == c
  {
  }

  lemma StretchStart(c: seq<byte>, off: nat)
    requires off > 0 ==> INSN_MAXLEN < |c| && off + INSN_MAXLEN <= |c|
    ensures Stretch(if off > 0 then [c] else [], off, [], off)
  {
    if off > 0 {
      WindowAt(c, off);
      assert [c][..0] == [];
      assert AllWindows([]) + Windows(c) == Windows(c);
    }
  }

  lemma Wrap(a: nat, m: nat)
    requires 0 < a <= m
    ensures a % m == if a == m then 0 else a
  {
  }

  lemma WindowAt(c: seq<byte>, o: nat)
    requires INSN_MAXLEN < |c| && o + INSN_MAXLEN <= |c|
    ensures |Windows(c)| == |c| - 14 && Windows(c)[o] == c[o..o + INSN_MAXLEN]
  {
  }

  /** How many windows of the last candidate are still to come when the slider stands at `off`. */
  function Left(built: seq<seq<byte>>, off: nat): int {
    if off == 0 || built == [] then 0 else |Windows(built[|built| - 1])| - off
  }

  /** `slots` are the windows of the candidates in `built` from number `from` on, up to where the slider stands. */
  ghost predicate Stretch(built: seq<seq<byte>>, from: nat, slots: seq<seq<byte>>, off: nat) {
    && Left(built, off) >= 0
    && |AllWindows(built)| == from + |slots| + Left(built, off)
    && slots == AllWindows(built)[from..from + |slots|]
  }

  lemma StretchNext(built: seq<seq<byte>>, from: nat, slots: seq<seq<byte>>, off: nat,
                    c: seq<byte>, slot: seq<byte>, next: nat)
    requires Stretch(built, from, slots, off) && (off > 0 ==> built != [] && built[|built| - 1] == c)
    requires off < |Windows(c)| && slot == Windows(c)[off] && next == if off + 1 == |Windows(c)| then 0 else off + 1
    ensures Stretch(if off == 0 then built + [c] else built, from, slots + [slot], next)
  {
    if off == 0 {
      assert (built + [c])[..|built|] == built;
      Extend(AllWindows(built), Windows(c), from, slots, slot);
    } else {
      var before := AllWindows(built[..|built| - 1]);
      assert AllWindows(built) == before + Windows(c);
      assert from + |slots| == |before| + off;
      Longer(AllWindows(built), from, slots, slot);
    }
  }

  lemma Longer(all: seq<seq<byte>>, from: nat, slots: seq<seq<byte>>, slot: seq<byte>)
    requires from + |slots| < |all| && slots == all[from..from + |slots|] && slot == all[from + |slots|]
    ensures slots + [slot] == all[from..from + |slots| + 1]
  {
  }

  lemma Extend(all: seq<seq<byte>>, more: seq<seq<byte>>, from: nat, slots: seq<seq<byte>>, slot: seq<byte>)
    requires from + |slots| == |all| && slots == all[from..] && more != [] && slot == more[0]
    ensures slots + [slot] == (all + more)[from..from + |slots| + 1]
  {
  }

  // ----- the other mutators -----

  /** The prefixes and the REX byte of a structured candidate. */
  method PutFront(raw: array<byte>, dice: Dice) returns (len: nat)
    requires raw.Length == INSN_MAXLEN
    modifies raw, dice
    ensures len <= 5 && (raw[..len], dice.at) == FrontOf(dice.draws, old(dice.at))
    ensures forall k :: len <= k < INSN_MAXLEN ==> raw[k] == old(raw[k])
  {
    var count := dice.RandByte();
    len := count % 5;
    PutPrefixes(raw, len, dice);
    var rex := dice.RandRex();
    Copy(raw, len, rex);
    len := len + |rex|;
  }

  /** ModR/M and SIB. */
  method PutOptionals(raw: array<byte>, at: nat, dice: Dice) returns (len: nat)
    requires raw.Length == INSN_MAXLEN && at <= 10
    modifies raw, dice
    ensures len == at + |OptionalsOf(dice.draws, old(dice.at)).0|
    ensures raw[..len] == old(raw[..at]) + OptionalsOf(dice.draws, old(dice.at)).0
    ensures dice.at == OptionalsOf(dice.draws, old(dice.at)).1
    ensures forall k :: len <= k < INSN_MAXLEN ==> raw[k] == old(raw[k])
  {
    var modrm := dice.RandOptional();
    Copy(raw, at, modrm);
    var sib := dice.RandOptional();
    Copy(raw, at + |modrm|, sib);
    len := at + |modrm| + |sib|;
    assert old(raw[..at]) + modrm + sib == old(raw[..at]) + (modrm + sib);
  }

  /** Up to five more bytes, as far as they fit. */
  method PutTail(raw: array<byte>, at: nat, dice: Dice) returns (len: nat)
    requires raw.Length == INSN_MAXLEN && at <= 12
    modifies raw, dice
    ensures len <= INSN_MAXLEN && dice.at == old(dice.at) + 2
    ensures raw[..len] == old(raw[..at]) + TailOf(dice.draws, old(dice.at), INSN_MAXLEN - at)
    ensures forall k :: len <= k < INSN_MAXLEN ==> raw[k] == old(raw[k])
  {
    var tail := dice.RandLong();
    var size := dice.RandByte();
    var tailSize := size % 6;
    if at + tailSize > INSN_MAXLEN {
      tailSize := INSN_MAXLEN - at;
    }
    Copy(raw, at, tail[..tailSize]);
    len := at + tailSize;
  }

  method PutBody(raw: array<byte>, dice: Dice) returns (at: nat)
    requires raw.Length == INSN_MAXLEN
    modifies raw, dice
    ensures 1 <= at <= 12 && (raw[..at], dice.at) == BodyOf(dice.draws, old(dice.at))
    ensures forall k :: at <= k < INSN_MAXLEN ==> raw[k] == old(raw[k])
  {
    at := PutFront(raw, dice);
    var op := dice.RandOpcode();
    Copy(raw, at, op);
    at := PutOptionals(raw, at + |op|, dice);
  }

  method PutStructured(raw: array<byte>, dice: Dice) returns (len: byte)
    requires raw.Length == INSN_MAXLEN
    modifies raw, dice
    ensures 1 <= len <= INSN_MAXLEN && (raw[..len], dice.at) == StructuredOf(dice.draws, old(dice.at))
    ensures forall k :: len <= k < INSN_MAXLEN ==> raw[k] == old(raw[k])
  {
    var at := PutBody(raw, dice);
    len := PutTail(raw, at, dice);
  }

  /** `structured_candidate`. */
  method StructuredCandidate(raw: array<byte>, dice: Dice) returns (len: byte)
    requires raw.Length == INSN_MAXLEN
    modifies raw, dice
    ensures 1 <= len <= INSN_MAXLEN && IsStructured(raw[..len]) && SlotInBounds(InputSlot(len, raw[..]))
    ensures (raw[..len], dice.at) == StructuredOf(dice.draws, old(dice.at))
    ensures forall k :: len <= k < INSN_MAXLEN ==> raw[k] == old(raw[k])
  {
    StructuredSound(dice.draws, dice.at);
    len := PutStructured(raw, dice);
  }

  /** `havoc_candidate`: every length from 1 to 15, all bytes of the slot random. */
  method HavocCandidate(raw: array<byte>, dice: Dice) returns (len: byte)
    requires raw.Length == INSN_MAXLEN
    modifies raw, dice
    ensures 1 <= len <= INSN_MAXLEN && SlotInBounds(InputSlot(len, raw[..]))
    ensures InputSlot(len, raw[..]) == HavocOf(dice.draws, old(dice.at)) && dice.at == old(dice.at) + 3
  {
    var r := dice.RandByte();
    len := r % INSN_MAXLEN + 1;
    var lower := dice.RandLong();
    var upper := dice.RandLong();
    Copy(raw, 0, lower);
    Copy(raw, 8, upper[..7]);
  }

  // ----- exactly the described candidates come out -----

  lemma SlidingFrom(legacy: seq<byte>, rex: seq<byte>, opcode: seq<byte>, modrm: seq<byte>, disp: seq<byte>,
                    imm: seq<byte>, whole: seq<byte>)
    requires |legacy| == 4 && LegacyPrefixes(legacy) && |rex| <= 1 && IsOpcode(opcode) && |modrm| == 2
    requires ValueSize(|disp|) && ValueSize(|imm|) && whole == (legacy + rex) + opcode + (modrm + disp + imm)
    ensures IsSliding(whole)
  {
    var p := Parts(legacy, rex, opcode, modrm, disp, imm);
    assert p.Bytes() == whole;
    assert SlidingParts(p);
  }

  /** Whatever is drawn, the candidate has the described shape. */
  lemma SlidingSound(d: Draws, at: nat)
    ensures IsSliding(SlidingOf(d, at).0)
  {
    var (rex, a) := AnyRexOf(d, at + 4);
    var (op, b) := OpcodeOf(d, a);
    var (disp, e) := ValueOf(d, b + 2);
    var imm := ValueOf(d, e).0;
    OpcodeSound(d, a);
    SlidingFrom(PrefixesOf(d, at, 4), rex, op, BytesOf(d, b, 2), disp, imm, SlidingOf(d, at).0);
  }

  /** What may stand in front of the tail. */
  ghost predicate IsBody(c: seq<byte>) {
    exists p: Parts :: StructuredParts(p) && p.disp == [] && p.Bytes() == c
  }

  lemma BodyFrom(legacy: seq<byte>, rex: seq<byte>, opcode: seq<byte>, modrm: seq<byte>, whole: seq<byte>)
    requires |legacy| <= 4 && LegacyPrefixes(legacy) && IsOpcode(opcode)
    requires |rex| <= 1 && (rex != [] ==> 0x40 <= rex[0] <= 0x4f)
    requires |modrm| <= 2 && whole == (legacy + rex) + opcode + modrm && |whole| <= 12
    ensures IsBody(whole)
  {
    var p := Parts(legacy, rex, opcode, modrm, [], []);
    assert p.Bytes() == whole;
    assert StructuredParts(p);
  }

  lemma FrontSound(d: Draws, at: nat) returns (legacy: seq<byte>, rex: seq<byte>)
    ensures FrontOf(d, at).0 == legacy + rex && |legacy| <= 4 && LegacyPrefixes(legacy)
    ensures |rex| <= 1 && (rex != [] ==> 0x40 <= rex[0] <= 0x4f)
  {
    var n := d(at)[0] % 5;
    legacy, rex := PrefixesOf(d, at + 1, n), RexOf(d, at + 1 + n).0;
  }

  lemma BodyParted(d: Draws, at: nat, front: seq<byte>, a: nat, op: seq<byte>, b: nat, optional: seq<byte>, e: nat)
    requires FrontOf(d, at) == (front, a) && OpcodeOf(d, a) == (op, b) && OptionalsOf(d, b) == (optional, e)
    ensures BodyOf(d, at) == (front + op + optional, e)
  {
  }

  lemma BodySound(d: Draws, at: nat)
    ensures IsBody(BodyOf(d, at).0)
  {
    var legacy, rex := FrontSound(d, at);
    var (front, a) := FrontOf(d, at);
    var (op, b) := OpcodeOf(d, a);
    var (optional, e) := OptionalsOf(d, b);
    OpcodeSound(d, a);
    BodyParted(d, at, front, a, op, b, optional, e);
    BodyFrom(legacy, rex, op, optional, front + op + optional);
  }

  lemma BodyAndTail(body: seq<byte>, tail: seq<byte>)
    requires IsBody(body) && |tail| <= 5 && |body + tail| <= INSN_MAXLEN
    ensures IsStructured(body + tail)
  {
    var p: Parts :| StructuredParts(p) && p.disp == [] && p.Bytes() == body;
    var q := p.(disp := tail);
    assert q.Bytes() == body + tail;
    assert StructuredParts(q);
  }

  lemma StructuredSound(d: Draws, at: nat)
    ensures IsStructured(StructuredOf(d, at).0)
  {
    var (body, a) := BodyOf(d, at);
    BodySound(d, at);
    BodyAndTail(body, TailOf(d, a, INSN_MAXLEN - |body|));
  }

  /** The numbers `l` are the next to be drawn. */
  ghost predicate Holds(d: Draws, at: nat, l: seq<Long>) {
    forall i :: 0 <= i < |l| ==> d(at + i) == l[i]
  }

  lemma HoldsBoth(d: Draws, at: nat, l: seq<Long>, m: seq<Long>)
    requires Holds(d, at, l + m)
    ensures Holds(d, at, l) && Holds(d, at + |l|, m)
  {
    forall i | 0 <= i < |l|
      ensures d(at + i) == l[i]
    {
      assert (l + m)[i] == l[i];
    }
    forall i | 0 <= i < |m|
      ensures d(at + |l| + i) == m[i]
    {
      assert (l + m)[|l| + i] == m[i];
    }
  }

  /** A number with this low byte. */
  function Low(b: byte): Long {
    [b, 0, 0, 0, 0, 0, 0, 0]
  }

  function Lows(s: seq<byte>): (l: seq<Long>)
    ensures |l| == |s| && forall i :: 0 <= i < |s| ==> l[i] == Low(s[i])
  {
    seq(|s|, i requires 0 <= i < |s| => Low(s[i]))
  }

  lemma BytesComeOut(d: Draws, at: nat, s: seq<byte>)
    requires Holds(d, at, Lows(s))
    ensures BytesOf(d, at, |s|) == s
  {
  }

  /** These numbers select these prefixes. */
  ghost predicate Select(l: seq<Long>, s: seq<byte>) {
    |l| == |s| && forall i :: 0 <= i < |s| ==> LEGACY_PREFIXES[l[i][0] % 11] == s[i]
  }

  /** Any sequence of prefixes from the table. */
  lemma {:induction false} PrefixDraws(s: seq<byte>) returns (l: seq<Long>)
    requires LegacyPrefixes(s)
    ensures Select(l, s)
  {
    l := [];
    if s != [] {
      var n := |s| - 1;
      l := PrefixDraws(s[..n]);
      assert s[n] in LEGACY_PREFIXES;
      var k: byte :| k < 11 && LEGACY_PREFIXES[k] == s[n];
      l := l + [Low(k)];
    }
  }

  lemma PrefixesComeOut(d: Draws, at: nat, s: seq<byte>, l: seq<Long>)
    requires Select(l, s) && Holds(d, at, l)
    ensures PrefixesOf(d, at, |s|) == s
  {
  }

  /** The number that selects the format of an opcode. */
  function FormatOf(op: seq<byte>): byte
    requires IsOpcode(op)
  {
    if |op| == 1 then 0
    else if |op| == 2 then 1
    else if |op| == 3 then (if op[0] == 0xc5 then 4 else if op[1] == 0x38 then 2 else 3)
    else if |op| == 4 then (if op[0] == 0xc4 then 5 else 6)
    else 7
  }

  /** The bytes of an opcode that are drawn. */
  function FreeBytes(op: seq<byte>): seq<byte>
    requires IsOpcode(op)
  {
    if |op| == 1 then op else if |op| == 3 && op[0] == 0x0f then op[2..] else op[1..]
  }

  function OpcodeDraws(op: seq<byte>): seq<Long>
    requires IsOpcode(op)
  {
    [Low(FormatOf(op))] + Lows(FreeBytes(op))
  }

  lemma FirstLow(d: Draws, at: nat, b: byte)
    requires Holds(d, at, [Low(b)])
    ensures d(at)[0] == b
  {
    assert d(at) == [Low(b)][0];
  }

  lemma OpcodeDrawn(d: Draws, at: nat, format: byte, n: nat, bytes: seq<byte>)
    requires format < 8 && d(at)[0] == format && n == FreeCount(format) && BytesOf(d, at + 1, n) == bytes
    ensures OpcodeOf(d, at) == (Escapes(format) + bytes, at + 1 + n)
  {
  }

  lemma FirstAndBytes(d: Draws, at: nat, b: byte, bytes: seq<byte>)
    requires Holds(d, at, [Low(b)] + Lows(bytes))
    ensures d(at)[0] == b && BytesOf(d, at + 1, |bytes|) == bytes
  {
    HoldsBoth(d, at, [Low(b)], Lows(bytes));
    FirstLow(d, at, b);
    BytesComeOut(d, at + 1, bytes);
  }

  lemma OpcodeSplit(op: seq<byte>)
    requires IsOpcode(op)
    ensures FormatOf(op) < 8 && |FreeBytes(op)| == FreeCount(FormatOf(op)) && op == Escapes(FormatOf(op)) + FreeBytes(op)
  {
  }

  lemma AnyRexComesOut(d: Draws, at: nat, rex: seq<byte>, l: seq<Long>)
    requires |rex| <= 1 && l == (if rex == [] then [Low(2)] else [Low(1), Low(rex[0])]) && Holds(d, at, l)
    ensures AnyRexOf(d, at) == (rex, at + |l|)
  {
    assert d(at) == l[0];
    if rex != [] {
      assert d(at + 1) == l[1];
      assert BytesOf(d, at + 1, 1) == rex;
    }
  }

  lemma RexComesOut(d: Draws, at: nat, rex: seq<byte>, l: seq<Long>)
    requires |rex| <= 1 && (rex != [] ==> 0x40 <= rex[0] <= 0x4f)
    requires l == (if rex == [] then [Low(0)] else [Low(1), Low(rex[0] - 0x40)]) && Holds(d, at, l)
    ensures RexOf(d, at) == (rex, at + |l|)
  {
    assert d(at) == l[0];
    if rex != [] {
      assert d(at + 1) == l[1];
      assert rex == [rex[0]] && (rex[0] - 0x40) % 16 == rex[0] - 0x40;
    }
  }

  /** A number with these low bytes. */
  function Padded(s: seq<byte>): (l: Long)
    requires |s| <= 8
    ensures l[..|s|] == s
  {
    s + [0, 0, 0, 0, 0, 0, 0, 0][|s|..]
  }

  function ValueDraws(v: seq<byte>): seq<Long>
    requires ValueSize(|v|)
  {
    if v == [] then [Low(1)]
    else [Low(0), Low(if |v| == 1 then 0 else if |v| == 2 then 1 else if |v| == 4 then 2 else 3), Padded(v)]
  }

  lemma ValueComesOut(d: Draws, at: nat, v: seq<byte>)
    requires ValueSize(|v|) && Holds(d, at, ValueDraws(v))
    ensures ValueOf(d, at) == (v, at + |ValueDraws(v)|)
  {
    var l := ValueDraws(v);
    assert d(at) == l[0];
    if v != [] {
      assert d(at + 1) == l[1] && d(at + 2) == l[2];
    }
  }

  function ListedAt(l: seq<Long>, n: nat): Long {
    if n < |l| then l[n] else Low(0)
  }

  /** These numbers first. */
  function Listed(l: seq<Long>): Draws {
    (n: nat) => ListedAt(l, n)
  }

  /** The numbers that make the parts of a candidate, in their order. */
  ghost predicate Follow(d: Draws, at: nat, ls: seq<seq<Long>>)
    decreases |ls|
  {
    ls != [] ==> Holds(d, at, ls[0]) && Follow(d, at + |ls[0]|, ls[1..])
  }

  function Joined(ls: seq<seq<Long>>): seq<Long> {
    if ls == [] then [] else ls[0] + Joined(ls[1..])
  }

  lemma {:induction false} JoinedFollow(d: Draws, at: nat, ls: seq<seq<Long>>)
    requires Holds(d, at, Joined(ls))
    ensures Follow(d, at, ls)
    decreases |ls|
  {
    if ls != [] {
      HoldsBoth(d, at, ls[0], Joined(ls[1..]));
      JoinedFollow(d, at + |ls[0]|, ls[1..]);
    }
  }

  lemma AllDrawn(ls: seq<seq<Long>>) returns (d: Draws)
    ensures Follow(d, 0, ls)
  {
    d := Listed(Joined(ls));
    JoinedFollow(d, 0, ls);
  }

  /** The next numbers are drawn, and the others follow. */
  lemma Next(d: Draws, at: nat, l: seq<Long>, rest: seq<seq<Long>>)
    requires Follow(d, at, [l] + rest)
    ensures Holds(d, at, l) && Follow(d, at + |l|, rest)
  {
    assert ([l] + rest)[1..] == rest;
  }

  lemma NextPrefixes(d: Draws, at: nat, s: seq<byte>, l: seq<Long>, rest: seq<seq<Long>>)
    requires Select(l, s) && Follow(d, at, [l] + rest)
    ensures PrefixesOf(d, at, |s|) == s && Follow(d, at + |s|, rest)
  {
    Next(d, at, l, rest);
    PrefixesComeOut(d, at, s, l);
  }

  /** Every opcode of every format. */
  lemma NextOpcode(d: Draws, at: nat, op: seq<byte>, rest: seq<seq<Long>>) returns (next: nat)
    requires IsOpcode(op) && Follow(d, at, [OpcodeDraws(op)] + rest)
    ensures OpcodeOf(d, at) == (op, next) && Follow(d, next, rest)
  {
    var format, bytes := FormatOf(op), FreeBytes(op);
    OpcodeSplit(op);
    NextFormat(d, at, format, bytes, rest);
    OpcodeDrawn(d, at, format, |bytes|, bytes);
    next := at + 1 + |bytes|;
  }

  lemma NextFormat(d: Draws, at: nat, format: byte, bytes: seq<byte>, rest: seq<seq<Long>>)
    requires Follow(d, at, [[Low(format)] + Lows(bytes)] + rest)
    ensures d(at)[0] == format && BytesOf(d, at + 1, |bytes|) == bytes && Follow(d, at + 1 + |bytes|, rest)
  {
    Next(d, at, [Low(format)] + Lows(bytes), rest);
    FirstAndBytes(d, at, format, bytes);
  }

  lemma NextValue(d: Draws, at: nat, v: seq<byte>, rest: seq<seq<Long>>) returns (next: nat)
    requires ValueSize(|v|) && Follow(d, at, [ValueDraws(v)] + rest)
    ensures ValueOf(d, at) == (v, next) && Follow(d, next, rest)
  {
    Next(d, at, ValueDraws(v), rest);
    ValueComesOut(d, at, v);
    next := at + |ValueDraws(v)|;
  }

  lemma NextBytes(d: Draws, at: nat, s: seq<byte>, rest: seq<seq<Long>>)
    requires Follow(d, at, [Lows(s)] + rest)
    ensures BytesOf(d, at, |s|) == s && Follow(d, at + |s|, rest)
  {
    Next(d, at, Lows(s), rest);
    BytesComeOut(d, at, s);
  }

  function AnyRexDraws(rex: seq<byte>): seq<Long>
    requires |rex| <= 1
  {
    if rex == [] then [Low(2)] else [Low(1), Low(rex[0])]
  }

  lemma NextAnyRex(d: Draws, at: nat, rex: seq<byte>, rest: seq<seq<Long>>) returns (next: nat)
    requires |rex| <= 1 && Follow(d, at, [AnyRexDraws(rex)] + rest)
    ensures AnyRexOf(d, at) == (rex, next) && Follow(d, next, rest)
  {
    Next(d, at, AnyRexDraws(rex), rest);
    AnyRexComesOut(d, at, rex, AnyRexDraws(rex));
    next := at + |AnyRexDraws(rex)|;
  }

  function RexDraws(rex: seq<byte>): seq<Long>
    requires |rex| <= 1 && (rex != [] ==> 0x40 <= rex[0] <= 0x4f)
  {
    if rex == [] then [Low(0)] else [Low(1), Low(rex[0] - 0x40)]
  }

  lemma NextRex(d: Draws, at: nat, rex: seq<byte>, rest: seq<seq<Long>>) returns (next: nat)
    requires |rex| <= 1 && (rex != [] ==> 0x40 <= rex[0] <= 0x4f) && Follow(d, at, [RexDraws(rex)] + rest)
    ensures RexOf(d, at) == (rex, next) && Follow(d, next, rest)
  {
    Next(d, at, RexDraws(rex), rest);
    RexComesOut(d, at, rex, RexDraws(rex));
    next := at + |RexDraws(rex)|;
  }

  function OptionalDraws(s: seq<byte>): seq<Long>
    requires |s| <= 1
  {
    if s == [] then [Low(0)] else [Low(1), Low(s[0])]
  }

  lemma NextOptional(d: Draws, at: nat, s: seq<byte>, rest: seq<seq<Long>>) returns (next: nat)
    requires |s| <= 1 && Follow(d, at, [OptionalDraws(s)] + rest)
    ensures OptionalOf(d, at) == (s, next) && Follow(d, next, rest)
  {
    var l := OptionalDraws(s);
    Next(d, at, l, rest);
    assert d(at) == l[0];
    if s != [] {
      assert d(at + 1) == l[1];
      assert BytesOf(d, at + 1, 1) == s;
    }
    next := at + |l|;
  }

  /** Every candidate of the described shape comes out of some draws. */
  lemma SlidingComesOut(c: seq<byte>) returns (d: Draws)
    requires IsSliding(c)
    ensures SlidingOf(d, 0).0 == c
  {
    var p: Parts :| SlidingParts(p) && p.Bytes() == c;
    var prefixes := PrefixDraws(p.legacy);
    var operands := [Lows(p.modrm)] + ([ValueDraws(p.disp)] + ([ValueDraws(p.imm)] + []));
    var body := [OpcodeDraws(p.opcode)] + operands;
    d := AllDrawn([prefixes] + ([AnyRexDraws(p.rex)] + body));
    var a := SlidingFrontComesOut(d, p.legacy, prefixes, p.rex, body);
    var b := NextOpcode(d, a, p.opcode, operands);
    var e := OperandsComeOut(d, b, p.modrm, p.disp, p.imm, []);
    SlidingParted(d, p.legacy + p.rex, a, p.opcode, b, p.modrm + p.disp + p.imm, e);
    InParts(p);
  }

  lemma InParts(p: Parts)
    ensures (p.legacy + p.rex) + p.opcode + (p.modrm + p.disp + p.imm) == p.Bytes()
    ensures p.imm == [] ==> (p.legacy + p.rex) + p.opcode + p.modrm + p.disp == p.Bytes()
  {
  }

  lemma SlidingParted(d: Draws, front: seq<byte>, a: nat, op: seq<byte>, b: nat, operands: seq<byte>, e: nat)
    requires SlidingFrontOf(d, 0) == (front, a) && OpcodeOf(d, a) == (op, b) && OperandsOf(d, b) == (operands, e)
    ensures SlidingOf(d, 0) == (front + op + operands, e)
  {
  }

  lemma SlidingFrontComesOut(d: Draws, legacy: seq<byte>, prefixes: seq<Long>, rex: seq<byte>, rest: seq<seq<Long>>)
      returns (next: nat)
    requires |legacy| == 4 && Select(prefixes, legacy) && |rex| <= 1
    requires Follow(d, 0, [prefixes] + ([AnyRexDraws(rex)] + rest))
    ensures SlidingFrontOf(d, 0) == (legacy + rex, next) && Follow(d, next, rest)
  {
    NextPrefixes(d, 0, legacy, prefixes, [AnyRexDraws(rex)] + rest);
    next := NextAnyRex(d, 4, rex, rest);
  }

  lemma OperandsComeOut(d: Draws, at: nat, modrm: seq<byte>, disp: seq<byte>, imm: seq<byte>, rest: seq<seq<Long>>)
      returns (next: nat)
    requires |modrm| == 2 && ValueSize(|disp|) && ValueSize(|imm|)
    requires Follow(d, at, [Lows(modrm)] + ([ValueDraws(disp)] + ([ValueDraws(imm)] + rest)))
    ensures OperandsOf(d, at) == (modrm + disp + imm, next) && Follow(d, next, rest)
  {
    NextBytes(d, at, modrm, [ValueDraws(disp)] + ([ValueDraws(imm)] + rest));
    var a := NextValue(d, at + 2, disp, [ValueDraws(imm)] + rest);
    next := NextValue(d, a, imm, rest);
  }

  lemma StructuredComesOut(c: seq<byte>) returns (d: Draws)
    requires IsStructured(c)
    ensures StructuredOf(d, 0).0 == c
  {
    var p: Parts :| StructuredParts(p) && p.Bytes() == c;
    var prefixes := PrefixDraws(p.legacy);
    var modrm, sib := p.modrm[..Min(|p.modrm|, 1)], p.modrm[Min(|p.modrm|, 1)..];
    assert modrm + sib == p.modrm;
    var tail := [[Padded(p.disp), Low(|p.disp|)]] + [];
    var body := [OpcodeDraws(p.opcode)] + ([OptionalDraws(modrm)] + ([OptionalDraws(sib)] + tail));
    d := AllDrawn([[Low(|p.legacy|)]] + ([prefixes] + ([RexDraws(p.rex)] + body)));
    var a := FrontComesOut(d, p.legacy, prefixes, p.rex, body);
    StructuredFollows(d, a, p, modrm, sib);
  }

  lemma StructuredFollows(d: Draws, a: nat, p: Parts, modrm: seq<byte>, sib: seq<byte>)
    requires StructuredParts(p) && |modrm| <= 1 && |sib| <= 1 && modrm + sib == p.modrm
    requires FrontOf(d, 0) == (p.legacy + p.rex, a)
    requires var tail := [[Padded(p.disp), Low(|p.disp|)]] + [];
             Follow(d, a, [OpcodeDraws(p.opcode)] + ([OptionalDraws(modrm)] + ([OptionalDraws(sib)] + tail)))
    ensures StructuredOf(d, 0).0 == p.Bytes()
  {
    var tail := [[Padded(p.disp), Low(|p.disp|)]] + [];
    var b := NextOpcode(d, a, p.opcode, [OptionalDraws(modrm)] + ([OptionalDraws(sib)] + tail));
    var e := OptionalsComeOut(d, b, modrm, sib, tail);
    var body := p.legacy + p.rex + p.opcode + (modrm + sib);
    BodyParted(d, 0, p.legacy + p.rex, a, p.opcode, b, modrm + sib, e);
    InParts(p);
    TailComesOut(d, e, p.disp, INSN_MAXLEN - |body|, []);
    StructuredParted(d, body, e, p.disp);
  }

  lemma FrontComesOut(d: Draws, legacy: seq<byte>, prefixes: seq<Long>, rex: seq<byte>, rest: seq<seq<Long>>)
      returns (next: nat)
    requires |legacy| <= 4 && Select(prefixes, legacy) && |rex| <= 1 && (rex != [] ==> 0x40 <= rex[0] <= 0x4f)
    requires Follow(d, 0, [[Low(|legacy|)]] + ([prefixes] + ([RexDraws(rex)] + rest)))
    ensures FrontOf(d, 0) == (legacy + rex, next) && Follow(d, next, rest)
  {
    NextCount(d, |legacy|, [prefixes] + ([RexDraws(rex)] + rest));
    NextPrefixes(d, 1, legacy, prefixes, [RexDraws(rex)] + rest);
    next := NextRex(d, 1 + |legacy|, rex, rest);
    FrontParted(d, |legacy|, legacy, rex, next);
  }

  lemma NextCount(d: Draws, n: byte, rest: seq<seq<Long>>)
    requires n <= 4 && Follow(d, 0, [[Low(n)]] + rest)
    ensures d(0)[0] % 5 == n && Follow(d, 1, rest)
  {
    Next(d, 0, [Low(n)], rest);
    assert d(0) == [Low(n)][0];
  }

  lemma FrontParted(d: Draws, n: nat, legacy: seq<byte>, rex: seq<byte>, next: nat)
    requires d(0)[0] % 5 == n && PrefixesOf(d, 1, n) == legacy && RexOf(d, 1 + n) == (rex, next)
    ensures FrontOf(d, 0) == (legacy + rex, next)
  {
  }

  lemma OptionalsComeOut(d: Draws, at: nat, modrm: seq<byte>, sib: seq<byte>, rest: seq<seq<Long>>) returns (next: nat)
    requires |modrm| <= 1 && |sib| <= 1 && Follow(d, at, [OptionalDraws(modrm)] + ([OptionalDraws(sib)] + rest))
    ensures OptionalsOf(d, at) == (modrm + sib, next) && Follow(d, next, rest)
  {
    var a := NextOptional(d, at, modrm, [OptionalDraws(sib)] + rest);
    next := NextOptional(d, a, sib, rest);
  }

  lemma StructuredParted(d: Draws, body: seq<byte>, e: nat, tail: seq<byte>)
    requires BodyOf(d, 0) == (body, e) && TailOf(d, e, INSN_MAXLEN - |body|) == tail
    ensures StructuredOf(d, 0).0 == body + tail
  {
  }

  lemma TailComesOut(d: Draws, at: nat, s: seq<byte>, room: int, rest: seq<seq<Long>>)
    requires |s| <= 5 && |s| <= room && Follow(d, at, [[Padded(s), Low(|s|)]] + rest)
    ensures TailOf(d, at, room) == s
  {
    var l := [Padded(s), Low(|s|)];
    Next(d, at, l, rest);
    assert d(at) == l[0] && d(at + 1) == l[1];
    TailParted(d, at, s, room, Padded(s));
  }

  lemma TailParted(d: Draws, at: nat, s: seq<byte>, room: int, long: Long)
    requires |s| <= 5 && |s| <= room && d(at) == long && d(at + 1)[0] == |s| && long[..|s|] == s
    ensures TailOf(d, at, room) == s
  {
  }

  /** Every slot of 15 bytes with every length from 1 to 15. */
  lemma HavocComesOut(slot: InputSlot) returns (d: Draws)
    requires 1 <= slot.len && SlotInBounds(slot)
    ensures HavocOf(d, 0) == slot
  {
    d := Listed([Low(slot.len - 1), slot.raw[..8], slot.raw[8..] + [0]]);
    assert d(0)[0] == slot.len - 1 && d(1) + d(2)[..7] == slot.raw;
  }
}
