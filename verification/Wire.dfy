/** The binary stream between the fuzzer and its readers: what the writer emits, and the reader of mish2jsonl. */
module Wire {
  import opened Common
  import opened Cohorts

  // ----- integers as the little-endian host stores them -----

  function Digit(v: nat, i: nat): byte {
    if i == 0 then v % 256 else Digit(v / 256, i - 1)
  }

  function LittleEndian(v: nat, width: nat): (s: seq<byte>)
    ensures |s| == width
  {
    seq(width, (i: nat) => Digit(v, i))
  }

  function Value(s: seq<byte>): (v: nat)
    ensures v < Power256(|s|)
  {
    if s == [] then 0 else s[0] + 256 * Value(s[1..])
  }

  lemma {:induction false} ValueOf(v: nat, width: nat)
    requires v < Power256(width)
    ensures Value(LittleEndian(v, width)) == v
  {
    if width > 0 {
      ValueOf(v / 256, width - 1);
      assert LittleEndian(v, width)[1..] == LittleEndian(v / 256, width - 1);
    }
  }

  // ----- the writer -----

  function EncodeOutput(soname: seq<byte>, o: OutputSlot): seq<byte> {
    LittleEndian(|soname|, 8) + soname
    + LittleEndian(StatusCode(o.status), 4) + LittleEndian(o.ndecoded, 2) + LittleEndian(|o.result|, 2) + o.result
  }

  function EncodeOutputs(sonames: seq<seq<byte>>, outputs: seq<OutputSlot>): seq<byte>
    requires |sonames| == |outputs|
  {
    if outputs == [] then []
    else
      var n := |outputs| - 1;
      EncodeOutputs(sonames[..n], outputs[..n]) + EncodeOutput(sonames[n], outputs[n])
  }

  function Encode(sonames: seq<seq<byte>>, r: Record): seq<byte>
    requires |sonames| == |r.outputs|
  {
    LittleEndian(|r.outputs|, 4) + [r.input.len] + r.input.raw + EncodeOutputs(sonames, r.outputs)
  }

  /** Where the fields of an answer lie: eight bytes of length in front of the soname, four of status, two of the number of
      bytes decoded, two of length in front of the text. */
  lemma AnswerLayout(soname: seq<byte>, o: OutputSlot)
    requires FitsOutput(soname, o)
    ensures var b, n := EncodeOutput(soname, o), |soname|;
            && |b| == 16 + n + |o.result|
            && Value(b[..8]) == n && b[8..8 + n] == soname
            && Value(b[8 + n..12 + n]) == StatusCode(o.status) && Value(b[12 + n..14 + n]) == o.ndecoded
            && Value(b[14 + n..16 + n]) == |o.result| && b[16 + n..] == o.result
  {
    var b, n := EncodeOutput(soname, o), |soname|;
    Powers();
    ValueOf(n, 8);
    ValueOf(StatusCode(o.status), 4);
    ValueOf(o.ndecoded, 2);
    ValueOf(|o.result|, 2);
    assert b[..8] == LittleEndian(n, 8) && b[8..8 + n] == soname && b[16 + n..] == o.result;
    assert b[8 + n..12 + n] == LittleEndian(StatusCode(o.status), 4);
    assert b[12 + n..14 + n] == LittleEndian(o.ndecoded, 2) && b[14 + n..16 + n] == LittleEndian(|o.result|, 2);
  }

  /** And those of a cohort: four bytes of worker count, the length byte, the fifteen bytes of the slot, the answers. */
  lemma CohortLayout(sonames: seq<seq<byte>>, r: Record)
    requires Fits(sonames, r)
    ensures var b := Encode(sonames, r);
            && |b| >= 20 && Value(b[..4]) == |r.outputs| && b[4] == r.input.len && b[5..20] == r.input.raw
            && b[20..] == EncodeOutputs(sonames, r.outputs)
  {
    Powers();
    ValueOf(|r.outputs|, 4);
    assert Encode(sonames, r)[..4] == LittleEndian(|r.outputs|, 4);
  }

  /** The one length for which `length + 1` wraps to zero. */
  const WRAPPING_LENGTH: nat := 0xFFFF_FFFF_FFFF_FFFF

  /** The worker count from which on the reader's `int` loop counter overflows. */
  const OVERFLOWING_COUNT: nat := 0x8000_0000

  /** The widths of the fields that are written. */
  predicate FitsOutput(soname: seq<byte>, o: OutputSlot) {
    |soname| < WRAPPING_LENGTH && o.ndecoded < 0x1_0000 && |o.result| <= DEC_MAXLEN
  }

  predicate FitsOutputs(sonames: seq<seq<byte>>, outputs: seq<OutputSlot>) {
    && |sonames| == |outputs|
    && forall j :: 0 <= j < |outputs| ==> FitsOutput(sonames[j], outputs[j])
  }

  predicate Fits(sonames: seq<seq<byte>>, r: Record) {
    |r.outputs| <= MAX_NWORKERS && SlotInBounds(r.input) && FitsOutputs(sonames, r.outputs)
  }

  predicate AllFit(sonames: seq<seq<byte>>, rs: seq<Record>) {
    forall i :: 0 <= i < |rs| ==> Fits(sonames, rs[i])
  }

  function EncodeAll(sonames: seq<seq<byte>>, rs: seq<Record>): seq<byte>
    requires AllFit(sonames, rs)
  {
    if rs == [] then [] else Encode(sonames, rs[0]) + EncodeAll(sonames, rs[1..])
  }

  function SeenAll(sonames: seq<seq<byte>>, rs: seq<Record>): (cs: seq<Cohort>)
    requires AllFit(sonames, rs)
    ensures |cs| == |rs| && forall i :: 0 <= i < |rs| ==> cs[i] == Seen(sonames, rs[i])
  {
    if rs == [] then [] else [Seen(sonames, rs[0])] + SeenAll(sonames, rs[1..])
  }

  // ----- the reader, on what is left of the stream -----

  /** `Short` is the case in which some `m_fread` came back empty-handed and raised `m_finished_parsing`. */
  datatype Parsed<+T> = Short | Parsed(value: T, rest: seq<byte>)

  function Zeros(n: nat): (z: seq<byte>)
    ensures |z| == n
  {
    seq(n, i => 0)
  }

  /** A length-prefixed string.  A partial string passes, filled up with the zeros of `calloc`. */
  function ParseString(b: seq<byte>, width: nat): Parsed<seq<byte>> {
    if |b| < width then Short
    else
      var len, tail := Value(b[..width]), b[width..];
      var n := Min(len, |tail|);
      if len != 0 && n == 0 then Short else Parsed(tail[..n] + Zeros(len - n), tail[n..])
  }

  function ParseOutput(b: seq<byte>): (p: Parsed<WorkerOutput>)
    ensures p.Parsed? ==> |p.rest| <= |b|
  {
    var so := ParseString(b, 8);
    if so.Short? || |so.rest| < 6 then Short
    else
      var result := ParseString(so.rest[6..], 2);
      if result.Short? then Short
      else Parsed(WorkerOutput(so.value, Value(so.rest[..4]), Value(so.rest[4..6]), result.value), result.rest)
  }

  function ParseOutputs(b: seq<byte>, n: nat): (p: Parsed<seq<WorkerOutput>>)
    ensures p.Parsed? ==> |p.rest| <= |b| && |p.value| == n
  {
    if n == 0 then Parsed([], b)
    else
      var before := ParseOutputs(b, n - 1);
      if before.Short? then Short
      else
        var last := ParseOutput(before.rest);
        if last.Short? then Short else Parsed(before.value + [last.value], last.rest)
  }

  function ParseCohort(b: seq<byte>): (p: Parsed<Cohort>)
    ensures p.Parsed? ==> |p.rest| < |b| && |p.value.input.raw| == INSN_MAXLEN
  {
    if |b| < 5 + INSN_MAXLEN then Short
    else
      var outputs := ParseOutputs(b[20..], Value(b[..4]));
      if outputs.Short? then Short
      else Parsed(Cohort(Value(b[..4]), InputSlot(b[4], b[5..20]), outputs.value), outputs.rest)
  }

  function ParseAll(b: seq<byte>): seq<Cohort>
    decreases |b|
  {
    match ParseCohort(b)
    case Short => []
    case Parsed(cohort, rest) => [cohort] + ParseAll(rest)
  }

  // ----- where the reader leaves its memory -----

  /** For this soname the reader allocates an empty block and reads into it what is left of the stream. */
  predicate OverrunsName(b: seq<byte>) {
    |b| > 8 && Value(b[..8]) == WRAPPING_LENGTH
  }

  predicate OverrunsOutputs(b: seq<byte>, n: nat) {
    n > 0 &&
    (OverrunsOutputs(b, n - 1) ||
     (ParseOutputs(b, n - 1).Parsed? && OverrunsName(ParseOutputs(b, n - 1).rest)))
  }

  /** Reading one cohort leaves the reader's memory, by an overflowing counter or by a soname. */
  predicate OverrunsCohort(b: seq<byte>) {
    || (|b| >= 4 && Value(b[..4]) >= OVERFLOWING_COUNT)
    || (|b| >= 20 && OverrunsOutputs(b[20..], Value(b[..4])))
  }

  predicate Overruns(b: seq<byte>)
    decreases |b|
  {
    OverrunsCohort(b) || (ParseCohort(b).Parsed? && Overruns(ParseCohort(b).rest))
  }

  /** What is left of the stream behind `n` cohorts. */
  function Behind(b: seq<byte>, n: nat): seq<byte>
    requires n <= |ParseAll(b)|
    decreases n
  {
    if n == 0 then b else Behind(ParseCohort(b).rest, n - 1)
  }

  // ----- whole records -----

  lemma {:induction false} WholeString(s: seq<byte>, width: nat, tail: seq<byte>)
    requires |s| < Power256(width)
    ensures ParseString(LittleEndian(|s|, width) + s + tail, width) == Parsed(s, tail)
  {
    var b := LittleEndian(|s|, width) + s + tail;
    ValueOf(|s|, width);
    assert b[..width] == LittleEndian(|s|, width);
    assert b[width..] == s + tail;
    assert (s + tail)[..|s|] + Zeros(0) == s;
    assert (s + tail)[|s|..] == tail;
  }

  lemma {:induction false} Powers()
    ensures Power256(2) == 0x1_0000 && Power256(4) == 0x1_0000_0000 && Power256(8) == 0x1_0000_0000_0000_0000
  {
    assert Power256(3) == 256 * Power256(2);
    assert Power256(5) == 256 * Power256(4);
    assert Power256(7) == 256 * 256 * Power256(5);
  }

  /** The two fixed fields behind the soname. */
  lemma {:induction false} MiddleFields(o: OutputSlot, tail: seq<byte>)
    requires o.ndecoded < 0x1_0000
    ensures var b := LittleEndian(StatusCode(o.status), 4) + LittleEndian(o.ndecoded, 2) + tail;
            Value(b[..4]) == StatusCode(o.status) && Value(b[4..6]) == o.ndecoded && b[6..] == tail
  {
    Powers();
    ValueOf(StatusCode(o.status), 4);
    ValueOf(o.ndecoded, 2);
    var b := LittleEndian(StatusCode(o.status), 4) + LittleEndian(o.ndecoded, 2) + tail;
    assert b[..4] == LittleEndian(StatusCode(o.status), 4);
    assert b[4..6] == LittleEndian(o.ndecoded, 2);
  }

  lemma {:induction false} WholeOutput(soname: seq<byte>, o: OutputSlot, tail: seq<byte>)
    requires FitsOutput(soname, o)
    ensures ParseOutput(EncodeOutput(soname, o) + tail) == Parsed(SeenOutput(soname, o), tail)
  {
    Powers();
    var fields := LittleEndian(StatusCode(o.status), 4) + LittleEndian(o.ndecoded, 2);
    var result := LittleEndian(|o.result|, 2) + o.result + tail;
    assert EncodeOutput(soname, o) + tail == LittleEndian(|soname|, 8) + soname + (fields + result);
    WholeString(soname, 8, fields + result);
    MiddleFields(o, result);
    WholeString(o.result, 2, tail);
  }

  lemma {:induction false} Regroup(a: seq<byte>, b: seq<byte>, c: seq<byte>)
    ensures (a + b) + c == a + (b + c)
  {
  }

  lemma {:induction false} WholeOutputs(sonames: seq<seq<byte>>, outputs: seq<OutputSlot>, tail: seq<byte>)
    requires FitsOutputs(sonames, outputs)
    ensures ParseOutputs(EncodeOutputs(sonames, outputs) + tail, |outputs|) == Parsed(SeenOutputs(sonames, outputs), tail)
  {
    if outputs == [] {
      assert [] + tail == tail;
    } else {
      var n := |outputs| - 1;
      var last := EncodeOutput(sonames[n], outputs[n]);
      Regroup(EncodeOutputs(sonames[..n], outputs[..n]), last, tail);
      WholeOutputs(sonames[..n], outputs[..n], last + tail);
      WholeOutput(sonames[n], outputs[n], tail);
    }
  }

  /** The fixed part of a cohort. */
  lemma {:induction false} Header(sonames: seq<seq<byte>>, r: Record, tail: seq<byte>)
    requires Fits(sonames, r)
    ensures var b := LittleEndian(|r.outputs|, 4) + [r.input.len] + r.input.raw + tail;
            |b| >= 20 && Value(b[..4]) == |r.outputs| && InputSlot(b[4], b[5..20]) == r.input && b[20..] == tail
  {
    Powers();
    ValueOf(|r.outputs|, 4);
    var b := LittleEndian(|r.outputs|, 4) + [r.input.len] + r.input.raw + tail;
    assert b[..4] == LittleEndian(|r.outputs|, 4);
    assert b[5..20] == r.input.raw;
  }

  lemma {:induction false} WholeCohort(sonames: seq<seq<byte>>, r: Record, tail: seq<byte>)
    requires Fits(sonames, r)
    ensures ParseCohort(Encode(sonames, r) + tail) == Parsed(Seen(sonames, r), tail)
  {
    var outputs := EncodeOutputs(sonames, r.outputs);
    assert Encode(sonames, r) + tail == LittleEndian(|r.outputs|, 4) + [r.input.len] + r.input.raw + (outputs + tail);
    Header(sonames, r, outputs + tail);
    WholeOutputs(sonames, r.outputs, tail);
  }

  lemma {:induction false} WholeCohorts(sonames: seq<seq<byte>>, rs: seq<Record>, tail: seq<byte>)
    requires AllFit(sonames, rs)
    ensures ParseAll(EncodeAll(sonames, rs) + tail) == SeenAll(sonames, rs) + ParseAll(tail)
  {
    if rs == [] {
      assert [] + tail == tail;
    } else {
      var others := EncodeAll(sonames, rs[1..]);
      assert EncodeAll(sonames, rs) + tail == Encode(sonames, rs[0]) + (others + tail);
      WholeCohort(sonames, rs[0], others + tail);
      WholeCohorts(sonames, rs[1..], tail);
    }
  }

  /** Reading any concatenation of complete cohorts gives them all back in order, and then stops. */
  lemma {:induction false} RoundTrip(sonames: seq<seq<byte>>, rs: seq<Record>)
    requires AllFit(sonames, rs)
    ensures ParseAll(EncodeAll(sonames, rs)) == SeenAll(sonames, rs)
  {
    WholeCohorts(sonames, rs, []);
    assert EncodeAll(sonames, rs) + [] == EncodeAll(sonames, rs);
  }

  // ----- cut records -----

  function CutOutput(o: WorkerOutput, missing: nat): WorkerOutput
    requires missing <= |o.result|
  {
    o.(result := o.result[..|o.result| - missing] + Zeros(missing))
  }

  /** Two ways to cut one stream: where one cut lies relative to the other. */
  lemma {:induction false} Overlap(b: seq<byte>, rest: seq<byte>, head: seq<byte>, others: seq<byte>)
      returns (mid: seq<byte>)
    requires b + rest == head + others
    ensures |b| < |head| ==> b + mid == head && mid + others == rest && mid != []
    ensures |b| >= |head| ==> head + mid == b && mid + rest == others
  {
    var all := b + rest;
    assert all[..|b|] == b && all[|b|..] == rest && all[..|head|] == head && all[|head|..] == others;
    if |b| < |head| {
      mid := head[|b|..];
      assert b == head[..|b|];
      assert mid + others == all[|b|..];
    } else {
      mid := b[|head|..];
      assert head == b[..|head|];
      assert mid + rest == all[|head|..];
    }
  }

  lemma {:induction false} CutString(s: seq<byte>, width: nat, b: seq<byte>, rest: seq<byte>)
    requires |s| < Power256(width) && b + rest == LittleEndian(|s|, width) + s && rest != []
    ensures ParseString(b, width)
         == if |rest| < |s| then Parsed(s[..|s| - |rest|] + Zeros(|rest|), []) else Short
  {
    var mid := Overlap(b, rest, LittleEndian(|s|, width), s);
    if |b| >= width {
      ParsePart(LittleEndian(|s|, width), mid, |s|, width);
      assert mid == s[..|s| - |rest|];
    }
  }

  lemma {:induction false} ParsePart(prefix: seq<byte>, part: seq<byte>, len: nat, width: nat)
    requires prefix == LittleEndian(len, width) && len < Power256(width) && |part| < len
    ensures ParseString(prefix + part, width) == if part == [] then Short else Parsed(part + Zeros(len - |part|), [])
  {
    ValueOf(len, width);
    var b := prefix + part;
    assert b[..width] == prefix && b[width..] == part;
    assert part[..|part|] == part && part[|part|..] == [];
  }

  /** Is the break inside the last result text, with at least one byte of the text before it? */
  predicate BreaksText(outputs: seq<OutputSlot>, missing: nat) {
    outputs != [] && missing < |outputs[|outputs| - 1].result|
  }

  function CutLast(seen: seq<WorkerOutput>, missing: nat): seq<WorkerOutput>
    requires seen != [] && missing <= |seen[|seen| - 1].result|
  {
    seen[|seen| - 1 := CutOutput(seen[|seen| - 1], missing)]
  }

  /** What becomes of answers of which the last `missing` bytes are not there. */
  function CutParse(sonames: seq<seq<byte>>, outputs: seq<OutputSlot>, missing: nat): Parsed<seq<WorkerOutput>>
    requires |sonames| == |outputs|
  {
    if BreaksText(outputs, missing) then Parsed(CutLast(SeenOutputs(sonames, outputs), missing), []) else Short
  }

  lemma {:induction false} CutInName(soname: seq<byte>, b: seq<byte>, mid: seq<byte>)
    requires |soname| < WRAPPING_LENGTH && b + mid == LittleEndian(|soname|, 8) + soname && mid != []
    ensures ParseOutput(b).Short?
  {
    Powers();
    CutString(soname, 8, b, mid);
  }

  lemma {:induction false} CutBehindName(soname: seq<byte>, o: OutputSlot, mid: seq<byte>, rest: seq<byte>)
    requires FitsOutput(soname, o) && rest != []
    requires mid + rest == LittleEndian(StatusCode(o.status), 4) + LittleEndian(o.ndecoded, 2)
                           + (LittleEndian(|o.result|, 2) + o.result)
    ensures ParseOutput(LittleEndian(|soname|, 8) + soname + mid)
         == if |rest| < |o.result| then Parsed(CutOutput(SeenOutput(soname, o), |rest|), []) else Short
  {
    Powers();
    WholeString(soname, 8, mid);
    var fields := LittleEndian(StatusCode(o.status), 4) + LittleEndian(o.ndecoded, 2);
    var last := Overlap(mid, rest, fields, LittleEndian(|o.result|, 2) + o.result);
    if |mid| >= 6 {
      MiddleFields(o, last);
      CutString(o.result, 2, last, rest);
    }
  }

  /** A cut answer passes only if the cut is inside the result text, and then nothing is left. */
  lemma {:induction false} CutAnswer(soname: seq<byte>, o: OutputSlot, b: seq<byte>, rest: seq<byte>)
    requires FitsOutput(soname, o) && b + rest == EncodeOutput(soname, o) && rest != []
    ensures ParseOutput(b)
         == if |rest| < |o.result| then Parsed(CutOutput(SeenOutput(soname, o), |rest|), []) else Short
  {
    var name := LittleEndian(|soname|, 8) + soname;
    var fields := LittleEndian(StatusCode(o.status), 4) + LittleEndian(o.ndecoded, 2);
    var result := LittleEndian(|o.result|, 2) + o.result;
    assert EncodeOutput(soname, o) == name + (fields + result);
    var mid := Overlap(b, rest, name, fields + result);
    if |b| < |name| {
      CutInName(soname, b, mid);
    } else {
      CutBehindName(soname, o, mid, rest);
    }
  }

  lemma {:induction false} CutOutputs(sonames: seq<seq<byte>>, outputs: seq<OutputSlot>, b: seq<byte>, rest: seq<byte>)
    requires FitsOutputs(sonames, outputs) && b + rest == EncodeOutputs(sonames, outputs) && rest != []
    ensures ParseOutputs(b, |outputs|) == CutParse(sonames, outputs, |rest|)
    decreases |outputs|
  {
    var n := |outputs| - 1;
    var before, last := EncodeOutputs(sonames[..n], outputs[..n]), EncodeOutput(sonames[n], outputs[n]);
    var mid := Overlap(b, rest, before, last);
    if |b| < |before| {
      CutOutputs(sonames[..n], outputs[..n], b, mid);
      NothingLeft();
    } else {
      WholeOutputs(sonames[..n], outputs[..n], mid);
      CutAnswer(sonames[n], outputs[n], mid, rest);
      if |rest| < |outputs[n].result| {
        CutParseLast(sonames, outputs, |rest|);
      }
    }
  }

  lemma {:induction false} NothingLeft()
    ensures ParseOutput([]).Short?
  {
  }

  lemma {:induction false} CutParseLast(sonames: seq<seq<byte>>, outputs: seq<OutputSlot>, missing: nat)
    requires |sonames| == |outputs| > 0 && missing < |outputs[|outputs| - 1].result|
    ensures var n := |outputs| - 1;
            CutParse(sonames, outputs, missing) ==
            Parsed(SeenOutputs(sonames[..n], outputs[..n]) + [CutOutput(SeenOutput(sonames[n], outputs[n]), missing)], [])
  {
    var n := |outputs| - 1;
    assert CutLast(SeenOutputs(sonames, outputs), missing)
        == SeenOutputs(sonames[..n], outputs[..n]) + [CutOutput(SeenOutput(sonames[n], outputs[n]), missing)];
  }

  lemma {:induction false} OutputsAreLong(sonames: seq<seq<byte>>, outputs: seq<OutputSlot>)
    requires |sonames| == |outputs| && outputs != []
    ensures |EncodeOutputs(sonames, outputs)| > |outputs[|outputs| - 1].result|
  {
  }

  /** A cut cohort passes only if the cut is inside its last result text. */
  lemma {:induction false} CutCohort(sonames: seq<seq<byte>>, r: Record, b: seq<byte>, rest: seq<byte>)
    requires Fits(sonames, r) && b + rest == Encode(sonames, r) && rest != []
    ensures ParseCohort(b)
         == var seen := Seen(sonames, r);
            if BreaksText(r.outputs, |rest|) then Parsed(seen.(outputs := CutLast(seen.outputs, |rest|)), []) else Short
  {
    var outputs := EncodeOutputs(sonames, r.outputs);
    var header := LittleEndian(|r.outputs|, 4) + [r.input.len] + r.input.raw;
    var mid := Overlap(b, rest, header, outputs);
    if |b| >= 20 {
      Header(sonames, r, mid);
      CutOutputs(sonames, r.outputs, mid, rest);
    } else if r.outputs != [] {
      OutputsAreLong(sonames, r.outputs);
    }
  }

  /** A stream that breaks off inside a cohort, `rest` of which never arrives: the complete cohorts are read, and the
      broken one is dropped unless the break is inside its last result text, past that text's first byte; then it is
      taken for complete, its text filled up with zeros. */
  lemma {:induction false} Truncated(sonames: seq<seq<byte>>, rs: seq<Record>, last: Record, b: seq<byte>, rest: seq<byte>)
    requires AllFit(sonames, rs) && Fits(sonames, last) && b + rest == Encode(sonames, last) && rest != []
    ensures ParseAll(EncodeAll(sonames, rs) + b)
         == SeenAll(sonames, rs)
            + var seen := Seen(sonames, last);
              if BreaksText(last.outputs, |rest|) then [seen.(outputs := CutLast(seen.outputs, |rest|))] else []
  {
    WholeCohorts(sonames, rs, b);
    CutCohort(sonames, last, b, rest);
    assert ParseAll([]) == [];
  }

  // ----- written streams stay in memory -----

  lemma {:induction false} WholeName(soname: seq<byte>, o: OutputSlot, tail: seq<byte>)
    requires FitsOutput(soname, o)
    ensures !OverrunsName(EncodeOutput(soname, o) + tail)
  {
    Powers();
    ValueOf(|soname|, 8);
    assert (EncodeOutput(soname, o) + tail)[..8] == LittleEndian(|soname|, 8);
  }

  lemma {:induction false} OutputsStayInside(sonames: seq<seq<byte>>, outputs: seq<OutputSlot>, tail: seq<byte>)
    requires FitsOutputs(sonames, outputs)
    ensures !OverrunsOutputs(EncodeOutputs(sonames, outputs) + tail, |outputs|)
  {
    if outputs != [] {
      var n := |outputs| - 1;
      var last := EncodeOutput(sonames[n], outputs[n]);
      Regroup(EncodeOutputs(sonames[..n], outputs[..n]), last, tail);
      OutputsStayInside(sonames[..n], outputs[..n], last + tail);
      WholeOutputs(sonames[..n], outputs[..n], last + tail);
      WholeName(sonames[n], outputs[n], tail);
    }
  }

  lemma {:induction false} CohortStaysInside(sonames: seq<seq<byte>>, r: Record, tail: seq<byte>)
    requires Fits(sonames, r)
    ensures !OverrunsCohort(Encode(sonames, r) + tail)
  {
    var outputs := EncodeOutputs(sonames, r.outputs);
    assert Encode(sonames, r) + tail == LittleEndian(|r.outputs|, 4) + [r.input.len] + r.input.raw + (outputs + tail);
    Header(sonames, r, outputs + tail);
    OutputsStayInside(sonames, r.outputs, tail);
  }

  /** Whole cohorts never make the reader leave its memory; what follows them decides. */
  lemma {:induction false} CohortsStayInside(sonames: seq<seq<byte>>, rs: seq<Record>, tail: seq<byte>)
    requires AllFit(sonames, rs)
    ensures Overruns(EncodeAll(sonames, rs) + tail) <==> Overruns(tail)
  {
    if rs == [] {
      assert [] + tail == tail;
    } else {
      var others := EncodeAll(sonames, rs[1..]);
      Regroup(Encode(sonames, rs[0]), others, tail);
      WholeCohort(sonames, rs[0], others + tail);
      CohortStaysInside(sonames, rs[0], others + tail);
      CohortsStayInside(sonames, rs[1..], tail);
    }
  }
}
