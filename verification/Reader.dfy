/** The reading loop of mish2jsonl, over a file of which `stream` is still unread. */
module Reader {
  import opened Common
  import opened Cohorts
  import opened JsonLines
  import opened Wire

  class CohortReader {
    var stream: seq<byte>
    var finished: bool
    var outside: bool  // an access has left its memory; the source's behaviour is undefined from there on
    // the static `results`, which keeps its values from one cohort to the next
    var nworkers: nat
    var input: InputSlot
    var outputs: seq<WorkerOutput>

    ghost predicate Valid()
      reads this
    {
      nworkers < U32_MOD && |input.raw| == INSN_MAXLEN && (nworkers >= OVERFLOWING_COUNT ==> outside)
    }

    constructor (stream: seq<byte>)
      ensures Valid() && this.stream == stream && !finished && !outside
    {
      this.stream := stream;
      finished, outside := false, false;
      nworkers := 0;
      input := InputSlot(0, [0, 0, 0, 0, 0, 0, 0, 0, 0, 0, 0, 0, 0, 0, 0]);
      outputs := [];
    }

    /** `fread` of `times` items of `size` bytes: what is left of the old buffer stays behind a short read; only complete
        items are counted. */
    method Fread(buffer: seq<byte>, size: nat, times: nat) returns (now: seq<byte>, rd: nat)
      requires size > 0 && |buffer| == size * times
      modifies this`stream
      ensures var n := Min(|buffer|, |old(stream)|);
              && now == old(stream)[..n] + buffer[n..]
              && stream == old(stream)[n..]
              && (rd == 0 <==> n < size)
    {
      var n := Min(|buffer|, |stream|);
      rd := n / size;
      now, stream := stream[..n] + buffer[n..], stream[n..];
    }

    /** `m_fread`: no complete item where one was wanted ends the parse. */
    method MFread(buffer: seq<byte>, size: nat, times: nat) returns (now: seq<byte>)
      requires size > 0 && |buffer| == size * times
      modifies this`stream, this`finished
      ensures var n := Min(|buffer|, |old(stream)|);
              && now == old(stream)[..n] + buffer[n..]
              && stream == old(stream)[n..]
              && finished == (old(finished) || (|buffer| != 0 && n < size))
    {
      var rd: nat;
      now, rd := Fread(buffer, size, times);
      if rd == 0 && size * times != 0 {
        finished := true;
      }
    }

    /** The bytes of a string into zeroed memory of `length + 1` bytes, the sum being a `uint64_t`. */
    method ReadText(length: nat) returns (s: seq<byte>)
      requires length <= WRAPPING_LENGTH
      modifies this`stream, this`finished, this`outside
      ensures var n := Min(length, |old(stream)|);
              && s == old(stream)[..n] + Zeros(length - n)
              && stream == old(stream)[n..]
              && finished == (old(finished) || (length != 0 && n == 0))
              && outside == (old(outside) || (length == WRAPPING_LENGTH && n > 0))
    {
      var block := (length + 1) % 0x1_0000_0000_0000_0000;
      var before := |stream|;
      s := MFread(Zeros(length), 1, length);
      if before - |stream| > block {
        outside := true;
      }
      ghost var n := Min(length, |old(stream)|);
      assert Zeros(length)[n..] == Zeros(length - n);
    }

    method ReadString(width: nat) returns (s: seq<byte>)
      requires width == 2 || width == 8
      modifies this`stream, this`finished, this`outside
      ensures old(finished) ==> finished
      ensures !old(finished) ==> (finished <==> ParseString(old(stream), width).Short?)
      ensures !finished ==> ParseString(old(stream), width) == Parsed(s, stream)
      ensures |stream| <= |old(stream)| && (!old(finished) && finished ==> stream == [])
      ensures outside == (old(outside) || (width == 8 && OverrunsName(old(stream))))
    {
      Powers();
      var prefix := MFread(Zeros(width), width, 1);
      assert |old(stream)| >= width ==> prefix == old(stream)[..width] && stream == old(stream)[width..];
      s := ReadText(Value(prefix));
    }

    /** The two numbers between the strings; `heap` stands for what `malloc` left in the entry. */
    method ReadNumbers() returns (status: nat, ndecoded: nat)
      modifies this`stream, this`finished
      ensures finished <==> old(finished) || |old(stream)| < 6
      ensures |old(stream)| >= 6 ==>
                && status == Value(old(stream)[..4])
                && ndecoded == Value(old(stream)[4..6])
                && stream == old(stream)[6..]
      ensures |stream| <= |old(stream)| && (|old(stream)| < 6 ==> stream == [])
    {
      var heap: seq<byte> := *;
      if |heap| != 6 {
        heap := Zeros(6);
      }
      var four := MFread(heap[..4], 4, 1);
      var two := MFread(heap[4..], 2, 1);
      if |old(stream)| >= 6 {
        assert four == old(stream)[..4];
        assert old(stream)[4..][..2] == old(stream)[4..6];
        assert two == old(stream)[4..6];
      }
      status, ndecoded := Value(four), Value(two);
    }

    /** One turn of the loop over workers. */
    method ReadOutput() returns (o: WorkerOutput)
      modifies this`stream, this`finished, this`outside
      ensures old(finished) ==> finished
      ensures !old(finished) ==> (finished <==> ParseOutput(old(stream)).Short?)
      ensures !finished ==> ParseOutput(old(stream)) == Parsed(o, stream)
      ensures |stream| <= |old(stream)| && (!old(finished) && finished ==> stream == [])
      ensures outside == (old(outside) || OverrunsName(old(stream)))
    {
      var soname := ReadString(8);
      var status, ndecoded := ReadNumbers();
      var result := ReadString(2);
      o := WorkerOutput(soname, status, ndecoded, result);
    }

    /** The fixed part of a cohort.  A short read of the first field goes unnoticed here, but then the second comes up
        short as well, and the count keeps its highest byte. */
    method ReadHeader()
      requires Valid() && !outside
      modifies this`stream, this`finished, this`nworkers, this`input
      ensures nworkers < U32_MOD && |input.raw| == INSN_MAXLEN
      ensures finished <==> old(finished) || |old(stream)| < 20
      ensures |old(stream)| < 20 ==> stream == []
      ensures |old(stream)| >= 20 ==>
                && nworkers == Value(old(stream)[..4])
                && input == InputSlot(old(stream)[4], old(stream)[5..20])
                && stream == old(stream)[20..]
      ensures nworkers >= OVERFLOWING_COUNT <==> |old(stream)| >= 4 && Value(old(stream)[..4]) >= OVERFLOWING_COUNT
    {
      ghost var was := LittleEndian(nworkers, 4);
      var count, _ := Fread(LittleEndian(nworkers, 4), 4, 1);
      Powers();
      ValueOf(nworkers, 4);
      TopByte(was);
      TopByte(count);
      assert |old(stream)| >= 4 ==> count == old(stream)[..4];
      nworkers := Value(count);
      var slot := MFread([input.len] + input.raw, 16, 1);
      input := InputSlot(slot[0], slot[1..]);
      if |old(stream)| >= 20 {
        assert slot == old(stream)[4..20];
      }
    }

    ghost function Now(): Progress
      reads this
    {
      Progress(finished, stream, outputs, outside)
    }

    /** The turn for worker `i`, its entry stored and the counter stepped. */
    method ReadEntry(ghost from: seq<byte>, ghost dry: bool, ghost was: bool, i: nat)
      requires AnswersSoFar(from, dry, was, i, Now())
      modifies this`stream, this`finished, this`outputs, this`outside
      ensures AnswersSoFar(from, dry, was, i + 1, Now())
    {
      ghost var before := Now();
      var o := ReadOutput();
      outputs := outputs + [o];
      ghost var over := outside;
      if i + 1 >= OVERFLOWING_COUNT {
        outside := true;
      }
      OneMoreAnswer(from, dry, was, i, before, o, over, Now());
    }

    /** The loop over the workers, which runs to its end even when the stream has run dry.  Its counter is an `int`, and is
        incremented once for each worker. */
    method ReadAnswers()
      requires finished ==> stream == []
      modifies this`stream, this`finished, this`outputs, this`outside
      ensures old(finished) ==> finished
      ensures !old(finished) ==> (finished <==> ParseOutputs(old(stream), nworkers).Short?)
      ensures !finished ==> ParseOutputs(old(stream), nworkers) == Parsed(outputs, stream)
      ensures finished ==> stream == []
      ensures outside ==
              (old(outside) || OverrunsOutputs(old(stream), nworkers) || nworkers >= OVERFLOWING_COUNT)
    {
      outputs := [];
      ghost var from, dry, was := stream, finished, outside;
      for i := 0 to nworkers
        invariant AnswersSoFar(from, dry, was, i, Now())
      {
        ReadEntry(from, dry, was, i);
      }
    }

    /** `read_next`: false exactly when no cohort could be taken off the stream.  It leaves its memory exactly when the
        worker count overflows the loop counter or some soname's length wraps with bytes behind it. */
    method ReadNext() returns (more: bool)
      requires Valid() && !finished && !outside
      modifies this
      ensures Valid() && more == !finished
      ensures finished <==> ParseCohort(old(stream)).Short?
      ensures !finished ==> ParseCohort(old(stream)) == Parsed(Cohort(nworkers, input, outputs), stream)
      ensures outside <==> OverrunsCohort(old(stream))
    {
      ReadHeader();
      ghost var whole := ParseOutputs(stream, nworkers);
      ghost var body := stream;
      ReadAnswers();
      if |old(stream)| < 20 {
        NothingOverruns(nworkers);
      }
      CohortFrom(old(stream), whole);
      more := !finished;
    }

    /** The loop of `m_print_results_jsonl`.  If every cohort on the stream can be printed within the buffers, and read
        without leaving memory, all of them are printed, in order; if not, `inside` is false, and the lines are those in
        front of the first cohort that cannot. */
    method PrintResults() returns (lines: seq<Line>, inside: bool)
      requires Valid() && !outside
      modifies this
      ensures inside <==> AllPrintable(ParseAll(old(stream))) && !Overruns(old(stream))
      ensures |lines| <= |ParseAll(old(stream))| && lines == LinesOf(ParseAll(old(stream))[..|lines|])
      ensures inside ==> |lines| == |ParseAll(old(stream))|
      ensures !inside ==>
                || OverrunsCohort(Behind(old(stream), |lines|))
                || (|lines| < |ParseAll(old(stream))| && !Printable(ParseAll(old(stream))[|lines|]))
    {
      finished := false;
      lines, inside := [], true;
      ghost var from, all, n := stream, ParseAll(stream), 0;
      var more := ReadNext();
      while more && !outside
        invariant Valid() && more == !finished && inside
        invariant n == |lines| <= |all| && lines == LinesOf(all[..n]) && AllPrintable(all[..n])
        invariant outside <==> OverrunsCohort(Behind(from, n))
        invariant finished ==> n == |all|
        invariant !finished ==> n < |all| && all[n..] == [Cohort(nworkers, input, outputs)] + ParseAll(stream)
        invariant !finished ==> stream == Behind(from, n + 1)
        invariant Overruns(from) <==> outside || (!finished && Overruns(stream))
        decreases !finished, |stream|
      {
        var cohort := Cohort(nworkers, input, outputs);
        LinesSnoc(all, n, cohort, ParseAll(stream));
        var line := PrintCohort(cohort);
        if line.None? {
          assert !Printable(all[n]);
          return lines, false;
        }
        ghost var before := stream;
        lines, n := lines + [line.value], n + 1;
        more := ReadNext();
        if !finished {
          BehindOne(from, n);
        }
      }
      if outside {
        return lines, false;
      }
      assert all[..n] == all;
    }
  }

  lemma BehindOne(b: seq<byte>, n: nat)
    requires n < |ParseAll(b)|
    ensures ParseCohort(Behind(b, n)).Parsed? && Behind(b, n + 1) == ParseCohort(Behind(b, n)).rest
    decreases n
  {
    if n > 0 {
      BehindOne(ParseCohort(b).rest, n - 1);
    }
  }

  /** The highest of four bytes decides whether the count overflows an `int`. */
  lemma TopByte(s: seq<byte>)
    requires |s| == 4
    ensures Value(s) >= OVERFLOWING_COUNT <==> s[3] >= 128
  {
    assert Value(s) == s[0] + 256 * Value(s[1..]);
    assert Value(s[1..]) == s[1] + 256 * Value(s[1..][1..]);
    assert Value(s[1..][1..]) == s[2] + 256 * Value(s[1..][1..][1..]);
    assert Value(s[1..][1..][1..]) == s[3] + 256 * Value(s[1..][1..][1..][1..]);
    assert s[1..][1..][1..][1..] == [];
  }

  datatype Progress = Progress(finished: bool, stream: seq<byte>, outputs: seq<WorkerOutput>, outside: bool)

  /** Where the loop over the workers is after `i` turns, having started on `from`. */
  ghost predicate AnswersSoFar(from: seq<byte>, dry: bool, was: bool, i: nat, r: Progress) {
    && (dry ==> r.finished && from == [])
    && (!dry ==> (r.finished <==> ParseOutputs(from, i).Short?))
    && (!r.finished ==> ParseOutputs(from, i) == Parsed(r.outputs, r.stream))
    && (r.finished ==> r.stream == [])
    && r.outside == (was || OverrunsOutputs(from, i) || i >= OVERFLOWING_COUNT)
  }

  lemma {:induction false} OneMoreAnswer(from: seq<byte>, dry: bool, was: bool, i: nat, r: Progress, o: WorkerOutput,
                                         over: bool, now: Progress)
    requires AnswersSoFar(from, dry, was, i, r)
    requires r.finished ==> now.finished
    requires !r.finished ==> (now.finished <==> ParseOutput(r.stream).Short?)
    requires !now.finished ==> ParseOutput(r.stream) == Parsed(o, now.stream)
    requires |now.stream| <= |r.stream| && (!r.finished && now.finished ==> now.stream == [])
    requires over == (r.outside || OverrunsName(r.stream))
    requires now.outputs == r.outputs + [o] && now.outside == (over || i + 1 >= OVERFLOWING_COUNT)
    ensures AnswersSoFar(from, dry, was, i + 1, now)
  {
    if r.finished {
      if dry {
        NothingOverruns(i);
        NothingOverruns(i + 1);
      } else {
        StaysShort(from, i);
      }
    } else {
      OneMore(from, i, ParseOutputs(from, i), ParseOutput(r.stream));
    }
  }

  lemma {:induction false} NothingOverruns(n: nat)
    ensures !OverrunsOutputs([], n)
  {
    if n > 1 {
      NothingOverruns(n - 1);
      NothingParses(n - 1);
    }
  }

  lemma {:induction false} NothingParses(n: nat)
    requires n > 0
    ensures ParseOutputs([], n).Short?
  {
    if n > 1 {
      NothingParses(n - 1);
    } else {
      NothingLeft();
    }
  }

  /** A stream that is read without complaint and leads the printer out of its buffers. */
  lemma OverlongInput(raw: seq<byte>)
    requires |raw| == INSN_MAXLEN
    ensures var b := [0, 0, 0, 0] + [16] + raw;
            ParseAll(b) == [Cohort(0, InputSlot(16, raw), [])] && !AllPrintable(ParseAll(b))
  {
    var b := [0, 0, 0, 0] + [16] + raw;
    assert b[..4] == [0, 0, 0, 0] && b[5..20] == raw && b[20..] == [];
    assert Value([0, 0, 0, 0]) == 0 by {
      assert Value([0, 0, 0]) == 0 by {
        assert [0, 0, 0][1..] == [0, 0];
      }
      assert [0, 0, 0, 0][1..] == [0, 0, 0];
    }
    assert ParseOutputs([], 0) == Parsed([], []);
    assert ParseAll([]) == [];
    assert ParseCohort(b) == Parsed(Cohort(0, InputSlot(16, raw), []), []);
    assert !Printable(ParseAll(b)[0]);
  }

  lemma {:induction false} AllOnes(n: nat)
    ensures Value(seq(n, i => 255)) == Power256(n) - 1
  {
    if n > 0 {
      AllOnes(n - 1);
      assert seq(n, i => 255)[1..] == seq(n - 1, i => 255);
    }
  }

  /** A stream that gives no cohort, and on the way leads the reader out of an empty block: the soname's length is the one
      that wraps. */
  lemma WrappingName(len: byte, raw: seq<byte>, data: seq<byte>)
    requires |raw| == INSN_MAXLEN && 0 < |data| < WRAPPING_LENGTH
    ensures var b := LittleEndian(1, 4) + [len] + raw + (seq(8, i => 255) + data);
            ParseAll(b) == [] && Overruns(b)
  {
    var prefix: seq<byte> := seq(8, i => 255);
    var b := LittleEndian(1, 4) + [len] + raw + (prefix + data);
    Powers();
    ValueOf(1, 4);
    AllOnes(8);
    assert b[..4] == LittleEndian(1, 4);
    assert b[20..] == prefix + data && b[20..][..8] == prefix && b[20..][8..] == data;
    assert ParseOutputs(b[20..], 0) == Parsed([], b[20..]);
    assert ParseString(b[20..], 8).rest == [];
    assert ParseOutputs(b[20..], 1).Short?;
    assert OverrunsOutputs(b[20..], 1);
  }

  /** Four bytes are enough to make the loop counter overflow. */
  lemma OverflowingCount()
    ensures var b := LittleEndian(OVERFLOWING_COUNT, 4); ParseAll(b) == [] && Overruns(b)
  {
    Powers();
    ValueOf(OVERFLOWING_COUNT, 4);
    var b := LittleEndian(OVERFLOWING_COUNT, 4);
    assert b[..4] == b;
  }

  /** What the writer emits can always be read and printed within memory, as long as the slots are those of the mutators. */
  lemma WrittenPrintable(sonames: seq<seq<byte>>, rs: seq<Record>)
    requires AllFit(sonames, rs)
    ensures AllPrintable(ParseAll(EncodeAll(sonames, rs))) && !Overruns(EncodeAll(sonames, rs))
  {
    CohortsStayInside(sonames, rs, []);
    assert EncodeAll(sonames, rs) + [] == EncodeAll(sonames, rs);
    RoundTrip(sonames, rs);
    forall i | 0 <= i < |rs|
      ensures Printable(SeenAll(sonames, rs)[i])
    {
      assert Fits(sonames, rs[i]);
    }
  }

  lemma OneMore(b: seq<byte>, i: nat, before: Parsed<seq<WorkerOutput>>, one: Parsed<WorkerOutput>)
    requires before == ParseOutputs(b, i) && before.Parsed? && one == ParseOutput(before.rest)
    ensures ParseOutputs(b, i + 1) == if one.Short? then Short else Parsed(before.value + [one.value], one.rest)
    ensures OverrunsOutputs(b, i + 1) == (OverrunsOutputs(b, i) || OverrunsName(before.rest))
  {
  }

  lemma StaysShort(b: seq<byte>, i: nat)
    ensures ParseOutputs(b, i).Short? ==>
              ParseOutputs(b, i + 1).Short? && OverrunsOutputs(b, i + 1) == OverrunsOutputs(b, i)
  {
  }

  lemma CohortFrom(b: seq<byte>, outputs: Parsed<seq<WorkerOutput>>)
    requires |b| >= 20 ==> outputs == ParseOutputs(b[20..], Value(b[..4]))
    ensures ParseCohort(b).Short? <==> |b| < 20 || outputs.Short?
    ensures ParseCohort(b).Parsed? ==>
              ParseCohort(b) == Parsed(Cohort(Value(b[..4]), InputSlot(b[4], b[5..20]), outputs.value), outputs.rest)
  {
  }
}
