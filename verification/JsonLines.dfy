/** The lines mish2jsonl prints: one for each cohort. */
module JsonLines {
  import opened Common
  import opened Cohorts
  import opened Hex
  import opened JsonEscape

  /** The values of one output object; `result` stands between quotes as it is here. */
  datatype LineOutput = LineOutput(status: nat, name: string, ndecoded: nat, workerSo: seq<byte>,
                                   len: nat, result: seq<byte>)

  datatype Line = Line(nworkers: nat, input: seq<byte>, outputs: seq<LineOutput>)

  function LineOutputOf(o: WorkerOutput): LineOutput {
    LineOutput(o.status, StatusName(o.status), o.ndecoded, CString(o.workerso), |o.result|, Escape(CString(o.result)))
  }

  function LineOutputsOf(outputs: seq<WorkerOutput>): (r: seq<LineOutput>)
    ensures |r| == |outputs| && forall i :: 0 <= i < |r| ==> r[i] == LineOutputOf(outputs[i])
  {
    seq(|outputs|, i requires 0 <= i < |outputs| => LineOutputOf(outputs[i]))
  }

  function LineOf(c: Cohort): Line {
    Line(c.nworkers, HexText(CountedBytes(c.input)), LineOutputsOf(c.outputs))
  }

  function LinesOf(cs: seq<Cohort>): (r: seq<Line>)
    ensures |r| == |cs| && forall i :: 0 <= i < |r| ==> r[i] == LineOf(cs[i])
  {
    seq(|cs|, i requires 0 <= i < |cs| => LineOf(cs[i]))
  }

  /** Printing the cohort stays within the buffers. */
  predicate Printable(c: Cohort) {
    c.input.len <= INSN_MAXLEN
  }

  predicate AllPrintable(cs: seq<Cohort>) {
    forall i :: 0 <= i < |cs| ==> Printable(cs[i])
  }

  lemma {:induction false} CStringTerminated(s: seq<byte>)
    ensures CString(s + [0]) == CString(s)
  {
    if s != [] && s[0] != 0 {
      assert (s + [0])[1..] == s[1..] + [0];
      CStringTerminated(s[1..]);
    }
  }

  /** Printing the escaped text as a C string prints all of it. */
  lemma EscapedText(s: seq<byte>, buffer: seq<byte>)
    requires |buffer| > |Escape(s)| && buffer[..|Escape(s)|] == Escape(s) && buffer[|Escape(s)|] == 0
    ensures CString(buffer) == Escape(s)
  {
    EscapedIsPrintable(s);
    var text, found := Escape(s), CString(buffer);
    forall k | 0 <= k < |text|
      ensures buffer[k] != 0
    {
      assert buffer[k] == buffer[..|text|][k];
    }
    forall k | 0 <= k < |found|
      ensures buffer[k] == found[k] != 0
    {
      assert found[k] in found;
    }
    assert |found| == |text|;
  }

  /** One output object; every text ends with the byte `calloc` added. */
  method PrintOutput(o: WorkerOutput) returns (line: LineOutput)
    ensures line == LineOutputOf(o)
  {
    CStringTerminated(o.result);
    var escaped := JsonEscapeString(Some(o.result + [0]));
    EscapedText(CString(o.result), escaped.value[..]);
    line := LineOutput(o.status, StatusName(o.status), o.ndecoded, CString(o.workerso), |o.result|,
                       CString(escaped.value[..]));
  }

  /** `m_cohort_print_json`.  None where the source leaves its buffers. */
  method PrintCohort(c: Cohort) returns (line: Option<Line>)
    requires |c.input.raw| == INSN_MAXLEN
    ensures line.Some? <==> Printable(c)
    ensures line.Some? ==> line.value == LineOf(c)
  {
    var hexbuf := new byte[2 * INSN_MAXLEN + 1](i => 0);
    var inside := PrintHex(c.input, hexbuf);
    if !inside {
      return None;
    }
    var hex := hexbuf[..2 * c.input.len];
    var outputs: seq<LineOutput> := [];
    for i := 0 to |c.outputs|
      invariant |outputs| == i && forall j :: 0 <= j < i ==> outputs[j] == LineOutputOf(c.outputs[j])
    {
      var line := PrintOutput(c.outputs[i]);
      outputs := outputs + [line];
    }
    line := Some(Line(c.nworkers, hex, outputs));
  }

  lemma LinesSnoc(all: seq<Cohort>, n: nat, cohort: Cohort, rest: seq<Cohort>)
    requires n < |all| && all[n..] == [cohort] + rest
    ensures all[n] == cohort && all[n + 1..] == rest
    ensures LinesOf(all[..n + 1]) == LinesOf(all[..n]) + [LineOf(cohort)]
    ensures AllPrintable(all[..n]) && Printable(cohort) ==> AllPrintable(all[..n + 1])
  {
    assert all[n] == all[n..][0];
    assert all[n + 1..] == all[n..][1..];
    assert all[..n + 1] == all[..n] + [cohort];
  }
}
