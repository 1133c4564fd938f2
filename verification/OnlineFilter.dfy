/** `process`: which records the fuzzer keeps, and how it writes them. */
module OnlineFilter {
  import opened Common
  import opened Cohorts
  import opened Wire

  /** The settled values of `-s` and `-n`. */
  datatype Options = Options(minSuccess: int, maxSuccess: int, ndecodedSame: bool)

  function NumSuccess(outputs: seq<OutputSlot>): (n: nat)
    ensures n <= |outputs|
  {
    if outputs == [] then 0
    else NumSuccess(outputs[..|outputs| - 1]) + if outputs[|outputs| - 1].status.S_SUCCESS? then 1 else 0
  }

  /** Two successful answers disagree on the length of the instruction. */
  predicate SizesDiffer(outputs: seq<OutputSlot>) {
    exists i, j :: 0 <= i < |outputs| && 0 <= j < |outputs| && outputs[i].status.S_SUCCESS? && outputs[j].status.S_SUCCESS?
                   && outputs[i].ndecoded != outputs[j].ndecoded
  }

  predicate Keeps(o: Options, outputs: seq<OutputSlot>) {
    o.minSuccess <= NumSuccess(outputs) <= o.maxSuccess || (o.ndecodedSame && SizesDiffer(outputs))
  }

  lemma {:induction false} SuccessesCounted(outputs: seq<OutputSlot>)
    ensures NumSuccess(outputs) == |set i | 0 <= i < |outputs| && outputs[i].status.S_SUCCESS?|
  {
    if outputs != [] {
      var n := |outputs| - 1;
      var pre := outputs[..n];
      SuccessesCounted(pre);
      var old', new' := set i | 0 <= i < n && pre[i].status.S_SUCCESS?,
                        set i | 0 <= i < |outputs| && outputs[i].status.S_SUCCESS?;
      assert new' == old' + if outputs[n].status.S_SUCCESS? then {n} else {};
    }
  }

  /** The filter in full: the number of workers that succeed is within the bounds, or `-n` is given and two that succeed
      disagree on the length. */
  lemma KeepsExactly(o: Options, outputs: seq<OutputSlot>)
    ensures Keeps(o, outputs) <==>
              || o.minSuccess <= |set i | 0 <= i < |outputs| && outputs[i].status.S_SUCCESS?| <= o.maxSuccess
              || (o.ndecodedSame &&
                  exists i, j :: 0 <= i < |outputs| && 0 <= j < |outputs| && outputs[i].status.S_SUCCESS? &&
                                 outputs[j].status.S_SUCCESS? && outputs[i].ndecoded != outputs[j].ndecoded)
  {
    SuccessesCounted(outputs);
  }

  /** What main makes of a bound given on the command line: `-1` stands for all workers. */
  function Settle(bound: int, nworkers: nat): int {
    if bound < 0 then bound + nworkers + 1 else bound
  }

  /** The workers that did not succeed. */
  function NumOther(outputs: seq<OutputSlot>): nat {
    if outputs == [] then 0
    else NumOther(outputs[..|outputs| - 1]) + if outputs[|outputs| - 1].status.S_SUCCESS? then 0 else 1
  }

  lemma {:induction false} SuccessOrOther(outputs: seq<OutputSlot>)
    ensures NumSuccess(outputs) + NumOther(outputs) == |outputs|
  {
    if outputs != [] {
      SuccessOrOther(outputs[..|outputs| - 1]);
    }
  }

  /** A bound that is not negative is meant as it is.  A negative bound `-k` counts from the other end: it lets through
      records that at least `k - 1` workers reject as an upper bound, and as a lower bound records that at most `k - 1`
      workers reject. */
  lemma NegativeBound(bound: int, outputs: seq<OutputSlot>)
    ensures bound >= 0 ==>
              && (NumSuccess(outputs) <= Settle(bound, |outputs|) <==> NumSuccess(outputs) <= bound)
              && (Settle(bound, |outputs|) <= NumSuccess(outputs) <==> bound <= NumSuccess(outputs))
    ensures bound < 0 ==>
              && (NumSuccess(outputs) <= Settle(bound, |outputs|) <==> NumOther(outputs) >= -bound - 1)
              && (Settle(bound, |outputs|) <= NumSuccess(outputs) <==> NumOther(outputs) <= -bound - 1)
  {
    SuccessOrOther(outputs);
  }

  lemma {:induction false} SomeSuccess(outputs: seq<OutputSlot>)
    ensures NumSuccess(outputs) > 0 <==> exists i :: 0 <= i < |outputs| && outputs[i].status.S_SUCCESS?
  {
    if outputs != [] {
      var pre, last := outputs[..|outputs| - 1], outputs[|outputs| - 1];
      SomeSuccess(pre);
      assert outputs == pre + [last];
      assert forall i :: 0 <= i < |pre| ==> pre[i] == outputs[i];
    }
  }

  /** The defaults, 1 to 31, and `-s 1:-1` keep exactly the records that some worker decodes. */
  lemma DefaultKeeps(outputs: seq<OutputSlot>)
    requires |outputs| <= MAX_NWORKERS
    ensures var n := |outputs|;
            && Keeps(Options(Settle(1, n), Settle(MAX_NWORKERS, n), false), outputs)
               == Keeps(Options(Settle(1, n), Settle(-1, n), false), outputs)
            && (Keeps(Options(Settle(1, n), Settle(MAX_NWORKERS, n), false), outputs) <==>
                exists i :: 0 <= i < n && outputs[i].status.S_SUCCESS?)
  {
    SomeSuccess(outputs);
  }

  /** The records that are kept, and the bytes that are written for them. */
  function Kept(o: Options, rs: seq<Record>): (kept: seq<Record>)
    ensures forall r :: r in kept ==> r in rs
  {
    if rs == [] then []
    else
      var last := rs[|rs| - 1];
      Kept(o, rs[..|rs| - 1]) + if Keeps(o, last.outputs) then [last] else []
  }

  /** The kept records stand in their order, and are those at exactly the places where the filter lets a record pass. */
  lemma {:induction false} KeptAt(o: Options, rs: seq<Record>) returns (at: seq<nat>)
    ensures Picks(rs, Kept(o, rs), at) && forall j: nat :: j < |rs| ==> (j in at <==> Keeps(o, rs[j].outputs))
  {
    at := [];
    if rs != [] {
      var pre, last := rs[..|rs| - 1], rs[|rs| - 1];
      at := KeptAt(o, pre);
      PicksSnoc(pre, Kept(o, pre), at, last);
      assert rs == pre + [last];
      if Keeps(o, last.outputs) {
        at := at + [|pre|];
      } else {
        assert Kept(o, rs) == Kept(o, pre);
      }
    }
  }

  function Written(o: Options, sonames: seq<seq<byte>>, rs: seq<Record>): seq<byte>
    requires AllFit(sonames, rs)
  {
    if rs == [] then []
    else
      var last := rs[|rs| - 1];
      Written(o, sonames, rs[..|rs| - 1]) + if Keeps(o, last.outputs) then Encode(sonames, last) else []
  }

  lemma {:induction false} EncodeAllSnoc(sonames: seq<seq<byte>>, rs: seq<Record>, r: Record)
    requires AllFit(sonames, rs + [r]) && AllFit(sonames, rs) && Fits(sonames, r)
    ensures EncodeAll(sonames, rs + [r]) == EncodeAll(sonames, rs) + Encode(sonames, r)
  {
    if rs == [] {
      assert [r][1..] == [];
    } else {
      assert (rs + [r])[1..] == rs[1..] + [r];
      EncodeAllSnoc(sonames, rs[1..], r);
    }
  }

  lemma KeptFit(o: Options, sonames: seq<seq<byte>>, rs: seq<Record>)
    requires AllFit(sonames, rs)
    ensures AllFit(sonames, Kept(o, rs))
  {
    forall i | 0 <= i < |Kept(o, rs)|
      ensures Fits(sonames, Kept(o, rs)[i])
    {
      assert Kept(o, rs)[i] in rs;
    }
  }

  /** The stream the fuzzer writes is the concatenation of the kept cohorts. */
  lemma {:induction false} WrittenIsKept(o: Options, sonames: seq<seq<byte>>, rs: seq<Record>)
    requires AllFit(sonames, rs)
    ensures AllFit(sonames, Kept(o, rs))
    ensures Written(o, sonames, rs) == EncodeAll(sonames, Kept(o, rs))
  {
    KeptFit(o, sonames, rs);
    if rs != [] {
      var n := |rs| - 1;
      WrittenIsKept(o, sonames, rs[..n]);
      if Keeps(o, rs[n].outputs) {
        EncodeAllSnoc(sonames, Kept(o, rs[..n]), rs[n]);
      } else {
        assert Kept(o, rs) == Kept(o, rs[..n]);
      }
    }
  }

  class Writer {
    var filterMinSuccess: int
    var filterMaxSuccess: int
    var filterNdecodedSame: bool
    var stdout: seq<byte>

    function Settings(): Options
      reads this
    {
      Options(filterMinSuccess, filterMaxSuccess, filterNdecodedSame)
    }

    /** The defaults are 1 and 31; main settles the bounds once it knows the number of workers. */
    constructor (minSuccess: int, maxSuccess: int, ndecodedSame: bool, nworkers: nat)
      ensures Settings() == Options(Settle(minSuccess, nworkers), Settle(maxSuccess, nworkers), ndecodedSame)
      ensures stdout == []
    {
      filterMinSuccess, filterMaxSuccess := minSuccess, maxSuccess;
      filterNdecodedSame := ndecodedSame;
      stdout := [];
      new;
      if filterMinSuccess < 0 {
        filterMinSuccess := filterMinSuccess + nworkers + 1;
      }
      if filterMaxSuccess < 0 {
        filterMaxSuccess := filterMaxSuccess + nworkers + 1;
      }
    }

    /** The first half of `process`: one pass over the answers. */
    method Selects(outputs: seq<OutputSlot>) returns (keep: bool)
      ensures keep == Keeps(Settings(), outputs)
      ensures keep <==>
                || filterMinSuccess <= |set i | 0 <= i < |outputs| && outputs[i].status.S_SUCCESS?| <= filterMaxSuccess
                || (filterNdecodedSame &&
                    exists i, j :: 0 <= i < |outputs| && 0 <= j < |outputs| && outputs[i].status.S_SUCCESS? &&
                                   outputs[j].status.S_SUCCESS? && outputs[i].ndecoded != outputs[j].ndecoded)
    {
      var numSuccess, same, lastNdecoded: int := 0, true, -1;
      for j := 0 to |outputs|
        invariant numSuccess == NumSuccess(outputs[..j])
        invariant lastNdecoded == -1 ==> forall i :: 0 <= i < j ==> !outputs[i].status.S_SUCCESS?
        invariant lastNdecoded != -1 ==>
                    exists i :: 0 <= i < j && outputs[i].status.S_SUCCESS? && outputs[i].ndecoded == lastNdecoded
        invariant same <==> forall i :: 0 <= i < j && outputs[i].status.S_SUCCESS? ==> outputs[i].ndecoded == lastNdecoded
      {
        assert outputs[..j + 1][..j] == outputs[..j];
        var output := outputs[j];
        numSuccess := numSuccess + if output.status.S_SUCCESS? then 1 else 0;
        if output.status.S_SUCCESS? {
          if lastNdecoded == -1 {
            lastNdecoded := output.ndecoded;
          } else if lastNdecoded != output.ndecoded {
            same := false;
          }
        }
      }
      assert outputs[..|outputs|] == outputs;
      KeepsExactly(Settings(), outputs);
      keep := (numSuccess >= filterMinSuccess && numSuccess <= filterMaxSuccess) || (filterNdecodedSame && !same);
    }

    /** The number of workers and the whole input slot. */
    method WriteHeader(nworkers: nat, input: InputSlot)
      modifies this`stdout
      ensures stdout == old(stdout) + (LittleEndian(nworkers, 4) + [input.len] + input.raw)
    {
      stdout := stdout + LittleEndian(nworkers, 4);
      stdout := stdout + ([input.len] + input.raw);
    }

    /** One turn of the writing loop: the soname, then the slot up to the end of its text. */
    method WriteAnswer(soname: seq<byte>, output: OutputSlot)
      modifies this`stdout
      ensures stdout == old(stdout) + EncodeOutput(soname, output)
    {
      stdout := stdout + LittleEndian(|soname|, 8);
      stdout := stdout + soname;
      stdout := stdout + (LittleEndian(StatusCode(output.status), 4) + LittleEndian(output.ndecoded, 2)
                          + LittleEndian(|output.result|, 2) + output.result);
    }

    /** `process`. */
    method Process(sonames: seq<seq<byte>>, r: Record)
      requires |sonames| == |r.outputs|
      modifies this`stdout
      ensures stdout == old(stdout) + if Keeps(Settings(), r.outputs) then Encode(sonames, r) else []
      ensures |stdout| > |old(stdout)| <==>
                || filterMinSuccess <= |set i | 0 <= i < |r.outputs| && r.outputs[i].status.S_SUCCESS?| <= filterMaxSuccess
                || (filterNdecodedSame &&
                    exists i, j :: 0 <= i < |r.outputs| && 0 <= j < |r.outputs| && r.outputs[i].status.S_SUCCESS? &&
                                   r.outputs[j].status.S_SUCCESS? && r.outputs[i].ndecoded != r.outputs[j].ndecoded)
    {
      var keep := Selects(r.outputs);
      if !keep {
        return;
      }
      WriteHeader(|r.outputs|, r.input);
      ghost var header := stdout;
      for j := 0 to |r.outputs|
        invariant stdout == header + EncodeOutputs(sonames[..j], r.outputs[..j])
      {
        WriteAnswer(sonames[j], r.outputs[j]);
        assert sonames[..j + 1][..j] == sonames[..j] && r.outputs[..j + 1][..j] == r.outputs[..j];
        Regroup(header, EncodeOutputs(sonames[..j], r.outputs[..j]), EncodeOutput(sonames[j], r.outputs[j]));
      }
      assert sonames[..|r.outputs|] == sonames && r.outputs[..|r.outputs|] == r.outputs;
      Regroup(old(stdout), LittleEndian(|r.outputs|, 4) + [r.input.len] + r.input.raw, EncodeOutputs(sonames, r.outputs));
    }

    /** Main's loop over the slots of the chunks it has waited for. */
    method ProcessAll(sonames: seq<seq<byte>>, rs: seq<Record>)
      requires AllFit(sonames, rs)
      modifies this`stdout
      ensures stdout == old(stdout) + Written(Settings(), sonames, rs)
    {
      for i := 0 to |rs|
        invariant AllFit(sonames, rs[..i]) && stdout == old(stdout) + Written(Settings(), sonames, rs[..i])
      {
        assert Fits(sonames, rs[i]) && rs[..i + 1][..i] == rs[..i];
        ghost var before := Written(Settings(), sonames, rs[..i]);
        Process(sonames, rs[i]);
        Regroup(old(stdout), before, if Keeps(Settings(), rs[i].outputs) then Encode(sonames, rs[i]) else []);
      }
      assert rs[..|rs|] == rs;
    }
  }
}
