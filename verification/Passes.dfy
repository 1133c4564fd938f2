/** The analysis passes that find size discrepancies, as filters over the cohorts that mish2jsonl prints. */
module Passes {
  import opened Common
  import opened Cohorts
  import opened Hex
  import opened OnlineFilter

  // ----- the per-record predicates -----

  datatype Filter = FilterAllFailure | FilterNdecodedSame | FilterIncomparable | FindSizeDiscrepancies

  predicate Success(o: WorkerOutput) {
    o.status == 1
  }

  predicate AllFailure(outputs: seq<WorkerOutput>) {
    forall i :: 0 <= i < |outputs| ==> StatusName(outputs[i].status) == "failure"
  }

  predicate NdecodedSame(outputs: seq<WorkerOutput>) {
    forall i :: 0 <= i < |outputs| ==> outputs[i].ndecoded == outputs[0].ndecoded
  }

  /** The sizes of the successful answers. */
  function SuccessSizes(outputs: seq<WorkerOutput>): seq<nat> {
    if outputs == [] then []
    else
      var last := outputs[|outputs| - 1];
      SuccessSizes(outputs[..|outputs| - 1]) + if Success(last) then [last.ndecoded] else []
  }

  /** Ruby's `uniq`. */
  function Uniq(s: seq<nat>): seq<nat> {
    if s == [] then []
    else
      var u := Uniq(s[..|s| - 1]);
      if s[|s| - 1] in u then u else u + [s[|s| - 1]]
  }

  predicate Passing(f: Filter, c: Cohort) {
    match f
    case FilterAllFailure => !AllFailure(c.outputs)
    case FilterNdecodedSame => !NdecodedSame(c.outputs)
    case FilterIncomparable => !(|SuccessSizes(c.outputs)| < 2)
    case FindSizeDiscrepancies => |Uniq(SuccessSizes(c.outputs))| != 1
  }

  // ----- streams -----

  function Select(f: Filter, cs: seq<Cohort>): seq<Cohort> {
    if cs == [] then []
    else
      var last := cs[|cs| - 1];
      Select(f, cs[..|cs| - 1]) + if Passing(f, last) then [last] else []
  }

  /** The lines that pass keep their order, and are those at exactly the places where a line passes. */
  lemma {:induction false} SelectAt(f: Filter, cs: seq<Cohort>) returns (at: seq<nat>)
    ensures Picks(cs, Select(f, cs), at) && forall j: nat :: j < |cs| ==> (j in at <==> Passing(f, cs[j]))
  {
    at := [];
    if cs != [] {
      var pre, last := cs[..|cs| - 1], cs[|cs| - 1];
      at := SelectAt(f, pre);
      PicksSnoc(pre, Select(f, pre), at, last);
      assert cs == pre + [last];
      if Passing(f, last) {
        at := at + [|pre|];
      } else {
        assert Select(f, cs) == Select(f, pre);
      }
    }
  }

  /** The line loop every filter pass has. */
  method RunFilter(f: Filter, lines: seq<Cohort>) returns (kept: seq<Cohort>, count: nat)
    ensures kept == Select(f, lines) && count + |kept| == |lines|
  {
    kept, count := [], 0;
    for i := 0 to |lines|
      invariant kept == Select(f, lines[..i]) && count + |kept| == i
    {
      assert lines[..i + 1][..i] == lines[..i];
      if !Passing(f, lines[i]) {
        count := count + 1;
      } else {
        kept := kept + [lines[i]];
      }
    }
    assert lines[..|lines|] == lines;
  }

  /** The `input` text of a cohort's line, by which dedupe tells inputs apart. */
  function InputText(c: Cohort): seq<byte> {
    HexText(CountedBytes(c.input))
  }

  ghost predicate HasInput(cs: seq<Cohort>, bytes: seq<byte>) {
    exists i :: 0 <= i < |cs| && CountedBytes(cs[i].input) == bytes
  }

  /** Every cohort whose input no earlier cohort has. */
  ghost function Deduped(cs: seq<Cohort>): seq<Cohort> {
    if cs == [] then []
    else
      var last := cs[|cs| - 1];
      Deduped(cs[..|cs| - 1]) + if HasInput(cs[..|cs| - 1], CountedBytes(last.input)) then [] else [last]
  }

  /** The set of texts holds those of the lines read so far. */
  ghost predicate Knows(seen: set<seq<byte>>, cs: seq<Cohort>) {
    forall c: Cohort :: InputText(c) in seen <==> HasInput(cs, CountedBytes(c.input))
  }

  /** The dedupe pass: the first cohort for each input stays, in order. */
  method Dedupe(lines: seq<Cohort>) returns (kept: seq<Cohort>, count: nat)
    ensures kept == Deduped(lines) && count + |kept| == |lines|
    ensures forall i, j :: 0 <= i < j < |kept| ==> CountedBytes(kept[i].input) != CountedBytes(kept[j].input)
    ensures forall c :: c in lines ==> exists k :: 0 <= k < |kept| && CountedBytes(kept[k].input) == CountedBytes(c.input)
  {
    var seen: set<seq<byte>> := {};
    kept, count := [], 0;
    for i := 0 to |lines|
      invariant kept == Deduped(lines[..i]) && count + |kept| == i
      invariant Knows(seen, lines[..i])
    {
      SeenOneMore(lines, i, seen);
      if InputText(lines[i]) in seen {
        count := count + 1;
      } else {
        seen := seen + {InputText(lines[i])};
        kept := kept + [lines[i]];
      }
    }
    assert lines[..|lines|] == lines;
    DedupedOnce(lines);
  }

  /** One more line. */
  lemma SeenOneMore(lines: seq<Cohort>, i: nat, seen: set<seq<byte>>)
    requires i < |lines| && Knows(seen, lines[..i])
    ensures InputText(lines[i]) in seen ==> Knows(seen, lines[..i + 1]) && Deduped(lines[..i + 1]) == Deduped(lines[..i])
    ensures InputText(lines[i]) !in seen ==>
              && Knows(seen + {InputText(lines[i])}, lines[..i + 1])
              && Deduped(lines[..i + 1]) == Deduped(lines[..i]) + [lines[i]]
  {
    assert lines[..i + 1] == lines[..i] + [lines[i]];
    HasInputSnoc(lines[..i], lines[i]);
    DedupedSnoc(lines[..i], lines[i]);
    forall c: Cohort
      ensures InputText(c) == InputText(lines[i]) <==> CountedBytes(c.input) == CountedBytes(lines[i].input)
    {
      HexTextInjective(CountedBytes(c.input), CountedBytes(lines[i].input));
    }
  }

  /** A line stays exactly if no earlier line has the same bytes, and the lines that stay keep their order. */
  lemma {:induction false} DedupedAt(cs: seq<Cohort>) returns (at: seq<nat>)
    ensures Picks(cs, Deduped(cs), at)
    ensures forall j: nat :: j < |cs| ==>
              (j in at <==> forall i: nat :: i < j ==> CountedBytes(cs[i].input) != CountedBytes(cs[j].input))
  {
    at := [];
    if cs != [] {
      var pre, last := cs[..|cs| - 1], cs[|cs| - 1];
      at := DedupedAt(pre);
      PicksSnoc(pre, Deduped(pre), at, last);
      assert cs == pre + [last];
      if HasInput(pre, CountedBytes(last.input)) {
        assert Deduped(cs) == Deduped(pre);
      } else {
        at := at + [|pre|];
        forall i: nat | i < |pre|
          ensures CountedBytes(cs[i].input) != CountedBytes(last.input)
        {
          assert cs[i] == pre[i];
        }
      }
    }
  }

  /** No two lines that stay have the same bytes, and the bytes of every line are those of one that stays. */
  lemma DedupedOnce(cs: seq<Cohort>)
    ensures var kept := Deduped(cs);
            forall i, j :: 0 <= i < j < |kept| ==> CountedBytes(kept[i].input) != CountedBytes(kept[j].input)
    ensures forall c :: c in cs ==>
              exists k :: 0 <= k < |Deduped(cs)| && CountedBytes(Deduped(cs)[k].input) == CountedBytes(c.input)
  {
    var at := DedupedAt(cs);
    forall i, j | 0 <= i < j < |at|
      ensures CountedBytes(Deduped(cs)[i].input) != CountedBytes(Deduped(cs)[j].input)
    {
      assert at[j] in at;
    }
    forall c | c in cs
      ensures exists k :: 0 <= k < |Deduped(cs)| && CountedBytes(Deduped(cs)[k].input) == CountedBytes(c.input)
    {
      var j: nat :| j < |cs| && cs[j] == c;
      var i := FirstOf(cs, CountedBytes(c.input));
      assert forall h: nat :: h < i ==> CountedBytes(cs[h].input) != CountedBytes(cs[i].input) by {
        assert forall h: nat :: h < i ==> cs[..i][h] == cs[h];
      }
      assert i in at;
      var k :| 0 <= k < |at| && at[k] == i;
    }
  }

  lemma HasInputSnoc(cs: seq<Cohort>, c: Cohort)
    ensures forall bytes :: HasInput(cs + [c], bytes) <==> HasInput(cs, bytes) || bytes == CountedBytes(c.input)
  {
    forall bytes
      ensures HasInput(cs + [c], bytes) <==> HasInput(cs, bytes) || bytes == CountedBytes(c.input)
    {
      if HasInput(cs, bytes) {
        var i :| 0 <= i < |cs| && CountedBytes(cs[i].input) == bytes;
        assert (cs + [c])[i] == cs[i];
      }
      assert (cs + [c])[|cs|] == c;
    }
  }

  // ----- dedupe and the filters commute -----

  /** The first cohort with the input of `c` passes the filter. */
  ghost predicate FirstPasses(f: Filter, cs: seq<Cohort>, c: Cohort) {
    exists i :: 0 <= i < |cs| && CountedBytes(cs[i].input) == CountedBytes(c.input)
                && !HasInput(cs[..i], CountedBytes(c.input)) && Passing(f, cs[i])
  }

  /** Whenever a cohort passes the filter, so does the first one with the same input. */
  ghost predicate FirstsDecide(f: Filter, cs: seq<Cohort>) {
    forall c :: c in cs && Passing(f, c) ==> FirstPasses(f, cs, c)
  }

  lemma {:induction false} SelectMembers(f: Filter, cs: seq<Cohort>, c: Cohort)
    ensures c in Select(f, cs) <==> c in cs && Passing(f, c)
  {
    if cs != [] {
      SelectMembers(f, cs[..|cs| - 1], c);
      assert cs == cs[..|cs| - 1] + [cs[|cs| - 1]];
    }
  }

  lemma {:induction false} DedupedMembers(cs: seq<Cohort>, c: Cohort)
    ensures c in Deduped(cs) ==> c in cs
  {
    if cs != [] {
      DedupedMembers(cs[..|cs| - 1], c);
      assert cs == cs[..|cs| - 1] + [cs[|cs| - 1]];
    }
  }

  /** Some cohort with this input passes. */
  ghost predicate SomePasses(f: Filter, cs: seq<Cohort>, bytes: seq<byte>) {
    exists i :: 0 <= i < |cs| && CountedBytes(cs[i].input) == bytes && Passing(f, cs[i])
  }

  lemma SeenSelected(f: Filter, cs: seq<Cohort>, bytes: seq<byte>)
    ensures HasInput(Select(f, cs), bytes) <==> SomePasses(f, cs, bytes)
  {
    if HasInput(Select(f, cs), bytes) {
      var i :| 0 <= i < |Select(f, cs)| && CountedBytes(Select(f, cs)[i].input) == bytes;
      SelectMembers(f, cs, Select(f, cs)[i]);
    }
    if SomePasses(f, cs, bytes) {
      var i :| 0 <= i < |cs| && CountedBytes(cs[i].input) == bytes && Passing(f, cs[i]);
      SelectMembers(f, cs, cs[i]);
    }
  }

  lemma FirstPassesMore(f: Filter, pre: seq<Cohort>, last: Cohort, c: Cohort)
    requires FirstPasses(f, pre, c)
    ensures FirstPasses(f, pre + [last], c)
  {
    var cs := pre + [last];
    var i :| 0 <= i < |pre| && CountedBytes(pre[i].input) == CountedBytes(c.input)
             && !HasInput(pre[..i], CountedBytes(c.input)) && Passing(f, pre[i]);
    assert cs[..i] == pre[..i] && cs[i] == pre[i];
  }

  lemma FirstPassesLess(f: Filter, pre: seq<Cohort>, last: Cohort, c: Cohort)
    requires HasInput(pre, CountedBytes(c.input)) && FirstPasses(f, pre + [last], c)
    ensures FirstPasses(f, pre, c)
  {
    var cs := pre + [last];
    assert cs[..|pre|] == pre;
    var i :| 0 <= i < |cs| && CountedBytes(cs[i].input) == CountedBytes(c.input)
             && !HasInput(cs[..i], CountedBytes(c.input)) && Passing(f, cs[i]);
    assert cs[..i] == pre[..i] && cs[i] == pre[i];
  }

  lemma FirstPassesSnoc(f: Filter, pre: seq<Cohort>, last: Cohort, c: Cohort)
    requires HasInput(pre, CountedBytes(c.input))
    ensures FirstPasses(f, pre + [last], c) <==> FirstPasses(f, pre, c)
  {
    if FirstPasses(f, pre, c) {
      FirstPassesMore(f, pre, last, c);
    } else if FirstPasses(f, pre + [last], c) {
      FirstPassesLess(f, pre, last, c);
    }
  }

  /** What appending one cohort asks. */
  lemma FirstsDecideSnoc(f: Filter, pre: seq<Cohort>, last: Cohort)
    ensures FirstsDecide(f, pre + [last]) <==>
              && FirstsDecide(f, pre)
              && (Passing(f, last) && HasInput(pre, CountedBytes(last.input)) ==> FirstPasses(f, pre, last))
  {
    if FirstsDecide(f, pre + [last]) {
      FirstsDecideLess(f, pre, last);
    }
    if FirstsDecide(f, pre) && (Passing(f, last) && HasInput(pre, CountedBytes(last.input)) ==> FirstPasses(f, pre, last)) {
      FirstsDecideMore(f, pre, last);
    }
  }

  lemma FirstsDecideLess(f: Filter, pre: seq<Cohort>, last: Cohort)
    requires FirstsDecide(f, pre + [last])
    ensures FirstsDecide(f, pre)
    ensures Passing(f, last) && HasInput(pre, CountedBytes(last.input)) ==> FirstPasses(f, pre, last)
  {
    forall c | c in pre && Passing(f, c)
      ensures FirstPasses(f, pre, c)
    {
      assert c in pre + [last] && HasInput(pre, CountedBytes(c.input));
      FirstPassesSnoc(f, pre, last, c);
    }
    assert last in pre + [last];
    if Passing(f, last) {
      LastFirst(f, pre, last);
    }
  }

  lemma FirstsDecideMore(f: Filter, pre: seq<Cohort>, last: Cohort)
    requires FirstsDecide(f, pre)
    requires Passing(f, last) && HasInput(pre, CountedBytes(last.input)) ==> FirstPasses(f, pre, last)
    ensures FirstsDecide(f, pre + [last])
  {
    forall c | c in pre + [last] && Passing(f, c)
      ensures FirstPasses(f, pre + [last], c)
    {
      if c in pre {
        assert HasInput(pre, CountedBytes(c.input));
        FirstPassesSnoc(f, pre, last, c);
      } else {
        LastFirst(f, pre, last);
      }
    }
  }

  lemma LastFirst(f: Filter, pre: seq<Cohort>, last: Cohort)
    requires Passing(f, last)
    ensures FirstPasses(f, pre + [last], last) <==> !HasInput(pre, CountedBytes(last.input)) || FirstPasses(f, pre, last)
  {
    if HasInput(pre, CountedBytes(last.input)) {
      FirstPassesSnoc(f, pre, last, last);
    } else {
      var cs := pre + [last];
      assert cs[..|pre|] == pre && cs[|pre|] == last;
    }
  }

  lemma SelectSnoc(f: Filter, pre: seq<Cohort>, last: Cohort)
    ensures Select(f, pre + [last]) == Select(f, pre) + if Passing(f, last) then [last] else []
  {
    assert (pre + [last])[..|pre|] == pre;
  }

  lemma DedupedSnoc(pre: seq<Cohort>, last: Cohort)
    ensures Deduped(pre + [last]) == Deduped(pre) + if HasInput(pre, CountedBytes(last.input)) then [] else [last]
  {
    assert (pre + [last])[..|pre|] == pre;
  }

  ghost predicate Commutes(f: Filter, cs: seq<Cohort>) {
    Deduped(Select(f, cs)) == Select(f, Deduped(cs))
  }

  lemma DedupedSelectSnoc(f: Filter, pre: seq<Cohort>, last: Cohort)
    ensures Deduped(Select(f, pre + [last]))
         == Deduped(Select(f, pre)) +
            if Passing(f, last) && !SomePasses(f, pre, CountedBytes(last.input)) then [last] else []
  {
    SelectSnoc(f, pre, last);
    if Passing(f, last) {
      SeenSelected(f, pre, CountedBytes(last.input));
      DedupedSnoc(Select(f, pre), last);
    } else {
      assert Select(f, pre) + [] == Select(f, pre);
    }
  }

  lemma SelectDedupedSnoc(f: Filter, pre: seq<Cohort>, last: Cohort)
    ensures Select(f, Deduped(pre + [last]))
         == Select(f, Deduped(pre)) + if Passing(f, last) && !HasInput(pre, CountedBytes(last.input)) then [last] else []
  {
    DedupedSnoc(pre, last);
    if HasInput(pre, CountedBytes(last.input)) {
      assert Deduped(pre) + [] == Deduped(pre);
    } else {
      SelectSnoc(f, Deduped(pre), last);
    }
  }

  /** Moving dedupe across a filter leaves the result as it is exactly when the first cohort for each input speaks for the
      later ones. */
  lemma {:induction false} DedupeCommutesExactly(f: Filter, cs: seq<Cohort>)
    ensures Deduped(Select(f, cs)) == Select(f, Deduped(cs)) <==> FirstsDecide(f, cs)
  {
    if cs != [] {
      var pre, last := cs[..|cs| - 1], cs[|cs| - 1];
      assert cs == pre + [last];
      DedupeCommutesExactly(f, pre);
      FirstsDecideSnoc(f, pre, last);
      CommutesSnoc(f, pre, last);
    }
  }

  /** The induction step: the last cohort is appended on both sides or on neither, unless it is the first to pass without
      being the first of its input. */
  lemma CommutesSnoc(f: Filter, pre: seq<Cohort>, last: Cohort)
    requires Commutes(f, pre) <==> FirstsDecide(f, pre)
    ensures Commutes(f, pre + [last]) <==>
              && FirstsDecide(f, pre)
              && (Passing(f, last) && HasInput(pre, CountedBytes(last.input)) ==> FirstPasses(f, pre, last))
  {
    var a, b := Deduped(Select(f, pre)), Select(f, Deduped(pre));
    DedupedSelectSnoc(f, pre, last);
    SelectDedupedSnoc(f, pre, last);
    PassesWhenFirst(f, pre, last);
    assert a + [] == a && b + [] == b;
    if Passing(f, last) && !SomePasses(f, pre, CountedBytes(last.input)) {
      if HasInput(pre, CountedBytes(last.input)) {
        LastIsNew(f, pre, last);
      } else {
        assert a + [last] == b + [last] <==> a == b by {
          assert (a + [last])[..|a|] == a && (b + [last])[..|b|] == b;
        }
      }
    }
  }

  /** Where firsts decide, an input passes when its first cohort does. */
  lemma PassesWhenFirst(f: Filter, pre: seq<Cohort>, last: Cohort)
    ensures FirstPasses(f, pre, last) ==> SomePasses(f, pre, CountedBytes(last.input))
    ensures FirstsDecide(f, pre) && SomePasses(f, pre, CountedBytes(last.input)) ==> FirstPasses(f, pre, last)
    ensures SomePasses(f, pre, CountedBytes(last.input)) ==> HasInput(pre, CountedBytes(last.input))
  {
    if FirstsDecide(f, pre) && SomePasses(f, pre, CountedBytes(last.input)) {
      var i :| 0 <= i < |pre| && CountedBytes(pre[i].input) == CountedBytes(last.input) && Passing(f, pre[i]);
      assert FirstPasses(f, pre, pre[i]);
    }
  }

  lemma LastIsNew(f: Filter, pre: seq<Cohort>, last: Cohort)
    requires !SomePasses(f, pre, CountedBytes(last.input)) && Passing(f, last)
    ensures Deduped(Select(f, pre)) + [last] != Select(f, Deduped(pre))
  {
    SelectMembers(f, Deduped(pre), last);
    DedupedMembers(pre, last);
    assert last in Deduped(Select(f, pre)) + [last];
  }

  /** Where the condition fails, dedupe first loses what dedupe last would keep. */
  lemma LostByDedupe(f: Filter, bad: Cohort, good: Cohort)
    requires CountedBytes(bad.input) == CountedBytes(good.input) && !Passing(f, bad) && Passing(f, good)
    ensures Deduped(Select(f, [bad] + [good])) == [good] && Select(f, Deduped([bad] + [good])) == []
  {
    SelectSnoc(f, [], bad);
    SelectSnoc(f, [bad], good);
    DedupedSnoc([], bad);
    DedupedSnoc([bad], good);
    DedupedSnoc([], good);
    assert [] + [bad] == [bad] && [] + [good] == [good];
    assert [bad][0] == bad;
  }

  /** Such cohorts exist: an input that fails everywhere when it is first tried, and succeeds later. */
  lemma FailsThenSucceeds(input: InputSlot, so: seq<byte>)
    ensures var bad := Cohort(1, input, [WorkerOutput(so, StatusCode(S_FAILURE), 0, [])]);
            var good := Cohort(1, input, [WorkerOutput(so, StatusCode(S_SUCCESS), 1, [])]);
            Select(FilterAllFailure, Deduped([bad] + [good])) == [] != Deduped(Select(FilterAllFailure, [bad] + [good]))
  {
    var bad := Cohort(1, input, [WorkerOutput(so, StatusCode(S_FAILURE), 0, [])]);
    var good := Cohort(1, input, [WorkerOutput(so, StatusCode(S_SUCCESS), 1, [])]);
    assert StatusName(good.outputs[0].status) == "success" != "failure";
    LostByDedupe(FilterAllFailure, bad, good);
  }

  // ----- what the size passes select -----

  /** Two successful answers disagree on the length. */
  predicate Differ(outputs: seq<WorkerOutput>) {
    exists i, j :: 0 <= i < |outputs| && 0 <= j < |outputs| && Success(outputs[i]) && Success(outputs[j])
                   && outputs[i].ndecoded != outputs[j].ndecoded
  }

  predicate AllEqual(s: seq<nat>) {
    forall i :: 0 <= i < |s| ==> s[i] == s[0]
  }

  lemma {:induction false} UniqMembers(s: seq<nat>, n: nat)
    ensures n in Uniq(s) <==> n in s
  {
    if s != [] {
      UniqMembers(s[..|s| - 1], n);
      assert s == s[..|s| - 1] + [s[|s| - 1]];
    }
  }

  lemma {:induction false} UniqOne(s: seq<nat>)
    ensures |Uniq(s)| == 1 <==> s != [] && AllEqual(s)
    ensures |Uniq(s)| == 0 <==> s == []
  {
    if s != [] {
      var pre, last := s[..|s| - 1], s[|s| - 1];
      UniqOne(pre);
      UniqMembers(pre, last);
      assert s == pre + [last];
      if last in pre {
        var i :| 0 <= i < |pre| && pre[i] == last;
        assert AllEqual(pre) <==> AllEqual(s) by {
          assert forall k :: 0 <= k < |pre| ==> s[k] == pre[k];
        }
      } else if pre != [] {
        assert s[0] == pre[0] && s[|s| - 1] != s[0];
      }
    }
  }

  lemma {:induction false} SizeOf(outputs: seq<WorkerOutput>, n: nat)
    ensures n in SuccessSizes(outputs) <==>
              exists i :: 0 <= i < |outputs| && Success(outputs[i]) && outputs[i].ndecoded == n
  {
    if outputs != [] {
      var pre, last := outputs[..|outputs| - 1], outputs[|outputs| - 1];
      SizeOf(pre, n);
      assert outputs == pre + [last];
      assert forall i :: 0 <= i < |pre| ==> pre[i] == outputs[i];
    }
  }

  lemma DifferBySizes(outputs: seq<WorkerOutput>)
    ensures Differ(outputs) <==> !AllEqual(SuccessSizes(outputs))
  {
    var sizes := SuccessSizes(outputs);
    if Differ(outputs) {
      var i, j :| 0 <= i < |outputs| && 0 <= j < |outputs| && Success(outputs[i]) && Success(outputs[j])
                  && outputs[i].ndecoded != outputs[j].ndecoded;
      SizeOf(outputs, outputs[i].ndecoded);
      SizeOf(outputs, outputs[j].ndecoded);
    }
    if !AllEqual(sizes) {
      var k :| 0 <= k < |sizes| && sizes[k] != sizes[0];
      SizeOf(outputs, sizes[k]);
      SizeOf(outputs, sizes[0]);
    }
  }

  /** filter-all-failure keeps the cohorts in which some worker answers anything but failure, the code of `S_FAILURE`. */
  lemma FilterAllFailureKeeps(c: Cohort)
    ensures Passing(FilterAllFailure, c) <==> exists i :: 0 <= i < |c.outputs| && c.outputs[i].status != 2
  {
    assert "none" != "failure" && "success" != "failure" && "partial" != "failure" && "unknown" != "failure";
    assert |"crash"| != |"failure"|;
  }

  /** filter-ndecoded-same keeps the cohorts in which some two workers, successful or not, report different lengths. */
  lemma FilterNdecodedSameKeeps(c: Cohort)
    ensures Passing(FilterNdecodedSame, c) <==>
              exists i, j :: 0 <= i < j < |c.outputs| && c.outputs[i].ndecoded != c.outputs[j].ndecoded
  {
    if Passing(FilterNdecodedSame, c) {
      var j :| 0 <= j < |c.outputs| && c.outputs[j].ndecoded != c.outputs[0].ndecoded;
      assert 0 < j;
    }
  }

  lemma {:induction false} SizesCount(outputs: seq<WorkerOutput>)
    ensures |SuccessSizes(outputs)| == |set i | 0 <= i < |outputs| && outputs[i].status == 1|
  {
    if outputs != [] {
      var n := |outputs| - 1;
      var pre := outputs[..n];
      SizesCount(pre);
      var old', new' := set i | 0 <= i < n && pre[i].status == 1, set i | 0 <= i < |outputs| && outputs[i].status == 1;
      assert new' == old' + if outputs[n].status == 1 then {n} else {};
    }
  }

  /** filter-incomparable keeps the cohorts in which at least two workers succeed. */
  lemma FilterIncomparableKeeps(c: Cohort)
    ensures Passing(FilterIncomparable, c) <==> |set i | 0 <= i < |c.outputs| && c.outputs[i].status == 1| >= 2
  {
    SizesCount(c.outputs);
  }

  /** The find-size-discrepancies pass keeps more than its name says: cohorts without any success pass it too. */
  lemma FindSizeDiscrepanciesKeeps(c: Cohort)
    ensures Passing(FindSizeDiscrepancies, c) <==>
              Differ(c.outputs) || forall i :: 0 <= i < |c.outputs| ==> !Success(c.outputs[i])
  {
    UniqOne(SuccessSizes(c.outputs));
    DifferBySizes(c.outputs);
    if SuccessSizes(c.outputs) != [] {
      SizeOf(c.outputs, SuccessSizes(c.outputs)[0]);
    } else {
      forall i | 0 <= i < |c.outputs|
        ensures !Success(c.outputs[i])
      {
        SizeOf(c.outputs, c.outputs[i].ndecoded);
      }
    }
  }

  predicate PassesAll(fs: seq<Filter>, c: Cohort) {
    forall i :: 0 <= i < |fs| ==> Passing(fs[i], c)
  }

  function SizeFilters(): seq<Filter> {
    [FilterAllFailure, FilterNdecodedSame, FilterIncomparable, FindSizeDiscrepancies]
  }

  /** Together the four passes keep exactly the cohorts with a real disagreement. */
  lemma SizeFiltersKeep(c: Cohort)
    ensures PassesAll(SizeFilters(), c) <==> Differ(c.outputs)
  {
    var fs := SizeFilters();
    FindSizeDiscrepanciesKeeps(c);
    DifferBySizes(c.outputs);
    if Differ(c.outputs) {
      var i, j :| 0 <= i < |c.outputs| && 0 <= j < |c.outputs| && Success(c.outputs[i]) && Success(c.outputs[j])
                  && c.outputs[i].ndecoded != c.outputs[j].ndecoded;
      assert StatusName(c.outputs[i].status) == "success" != "failure";
      assert Passing(fs[0], c) && Passing(fs[1], c) && Passing(fs[2], c) && Passing(fs[3], c);
    }
    if PassesAll(fs, c) {
      assert Passing(fs[2], c) && Passing(fs[3], c);
      SizeOf(c.outputs, SuccessSizes(c.outputs)[0]);
    }
  }

  /** With `-s 1:0 -n` the fuzzer keeps a record exactly when the four passes keep what a reader makes of it. */
  lemma OnlineEqualsOffline(sonames: seq<seq<byte>>, r: Record)
    requires |sonames| == |r.outputs|
    ensures Keeps(Options(1, 0, true), r.outputs) <==> SizesDiffer(r.outputs)
    ensures Keeps(Options(1, 0, true), r.outputs) <==> PassesAll(SizeFilters(), Seen(sonames, r))
  {
    var seen := Seen(sonames, r).outputs;
    SizeFiltersKeep(Seen(sonames, r));
    assert forall i :: 0 <= i < |seen| ==>
             (Success(seen[i]) <==> r.outputs[i].status.S_SUCCESS?) && seen[i].ndecoded == r.outputs[i].ndecoded;
    if SizesDiffer(r.outputs) {
      var i, j :| 0 <= i < |r.outputs| && 0 <= j < |r.outputs| && r.outputs[i].status.S_SUCCESS?
                  && r.outputs[j].status.S_SUCCESS? && r.outputs[i].ndecoded != r.outputs[j].ndecoded;
      assert Success(seen[i]) && Success(seen[j]);
    }
  }

  // ----- pipelines -----

  datatype Stage = Filtering(f: Filter) | Deduping

  ghost function RunStages(stages: seq<Stage>, cs: seq<Cohort>): seq<Cohort> {
    if stages == [] then cs
    else
      RunStages(stages[1..], match stages[0] case Filtering(f) => Select(f, cs) case Deduping => Deduped(cs))
  }

  /** Equal inputs carry equal outputs. */
  ghost predicate Consistent(cs: seq<Cohort>) {
    forall i, j :: 0 <= i < |cs| && 0 <= j < |cs| && CountedBytes(cs[i].input) == CountedBytes(cs[j].input) ==>
      cs[i].outputs == cs[j].outputs
  }

  lemma {:induction false} FirstOf(cs: seq<Cohort>, bytes: seq<byte>) returns (i: nat)
    requires HasInput(cs, bytes)
    ensures i < |cs| && CountedBytes(cs[i].input) == bytes && !HasInput(cs[..i], bytes)
  {
    var j :| 0 <= j < |cs| && CountedBytes(cs[j].input) == bytes;
    if HasInput(cs[..j], bytes) {
      i := FirstOf(cs[..j], bytes);
      assert cs[..j][..i] == cs[..i];
    } else {
      i := j;
    }
  }

  lemma ConsistentCommutes(f: Filter, cs: seq<Cohort>)
    requires Consistent(cs)
    ensures Deduped(Select(f, cs)) == Select(f, Deduped(cs))
  {
    forall j | 0 <= j < |cs| && Passing(f, cs[j])
      ensures FirstPasses(f, cs, cs[j])
    {
      var i := FirstOf(cs, CountedBytes(cs[j].input));
      assert cs[i].outputs == cs[j].outputs;
    }
    DedupeCommutesExactly(f, cs);
  }

  lemma ConsistentSelect(f: Filter, cs: seq<Cohort>)
    requires Consistent(cs)
    ensures Consistent(Select(f, cs))
  {
    var s := Select(f, cs);
    forall i, j | 0 <= i < |s| && 0 <= j < |s| && CountedBytes(s[i].input) == CountedBytes(s[j].input)
      ensures s[i].outputs == s[j].outputs
    {
      SelectMembers(f, cs, s[i]);
      SelectMembers(f, cs, s[j]);
    }
  }

  function AsStages(fs: seq<Filter>): (stages: seq<Stage>)
    ensures |stages| == |fs| && forall i :: 0 <= i < |fs| ==> stages[i] == Filtering(fs[i])
  {
    if fs == [] then [] else [Filtering(fs[0])] + AsStages(fs[1..])
  }

  /** Dedupe in front of filters can move behind them. */
  lemma {:induction false} DedupeLast(fs: seq<Filter>, cs: seq<Cohort>)
    requires Consistent(cs)
    ensures RunStages(AsStages(fs), Deduped(cs)) == Deduped(RunStages(AsStages(fs), cs))
    decreases |fs|
  {
    if fs != [] {
      RunFirst(fs, Deduped(cs));
      RunFirst(fs, cs);
      ConsistentCommutes(fs[0], cs);
      ConsistentSelect(fs[0], cs);
      DedupeLast(fs[1..], Select(fs[0], cs));
    }
  }

  lemma RunHead(stages: seq<Stage>, f: Filter, cs: seq<Cohort>)
    requires stages != [] && stages[0] == Filtering(f)
    ensures RunStages(stages, cs) == RunStages(stages[1..], Select(f, cs))
  {
  }

  lemma PeelStage(fs: seq<Filter>, rest: seq<Stage>)
    requires fs != []
    ensures (AsStages(fs) + rest)[0] == Filtering(fs[0]) && (AsStages(fs) + rest)[1..] == AsStages(fs[1..]) + rest
  {
    Peel(Filtering(fs[0]), AsStages(fs[1..]), rest);
  }

  lemma Peel(first: Stage, others: seq<Stage>, rest: seq<Stage>)
    ensures ([first] + others + rest)[0] == first && ([first] + others + rest)[1..] == others + rest
  {
  }

  /** Stages behind a row of filters see what the filters leave. */
  lemma {:induction false} RunBehind(fs: seq<Filter>, rest: seq<Stage>, cs: seq<Cohort>)
    requires Consistent(cs)
    ensures RunStages(AsStages(fs) + rest, cs) == RunStages(rest, RunStages(AsStages(fs), cs))
    ensures Consistent(RunStages(AsStages(fs), cs))
    decreases |fs|
  {
    if fs == [] {
      assert AsStages(fs) + rest == rest;
    } else {
      PeelStage(fs, rest);
      RunHead(AsStages(fs) + rest, fs[0], cs);
      RunFirst(fs, cs);
      ConsistentSelect(fs[0], cs);
      RunBehind(fs[1..], rest, Select(fs[0], cs));
    }
  }

  /** On consistent streams it does not matter where among the filters dedupe runs: it might as well come last. */
  lemma DedupeAnywhere(before: seq<Filter>, after: seq<Filter>, cs: seq<Cohort>)
    requires Consistent(cs)
    ensures RunStages(AsStages(before) + ([Deduping] + AsStages(after)), cs)
         == Deduped(RunStages(AsStages(before) + AsStages(after), cs))
  {
    var rest := [Deduping] + AsStages(after);
    var left := RunStages(AsStages(before), cs);
    RunBehind(before, rest, cs);
    RunBehind(before, AsStages(after), cs);
    assert rest[1..] == AsStages(after);
    DedupeLast(after, left);
  }

  lemma RunFirst(fs: seq<Filter>, cs: seq<Cohort>)
    requires fs != []
    ensures RunStages(AsStages(fs), cs) == RunStages(AsStages(fs[1..]), Select(fs[0], cs))
  {
    assert AsStages(fs)[1..] == AsStages(fs[1..]);
  }

  lemma PassesAllFirst(fs: seq<Filter>, c: Cohort)
    requires fs != []
    ensures PassesAll(fs, c) <==> Passing(fs[0], c) && PassesAll(fs[1..], c)
  {
    assert fs == [fs[0]] + fs[1..];
  }

  /** A stream of filters looks at every cohort by itself. */
  lemma {:induction false} FiltersSnoc(fs: seq<Filter>, cs: seq<Cohort>, c: Cohort)
    ensures RunStages(AsStages(fs), cs + [c]) == RunStages(AsStages(fs), cs) + if PassesAll(fs, c) then [c] else []
  {
    if fs != [] {
      RunFirst(fs, cs);
      RunFirst(fs, cs + [c]);
      SelectSnoc(fs[0], cs, c);
      PassesAllFirst(fs, c);
      if Passing(fs[0], c) {
        FiltersSnoc(fs[1..], Select(fs[0], cs), c);
      } else {
        assert Select(fs[0], cs) + [] == Select(fs[0], cs);
      }
    }
  }

  lemma {:induction false} FiltersOfNothing(fs: seq<Filter>)
    ensures RunStages(AsStages(fs), []) == []
  {
    if fs != [] {
      assert AsStages(fs)[1..] == AsStages(fs[1..]);
      FiltersOfNothing(fs[1..]);
    }
  }
}
