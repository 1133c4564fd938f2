/** From the mutator's inputs to what an analysis reads: the parts put together. */
module EndToEnd {
  import opened Common
  import opened Cohorts
  import opened JsonDocument
  import opened JsonEscape
  import opened JsonLines
  import opened JsonText
  import opened Wire
  import opened OnlineFilter
  import opened Passes
  import opened Reader
  import opened RingPositions
  import opened RingMachine
  import opened RingRuns

  /** What a reader makes of the fuzzer's stream are the kept records, in order. */
  lemma ReadBack(o: Options, sonames: seq<seq<byte>>, rs: seq<Record>)
    requires AllFit(sonames, rs)
    ensures AllFit(sonames, Kept(o, rs))
    ensures ParseAll(Written(o, sonames, rs)) == SeenAll(sonames, Kept(o, rs))
  {
    WrittenIsKept(o, sonames, rs);
    RoundTrip(sonames, Kept(o, rs));
  }

  lemma SeenAllSnoc(sonames: seq<seq<byte>>, rs: seq<Record>, r: Record)
    requires AllFit(sonames, rs) && AllFit(sonames, rs + [r]) && Fits(sonames, r)
    ensures SeenAll(sonames, rs + [r]) == SeenAll(sonames, rs) + [Seen(sonames, r)]
  {
  }

  lemma {:induction false} KeepingAll(o: Options, rs: seq<Record>)
    requires o.minSuccess <= 0 && forall r :: r in rs ==> |r.outputs| <= o.maxSuccess
    ensures Kept(o, rs) == rs
  {
    if rs != [] {
      KeepingAll(o, rs[..|rs| - 1]);
      assert rs[|rs| - 1] in rs;
      assert rs == rs[..|rs| - 1] + [rs[|rs| - 1]];
    }
  }

  /** The four filters, run over everything, give what the fuzzer keeps with `-s 1:0 -n`. */
  lemma {:induction false} FiltersEqualKept(sonames: seq<seq<byte>>, rs: seq<Record>)
    requires AllFit(sonames, rs)
    ensures AllFit(sonames, Kept(Options(1, 0, true), rs))
    ensures RunStages(AsStages(SizeFilters()), SeenAll(sonames, rs)) == SeenAll(sonames, Kept(Options(1, 0, true), rs))
  {
    var o := Options(1, 0, true);
    KeptFit(o, sonames, rs);
    if rs == [] {
      FiltersOfNothing(SizeFilters());
    } else {
      var pre, last := rs[..|rs| - 1], rs[|rs| - 1];
      assert rs == pre + [last];
      FiltersEqualKept(sonames, pre);
      SeenAllSnoc(sonames, pre, last);
      FiltersSnoc(SizeFilters(), SeenAll(sonames, pre), Seen(sonames, last));
      OnlineEqualsOffline(sonames, last);
      if Keeps(o, last.outputs) {
        SeenAllSnoc(sonames, Kept(o, pre), last);
      } else {
        assert Kept(o, rs) == Kept(o, pre);
      }
    }
  }

  /** The stages of the `size-discrepancies` profile, up to the passes that rewrite inputs. */
  function SizeDiscrepancies(): seq<Stage> {
    AsStages([FilterAllFailure, FilterNdecodedSame, FilterIncomparable])
    + ([Deduping] + AsStages([FindSizeDiscrepancies]))
  }

  lemma ProfileIsFiltersThenDedupe(cs: seq<Cohort>)
    requires Consistent(cs)
    ensures RunStages(SizeDiscrepancies(), cs) == Deduped(RunStages(AsStages(SizeFilters()), cs))
  {
    var before, after := [FilterAllFailure, FilterNdecodedSame, FilterIncomparable], [FindSizeDiscrepancies];
    DedupeAnywhere(before, after, cs);
    assert AsStages(before) + AsStages(after) == AsStages(SizeFilters());
  }

  /** Without a filter on success counts everything is written. */
  lemma UnfilteredStream(all: Options, sonames: seq<seq<byte>>, rs: seq<Record>)
    requires AllFit(sonames, rs) && all.minSuccess <= 0 && all.maxSuccess >= MAX_NWORKERS
    ensures ParseAll(Written(all, sonames, rs)) == SeenAll(sonames, rs)
  {
    forall r | r in rs
      ensures |r.outputs| <= all.maxSuccess
    {
      var i :| 0 <= i < |rs| && rs[i] == r;
      assert Fits(sonames, rs[i]);
    }
    KeepingAll(all, rs);
    ReadBack(all, sonames, rs);
  }

  /** Filtering while fuzzing, then dropping duplicates, equals fuzzing without a filter and running the profile. */
  lemma OnlineEqualsProfile(all: Options, sonames: seq<seq<byte>>, rs: seq<Record>)
    requires AllFit(sonames, rs) && Consistent(SeenAll(sonames, rs))
    requires all.minSuccess <= 0 && all.maxSuccess >= MAX_NWORKERS
    ensures RunStages(SizeDiscrepancies(), ParseAll(Written(all, sonames, rs)))
         == Deduped(ParseAll(Written(Options(1, 0, true), sonames, rs)))
  {
    UnfilteredStream(all, sonames, rs);
    ReadBack(Options(1, 0, true), sonames, rs);
    ProfileIsFiltersThenDedupe(SeenAll(sonames, rs));
    FiltersEqualKept(sonames, rs);
  }

  /** A whole campaign: whatever the interleaving and whoever crashed, a reader of a finished run gets the records of the
      sequential program that pass the filter, and of an unfinished one a prefix of them. */
  lemma CampaignIsSequential(cfg: Config, schedule: seq<Event>, o: Options, sonames: seq<seq<byte>>)
    requires cfg.Valid() && AllFit(sonames, Sequential(cfg, |cfg.inputs|))
    ensures AllFit(sonames, Run(cfg, schedule).log) && AllFit(sonames, Kept(o, Sequential(cfg, |cfg.inputs|)))
    ensures var seen := ParseAll(Written(o, sonames, Run(cfg, schedule).log));
            var want := SeenAll(sonames, Kept(o, Sequential(cfg, |cfg.inputs|)));
            seen <= want && (Run(cfg, schedule).pc.Finished? ==> seen == want)
  {
    RingRefinesSequential(cfg, schedule);
    PrefixReads(o, sonames, Run(cfg, schedule).log, Sequential(cfg, |cfg.inputs|));
  }

  lemma PrefixReads(o: Options, sonames: seq<seq<byte>>, log: seq<Record>, whole: seq<Record>)
    requires AllFit(sonames, whole) && log <= whole
    ensures AllFit(sonames, log) && AllFit(sonames, Kept(o, whole))
    ensures var seen, want := ParseAll(Written(o, sonames, log)), SeenAll(sonames, Kept(o, whole));
            seen <= want && (log == whole ==> seen == want)
  {
    forall i | 0 <= i < |log|
      ensures Fits(sonames, log[i])
    {
      assert log[i] == whole[i];
    }
    ReadBack(o, sonames, log);
    KeptFit(o, sonames, whole);
    KeptPrefix(o, whole, |log|);
    assert log == whole[..|log|];
  }

  lemma {:induction false} KeptPrefix(o: Options, rs: seq<Record>, n: nat)
    requires n <= |rs|
    ensures Kept(o, rs[..n]) <= Kept(o, rs)
  {
    if n == |rs| {
      assert rs[..n] == rs;
    } else {
      KeptPrefix(o, rs[..|rs| - 1], n);
      assert rs[..|rs| - 1][..n] == rs[..n];
    }
  }

  // ----- slots of the mutators, decoders that stay in their slots -----

  function SlotOf(o: Outcome): OutputSlot {
    match o
    case Decoded(out) => out
    case Died(partial) => partial
  }

  /** Every input is a slot as the mutators fill them, and every decoder's answers fit the output slots. */
  ghost predicate OracleFits(cfg: Config, sonames: seq<seq<byte>>) {
    && |sonames| == cfg.nworkers
    && (forall k :: 0 <= k < |cfg.inputs| ==> SlotInBounds(cfg.inputs[k]))
    && (forall w: nat, t: nat, k: nat {:trigger cfg.decode(w, t, cfg.inputs[k])} ::
          w < cfg.nworkers && k < |cfg.inputs| ==> FitsOutput(sonames[w], SlotOf(cfg.decode(w, t, cfg.inputs[k]))))
  }

  lemma {:induction false} SequentialFits(cfg: Config, sonames: seq<seq<byte>>, n: nat)
    requires cfg.Valid() && OracleFits(cfg, sonames) && n <= |cfg.inputs|
    ensures AllFit(sonames, Sequential(cfg, n))
  {
    if n > 0 {
      SequentialFits(cfg, sonames, n - 1);
      var r := SequentialRecord(cfg, n - 1);
      forall w: nat | w < cfg.nworkers
        ensures FitsOutput(sonames[w], r.outputs[w])
      {
        assert FitsOutput(sonames[w], SlotOf(cfg.decode(w, n - 1, cfg.inputs[n - 1])));
      }
      assert Fits(sonames, r);
    }
  }

  /** A whole campaign down to the printed lines: with slots as the mutators fill them and decoders that stay in theirs,
      everything the fuzzer has written can be printed, and the lines are those of the sequential records that pass the
      filter, all of them when main has finished. */
  lemma CampaignPrints(cfg: Config, schedule: seq<Event>, o: Options, sonames: seq<seq<byte>>)
    requires cfg.Valid() && OracleFits(cfg, sonames)
    ensures AllFit(sonames, Run(cfg, schedule).log) && AllFit(sonames, Kept(o, Sequential(cfg, |cfg.inputs|)))
    ensures var cohorts := ParseAll(Written(o, sonames, Run(cfg, schedule).log));
            var want := LinesOf(SeenAll(sonames, Kept(o, Sequential(cfg, |cfg.inputs|))));
            && AllPrintable(cohorts) && !Overruns(Written(o, sonames, Run(cfg, schedule).log))
            && LinesOf(cohorts) <= want
            && (Run(cfg, schedule).pc.Finished? ==> LinesOf(cohorts) == want)
  {
    SequentialFits(cfg, sonames, |cfg.inputs|);
    CampaignIsSequential(cfg, schedule, o, sonames);
    WrittenIsKept(o, sonames, Run(cfg, schedule).log);
    WrittenPrintable(sonames, Kept(o, Run(cfg, schedule).log));
  }

  /** The worker numbers that the heap left in the entries of these cohorts. */
  ghost predicate Heap(workernos: seq<seq<nat>>, cs: seq<Cohort>) {
    |workernos| == |cs| && forall i :: 0 <= i < |cs| ==> |workernos[i]| == |cs[i].outputs|
  }

  lemma SeenNamesPlain(sonames: seq<seq<byte>>, rs: seq<Record>, i: nat)
    requires AllFit(sonames, rs) && i < |rs| && forall w :: 0 <= w < |sonames| ==> Plain(CString(sonames[w]))
    ensures i < |SeenAll(sonames, rs)| && PlainNames(SeenAll(sonames, rs)[i].outputs)
  {
    assert Fits(sonames, rs[i]);
  }

  /** And back: an analysis that reads the printed lines gets, one document for each, the records of the sequential program
      that pass the filter, as long as no soname needs escaping. */
  lemma CampaignReadsBack(cfg: Config, schedule: seq<Event>, o: Options, sonames: seq<seq<byte>>, workernos: seq<seq<nat>>)
    requires cfg.Valid() && OracleFits(cfg, sonames) && Run(cfg, schedule).pc.Finished?
    requires forall w :: 0 <= w < |sonames| ==> Plain(CString(sonames[w]))
    requires AllFit(sonames, Run(cfg, schedule).log)
    requires Heap(workernos, ParseAll(Written(o, sonames, Run(cfg, schedule).log)))
    ensures AllFit(sonames, Kept(o, Sequential(cfg, |cfg.inputs|)))
    ensures ReadAs(SplitLines(FileText(ParseAll(Written(o, sonames, Run(cfg, schedule).log)), workernos)),
                   SeenAll(sonames, Kept(o, Sequential(cfg, |cfg.inputs|))))
  {
    SequentialFits(cfg, sonames, |cfg.inputs|);
    CampaignIsSequential(cfg, schedule, o, sonames);
    var kept := Kept(o, Sequential(cfg, |cfg.inputs|));
    forall i | 0 <= i < |SeenAll(sonames, kept)|
      ensures PlainNames(SeenAll(sonames, kept)[i].outputs)
    {
      SeenNamesPlain(sonames, kept, i);
    }
    FileReadsBack(SeenAll(sonames, kept), workernos);
  }
}
