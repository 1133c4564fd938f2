/** A cohort: one input with every worker's answer, as the readers of the fuzzer's output hold it. */
module Cohorts {
  import opened Common

  /** The `decode_status` enumeration as a number. */
  function StatusCode(s: Status): nat {
    match s
    case S_NONE => 0
    case S_SUCCESS => 1
    case S_FAILURE => 2
    case S_CRASH => 3
    case S_PARTIAL => 4
    case S_UNKNOWN => 5
  }

  /** `status2str`. */
  function StatusName(code: nat): string {
    if code == 0 then "none"
    else if code == 1 then "success"
    else if code == 2 then "failure"
    else if code == 3 then "crash"
    else if code == 4 then "partial"
    else "unknown"
  }

  /** What is written for each status, and the name a line shows for it; a number that no status has shows as unknown. */
  lemma StatusShown(s: Status, code: nat)
    ensures StatusCode(s) == match s
                             case S_NONE => 0 case S_SUCCESS => 1 case S_FAILURE => 2
                             case S_CRASH => 3 case S_PARTIAL => 4 case S_UNKNOWN => 5
    ensures StatusName(StatusCode(s)) == match s
                                         case S_NONE => "none" case S_SUCCESS => "success" case S_FAILURE => "failure"
                                         case S_CRASH => "crash" case S_PARTIAL => "partial" case S_UNKNOWN => "unknown"
    ensures code > 5 ==> StatusName(code) == "unknown"
  {
  }

  /** Neither the number nor the name of a status is shared. */
  lemma StatusesApart(s: Status, t: Status)
    ensures StatusCode(s) == StatusCode(t) <==> s == t
    ensures StatusName(StatusCode(s)) == StatusName(StatusCode(t)) <==> s == t
  {
    StatusShown(s, 0);
    StatusShown(t, 0);
    assert |"none"| == 4 && |"crash"| == 5 && "success"[0] == 's' && "failure"[0] == 'f' && "partial"[0] == 'p';
    assert "unknown"[0] == 'u' && "crash"[0] == 'c' && "none"[0] == 'n';
  }

  datatype WorkerOutput = WorkerOutput(workerso: seq<byte>, status: nat, ndecoded: nat, result: seq<byte>)

  datatype Cohort = Cohort(nworkers: nat, input: InputSlot, outputs: seq<WorkerOutput>)

  /** One answer as it should look to a reader. */
  function SeenOutput(soname: seq<byte>, o: OutputSlot): WorkerOutput {
    WorkerOutput(soname, StatusCode(o.status), o.ndecoded, o.result)
  }

  function SeenOutputs(sonames: seq<seq<byte>>, outputs: seq<OutputSlot>): (r: seq<WorkerOutput>)
    requires |sonames| == |outputs|
    ensures |r| == |outputs|
    ensures forall j :: 0 <= j < |r| ==> r[j] == SeenOutput(sonames[j], outputs[j])
  {
    if outputs == [] then []
    else
      var n := |outputs| - 1;
      SeenOutputs(sonames[..n], outputs[..n]) + [SeenOutput(sonames[n], outputs[n])]
  }

  function Seen(sonames: seq<seq<byte>>, r: Record): Cohort
    requires |sonames| == |r.outputs|
  {
    Cohort(|r.outputs|, r.input, SeenOutputs(sonames, r.outputs))
  }
}
