/** When a release run is started. */
module ReleaseHandoff {
  import opened Common

  // From the runs that a tag has had, latest first, and from whether they left a draft release behind.

  datatype RunStatus = UnderWay | Completed(success: bool)

  datatype HandoffRun = HandoffRun(status: RunStatus, attempt: nat)

  datatype Recovery = Wait | Dispatch | Rerun | DraftExists | SuccessWithoutResult | RetryExhausted

  function Find(runs: seq<HandoffRun>, test: HandoffRun -> bool): (r: Option<HandoffRun>)
    ensures r.Some? ==> r.value in runs && test(r.value)
    ensures r.None? <==> forall run :: run in runs ==> !test(run)
  {
    if runs == [] then None
    else if test(runs[0]) then Some(runs[0])
    else
      assert runs == [runs[0]] + runs[1..];
      Find(runs[1..], test)
  }

  function WorkflowRecovery(runs: seq<HandoffRun>): Recovery {
    if Find(runs, (r: HandoffRun) => r.status.UnderWay?).Some? then Wait
    else if Find(runs, (r: HandoffRun) => r.status == Completed(true)).Some? then SuccessWithoutResult
    else
      match Find(runs, (r: HandoffRun) => r.status.Completed?)
      case None => Dispatch
      case Some(failed) => if failed.attempt > 1 then RetryExhausted else Rerun
  }

  function ReleaseRecovery(draft: bool, runs: seq<HandoffRun>): Recovery {
    if draft then DraftExists else WorkflowRecovery(runs)
  }

  /**
   A run is started exactly if there is no draft, every run there was has failed, and the latest of them was a first
   attempt: the first run, and one rerun of it.
   */
  lemma StartsExactly(draft: bool, runs: seq<HandoffRun>)
    ensures ReleaseRecovery(draft, runs) in {Dispatch, Rerun} <==>
      && !draft && (forall r :: r in runs ==> r.status == Completed(false))
      && (runs == [] || runs[0].attempt <= 1)
    ensures ReleaseRecovery(draft, runs) == Dispatch <==> !draft && runs == []
    ensures ReleaseRecovery(draft, runs) == DraftExists <==> draft
    ensures ReleaseRecovery(draft, runs) == Wait <==> !draft && exists r :: r in runs && r.status == UnderWay
    ensures ReleaseRecovery(draft, runs) == SuccessWithoutResult <==>
      && !draft && (forall r :: r in runs ==> r.status != UnderWay)
      && exists r :: r in runs && r.status == Completed(true)
  {
    if runs != [] {
      assert runs[0] in runs;
    }
  }
}
