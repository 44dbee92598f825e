/**
 The request file of a job (apps/agent/cmd/ivrm-operation-worker/main.go,
 deploy/oci/ivrm-mc-main-lifecycle.py): once it is gone it never comes back, and the
 job's action is not begun again.
 */
module JobRequests {
  import opened Wrappers
  import opened LifecycleReports
  import opened JobProtocol
  import opened JobOutcomes

  /** The job's one request was published, and is neither in its file nor in the executor's hands before it begins. */
  predicate Gone(s: Sys, j: JobId) {
    Count(s.published, j) >= 1 && j !in s.requests && !(s.root.Accepted? && s.root.job == j)
  }

  /** Still gone, and begun no more often. */
  predicate StaysGone(s: Sys, t: Sys, j: JobId) { Gone(t, j) && Count(t.begun, j) == Count(s.begun, j) }

  lemma {:induction false} GoneByStore(s: Sys, step: StoreStep, j: JobId)
    requires Gone(s, j) && StoreEnabled(s, step)
    ensures StaysGone(s, TakeStore(s, step), j)
  {
    hide Count;
  }

  lemma {:induction false} GoneByNetwork(s: Sys, step: NetworkStep, j: JobId)
    requires Gone(s, j) && NetworkEnabled(s, step)
    ensures StaysGone(s, TakeNetwork(s, step), j)
  {
    hide Count, TakeNetwork, NetworkEnabled;
    NetworkKeeps(s, step);
  }

  lemma {:induction false} GoneByWorker(s: Sys, step: WorkerStep, j: JobId)
    requires Gone(s, j) && WorkerEnabled(s.worker, s.results, step)
    requires Count(TakeWorker(s, step).published, j) <= 1
    ensures StaysGone(s, TakeWorker(s, step), j)
  {
    hide Count, TakeWorker, TouchRequests, WorkerEnabled;
    WorkerKeeps(s, step);
    RequestsGrow(s, step, j);
  }

  lemma {:induction false} GoneByRoot(s: Sys, step: RootStep, j: JobId)
    requires Gone(s, j) && RootEnabled(s.root, s.requests, step)
    ensures StaysGone(s, TakeRoot(s, step), j)
  {
    hide Performable, Holds;
  }

  lemma {:induction false} GoneByStep(s: Sys, step: Step, j: JobId)
    requires Gone(s, j) && Enabled(s, step) && Count(Take(s, step).published, j) <= 1
    ensures StaysGone(s, Take(s, step), j)
  {
    hide Gone, StaysGone, Count, TakeStore, TakeNetwork, TakeWorker, TakeRoot, StoreEnabled, NetworkEnabled,
         WorkerEnabled, RootEnabled;
    match step
    case ByStore(st) => GoneByStore(s, st, j);
    case ByNetwork(n) => GoneByNetwork(s, n, j);
    case ByWorker(w) => GoneByWorker(s, w, j);
    case ByRoot(r) => GoneByRoot(s, r, j);
  }

  /** In every run, from the moment a job's published request is gone its action is never begun again. */
  lemma {:induction false} NeverBegunAgain(steps: seq<Step>, k: nat, j: JobId)
    requires Playable(steps) && k <= |steps| && Playable(steps[..k])
    requires Gone(Play(steps[..k]), j)
    ensures StaysGone(Play(steps[..k]), Play(steps), j)
    decreases |steps|
  {
    hide Gone, Count, Take, Enabled;
    if k == |steps| {
      assert steps[..k] == steps;
      GoneStays(Play(steps), j);
    } else {
      var before, step := steps[..|steps| - 1], steps[|steps| - 1];
      assert before[..k] == steps[..k];
      NeverBegunAgain(before, k, j);
      AtMostOnce(steps, j);
      GoneByStep(Play(before), step, j);
    }
  }

  lemma {:induction false} GoneStays(s: Sys, j: JobId)
    requires Gone(s, j)
    ensures StaysGone(s, s, j)
  {
  }

  /**
   The worker takes the request away when its wait times out and when the store has accepted the outcome; the executor
   does when it is through with it and when it rejects it. So afterwards it is gone, unless the executor is just about
   to begin it.
   */
  lemma {:induction false} RequestTakenAway(steps: seq<Step>, step: Step, j: JobId)
    requires Playable(steps + [step])
    requires var s := Play(steps);
             || (step == ByWorker(TimeOut) && s.worker.job == j)
             || (step == ByWorker(TakeReply) && s.worker.Finishing? && s.worker.job == j)
             || (step == ByRoot(Unlink) && s.root.job == j)
             || step == ByRoot(Reject(j))
    ensures var t := Play(steps + [step]);
            && j !in t.requests
            && (Count(t.published, j) >= 1 && !(t.root.Accepted? && t.root.job == j) ==> Gone(t, j))
  {
    assert (steps + [step])[..|steps|] == steps;
    var s := Play(steps);
    hide Count, Performable, Holds, Bump;
    if step.ByWorker? {
      WorkerKeeps(s, step.w);
      hide Decide, Respond;
    }
  }
}
