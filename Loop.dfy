/**
 * The plan-execute-verify-replan loop of `QALoop.run`. The executor, the
 * verifier and the replanner are parameters: the executor's and verifier's
 * answers for the step with a given index, and the replanner's answer to a
 * request. The loop walks the subgoals of the initial plan, which it binds
 * once; the plans that replanning returns are stored and never walked.
 *
 * The log is specified on the sequence `all` of the entries the loop would
 * write for every subgoal of the initial plan: it keeps a prefix of `all`,
 * which ends at the third failed verification if there is one.
 */
module Loop {
  import opened Wrappers
  import opened Messages

  /** `max_replans`. */
  const MaxReplans: nat := 2

  /** The arguments of one call to `planner.replan`. */
  datatype ReplanRequest = ReplanRequest(goal: string, pastSteps: seq<StepLog>, lastError: string, task: Option<string>)

  /** The executor's result for the step with a given index and subgoal. */
  type ExecuteOracle = (nat, Subgoal) -> ExecutorResult

  /** The verifier's verdict on the step with a given index, subgoal and executor result. */
  type VerifyOracle = (nat, Subgoal, ExecutorResult) -> Verification

  /** The log entry the loop writes for subgoal `i` of the plan. */
  function Entry(subgoals: seq<Subgoal>, execute: ExecuteOracle, verify: VerifyOracle, i: nat): StepLog
    requires i < |subgoals|
  {
    var result := execute(i, subgoals[i]);
    StepLog(subgoals[i], result, verify(i, subgoals[i], result))
  }

  /** The entries for every subgoal of the plan, in order. */
  function Entries(subgoals: seq<Subgoal>, execute: ExecuteOracle, verify: VerifyOracle): (r: seq<StepLog>)
    ensures |r| == |subgoals|
    ensures forall i :: 0 <= i < |subgoals| ==> r[i] == Entry(subgoals, execute, verify, i)
  {
    seq(|subgoals|, i requires 0 <= i < |subgoals| => Entry(subgoals, execute, verify, i))
  }

  /** The indices below `n` of the steps whose verification failed, in increasing order. */
  function FailedBefore(steps: seq<StepLog>, n: nat): (r: seq<nat>)
    requires n <= |steps|
    ensures |r| <= n
    ensures forall k :: 0 <= k < |r| ==> r[k] < n && !steps[r[k]].verifier.passed
  {
    if n == 0 then []
    else FailedBefore(steps, n - 1) + (if steps[n - 1].verifier.passed then [] else [n - 1])
  }

  /** The indices of the steps of a log whose verification failed. */
  function FailedIndices(steps: seq<StepLog>): seq<nat> {
    FailedBefore(steps, |steps|)
  }

  /** The number of failed verifications in a log. */
  function Failures(steps: seq<StepLog>): nat {
    |FailedIndices(steps)|
  }

  /**
   * How many entries the loop logs: all of them, unless a third verification
   * fails, in which case the log ends with that step.
   */
  function LoggedCount(all: seq<StepLog>): (n: nat)
    ensures n <= |all|
  {
    var failed := FailedIndices(all);
    if |failed| > MaxReplans then failed[MaxReplans] + 1 else |all|
  }

  /** The log the loop keeps of the entries `all`. */
  function LoggedSteps(all: seq<StepLog>): seq<StepLog> {
    all[..LoggedCount(all)]
  }

  /**
   * Stopping after the first `n` entries is what the loop's rule allows: at
   * most three failures among them, fewer than all entries only when there are
   * three, and then the last of them is the third failure.
   */
  predicate StopsAt(all: seq<StepLog>, n: nat)
    requires n <= |all|
  {
    var c := |FailedBefore(all, n)|;
    c <= MaxReplans + 1 &&
    (n < |all| ==> c == MaxReplans + 1) &&
    (c == MaxReplans + 1 ==> 0 < n && !all[n - 1].verifier.passed)
  }

  /** `final_verdict`: "passed" when every logged verification passed (so also for an empty log). */
  function FinalVerdict(steps: seq<StepLog>): (r: string)
    ensures r == (if Failures(steps) == 0 then "passed" else "failed")
  {
    if forall i :: 0 <= i < |steps| ==> steps[i].verifier.passed then
      NoFailuresWhenAllPass(steps, |steps|);
      "passed"
    else
      var i :| 0 <= i < |steps| && !steps[i].verifier.passed;
      FailedBeforeComplete(steps, |steps|, i);
      "failed"
  }

  function Min(a: nat, b: nat): nat {
    if a <= b then a else b
  }

  /**
   * The `k`-th replan request is made at the `k`-th failed step among the
   * first `n`, with the entries up to and including that step.
   */
  predicate RequestsMatchUpTo(requests: seq<ReplanRequest>, all: seq<StepLog>, n: nat, goal: string, task: Option<string>)
    requires n <= |all|
  {
    var failed := FailedBefore(all, n);
    |requests| <= |failed| &&
    forall k :: 0 <= k < |requests| ==>
      requests[k] == ReplanRequest(goal, all[..failed[k] + 1], all[failed[k]].verifier.reason, task)
  }

  /** The replan requests match the failed steps of a log. */
  predicate RequestsMatch(requests: seq<ReplanRequest>, steps: seq<StepLog>, goal: string, task: Option<string>) {
    RequestsMatchUpTo(requests, steps, |steps|, goal, task)
  }

  /** The failed indices below `n` depend only on the first `n` steps. */
  lemma {:induction false} FailedBeforeAgree(s: seq<StepLog>, t: seq<StepLog>, n: nat)
    requires n <= |s| && n <= |t|
    requires forall i :: 0 <= i < n ==> s[i] == t[i]
    ensures FailedBefore(s, n) == FailedBefore(t, n)
  {
    if n > 0 {
      FailedBeforeAgree(s, t, n - 1);
    }
  }

  /** The failed indices below `n` are a prefix of those below any larger `m`. */
  lemma {:induction false} FailedBeforeMonotone(s: seq<StepLog>, n: nat, m: nat)
    requires n <= m <= |s|
    ensures FailedBefore(s, n) <= FailedBefore(s, m)
  {
    if n < m {
      FailedBeforeMonotone(s, n, m - 1);
    }
  }

  /** A failed index below `n` among those below `m` is already among those below `n`, at the same position. */
  lemma {:induction false} FailedBeforeBelow(s: seq<StepLog>, n: nat, m: nat, k: nat)
    requires n <= m <= |s|
    requires k < |FailedBefore(s, m)| && FailedBefore(s, m)[k] < n
    ensures k < |FailedBefore(s, n)|
  {
    if n < m {
      var prev := FailedBefore(s, m - 1);
      assert FailedBefore(s, m) == prev + (if s[m - 1].verifier.passed then [] else [m - 1]);
      if k < |prev| {
        FailedBeforeBelow(s, n, m - 1, k);
      }
    }
  }

  /** Every failed step below `n` is among the failed indices below `n`. */
  lemma {:induction false} FailedBeforeComplete(s: seq<StepLog>, n: nat, i: nat)
    requires i < n <= |s| && !s[i].verifier.passed
    ensures i in FailedBefore(s, n)
  {
    if i < n - 1 {
      FailedBeforeComplete(s, n - 1, i);
    }
  }

  /** The failed indices of the first `n` entries are those of `all` below `n`. */
  lemma PrefixFailures(all: seq<StepLog>, n: nat)
    requires n <= |all|
    ensures FailedIndices(all[..n]) == FailedBefore(all, n)
  {
    FailedBeforeAgree(all[..n], all, n);
  }

  /** The logged count is the one place where the loop's rule allows it to stop. */
  lemma LoggedCountCharacterised(all: seq<StepLog>, n: nat)
    requires n <= |all|
    ensures n == LoggedCount(all) <==> StopsAt(all, n)
  {
    var failed := FailedIndices(all);
    if n == LoggedCount(all) && |failed| > MaxReplans {
      var i := failed[MaxReplans];
      FailedBeforeMonotone(all, i, |all|);
      FailedBeforeBelow(all, n, |all|, MaxReplans);
      assert FailedBefore(all, n) == FailedBefore(all, i) + [i];
      assert |FailedBefore(all, i)| <= MaxReplans;
    }
    if StopsAt(all, n) && |FailedBefore(all, n)| == MaxReplans + 1 {
      FailedBeforeMonotone(all, n, |all|);
      assert FailedBefore(all, n) == FailedBefore(all, n - 1) + [n - 1];
      assert failed[MaxReplans] == n - 1;
    }
  }

  /**
   * The shape of the log: a prefix of the entries, in order, with at most
   * three failures; when it stops early it holds exactly three, and then its
   * last step is the third failure.
   */
  lemma LoggedStepsShape(all: seq<StepLog>)
    ensures var log := LoggedSteps(all);
            |log| <= |all| && log <= all &&
            Failures(log) <= MaxReplans + 1 &&
            (|log| < |all| ==> Failures(log) == MaxReplans + 1) &&
            (Failures(log) == MaxReplans + 1 ==> !log[|log| - 1].verifier.passed)
  {
    LoggedCountCharacterised(all, LoggedCount(all));
    PrefixFailures(all, LoggedCount(all));
  }

  /** When every verification passes, every subgoal is logged and nothing fails, so no replan is made. */
  lemma AllPassedLogsEverything(all: seq<StepLog>)
    requires forall i :: 0 <= i < |all| ==> all[i].verifier.passed
    ensures LoggedSteps(all) == all && Failures(all) == 0
  {
    NoFailuresWhenAllPass(all, |all|);
  }

  lemma {:induction false} NoFailuresWhenAllPass(s: seq<StepLog>, n: nat)
    requires n <= |s|
    requires forall i :: 0 <= i < n ==> s[i].verifier.passed
    ensures FailedBefore(s, n) == []
  {
    if n > 0 {
      NoFailuresWhenAllPass(s, n - 1);
    }
  }

  /** A "passed" verdict means the whole plan was logged. */
  lemma PassedVerdictLogsWholePlan(all: seq<StepLog>)
    requires FinalVerdict(LoggedSteps(all)) == "passed"
    ensures LoggedSteps(all) == all
  {
    LoggedStepsShape(all);
  }

  /**
   * A failed verification that is at most the second one does not stop the
   * loop: the next subgoal of the initial plan is still logged.
   */
  lemma EarlyFailureContinues(all: seq<StepLog>, i: nat)
    requires i + 1 < |all|
    requires |FailedBefore(all, i + 1)| <= MaxReplans
    ensures i + 1 < LoggedCount(all)
  {
    var failed := FailedIndices(all);
    if |failed| > MaxReplans && failed[MaxReplans] <= i {
      FailedBeforeBelow(all, i + 1, |all|, MaxReplans);
    }
  }

  /** The requests matched among the first `n` entries still match among the first `n + 1`. */
  lemma RequestsExtend(requests: seq<ReplanRequest>, all: seq<StepLog>, n: nat, goal: string, task: Option<string>)
    requires n < |all|
    requires RequestsMatchUpTo(requests, all, n, goal, task)
    ensures RequestsMatchUpTo(requests, all, n + 1, goal, task)
  {
    var failed := FailedBefore(all, n);
    assert FailedBefore(all, n + 1) == failed + (if all[n].verifier.passed then [] else [n]);
    forall k | 0 <= k < |requests|
      ensures FailedBefore(all, n + 1)[k] == failed[k]
    {
    }
  }

  /** The request made at a failed entry `n` extends the matching requests. */
  lemma RequestAppend(requests: seq<ReplanRequest>, all: seq<StepLog>, n: nat, goal: string, task: Option<string>)
    requires n < |all| && !all[n].verifier.passed
    requires RequestsMatchUpTo(requests, all, n, goal, task)
    requires |requests| == |FailedBefore(all, n)|
    ensures RequestsMatchUpTo(requests + [ReplanRequest(goal, all[..n + 1], all[n].verifier.reason, task)], all, n + 1, goal, task)
  {
    RequestsExtend(requests, all, n, goal, task);
    assert FailedBefore(all, n + 1) == FailedBefore(all, n) + [n];
  }

  /** Requests matched among the first `n` entries match the log of those entries. */
  lemma RequestsMatchPrefix(requests: seq<ReplanRequest>, all: seq<StepLog>, n: nat, goal: string, task: Option<string>)
    requires n <= |all|
    requires RequestsMatchUpTo(requests, all, n, goal, task)
    ensures RequestsMatch(requests, all[..n], goal, task)
  {
    var log, failed := all[..n], FailedBefore(all, n);
    PrefixFailures(all, n);
    forall k | 0 <= k < |requests|
      ensures log[..failed[k] + 1] == all[..failed[k] + 1] && log[failed[k]] == all[failed[k]]
    {
    }
  }

  /**
   * One iteration of the loop: the entry at `idx` extends the log, and when it
   * failed it adds one failure and the request made at it.
   */
  lemma Advance(requests: seq<ReplanRequest>, all: seq<StepLog>, idx: nat, goal: string, task: Option<string>)
    requires idx < |all|
    requires RequestsMatchUpTo(requests, all, idx, goal, task)
    requires |requests| == |FailedBefore(all, idx)|
    ensures all[..idx] + [all[idx]] == all[..idx + 1]
    ensures RequestsMatchUpTo(requests, all, idx + 1, goal, task)
    ensures all[idx].verifier.passed ==> FailedBefore(all, idx + 1) == FailedBefore(all, idx)
    ensures !all[idx].verifier.passed ==>
              FailedBefore(all, idx + 1) == FailedBefore(all, idx) + [idx] &&
              RequestsMatchUpTo(requests + [ReplanRequest(goal, all[..idx + 1], all[idx].verifier.reason, task)], all, idx + 1, goal, task)
  {
    RequestsExtend(requests, all, idx, goal, task);
    if !all[idx].verifier.passed {
      RequestAppend(requests, all, idx, goal, task);
    }
  }

  /** Stopping where the loop's rule allows gives the log and the requests that `run` promises. */
  lemma StopAt(requests: seq<ReplanRequest>, all: seq<StepLog>, n: nat, goal: string, task: Option<string>)
    requires n <= |all| && StopsAt(all, n)
    requires RequestsMatchUpTo(requests, all, n, goal, task)
    requires |requests| == Min(|FailedBefore(all, n)|, MaxReplans)
    ensures all[..n] == LoggedSteps(all)
    ensures |requests| == Min(Failures(all[..n]), MaxReplans)
    ensures RequestsMatch(requests, all[..n], goal, task)
  {
    LoggedCountCharacterised(all, n);
    RequestsMatchPrefix(requests, all, n, goal, task);
    PrefixFailures(all, n);
  }

  /**
   * `QALoop.run`. `initial` is what `planner.plan` returned, `replan` answers
   * each call to `planner.replan`, and `hasSupervisor` says whether a
   * supervisor is attached. Returns the episode log, the replan requests in
   * the order they were made, and the log handed to `supervisor.review`.
   */
  method Run(goal: string, task: Option<string>, initial: PlannerOutput,
             execute: ExecuteOracle, verify: VerifyOracle, replan: ReplanRequest -> PlannerOutput,
             hasSupervisor: bool)
    returns (log: EpisodeLog, requests: seq<ReplanRequest>, reviewed: Option<EpisodeLog>)
    ensures log.plannerGoal == goal
    ensures log.steps == LoggedSteps(Entries(initial.subgoals, execute, verify))
    ensures |requests| == Min(Failures(log.steps), MaxReplans)
    ensures RequestsMatch(requests, log.steps, goal, task)
    ensures log.finalVerdict == (if Failures(log.steps) == 0 then "passed" else "failed")
    ensures reviewed == (if hasSupervisor then Some(log) else None)
  {
    var plan := initial;
    var subgoals := plan.subgoals;
    ghost var all := Entries(subgoals, execute, verify);
    var steps: seq<StepLog> := [];
    var replans := 0;
    requests := [];
    var idx := 0;
    while idx < |subgoals|
      invariant idx <= |subgoals| == |all|
      invariant steps == all[..idx]
      invariant replans == |requests| == |FailedBefore(all, idx)| <= MaxReplans
      invariant RequestsMatchUpTo(requests, all, idx, goal, task)
    {
      var subgoal := subgoals[idx];
      var result := execute(idx, subgoal);
      var verification := verify(idx, subgoal, result);
      var entry := StepLog(subgoal, result, verification);
      assert entry == all[idx];
      Advance(requests, all, idx, goal, task);
      steps := steps + [entry];
      if !verification.passed {
        if replans >= MaxReplans {
          StopAt(requests, all, idx + 1, goal, task);
          break;
        }
        replans := replans + 1;
        var request := ReplanRequest(goal, steps, verification.reason, task);
        requests := requests + [request];
        plan := replan(request);
      }
      idx := idx + 1;
    }
    if idx == |subgoals| {
      StopAt(requests, all, idx, goal, task);
    }
    var verdict := FinalVerdict(steps);
    log := EpisodeLog(goal, steps, verdict);
    reviewed := if hasSupervisor then Some(log) else None;
  }
}
