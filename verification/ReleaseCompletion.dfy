/** `checkReleaseCompletion`: the options it refuses, the bounded run of its polling loop, and what its outcome
    means. */
module ReleaseCompletion {
  import opened Wrappers
  import opened JsonValues
  import opened Sorting
  import opened ReleaseContracts
  import opened ReleaseRemote
  import opened ReleaseReceipt
  import opened ReleaseIdentity
  import opened ReleaseCauses
  import opened ReleaseAnswers
  import opened ReleaseProtocol
  import opened ReleaseChecker
  import opened ReleaseDecoding
  import opened ReleaseRight

  /** `options`, with the release target and the repository already read and judged. */
  datatype Options = Options(
    target: Option<Target>, repository: string, repositoryValid: bool, runId: Option<int>,
    deadlineMs: int, pollIntervalMs: int, checkedAt: Reading)

  predicate PositiveSafe(n: int) { 0 < n && IsSafeInteger(n) }

  /** The option that refuses the check before anything is asked, if one does. */
  function OptionError(o: Options): Option<string>
  {
    if o.target.None? then Some("release_target_invalid")
    else if !o.repositoryValid then Some("repository_invalid")
    else if !o.checkedAt.At? || !PositiveSafe(o.deadlineMs) || !PositiveSafe(o.pollIntervalMs) then
        Some("remote_options_invalid")
    else if !IsSafeInteger(o.checkedAt.ms + o.deadlineMs) then Some("remote_options_invalid")
    else if o.runId.Some? && !PositiveSafe(o.runId.value) then Some("remote_options_invalid")
    else None
  }

  /** Options are taken exactly if there is a target, the repository is one, and the time, the deadline, the interval
      and a given run are numbers JavaScript represents exactly, the last three positive; and so is when it ends. */
  lemma OptionsIff(o: Options)
    ensures OptionError(o) == None
            <==> && o.target.Some? && o.repositoryValid && o.checkedAt.At?
                 && 1 <= o.deadlineMs <= 9007199254740991 && 1 <= o.pollIntervalMs <= 9007199254740991
                 && -9007199254740991 <= o.checkedAt.ms + o.deadlineMs <= 9007199254740991
                 && forall id :: o.runId == Some(id) ==> 1 <= id <= 9007199254740991
    ensures OptionError(o) == Some("release_target_invalid") <==> o.target == None
    ensures OptionError(o) == Some("repository_invalid") <==> o.target != None && !o.repositoryValid
    ensures OptionError(o) in {None, Some("release_target_invalid"), Some("repository_invalid"),
                               Some("remote_options_invalid")}
    ensures OptionError(o).None? ==>
              forall platform ::
                var c := SetupOf(o, platform);
                && Some(c.target) == o.target && c.platform == platform && c.givenRunId == o.runId
                && c.startAt == o.checkedAt.ms && c.deadlineAt == c.startAt + o.deadlineMs
                && c.pollIntervalMs == o.pollIntervalMs
  {
    if o.runId.Some? { assert o.runId == Some(o.runId.value); }
  }

  function SetupOf(o: Options, platform: Platform): Setup
    requires OptionError(o).None?
  {
    Setup(o.target.value, platform, o.runId, o.checkedAt.ms, o.checkedAt.ms + o.deadlineMs, o.pollIntervalMs)
  }

  /** The most passes through the loop a clock that advances leaves room for. */
  function PollBound(deadlineMs: int, pollIntervalMs: int): int
    requires pollIntervalMs > 0
  {
    (deadlineMs + pollIntervalMs - 1) / pollIntervalMs + 1
  }

  lemma PollsFit(deadlineMs: int, pollIntervalMs: int, passes: int)
    requires pollIntervalMs > 0 && (passes - 1) * pollIntervalMs < deadlineMs
    ensures passes < PollBound(deadlineMs, pollIntervalMs)
  {
  }

  /** The errors on the receipt and the answers in the log agree: every error goes back to an answer, and every answer
      that is a reason to fail left an error; where the tag led is what it was answered with; and the receipt names
      nothing that was not given or answered. */
  ghost predicate Judged(log: seq<Event>, target: Target, platform: Platform, givenRunId: Option<int>,
                         headSha: Option<string>, runId: Option<int>, attempt: Option<int>, errors: seq<ErrorRecord>)
  {
    && TagsAccounted(log, target.tag)
    && (headSha.Some? ==> TagPeeled(Peeled(headSha.value)) in log)
    && (runId.Some? ==> RunNamed(log, target.tag, givenRunId, headSha, runId.value, attempt))
    && exists event: Option<string> ::
         && (event.Some? || attempt.Some? ==>
               exists r :: && RunSeen(givenRunId, log, r, event, attempt)
                           && RunNamed(log, target.tag, givenRunId, headSha, r, attempt))
         && AllCaused(log, target, platform, Identified(headSha, runId, attempt, event), errors)
         && (errors == [] ==>
               NothingWrong(log, target, platform, Identified(headSha, runId, attempt, event)))
  }

  ghost predicate NothingWrong(log: seq<Event>, target: Target, platform: Platform, id: Identified)
  {
    forall e :: e in log ==> Fine(log, target, platform, id, e)
  }

  /** What the states of a run, before it and after each pass, have to do with the receipt it leaves: a surface that
      failed in any of them is failed on it, one that passed is proven or failed ever after, but for the tag, and the
      loop only sleeps right after peeling the tag again. */
  ghost predicate Kept(c: Setup, trace: seq<State>, finished: bool, surfaces: Surfaces)
  {
    && (forall i, j :: 0 <= i <= j < |trace| ==> Advances(c, trace[i], trace[j], false))
    && (forall i, x :: 0 <= i < |trace| && trace[i].surfaces.Get(x) == Failed ==> surfaces.Get(x) == Failed)
    && (forall i, j, x :: 0 <= i < j < |trace| && trace[i].surfaces.Get(x) == Pass ==>
        PassKept(c, trace, finished, j, x))
    && (forall i :: 0 < i < |trace| && (finished ==> i < |trace| - 1) ==> RestsAfterPeel(trace[i].log))
  }

  /** The last state of a run is the one the receipt and the log show, its lists finalized once the check has ended. */
  ghost predicate EndsAs(trace: seq<State>, receipt: Receipt, log: seq<Event>, finished: bool)
    reads receipt
  {
    && |trace| > 0
    && var end := trace[|trace| - 1];
       && end.log == log && end.surfaces == receipt.surfaces
       && end.headSha == receipt.headSha && end.receiptRunId == receipt.runId
       && end.receiptAttempt == receipt.runAttempt
       && receipt.errors == (if finished then Collapse(Sort(end.errors, ErrorBefore)) else end.errors)
       && receipt.jobs == (if finished then Collapse(Sort(end.jobs, JobBefore)) else end.jobs)
       && receipt.assets == (if finished then Collapse(Sort(end.rows, RowBefore)) else end.rows)
  }

  /** A completed check has this certificate for the jobs and rows it recorded. */
  ghost predicate CertifiedAt(trace: seq<State>, log: seq<Event>, target: Target, platform: Platform, headSha: string,
                              runId: int, attempt: int)
  {
    && |trace| > 0
    && var end := trace[|trace| - 1];
       Certified(log, target, platform, headSha, runId, attempt, end.jobs, end.rows)
  }

  /** Where every question was answered, and every answer is right for one release, there is no error, and nothing that
      hinders. */
  lemma RightAnswersAreEnough(truth: Truth, log: seq<Event>, target: Target, platform: Platform,
                              givenRunId: Option<int>, headSha: Option<string>, runId: Option<int>,
                              attempt: Option<int>, errors: seq<ErrorRecord>)
    requires Judged(log, target, platform, givenRunId, headSha, runId, attempt, errors)
    requires AllRight(truth, target, platform, log) && IsOf(truth, target, givenRunId) && WellFormedTarget(target)
    ensures errors == [] && NothingHinders(log, target.tag, headSha)
  {
    hide IsRight, Caused, TagsAccounted, SearchFound, RunSeen, RunNamed, Hinders, NothingWrong;
    PeelsAreRight(truth, target, platform, log, target.tag);
    var event: Option<string> :|
      && (event.Some? || attempt.Some? ==>
            exists r :: && RunSeen(givenRunId, log, r, event, attempt)
                        && RunNamed(log, target.tag, givenRunId, headSha, r, attempt))
      && AllCaused(log, target, platform, Identified(headSha, runId, attempt, event), errors);
    if runId.Some? { RightNames(truth, log, target, platform, givenRunId, headSha, runId.value, attempt); }
    if event.Some? || attempt.Some? {
      var r :| && RunSeen(givenRunId, log, r, event, attempt)
               && RunNamed(log, target.tag, givenRunId, headSha, r, attempt);
      RightNames(truth, log, target, platform, givenRunId, headSha, r, attempt);
      RightSeen(truth, log, target, platform, givenRunId, r, event, attempt);
    }
    if errors != [] {
      NoCause(truth, target, platform, givenRunId, log, Identified(headSha, runId, attempt, event), errors[0]);
    }
    forall e | e in log ensures !Hinders(target.tag, headSha, e) {
      RightDoesNotHinder(truth, target, platform, headSha, e);
    }
  }

  lemma RightNames(truth: Truth, log: seq<Event>, target: Target, platform: Platform, givenRunId: Option<int>,
                   headSha: Option<string>, runId: int, attempt: Option<int>)
    requires AllRight(truth, target, platform, log) && IsOf(truth, target, givenRunId)
    requires headSha in {None, Some(truth.headSha)} && RunNamed(log, target.tag, givenRunId, headSha, runId, attempt)
    ensures runId == truth.runId && (givenRunId.None? ==> attempt in {None, Some(truth.attempt)})
  {
    hide Discovers, ListedRuns, SearchIsRight;
    if givenRunId.None? {
      var a :| (attempt.Some? ==> a == attempt.value) && SearchFound(log, target.tag, headSha.value, runId, a);
      var v: Json, run: Run :|
        && JsonAsked(RunSearch(target.tag), Answered(v)) in log && PageShows(v, target.tag, headSha.value, Found(run))
        && run.id == runId && run.attempt == a;
      assert IsRight(truth, target, platform, JsonAsked(RunSearch(target.tag), Answered(v)));
      RightSearch(truth, target, v);
    }
  }

  lemma RightSeen(truth: Truth, log: seq<Event>, target: Target, platform: Platform, givenRunId: Option<int>,
                  runId: int, event: Option<string>, attempt: Option<int>)
    requires AllRight(truth, target, platform, log) && IsOf(truth, target, givenRunId)
    requires RunSeen(givenRunId, log, runId, event, attempt)
    requires givenRunId.None? ==> attempt in {None, Some(truth.attempt)}
    ensures event in {None, Some(truth.event)} && attempt in {None, Some(truth.attempt)}
  {
    hide DecodeRun, RunIsRight;
    if givenRunId.Some? || (event.Some? && event.value != "push") {
      var v: Json :|
        && JsonAsked(RunById(runId), Answered(v)) in log && DecodeRun(v).Some?
        && (event.Some? ==> DecodeRun(v).value.event == event.value)
        && (attempt.Some? ==> DecodeRun(v).value.attempt == attempt.value);
      assert IsRight(truth, target, platform, JsonAsked(RunById(runId), Answered(v)));
      RightRun(truth, target.tag, v, None, None);
    }
  }

  lemma RightDoesNotHinder(truth: Truth, target: Target, platform: Platform, headSha: Option<string>, e: Event)
    requires IsRight(truth, target, platform, e) && headSha in {None, Some(truth.headSha)}
    ensures !Hinders(target.tag, headSha, e)
  {
    hide Discovers, ListedRuns, DecodeRun, PageOf, IncompletePage, PageComplete, SearchIsRight, RunIsRight;
    match e {
      case JsonAsked(RunSearch(_), Answered(v)) => RightSearch(truth, target, v);
      case JsonAsked(RunById(_), Answered(v)) => RightRun(truth, target.tag, v, None, None);
      case _ =>
    }
  }

  /** Finalizing the errors keeps their causes. */
  lemma FinalErrorsAreCaused(log: seq<Event>, target: Target, platform: Platform, givenRunId: Option<int>,
                             headSha: Option<string>, runId: Option<int>, attempt: Option<int>,
                             errors: seq<ErrorRecord>)
    requires Judged(log, target, platform, givenRunId, headSha, runId, attempt, errors)
    ensures var final := Collapse(Sort(errors, ErrorBefore));
            Judged(log, target, platform, givenRunId, headSha, runId, attempt, final) && (final == [] <==> errors == [])
  {
    hide RunNamed, RunSeen, Collapse, Sort, Sorted, NothingWrong, Caused, TagsAccounted, ErrorBefore;
    var final := Collapse(Sort(errors, ErrorBefore));
    FinalListsAreSorted([], errors);
    EmptyTogether(final, errors);
    forall event: Option<string> | AllCaused(log, target, platform, Identified(headSha, runId, attempt, event), errors)
      ensures AllCaused(log, target, platform, Identified(headSha, runId, attempt, event), final)
    {
      forall i | 0 <= i < |final|
        ensures Caused(log, target, platform, Identified(headSha, runId, attempt, event), final[i])
      {
        assert final[i] in errors;
      }
    }
  }

  /** Runs the check for at most `polls` passes; `finished` says whether it ended within them, `receipt` is
      null where the original throws. Whatever the remote answers and the clock reads, an end means what it says. */
  method CheckReleaseCompletion(o: Options, platform: Platform, remote: Remote, polls: nat)
    returns (receipt: Receipt?, finished: bool, passes: nat, ghost trace: seq<State>)
    requires remote.log == []
    requires o.target.Some? ==> WellFormedTarget(o.target.value)
    modifies remote
    ensures receipt == null <==> o.checkedAt.InvalidDate?
    ensures receipt != null ==> fresh(receipt)
    ensures receipt != null && OptionError(o).Some? ==>
              && finished && receipt.outcome == FAILED && remote.log == []
              && receipt.errors == [ErrorRecord(Identity, OptionError(o).value)]
    ensures receipt != null && OptionError(o).None? ==>
              && |trace| == passes + 1 && EndsAs(trace, receipt, remote.log, finished)
              && Kept(SetupOf(o, platform), trace, finished, receipt.surfaces)
              && Judged(remote.log, o.target.value, platform, o.runId, receipt.headSha, receipt.runId,
                        receipt.runAttempt, receipt.errors)
    ensures receipt != null && OptionError(o).None? && finished ==>
              && (receipt.outcome == FAILED <==> receipt.errors != [])
              && (receipt.outcome == FAILED <==> SomeSurface(receipt.surfaces, Failed))
    ensures receipt != null && finished && receipt.outcome == COMPLETED ==>
              && OptionError(o).None? && receipt.target == o.target && receipt.repository == Some(o.repository)
              && receipt.headSha.Some? && receipt.runId.Some? && receipt.runAttempt.Some?
              && CertifiedAt(trace, remote.log, o.target.value, platform, receipt.headSha.value, receipt.runId.value,
                             receipt.runAttempt.value)
              && (if o.runId.Some? then receipt.runId == o.runId
                  else SearchFound(remote.log, o.target.value.tag, receipt.headSha.value, receipt.runId.value,
                                   receipt.runAttempt.value))
    ensures receipt != null && finished && receipt.outcome == UNRESOLVED ==>
              && OptionError(o).None?
              && (|| NoFurtherPoll(remote.log, o.checkedAt.ms + o.deadlineMs)
                  || EndsAtIncompletePage(remote.log, o.target.value.tag))
    ensures receipt != null && OptionError(o).None? && polls > 0 && receipt.errors == []
            && NothingHinders(remote.log, o.target.value.tag, receipt.headSha) ==>
              finished && passes == 1 && receipt.outcome == COMPLETED
    ensures receipt != null && OptionError(o).None? && polls > 0
            && (exists truth ::
                  IsOf(truth, o.target.value, o.runId) && AllRight(truth, o.target.value, platform, remote.log)) ==>
              finished && passes == 1 && receipt.outcome == COMPLETED
    ensures passes <= polls
    ensures receipt != null && OptionError(o).None? && ClockAdvances(remote.log, o.checkedAt.ms) ==>
              && passes <= PollBound(o.deadlineMs, o.pollIntervalMs)
              && (polls >= PollBound(o.deadlineMs, o.pollIntervalMs) ==> finished)
  {
    hide Kept, Judged, CertifiedAt, ClockAdvances, PollBound, EndsAs, NothingHinders, NoFurtherPoll,
         EndsAtIncompletePage, SearchFound, Collapse, Sort, AllRight, IsOf;
    passes, trace := 0, [];
    if o.checkedAt.InvalidDate? { return null, true, 0, []; }
    var invalid := OptionError(o);
    receipt := new Receipt(if o.target.None? && !o.repositoryValid then None else Some(o.repository), o.target);
    if invalid.Some? {
      receipt.AddFailure(Identity, invalid.value);
      assert receipt.errors == [ErrorRecord(Identity, invalid.value)];
      receipt.FinalizeReceipt();
      OneStays(ErrorRecord(Identity, invalid.value), ErrorBefore);
      assert receipt.surfaces.Get(Identity) == Failed;
      return receipt, true, 0, [];
    }
    finished, passes, trace := RunChecker(o, SetupOf(o, platform), receipt, remote, polls);
    forall truth | IsOf(truth, o.target.value, o.runId) && AllRight(truth, o.target.value, platform, remote.log)
      ensures receipt.errors == [] && NothingHinders(remote.log, o.target.value.tag, receipt.headSha)
    {
      RightAnswersAreEnough(truth, remote.log, o.target.value, platform, o.runId, receipt.headSha, receipt.runId,
                            receipt.runAttempt, receipt.errors);
    }
  }

  method SetLaneSkippedSurfaces(receipt: Receipt, target: Target)
    modifies receipt`surfaces
    requires receipt.surfaces == FRESH_SURFACES
    ensures receipt.surfaces
            == FRESH_SURFACES.(npm := Skipped, githubPackages := Skipped,
                               pinnedLspRelease := if target.lane.LspLane? then Skipped else Unresolved)
  {
    receipt.SetSurface(Npm, Skipped);
    receipt.SetSurface(GithubPackages, Skipped);
    if target.lane.LspLane? {
      receipt.SetSurface(PinnedLspRelease, Skipped);
    }
  }

  method RunChecker(o: Options, setup: Setup, receipt: Receipt, remote: Remote, polls: nat)
    returns (finished: bool, passes: nat, ghost trace: seq<State>)
    requires OptionError(o).None? && WellFormedTarget(setup.target) && setup == SetupOf(o, setup.platform)
    requires remote.log == []
    requires receipt.target == o.target && receipt.repository == Some(o.repository)
    requires receipt.surfaces == FRESH_SURFACES && receipt.errors == []
    requires receipt.headSha == None && receipt.runId == None && receipt.runAttempt == None
    modifies receipt, remote
    ensures |trace| == passes + 1 && EndsAs(trace, receipt, remote.log, finished)
    ensures Kept(setup, trace, finished, receipt.surfaces)
    ensures Judged(remote.log, setup.target, setup.platform, o.runId, receipt.headSha, receipt.runId,
                   receipt.runAttempt, receipt.errors)
    ensures finished ==> (receipt.outcome == FAILED <==> receipt.errors != [])
    ensures finished ==> (receipt.outcome == FAILED <==> SomeSurface(receipt.surfaces, Failed))
    ensures finished && receipt.outcome == COMPLETED ==>
              && receipt.headSha.Some? && receipt.runId.Some? && receipt.runAttempt.Some?
              && CertifiedAt(trace, remote.log, setup.target, setup.platform, receipt.headSha.value,
                             receipt.runId.value, receipt.runAttempt.value)
              && (if o.runId.Some? then receipt.runId == o.runId
                  else SearchFound(remote.log, setup.target.tag, receipt.headSha.value, receipt.runId.value,
                                   receipt.runAttempt.value))
    ensures finished && receipt.outcome == UNRESOLVED ==>
              NoFurtherPoll(remote.log, setup.deadlineAt) || EndsAtIncompletePage(remote.log, setup.target.tag)
    ensures polls > 0 && receipt.errors == [] && NothingHinders(remote.log, setup.target.tag, receipt.headSha) ==>
              finished && passes == 1 && receipt.outcome == COMPLETED
    ensures passes <= polls
    ensures ClockAdvances(remote.log, setup.startAt) ==>
              && passes <= PollBound(o.deadlineMs, o.pollIntervalMs)
              && (polls >= PollBound(o.deadlineMs, o.pollIntervalMs) ==> finished)
  {
    hide Surfaces.Get, Surfaces.With, Sound, Settled, Ready, Advances, Certified, ClockAdvances, TimeFloor, PollBound,
         Judged, Kept, Hindered, Heeded, NothingHinders, AllSurfacesProven, IsRun, SomeSurface, SearchFound,
         Collapse, Sort, InTime, RestsAfterPeel;
    SetLaneSkippedSurfaces(receipt, setup.target);
    var checker := new Checker(setup, receipt, remote, o.runId);
    StartIsReady(setup, checker.Now());
    passes, finished, trace := 0, false, [checker.Now()];
    while passes < polls && !finished
      invariant passes <= polls && |trace| == passes + 1 && trace[passes] == checker.Now()
      invariant checker.setup == setup && checker.receipt == receipt && checker.remote == remote
      invariant fresh(checker)
      invariant IsRun(setup, trace, finished) && Heeded(setup, checker.Now(), {})
      invariant passes == 0 ==> !finished
      invariant InTime(setup, remote.log, passes, finished)
      decreases polls - passes
    {
      ghost var s := checker.Now();
      RunIsReady(setup, trace);
      var next := checker.Poll();
      TimeLeft(setup, s, checker.Now(), passes, next.PollAgain?);
      PassMade(setup, s, checker.Now(), next.PollAgain?);
      RunGrows(setup, trace, checker.Now(), next.Finish?);
      trace := trace + [checker.Now()];
      passes := passes + 1;
      finished := next.Finish?;
    }
    Bounded(setup, remote.log, passes, finished);
    RunKeeps(setup, trace, finished);
    RunIsJudged(setup, trace, finished);
    if passes > 0 && receipt.errors == [] && NothingHinders(remote.log, setup.target.tag, receipt.headSha) {
      UnhinderedCompletes(setup, trace, finished);
    }
    if finished {
      Concludes(setup, checker.Now());
      FinalErrorsAreCaused(remote.log, setup.target, setup.platform, o.runId, receipt.headSha, receipt.runId,
                           receipt.runAttempt, receipt.errors);
      receipt.FinalizeReceipt();
    }
  }

  lemma RunIsReady(c: Setup, trace: seq<State>)
    requires IsRun(c, trace, false)
    ensures Ready(c, trace[|trace| - 1])
  {
  }

  /** A pass that stands is a pass of a run. */
  lemma PassMade(c: Setup, s: State, t: State, polled: bool)
    requires c.pollIntervalMs > 0 && Advances(c, s, t, polled)
    requires if polled then Ready(c, t) && Heeded(c, t, {}) else Settled(c, t)
    requires (!polled && AllSurfacesProven(t.surfaces)) || Hindered(c, t, |s.log|)
    requires polled ==> RestsAfterPeel(t.log)
    ensures IsPass(c, s, t, !polled) && Heeded(c, t, {})
  {
    hide Advances, Ready, AllSurfacesProven, Hindered, Heeded, Surfaces.Get;
    PollIsStep(c, s, t, polled);
  }

  lemma PassRests(c: Setup, trace: seq<State>, finished: bool, i: int)
    requires IsRun(c, trace, finished) && 0 < i < |trace| && (finished ==> i < |trace| - 1)
    ensures RestsAfterPeel(trace[i].log)
  {
    hide Advances, Settled, Ready, AllSurfacesProven, Hindered, Heeded, RestsAfterPeel;
    assert IsPass(c, trace[i - 1], trace[i], finished && i - 1 == |trace| - 2);
  }

  lemma RunKeeps(c: Setup, trace: seq<State>, finished: bool)
    requires IsRun(c, trace, finished) && c.pollIntervalMs > 0
    ensures Kept(c, trace, finished, trace[|trace| - 1].surfaces)
  {
    hide IsRun, Advances, PassKept, Surfaces.Get;
    forall i, j | 0 <= i <= j < |trace| ensures Advances(c, trace[i], trace[j], false) {
      RunAdvances(c, trace, finished, i, j);
    }
    forall i, x | 0 <= i < |trace| && trace[i].surfaces.Get(x) == Failed
      ensures trace[|trace| - 1].surfaces.Get(x) == Failed
    {
      FailureIsFinal(c, trace, finished, i, x, true);
    }
    forall i, j, x | 0 <= i < j < |trace| && trace[i].surfaces.Get(x) == Pass
      ensures PassKept(c, trace, finished, j, x)
    {
      PassIsKept(c, trace, finished, i, j, x);
    }
    forall i | 0 < i < |trace| && (finished ==> i < |trace| - 1) ensures RestsAfterPeel(trace[i].log) {
      PassRests(c, trace, finished, i);
    }
  }

  lemma RunIsJudged(c: Setup, trace: seq<State>, finished: bool)
    requires IsRun(c, trace, finished) && Heeded(c, trace[|trace| - 1], {})
    ensures var end := trace[|trace| - 1];
            && Judged(end.log, c.target, c.platform, c.givenRunId, end.headSha, end.receiptRunId,
                      end.receiptAttempt, end.errors)
            && (finished ==> Settled(c, end))
  {
    hide AllCaused, Fine, TagsAccounted, Surfaces.Get, Evidence, OneIdentity, IsPass, CertifiedIn, SearchFound,
         RunSeen;
    var end := trace[|trace| - 1];
    assert Explained(c, end);
    if end.event.Some? || end.receiptAttempt.Some? {
      assert RunNamed(end.log, c.target.tag, c.givenRunId, end.headSha, end.runId.value, end.receiptAttempt);
    }
    if end.receiptRunId.Some? {
      assert RunNamed(end.log, c.target.tag, c.givenRunId, end.headSha, end.receiptRunId.value, end.receiptAttempt);
    }
    assert end.errors == [] ==> NothingWrong(end.log, c.target, c.platform, IdentifiedIn(end));
  }

  lemma StartIsReady(c: Setup, s: State)
    requires WellFormedTarget(c.target) && c.pollIntervalMs > 0
    requires s.log == [] && s.errors == [] && s.headSha.None? && s.receiptRunId.None? && s.receiptAttempt.None?
    requires s.runId == c.givenRunId && s.attempt.None? && s.event.None? && !s.bound
    requires s.surfaces == FRESH_SURFACES.(npm := Skipped, githubPackages := Skipped,
                                           pinnedLspRelease := if c.target.lane.LspLane? then Skipped else Unresolved)
    ensures IsRun(c, [s], false) && Heeded(c, s, {})
    ensures InTime(c, s.log, 0, false)
  {
    hide IsPass;
    assert Ready(c, s);
  }

  /** With a clock that advances, every pass but the last took a polling interval, and found time left. */
  ghost predicate InTime(c: Setup, log: seq<Event>, passes: nat, finished: bool)
  {
    ClockAdvances(log, c.startAt) ==>
      if finished then passes > 0 && (passes > 1 ==> (passes - 2) * c.pollIntervalMs < c.deadlineAt - c.startAt)
      else
        && TimeFloor(log, c.startAt) >= Min(c.deadlineAt, c.startAt + passes * c.pollIntervalMs)
        && (passes > 0 ==> (passes - 1) * c.pollIntervalMs < c.deadlineAt - c.startAt)
  }

  lemma TimeLeft(c: Setup, s: State, t: State, passes: nat, polled: bool)
    requires Advances(c, s, t, polled) && InTime(c, s.log, passes, false)
    ensures InTime(c, t.log, passes + 1, !polled)
  {
  }

  lemma Bounded(c: Setup, log: seq<Event>, passes: nat, finished: bool)
    requires c.pollIntervalMs > 0 && c.deadlineAt > c.startAt && InTime(c, log, passes, finished)
    ensures ClockAdvances(log, c.startAt) ==>
              && passes <= PollBound(c.deadlineAt - c.startAt, c.pollIntervalMs)
              && (!finished ==> passes < PollBound(c.deadlineAt - c.startAt, c.pollIntervalMs))
  {
    hide ClockAdvances, TimeFloor, PollBound;
    var time := c.deadlineAt - c.startAt;
    AtLeastTwo(time, c.pollIntervalMs);
    if ClockAdvances(log, c.startAt) {
      if !finished && passes > 0 { PollsFit(time, c.pollIntervalMs, passes); }
      if finished && passes > 1 { PollsFit(time, c.pollIntervalMs, passes - 1); }
    }
  }

  lemma AtLeastTwo(deadlineMs: int, pollIntervalMs: int)
    requires pollIntervalMs > 0 && deadlineMs > 0
    ensures PollBound(deadlineMs, pollIntervalMs) >= 2
  {
    PollsFit(deadlineMs, pollIntervalMs, 1);
  }

  /** The outcome reads the surfaces right: failures are the recorded ones. */
  lemma Concludes(c: Setup, s: State)
    requires Settled(c, s)
    ensures SomeSurface(s.surfaces, Failed) <==> s.errors != []
    ensures !SomeSurface(s.surfaces, Failed) && SomeSurface(s.surfaces, Unresolved) ==>
              NoFurtherPoll(s.log, c.deadlineAt) || EndsAtIncompletePage(s.log, c.target.tag)
    ensures AllSurfacesProven(s.surfaces) ==> CertifiedIn(c, s)
  {
    hide Surfaces.Get, Certified, AllCaused, TagsAccounted, CertifiedIn, TagUnproven;
    if s.errors != [] {
      assert s.surfaces.Get(s.errors[0].surface) == Failed;
    }
  }
}
