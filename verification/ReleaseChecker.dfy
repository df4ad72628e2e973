/** The polling loop of `checkReleaseCompletion` and the steps it is made of. */
module ReleaseChecker {
  import opened Wrappers
  import opened JsonValues
  import opened ReleaseContracts
  import opened ReleaseRemote
  import opened ReleaseIdentity
  import opened ReleaseProof
  import opened ReleaseReceipt
  import opened ReleaseCauses
  import opened ReleaseAnswers
  import opened ReleaseProtocol

  /** Whether a step lets the cycle go on, starts the next poll, or ends the check. */
  datatype Next = Proceed | PollAgain | Finish

  datatype TagState = Same | Retry | Moved

  class Checker {
    const setup: Setup
    const receipt: Receipt
    const remote: Remote
    var retryable: set<SurfaceName>
    var releaseAssets: Option<map<string, Asset>>
    var fixedRunId: Option<int>
    var fixedAttempt: Option<int>
    var fixedEvent: Option<string>
    var boundIdentity: bool

    constructor (setup: Setup, receipt: Receipt, remote: Remote, runId: Option<int>)
      ensures this.setup == setup && this.receipt == receipt && this.remote == remote
      ensures retryable == {} && releaseAssets == None && fixedRunId == runId
      ensures fixedAttempt == None && fixedEvent == None && !boundIdentity
    {
      this.setup, this.receipt, this.remote := setup, receipt, remote;
      retryable, releaseAssets := {}, None;
      fixedRunId, fixedAttempt, fixedEvent, boundIdentity := runId, None, None, false;
    }

    ghost function Now(): State
      reads this, receipt, remote
    {
      State(remote.log, receipt.surfaces, receipt.errors, receipt.headSha, receipt.runId, receipt.runAttempt,
            fixedRunId, fixedAttempt, fixedEvent, boundIdentity, retryable, releaseAssets, receipt.jobs, receipt.assets)
    }

    /** Every answer but the pending ones was heeded. */
    ghost predicate Heeds(pending: set<Event>)
      reads this, receipt, remote
    {
      Heeded(setup, Now(), pending)
    }

    /** Since event `n` of the log, something kept the check from completing. */
    ghost predicate HeldUp(n: int)
      reads this, receipt, remote
    {
      Hindered(setup, Now(), n)
    }

    /** What a step leaves: an end that means what it says, or a state from which polling may go on. */
    ghost predicate Stands(next: Next)
      reads this, receipt, remote
    {
      if next.Finish? then Settled(setup, Now()) else Ready(setup, Now()) && Heeds({})
    }

    /** Reads the clock once, and sleeps for the polling interval or what is left of the time, if any is. */
    method SleepUntilNextPoll() returns (slept: bool)
      requires setup.pollIntervalMs > 0
      modifies remote
      ensures |remote.log| > |old(remote.log)| && remote.log[|old(remote.log)|].ClockRead?
      ensures var reading := remote.log[|old(remote.log)|].reading;
              && (slept <==> reading.At? && reading.ms < setup.deadlineAt)
              && remote.log == old(remote.log) + [ClockRead(reading)]
                   + if slept then [Slept(Min(setup.pollIntervalMs, setup.deadlineAt - reading.ms))] else []
      ensures Elapsed(setup, old(remote.log), remote.log, slept)
      ensures !slept ==> NoFurtherPoll(remote.log, setup.deadlineAt)
    {
      var reading := remote.Now();
      ReadingTakesNoTime(setup, old(remote.log), reading);
      if reading.InvalidDate? { return false; }
      var remaining := setup.deadlineAt - reading.ms;
      if remaining <= 0 { return false; }
      remote.Sleep(Min(setup.pollIntervalMs, remaining));
      SleepingTakesTime(setup, old(remote.log), reading.ms);
      assert remote.log == old(remote.log) + [ClockRead(At(reading.ms)), Slept(Min(setup.pollIntervalMs, remaining))];
      return true;
    }

    /** Sleeps if there is a next poll; otherwise leaves the surface unresolved and ends the check. */
    method SleepOrGiveUp(surface: SurfaceName) returns (next: Next)
      requires Ready(setup, Now()) && Heeds({})
      requires || receipt.surfaces.Get(surface) == Unresolved
               || (&& surface == Identity && receipt.surfaces.Get(Identity) == Pass && AllOthersProven(receipt.surfaces)
                   && |remote.log| > 0 && remote.log[|remote.log| - 1] == TagPeeled(PeelRetry))
      modifies receipt`surfaces, remote
      ensures next != Proceed && Stands(next) && Advances(setup, old(Now()), Now(), next.PollAgain?)
      ensures next.PollAgain? && |old(remote.log)| > 0 && old(remote.log)[|old(remote.log)| - 1].TagPeeled? ==>
                RestsAfterPeel(remote.log)
    {
      hide Surfaces.Get, Surfaces.With, Evidence, OneIdentity, Settled, LaneSkips, FailuresOnRecord, BindingHolds,
           FoundOut, Explained, Caused, Advances, AllFine, WasDelayed;
      ghost var s := Now();
      var slept := SleepUntilNextPoll();
      LogGrowsElsewhere(setup, s, remote.log);
      HeedGrows(setup, s, remote.log, {});
      ClockSteps(setup, s, remote.log, slept);
      ghost var t := s.(log := remote.log);
      assert Now() == t;
      if slept { return PollAgain; }
      receipt.SetSurface(surface, Unresolved);
      GivesUp(setup, t, surface);
      assert Now() == t.(surfaces := t.surfaces.With(surface, Unresolved));
      StepsCompose(setup, s, t, Now(), false);
      return Finish;
    }

    /** The log accounts for a failure of this surface. */
    ghost predicate HasCause(surface: SurfaceName, code: string)
      reads this, receipt, remote
    {
      Caused(remote.log, setup.target, setup.platform, IdentifiedIn(Now()), ErrorRecord(surface, code))
    }

    method AddFailure(surface: SurfaceName, code: string)
      requires FailuresOnRecord(Now()) && Explained(setup, Now()) && HasCause(surface, code)
      requires surface != Identity ==> receipt.surfaces.Get(surface) != Pass
      requires boundIdentity ==> receipt.surfaces.Get(Identity) != Unresolved
      modifies receipt`surfaces, receipt`errors
      ensures Now() == old(Now()).(surfaces := old(receipt.surfaces).With(surface, Failed),
                                   errors := old(receipt.errors) + [ErrorRecord(surface, code)])
      ensures FailuresOnRecord(Now()) && Settled(setup, Now()) && Advances(setup, old(Now()), Now(), false)
    {
      hide Caused, AllCaused;
      receipt.AddFailure(surface, code);
      FailureSettles(setup, old(Now()), surface, code);
    }

    /** Asks a question about nothing but the release, its run and its attempt. */
    method AskJson(request: Request) returns (reply: Reply<Json>)
      requires Sound(setup, Now()) && Heeds({})
      requires !request.TagRef? && !request.TagObject? && Harmless(JsonAsked(request, RetryLater), Now())
      modifies remote
      ensures Now() == old(Now()).(log := old(remote.log) + [JsonAsked(request, reply)])
      ensures Sound(setup, Now()) && Advances(setup, old(Now()), Now(), false)
      ensures Heeds({JsonAsked(request, reply)}) && (reply.RetryLater? ==> Heeds({}) && HeldUp(|old(remote.log)|))
    {
      hide Surfaces.Get, Surfaces.With, Evidence, OneIdentity, Settled, LaneSkips, FailuresOnRecord, BindingHolds,
           FoundOut, Explained, Caused, Advances, AllFine, WasDelayed;
      ghost var s := Now();
      reply := remote.RequestJson(request);
      LogGrowsElsewhere(setup, s, remote.log);
      QuietSteps(setup, s, remote.log);
      assert Now() == s.(log := remote.log);
      HeedGrows(setup, s, remote.log, {JsonAsked(request, reply)});
      if reply.RetryLater? {
        HeedGrows(setup, s, remote.log, {});
        HindersHere(setup, Now(), |s.log|, |s.log|);
      }
    }

    method AskBytes(url: string) returns (reply: Reply<seq<Byte>>)
      requires Sound(setup, Now()) && Heeds({})
      modifies remote
      ensures Now() == old(Now()).(log := old(remote.log) + [BytesAsked(url, reply)])
      ensures Sound(setup, Now()) && Advances(setup, old(Now()), Now(), false)
      ensures Heeds({BytesAsked(url, reply)}) && (reply.RetryLater? ==> Heeds({}) && HeldUp(|old(remote.log)|))
    {
      hide Surfaces.Get, Surfaces.With, Evidence, OneIdentity, Settled, LaneSkips, FailuresOnRecord, BindingHolds,
           FoundOut, Explained, Caused, Advances, AllFine, WasDelayed;
      ghost var s := Now();
      reply := remote.RequestBytes(url);
      LogGrowsElsewhere(setup, s, remote.log);
      QuietSteps(setup, s, remote.log);
      assert Now() == s.(log := remote.log);
      HeedGrows(setup, s, remote.log, {BytesAsked(url, reply)});
      if reply.RetryLater? {
        HeedGrows(setup, s, remote.log, {});
        HindersHere(setup, Now(), |s.log|, |s.log|);
      }
    }

    method MarkRetryable(surface: SurfaceName)
      requires Sound(setup, Now()) && receipt.surfaces.Get(surface) == Unresolved
      modifies this`retryable, receipt`surfaces
      ensures Now() == old(Now()).(retryable := old(retryable) + {surface})
      ensures Sound(setup, Now()) && Advances(setup, old(Now()), Now(), false)
      ensures old(Heeds({})) ==> Heeds({})
    {
      hide Surfaces.Get, Surfaces.With, Evidence, OneIdentity, Settled, LaneSkips, FailuresOnRecord, BindingHolds,
           FoundOut, Explained, Caused, Advances, AllFine, WasDelayed;
      ghost var s := Now();
      MarkedForRetry(setup, s, surface);
      retryable := receipt.MarkRetryable(retryable, surface);
      if Heeded(setup, s, {}) { HeedKept(setup, s, Now(), {}, {}); }
    }

    /** A failure of a surface once the identity is bound; the check may still go on. */
    method Fail(surface: SurfaceName, code: string)
      requires Sound(setup, Now()) && boundIdentity && HasCause(surface, code)
      requires surface == Identity || receipt.surfaces.Get(surface) == Unresolved
      modifies receipt`surfaces, receipt`errors
      ensures Now() == old(Now()).(surfaces := old(receipt.surfaces).With(surface, Failed),
                                   errors := old(receipt.errors) + [ErrorRecord(surface, code)])
      ensures Sound(setup, Now()) && Settled(setup, Now()) && Advances(setup, old(Now()), Now(), false)
    {
      hide Surfaces.Get, Surfaces.With, Evidence, OneIdentity, Settled, LaneSkips, FailuresOnRecord, BindingHolds,
           FoundOut, Explained, Caused, Advances, AllFine, WasDelayed;
      SoundMayFail(setup, Now());
      FailureKeeps(setup, Now(), surface, code);
      AddFailure(surface, code);
    }

    /** Peels the tag again and compares: the same head, an answer to be asked for again, or a failure on record. */
    method EnsureBoundTagUnchanged() returns (tag: TagState)
      requires Sound(setup, Now()) && Heeds({})
      modifies receipt`surfaces, receipt`errors, remote
      ensures Advances(setup, old(Now()), Now(), false)
      ensures !tag.Moved? ==> Now() == old(Now()).(log := remote.log) && Sound(setup, Now()) && Heeds({})
      ensures tag.Moved? && receipt.headSha.Some? ==>
                Settled(setup, Now()) && receipt.errors != [] && receipt.surfaces.Get(Identity) == Failed
      ensures !tag.Moved? ==> |remote.log| > 0 && remote.log[|remote.log| - 1].TagPeeled?
      ensures tag.Same? ==> receipt.headSha.Some? && EndsAtTag(remote.log, setup.target.tag, receipt.headSha.value)
      ensures tag.Retry? ==>
                HeldUp(|old(remote.log)|) && |remote.log| > 0 && remote.log[|remote.log| - 1] == TagPeeled(PeelRetry)
    {
      hide Surfaces.Get, Surfaces.With, Evidence, OneIdentity, Settled, LaneSkips, FailuresOnRecord, BindingHolds,
           FoundOut, Explained, Caused, Advances, AllFine, WasDelayed, PeelEndsIn;
      ghost var s := Now();
      if receipt.headSha.None? {
        QuietSteps(setup, s, s.log);
        return Moved;
      }
      var peeled := PeelTag(remote, setup.target.tag);
      PeelSteps(setup, s, remote.log, peeled);
      ghost var t := s.(log := remote.log);
      assert Now() == t;
      MayFail(setup, s, t.log);
      match peeled {
        case PeelRetry =>
          LogGrows(setup, s, t.log);
          return Retry;
        case PeelFailed(code) =>
          PeelCauses(remote.log, setup.target, setup.platform, IdentifiedIn(Now()), code);
          AddFailure(Identity, code);
          StepsCompose(setup, s, t, Now(), false);
          return Moved;
        case Peeled(sha) =>
          if Some(sha) != receipt.headSha {
            HeadWasPeeled(setup, s);
            MoveCauses(remote.log, setup.target, setup.platform, IdentifiedIn(Now()), sha);
            AddFailure(Identity, "tag_head_changed");
            StepsCompose(setup, s, t, Now(), false);
            return Moved;
          }
          LogGrows(setup, s, t.log);
          HeedKept(setup, t, t, {TagPeeled(peeled)}, {});
          assert PeeledSince(remote.log, |s.log|, setup.target.tag, sha);
          return Same;
      }
    }

    method RetryOrFinalize(surface: SurfaceName) returns (next: Next)
      requires Ready(setup, Now()) && Heeds({}) && receipt.surfaces.Get(surface) == Unresolved
      modifies receipt`surfaces, receipt`errors, remote
      ensures next != Proceed && Stands(next) && Advances(setup, old(Now()), Now(), next.PollAgain?)
      ensures next.PollAgain? && old(receipt.headSha).Some? ==> RestsAfterPeel(remote.log)
    {
      hide Surfaces.Get, Surfaces.With, Evidence, OneIdentity, Settled, LaneSkips, FailuresOnRecord, BindingHolds,
           FoundOut, Explained, Caused, Advances, AllFine, WasDelayed;
      ghost var s := Now();
      QuietSteps(setup, s, s.log);
      if receipt.headSha.Some? {
        var tag := EnsureBoundTagUnchanged();
        if tag.Moved? { return Finish; }
      }
      ghost var t := Now();
      next := SleepOrGiveUp(surface);
      StepsCompose(setup, s, t, Now(), next.PollAgain?);
    }

    method BindHead() returns (next: Next)
      requires Ready(setup, Now()) && Heeds({})
      modifies receipt, remote
      ensures Stands(next) && Advances(setup, old(Now()), Now(), next.PollAgain?)
      ensures if next.Proceed? then receipt.headSha.Some? else HeldUp(|old(remote.log)|)
      ensures next.PollAgain? ==> RestsAfterPeel(remote.log)
    {
      hide Surfaces.Get, Surfaces.With, Evidence, OneIdentity, Settled, LaneSkips, FailuresOnRecord, BindingHolds,
           FoundOut, Explained, Caused, Advances, AllFine, WasDelayed, PeelEndsIn, RestsAfterPeel, TagsAccounted,
           Elapsed;
      ghost var s := Now();
      QuietSteps(setup, s, s.log);
      if receipt.headSha.Some? { return Proceed; }
      BoundHasHead(setup, s);
      var peeled := PeelTag(remote, setup.target.tag);
      PeelSteps(setup, s, remote.log, peeled);
      ghost var t := s.(log := remote.log);
      assert Now() == t;
      MayFail(setup, s, t.log);
      match peeled {
        case PeelRetry =>
          LogGrows(setup, s, t.log);
          next := SleepOrGiveUp(Identity);
          HindranceKept(setup, t, Now(), next.PollAgain?, |s.log|, |s.log|);
        case PeelFailed(code) =>
          PeelCauses(remote.log, setup.target, setup.platform, IdentifiedIn(Now()), code);
          AddFailure(Identity, code);
          next := Finish;
        case Peeled(sha) =>
          HeadBound(setup, s, t.log, sha);
          receipt.headSha := Some(sha);
          assert Now() == s.(log := t.log, headSha := Some(sha));
          next := Proceed;
          HeadSteps(setup, t, sha);
          HeedKept(setup, t, Now(), {TagPeeled(peeled)}, {});
      }
      StepsCompose(setup, s, t, Now(), next.PollAgain?);
    }

    method DiscoverRun() returns (next: Next)
      requires Ready(setup, Now()) && Heeds({}) && receipt.headSha.Some?
      modifies this`fixedRunId, this`fixedAttempt, this`fixedEvent, receipt, remote
      ensures Stands(next) && Advances(setup, old(Now()), Now(), next.PollAgain?)
      ensures if next.Proceed? then receipt.headSha.Some? && fixedRunId.Some? else HeldUp(|old(remote.log)|)
      ensures next.PollAgain? ==> RestsAfterPeel(remote.log)
    {
      hide Surfaces.Get, Surfaces.With, Evidence, OneIdentity, Settled, LaneSkips, FailuresOnRecord, BindingHolds,
           FoundOut, Explained, Caused, Advances, AllFine, WasDelayed;
      ghost var s := Now();
      QuietSteps(setup, s, s.log);
      if fixedRunId.Some? { return Proceed; }
      var reply := AskJson(RunSearch(setup.target.tag));
      ghost var t := Now();
      UnboundIdentity(setup, t);
      match reply {
        case RetryLater =>
          next := RetryOrFinalize(Identity);
          HindranceKept(setup, t, Now(), next.PollAgain?, |s.log|, |s.log|);
        case Rejected =>
          NoSearchCauses(remote.log, setup.target, setup.platform, IdentifiedIn(Now()));
          AddFailure(Identity, "run_discovery_invalid");
          next := Finish;
        case Answered(page) => next := SelectDiscovered(page);
      }
      StepsCompose(setup, s, t, Now(), next.PollAgain?);
    }

    /** Takes a page of runs for what it shows: no answer at all, one run, none yet, or too many. */
    method SelectDiscovered(page: Json) returns (next: Next)
      requires Ready(setup, Now()) && receipt.headSha.Some? && fixedRunId.None?
      requires |remote.log| > 0
      requires remote.log[|remote.log| - 1] == JsonAsked(RunSearch(setup.target.tag), Answered(page))
      requires Heeds({JsonAsked(RunSearch(setup.target.tag), Answered(page))})
      modifies this`fixedRunId, this`fixedAttempt, this`fixedEvent, receipt, remote
      ensures Stands(next) && Advances(setup, old(Now()), Now(), next.PollAgain?)
      ensures if next.Proceed? then receipt.headSha.Some? && fixedRunId.Some? else HeldUp(|old(remote.log)| - 1)
      ensures next.PollAgain? ==> RestsAfterPeel(remote.log)
    {
      hide Surfaces.Get, Surfaces.With, Evidence, OneIdentity, Settled, LaneSkips, FailuresOnRecord, BindingHolds,
           FoundOut, Explained, Caused, Advances, AllFine, WasDelayed, Discovers, Sound, ListedRuns, PageOf, FineSearch,
               Hinders, PageComplete;
      ghost var s := Now();
      UnboundIdentity(setup, s);
      var decoded := DecodeDiscovery(page, setup.target.tag, receipt.headSha.value);
      DiscoveryHeard(setup, s, page, decoded);
      match decoded {
        case Incomplete =>
          IncompleteEnds(setup, s);
          receipt.SetSurface(Identity, Unresolved);
          next := Finish;
        case Invalid =>
          SearchCauses(remote.log, setup.target, setup.platform, IdentifiedIn(Now()), page, Invalid);
          AddFailure(Identity, "run_discovery_invalid");
          next := Finish;
        case Ambiguous =>
          SearchCauses(remote.log, setup.target, setup.platform, IdentifiedIn(Now()), page, Ambiguous);
          AddFailure(Identity, "run_discovery_ambiguous");
          next := Finish;
        case NotFound => next := RetryOrFinalize(Identity);
        case Found(run) =>
          RunFound(setup, s, run.id, run.attempt);
          fixedRunId, fixedAttempt, fixedEvent := Some(run.id), Some(run.attempt), Some("push");
          receipt.runId, receipt.runAttempt := fixedRunId, fixedAttempt;
          next := Proceed;
      }
      if decoded.NotFound? || decoded.Incomplete? {
        HindranceKept(setup, s, Now(), next.PollAgain?, |s.log| - 1, |s.log| - 1);
      }
    }

    /** Records what a run of the bound identity says about the workflow. */
    method RecordWorkflowStatus(v: Json, run: Run)
      requires Sound(setup, Now()) && boundIdentity && receipt.surfaces.Get(Workflow) == Unresolved
      requires IsBoundRun(v, run) && fixedEvent == Some(run.event)
      requires Heeds({JsonAsked(RunById(fixedRunId.value), Answered(v))})
      modifies this`retryable, receipt`surfaces, receipt`errors
      ensures Sound(setup, Now()) && Heeds({}) && Advances(setup, old(Now()), Now(), false)
      ensures Now() == old(Now()).(surfaces := receipt.surfaces, errors := receipt.errors, retryable := retryable)
      ensures run.status != "completed" ==>
                && receipt.surfaces == old(receipt.surfaces) && receipt.errors == old(receipt.errors)
                && retryable == old(retryable) + {Workflow}
      ensures run.status == "completed" && run.conclusion != Some(Str("success")) ==>
                && receipt.surfaces == old(receipt.surfaces).With(Workflow, Failed)
                && receipt.errors == old(receipt.errors) + [ErrorRecord(Workflow, "workflow_not_success")]
      ensures run.status == "completed" && run.conclusion == Some(Str("success")) ==>
                && receipt.surfaces == old(receipt.surfaces).With(Workflow, Pass)
                && receipt.errors == old(receipt.errors) && retryable == old(retryable) - {Workflow}
    {
      hide Surfaces.Get, Surfaces.With, Evidence, OneIdentity, Settled, LaneSkips, FailuresOnRecord, BindingHolds,
           FoundOut, Explained, Caused, Advances, AllFine, WasDelayed;
      ghost var s := Now();
      BoundHasAll(setup, s);
      if run.status != "completed" {
        MarkRetryable(Workflow);
        AnswerHeeded(setup, s, Now(), RunById(fixedRunId.value), v);
      } else if run.conclusion != Some(Str("success")) {
        WorkflowCauses(remote.log, setup.target, setup.platform, IdentifiedIn(Now()), v);
        Fail(Workflow, "workflow_not_success");
      } else {
        WorkflowPasses(setup, Now());
        receipt.SetSurface(Workflow, Pass);
        retryable := retryable - {Workflow};
        AnswerHeeded(setup, s, Now(), RunById(fixedRunId.value), v);
      }
    }

    /** The run was answered for, by its number, and it is the bound one. */
    ghost predicate IsBoundRun(v: Json, run: Run)
      reads this, receipt, remote
    {
      && receipt.headSha.Some? && fixedRunId.Some? && fixedAttempt.Some?
      && JsonAsked(RunById(fixedRunId.value), Answered(v)) in remote.log
      && DecodeRun(v) == Some(run)
      && RunOf(v, setup.target.tag, receipt.headSha.value, fixedRunId.value, fixedAttempt.value)
    }

    method BindIdentity() returns (next: Next, boundNow: bool)
      requires Ready(setup, Now()) && Heeds({}) && receipt.headSha.Some? && fixedRunId.Some?
      modifies this`fixedAttempt, this`fixedEvent, this`boundIdentity, this`retryable, receipt, remote
      ensures next.Proceed? ==>
                Sound(setup, Now()) && Heeds({}) && OnlyFailed(Now(), {Identity, Workflow}) && boundIdentity
      ensures !next.Proceed? ==> Stands(next) && HeldUp(|old(remote.log)|)
      ensures next.Proceed? && !boundNow ==> Now() == old(Now())
      ensures next.Proceed? && boundNow && receipt.surfaces.Get(Workflow) == Unresolved ==> HeldUp(|old(remote.log)|)
      ensures Advances(setup, old(Now()), Now(), next.PollAgain?)
      ensures next.PollAgain? ==> RestsAfterPeel(remote.log)
    {
      hide Surfaces.Get, Surfaces.With, Evidence, OneIdentity, Settled, LaneSkips, FailuresOnRecord, BindingHolds,
           FoundOut, Explained, Caused, Advances, AllFine, WasDelayed, DecodeRun;
      ghost var s := Now();
      QuietSteps(setup, s, s.log);
      if boundIdentity { return Proceed, false; }
      boundNow := false;
      receipt.runId := fixedRunId;
      RunIdNoted(setup, s);
      ghost var r := Now();
      assert r == s.(receiptRunId := s.runId);
      HeedKept(setup, s, r, {}, {});
      var reply := AskJson(RunById(fixedRunId.value));
      ghost var t := Now();
      StepsCompose(setup, s, r, t, false);
      UnboundIdentity(setup, t);
      match reply {
        case RetryLater =>
          next := RetryOrFinalize(Workflow);
          HindranceKept(setup, t, Now(), next.PollAgain?, |s.log|, |s.log|);
        case Rejected =>
          NoRunCauses(remote.log, setup.target, setup.platform, IdentifiedIn(Now()));
          AddFailure(Identity, "fixed_run_invalid");
          next := Finish;
        case Answered(v) =>
          boundNow := BindTo(v);
          next := if boundNow then Proceed else Finish;
          if boundNow && receipt.surfaces.Get(Workflow) == Unresolved {
            HindersHere(setup, t, |s.log|, |s.log|);
            HindranceKept(setup, t, Now(), false, |s.log|, |s.log|);
          }
      }
      StepsCompose(setup, s, t, Now(), next.PollAgain?);
    }

    /** Binds the identity to the run an answer describes, unless it is another run or another attempt. */
    method BindTo(v: Json) returns (bound: bool)
      requires Ready(setup, Now()) && !boundIdentity && receipt.headSha.Some? && fixedRunId.Some?
      requires receipt.runId == fixedRunId && JsonAsked(RunById(fixedRunId.value), Answered(v)) in remote.log
      requires Heeds({JsonAsked(RunById(fixedRunId.value), Answered(v))})
      modifies this`fixedAttempt, this`fixedEvent, this`boundIdentity, this`retryable, receipt, remote
      ensures bound <==>
                DecodeBoundRun(v, setup.target.tag, old(receipt.headSha.value), old(fixedRunId.value),
                               old(fixedEvent), old(fixedAttempt)).Bound?
      ensures bound ==>
                Sound(setup, Now()) && Heeds({}) && OnlyFailed(Now(), {Identity, Workflow}) && boundIdentity
      ensures bound && receipt.surfaces.Get(Workflow) == Unresolved ==>
                DecodeRun(v).Some? && DecodeRun(v).value.status != "completed"
      ensures !bound ==> Settled(setup, Now()) && receipt.errors != []
      ensures Advances(setup, old(Now()), Now(), false)
    {
      hide Surfaces.Get, Surfaces.With, Evidence, OneIdentity, Settled, LaneSkips, FailuresOnRecord, BindingHolds,
           FoundOut, Explained, Caused, Advances, AllFine, WasDelayed, Sound, DecodeRun, DecodeBoundRun,
               HasMatchingRunIdentity, FineAnswer;
      ghost var t := Now();
      UnboundIdentity(setup, t);
      var decoded :=
        DecodeBoundRun(v, setup.target.tag, receipt.headSha.value, fixedRunId.value, fixedEvent, fixedAttempt);
      match decoded {
        case Unbound(code) =>
          RunCauses(remote.log, setup.target, setup.platform, IdentifiedIn(Now()), v, code);
          AddFailure(Identity, code);
          bound := false;
        case Bound(run) =>
          BoundIsTheRelease(v, setup.target.tag, receipt.headSha.value, fixedRunId.value, fixedEvent, fixedAttempt);
          TakeRun(run, JsonAsked(RunById(fixedRunId.value), Answered(v)));
          bound := true;
          ghost var u := Now();
          RecordWorkflowStatus(v, run);
          StepsCompose(setup, t, u, Now(), false);
      }
    }

    /** The run's event and attempt become the fixed ones, where none were, and the identity passes. */
    method TakeRun(run: Run, ghost question: Event)
      requires Ready(setup, Now()) && !boundIdentity && receipt.headSha.Some? && fixedRunId.Some?
      requires RunSeen(setup.givenRunId, remote.log, fixedRunId.value, Some(run.event), Some(run.attempt))
      requires receipt.runId == fixedRunId && IsRunEvent(run.event) && Heeds({question})
      requires fixedEvent.Some? ==> fixedEvent == Some(run.event)
      requires fixedAttempt.Some? ==> fixedAttempt == Some(run.attempt)
      modifies this`fixedAttempt, this`fixedEvent, this`boundIdentity, receipt
      ensures Ready(setup, Now()) && Heeds({question}) && Advances(setup, old(Now()), Now(), false)
      ensures Now() == old(Now()).(surfaces := old(receipt.surfaces).With(Identity, Pass), bound := true,
                                   attempt := Some(run.attempt), receiptAttempt := Some(run.attempt),
                                   event := Some(run.event))
      ensures receipt.surfaces.Get(Workflow) == Unresolved
    {
      hide Surfaces.Get, Surfaces.With, Evidence, OneIdentity, Settled, LaneSkips, FailuresOnRecord, BindingHolds,
           FoundOut, Explained, Caused, Advances, AllFine, WasDelayed, Sound, RunSeen;
      ghost var t := Now();
      UnboundIdentity(setup, t);
      IdentityBound(setup, t, run.attempt, Some(run.event));
      if fixedEvent.None? && IsRunEvent(run.event) { fixedEvent := Some(run.event); }
      if fixedAttempt.None? {
        fixedAttempt := Some(run.attempt);
        receipt.runAttempt := fixedAttempt;
      }
      boundIdentity := true;
      receipt.SetSurface(Identity, Pass);
      HeedKept(setup, t, Now(), {question}, {question});
    }

    /** Asks again about a run that had not finished when it was last seen. */
    method RefreshWorkflow()
      requires Sound(setup, Now()) && Heeds({}) && OnlyFailed(Now(), {Identity}) && boundIdentity
      requires receipt.surfaces.Get(Workflow) == Unresolved
      modifies this`retryable, receipt`surfaces, receipt`errors, remote
      ensures Sound(setup, Now()) && Heeds({}) && OnlyFailed(Now(), {Identity, Workflow}) && boundIdentity
      ensures Advances(setup, old(Now()), Now(), false)
      ensures fixedRunId.Some? && |remote.log| == |old(remote.log)| + 1 && old(remote.log) <= remote.log
      ensures var asked := remote.log[|old(remote.log)|];
              && asked.JsonAsked? && asked.request == RunById(fixedRunId.value)
              && receipt.errors == old(receipt.errors) + RunErrors(setup.target.tag, IdentifiedIn(Now()), asked.json)
              && (receipt.surfaces.Get(Workflow) == Pass <==>
                    RunPasses(setup.target.tag, IdentifiedIn(Now()), asked.json))
      ensures receipt.surfaces.Get(Workflow) == Unresolved ==> HeldUp(|old(remote.log)|)
    {
      hide Surfaces.Get, Surfaces.With, Evidence, OneIdentity, Settled, LaneSkips, FailuresOnRecord, BindingHolds,
           FoundOut, Explained, Caused, Advances, AllFine, WasDelayed, DecodeRun;
      ghost var s := Now();
      BoundHasAll(setup, s);
      var reply := AskJson(RunById(fixedRunId.value));
      ghost var t := Now();
      match reply {
        case RetryLater =>
          MarkRetryable(Workflow);
          HindranceKept(setup, t, Now(), false, |s.log|, |s.log|);
        case Rejected =>
          NoRunCauses(remote.log, setup.target, setup.platform, IdentifiedIn(Now()));
          Fail(Identity, "fixed_run_invalid");
        case Answered(v) =>
          var decoded :=
            DecodeBoundRun(v, setup.target.tag, receipt.headSha.value, fixedRunId.value, fixedEvent, fixedAttempt);
          match decoded {
            case Unbound(code) =>
              RunCauses(remote.log, setup.target, setup.platform, IdentifiedIn(Now()), v, code);
              Fail(Identity, code);
            case Bound(run) =>
              RecordWorkflowStatus(v, run);
              if run.status != "completed" {
                HindersHere(setup, t, |s.log|, |s.log|);
                HindranceKept(setup, t, Now(), false, |s.log|, |s.log|);
              }
          }
      }
      StepsCompose(setup, s, t, Now(), false);
    }

    method CheckJobs()
      requires Sound(setup, Now()) && Heeds({}) && OnlyFailed(Now(), {Identity}) && boundIdentity
      requires receipt.surfaces.Get(Jobs) == Unresolved
      modifies this`retryable, receipt`surfaces, receipt`errors, receipt`jobs, remote
      ensures Sound(setup, Now()) && Heeds({}) && OnlyFailed(Now(), {Identity, Jobs}) && boundIdentity
      ensures receipt.surfaces.Get(Workflow) == old(receipt.surfaces).Get(Workflow)
      ensures Advances(setup, old(Now()), Now(), false)
      ensures fixedRunId.Some? && fixedAttempt.Some?
      ensures |remote.log| == |old(remote.log)| + 1 && old(remote.log) <= remote.log
      ensures var asked := remote.log[|old(remote.log)|];
              && asked.JsonAsked? && asked.request == JobsOf(fixedRunId.value, fixedAttempt.value)
              && receipt.surfaces.Get(Jobs)
                 == (match asked.json
                     case RetryLater => Unresolved
                     case Rejected => Failed
                     case Answered(v) => if FineJobs(setup.target, v) then Pass else Failed)
      ensures receipt.surfaces.Get(Jobs) == Unresolved ==> HeldUp(|old(remote.log)|)
    {
      hide Surfaces.Get, Surfaces.With, Evidence, OneIdentity, Settled, LaneSkips, FailuresOnRecord, BindingHolds,
           FoundOut, Explained, Caused, Advances, AllFine, WasDelayed, JobsMatch, ListsJobs;
      ghost var s := Now();
      BoundHasAll(setup, s);
      var reply := AskJson(JobsOf(fixedRunId.value, fixedAttempt.value));
      ghost var t := Now();
      match reply {
        case RetryLater =>
          MarkRetryable(Jobs);
          HindranceKept(setup, t, Now(), false, |s.log|, |s.log|);
        case Rejected =>
          NoJobsCause(remote.log, setup.target, setup.platform, IdentifiedIn(Now()));
          Fail(Jobs, "jobs_response_invalid");
        case Answered(v) =>
          var decoded := DecodeJobs(v, setup.target.expectedJobs, setup.target.lane);
          match decoded {
            case Failure(code) =>
              JobsCauses(remote.log, setup.target, setup.platform, IdentifiedIn(Now()), v, code);
              Fail(Jobs, code);
            case Success(jobs) =>
              JobsPass(setup, t, jobs);
              receipt.jobs := jobs;
              receipt.SetSurface(Jobs, Pass);
              retryable := retryable - {Jobs};
              AnswerHeeded(setup, t, Now(), JobsOf(fixedRunId.value, fixedAttempt.value), v);
          }
      }
      StepsCompose(setup, s, t, Now(), false);
    }

    /** What observing a release leaves of a state: nothing withdrawn, other surfaces and marks untouched. */
    twostate predicate ObservedRelease()
      reads this, receipt, remote
    {
      && Sound(setup, Now()) && Heeds({}) && boundIdentity && Advances(setup, old(Now()), Now(), false)
      && (forall x :: x !in {GithubRelease, ReleaseAssets, Checksums} ==>
            receipt.surfaces.Get(x) == old(receipt.surfaces).Get(x))
    }

    /** The surfaces are proven, or something held the check up since event `n`. */
    ghost predicate ProvenOrHeld(which: set<SurfaceName>, n: int)
      reads this, receipt, remote
    {
      (forall x :: x in which ==> receipt.surfaces.Get(x) in {Pass, Skipped}) || HeldUp(n)
    }

    method ObserveReleaseProof()
      requires Sound(setup, Now()) && Heeds({}) && OnlyFailed(Now(), {Identity, Workflow, Jobs}) && boundIdentity
      modifies this`retryable, this`releaseAssets, receipt, remote
      ensures ObservedRelease()
      ensures receipt.surfaces.Get(GithubRelease) == Unresolved ==>
                GithubRelease in retryable || receipt.surfaces.Get(ReleaseAssets) == Failed
      ensures receipt.surfaces.Get(GithubRelease) == Pass && receipt.surfaces.Get(ReleaseAssets) == Unresolved ==>
                ReleaseAssets in retryable || receipt.surfaces.Get(Checksums) == Failed
      ensures receipt.surfaces.Get(GithubRelease) == Pass && receipt.surfaces.Get(Checksums) == Unresolved ==>
                ReleaseAssets in retryable || receipt.surfaces.Get(ReleaseAssets) == Failed
      ensures ProvenOrHeld({GithubRelease, ReleaseAssets, Checksums}, |old(remote.log)|)
    {
      hide Surfaces.Get, Surfaces.With, Evidence, OneIdentity, Settled, LaneSkips, FailuresOnRecord, BindingHolds,
           FoundOut, Explained, Caused, Advances, AllFine, WasDelayed;
      ghost var s := Now();
      QuietSteps(setup, s, s.log);
      AssetsGoTogether(setup, s);
      if receipt.surfaces.Get(GithubRelease) == Unresolved {
        ObserveRelease();
      }
      ghost var t := Now();
      AssetsGoTogether(setup, t);
      if receipt.surfaces.Get(GithubRelease) != Pass || releaseAssets.None? { return; }
      if receipt.surfaces.Get(ReleaseAssets) != Unresolved && receipt.surfaces.Get(Checksums) != Unresolved { return; }
      ObserveAssets();
      StepsCompose(setup, s, t, Now(), false);
      if HeldUp(|t.log|) { HeldSince(setup, Now(), |t.log|, |s.log|); }
    }

    method ObserveRelease()
      requires Sound(setup, Now()) && Heeds({}) && boundIdentity
      requires receipt.surfaces.Get(GithubRelease) == Unresolved && receipt.surfaces.Get(ReleaseAssets) == Unresolved
      requires receipt.surfaces.Get(Checksums) == Unresolved
      modifies this`retryable, this`releaseAssets, receipt, remote
      ensures ObservedRelease()
      ensures receipt.surfaces.Get(Checksums) == Unresolved
      ensures receipt.surfaces.Get(GithubRelease) == Unresolved ==>
                GithubRelease in retryable || receipt.surfaces.Get(ReleaseAssets) == Failed
      ensures receipt.surfaces.Get(GithubRelease) == Pass ==>
                receipt.surfaces.Get(ReleaseAssets) == Unresolved && releaseAssets.Some?
      ensures ProvenOrHeld({GithubRelease}, |old(remote.log)|)
    {
      hide Surfaces.Get, Surfaces.With, Evidence, OneIdentity, Settled, LaneSkips, FailuresOnRecord, BindingHolds,
           FoundOut, Explained, Caused, Advances, AllFine, WasDelayed, ListsAssets, SameNames;
      ghost var s := Now();
      var reply := AskJson(ReleaseByTag(setup.target.tag));
      ghost var t := Now();
      match reply {
        case RetryLater =>
          MarkRetryable(GithubRelease);
          HindranceKept(setup, t, Now(), false, |s.log|, |s.log|);
        case Rejected =>
          NoReleaseCauses(remote.log, setup.target, setup.platform, IdentifiedIn(Now()));
          Fail(GithubRelease, "github_release_response_invalid");
        case Answered(v) => JudgeRelease(v);
      }
      StepsCompose(setup, s, t, Now(), false);
    }

    /** Takes an answer about the release for what it says: a failure, or the assets it has. */
    method JudgeRelease(v: Json)
      requires Sound(setup, Now()) && boundIdentity
      requires receipt.surfaces.Get(GithubRelease) == Unresolved && receipt.surfaces.Get(ReleaseAssets) == Unresolved
      requires receipt.surfaces.Get(Checksums) == Unresolved
      requires JsonAsked(ReleaseByTag(setup.target.tag), Answered(v)) in remote.log
      requires Heeds({JsonAsked(ReleaseByTag(setup.target.tag), Answered(v))})
      modifies this`retryable, this`releaseAssets, receipt
      ensures ObservedRelease()
      ensures receipt.surfaces.Get(Checksums) == Unresolved
      ensures receipt.surfaces.Get(GithubRelease) == Unresolved ==> receipt.surfaces.Get(ReleaseAssets) == Failed
      ensures receipt.surfaces.Get(GithubRelease) == Pass ==>
                receipt.surfaces.Get(ReleaseAssets) == Unresolved && releaseAssets.Some?
      ensures receipt.surfaces.Get(GithubRelease) == Pass <==> FineRelease(setup.target, setup.platform, v)
      ensures receipt.surfaces.Get(GithubRelease) == Pass || receipt.errors != []
    {
      hide Surfaces.Get, Surfaces.With, Evidence, OneIdentity, Settled, LaneSkips, FailuresOnRecord, BindingHolds,
           FoundOut, Explained, Caused, Advances, AllFine, WasDelayed, ListsAssets, SameNames;
      var tagName, draft, prerelease := StringField(v, "tag_name"), BoolField(v, "draft"), BoolField(v, "prerelease");
      var items := ArrayField(v, "assets");
      AnsweredReleaseCauses(remote.log, setup.target, setup.platform, IdentifiedIn(Now()), v);
      if tagName.None? || draft.None? || prerelease.None? || items.None? {
        Fail(GithubRelease, "github_release_response_invalid");
        return;
      }
      receipt.prerelease := prerelease;
      if tagName != Some(setup.target.tag) {
        Fail(GithubRelease, "release_tag_mismatch");
        return;
      }
      if draft.value {
        Fail(GithubRelease, "release_is_draft");
        return;
      }
      TakeAssets(v, items.value);
    }

    /** The release passes with the assets it lists, if they are the expected ones. */
    method TakeAssets(v: Json, items: seq<Json>)
      requires Sound(setup, Now()) && boundIdentity
      requires receipt.surfaces.Get(GithubRelease) == Unresolved && receipt.surfaces.Get(ReleaseAssets) == Unresolved
      requires JsonAsked(ReleaseByTag(setup.target.tag), Answered(v)) in remote.log
      requires ReleaseCode(v, setup.target.tag).None? && ArrayField(v, "assets") == Some(items)
      requires Heeds({JsonAsked(ReleaseByTag(setup.target.tag), Answered(v))})
      modifies this`retryable, this`releaseAssets, receipt`surfaces, receipt`errors
      ensures ObservedRelease() && receipt.surfaces.Get(Checksums) == old(receipt.surfaces).Get(Checksums)
      ensures receipt.surfaces.Get(GithubRelease) == Unresolved ==> receipt.surfaces.Get(ReleaseAssets) == Failed
      ensures receipt.surfaces.Get(GithubRelease) == Pass ==>
                receipt.surfaces.Get(ReleaseAssets) == Unresolved && releaseAssets.Some?
      ensures receipt.surfaces.Get(GithubRelease) == Pass <==> FineRelease(setup.target, setup.platform, v)
      ensures receipt.surfaces.Get(GithubRelease) == Pass || receipt.errors != []
    {
      hide Surfaces.Get, Surfaces.With, Evidence, OneIdentity, Settled, LaneSkips, FailuresOnRecord, BindingHolds,
           FoundOut, Explained, Caused, Advances, AllFine, WasDelayed, ListsAssets, SameNames, RefusedWith;
      ghost var s := Now();
      var decoded := DecodeReleaseAssets(items, setup.target.expectedAssets, setup.platform.httpsUrl);
      match decoded {
        case Failure(code) =>
          AssetListCauses(remote.log, setup.target, setup.platform, IdentifiedIn(Now()), v, code);
          Fail(ReleaseAssets, code);
        case Success(assets) =>
          ReleasePasses(setup, Now(), assets);
          releaseAssets := Some(assets);
          receipt.SetSurface(GithubRelease, Pass);
          retryable := retryable - {GithubRelease};
          AnswerHeeded(setup, s, Now(), ReleaseByTag(setup.target.tag), v);
      }
    }

    /** Fetches one asset and compares its size; a failure is recorded, a missing answer marked for retry. */
    method Download(ghost name: string, asset: Asset) returns (bytes: Option<seq<Byte>>)
      requires Sound(setup, Now()) && Heeds({}) && boundIdentity
      requires receipt.surfaces.Get(ReleaseAssets) == Unresolved
      requires IsReleaseAsset(remote.log, setup.target, setup.platform, name, asset)
      modifies this`retryable, receipt`surfaces, receipt`errors, remote
      ensures Sound(setup, Now()) && Advances(setup, old(Now()), Now(), false)
      ensures old(remote.log) <= remote.log
      ensures bytes.Some? ==>
                && Now() == old(Now()).(log := remote.log) && Heeds({BytesAsked(asset.url, Answered(bytes.value))})
                && Fetched(remote.log, setup.target, setup.platform, name, asset, bytes.value)
      ensures bytes.None? ==> ReleaseAssets in retryable || receipt.surfaces.Get(ReleaseAssets) == Failed
      ensures bytes.None? ==> Heeds({}) && HeldUp(|old(remote.log)|)
      ensures forall x :: x != ReleaseAssets ==> receipt.surfaces.Get(x) == old(receipt.surfaces).Get(x)
    {
      hide Surfaces.Get, Surfaces.With, Evidence, OneIdentity, Settled, LaneSkips, FailuresOnRecord, BindingHolds,
           FoundOut, Explained, Caused, Advances, AllFine, WasDelayed;
      ghost var s := Now();
      bytes := None;
      var reply := AskBytes(asset.url);
      ghost var t := Now();
      QuietSteps(setup, t, t.log);
      AssetIsKept(s.log, t.log, setup.target, setup.platform, name, asset);
      match reply {
        case RetryLater =>
          MarkRetryable(ReleaseAssets);
          HindranceKept(setup, t, Now(), false, |s.log|, |s.log|);
        case Rejected =>
          NoAssetCauses(remote.log, setup.target, setup.platform, IdentifiedIn(Now()), name, asset);
          Fail(ReleaseAssets, "release_asset_response_invalid");
        case Answered(body) =>
          if |body| != asset.size {
            SizeCauses(remote.log, setup.target, setup.platform, IdentifiedIn(Now()), name, asset, body);
            Fail(ReleaseAssets, "release_asset_size_mismatch");
          } else {
            bytes := Some(body);
          }
      }
      StepsCompose(setup, s, t, Now(), false);
    }

    method ObserveAssets()
      requires Sound(setup, Now()) && Heeds({}) && boundIdentity
      requires receipt.surfaces.Get(GithubRelease) == Pass && releaseAssets.Some?
      requires receipt.surfaces.Get(ReleaseAssets) == Unresolved && receipt.surfaces.Get(Checksums) == Unresolved
      modifies this`retryable, receipt, remote
      ensures ObservedRelease() && receipt.surfaces.Get(GithubRelease) == Pass
      ensures receipt.surfaces.Get(ReleaseAssets) == Unresolved ==>
                ReleaseAssets in retryable || receipt.surfaces.Get(Checksums) == Failed
      ensures receipt.surfaces.Get(Checksums) == Unresolved ==>
                ReleaseAssets in retryable || receipt.surfaces.Get(ReleaseAssets) == Failed
      ensures ProvenOrHeld({GithubRelease, ReleaseAssets, Checksums}, |old(remote.log)|)
    {
      hide Surfaces.Get, Surfaces.With, Evidence, OneIdentity, Settled, LaneSkips, FailuresOnRecord, BindingHolds,
           FoundOut, Explained, Caused, Advances, AllFine, WasDelayed, Downloaded, ManifestSays, SameNames,
           ReleaseConfirmed, IsReleaseAsset, IsManifest, Payloads, ManifestProven, Sound;
      ghost var s := Now();
      QuietSteps(setup, s, s.log);
      SoundTarget(setup, s);
      AssetsAreTheRelease(setup, s);
      if CHECKSUM_NAME !in releaseAssets.value {
        LackCauses(remote.log, setup.target, setup.platform, IdentifiedIn(Now()), releaseAssets.value, CHECKSUM_NAME);
        Fail(ReleaseAssets, "release_asset_set_mismatch");
        return;
      }
      var checksumAsset := releaseAssets.value[CHECKSUM_NAME];
      var manifest := Download(CHECKSUM_NAME, checksumAsset);
      if manifest.None? { return; }
      ghost var t := Now();
      JudgeManifest(checksumAsset, manifest.value);
      StepsCompose(setup, s, t, Now(), false);
      if HeldUp(|t.log|) { HeldSince(setup, Now(), |t.log|, |s.log|); }
    }

    /** Reads the digests of the manifest, and on with the payloads they are of. */
    method JudgeManifest(checksumAsset: Asset, manifest: seq<Byte>)
      requires Sound(setup, Now()) && boundIdentity && receipt.surfaces.Get(GithubRelease) == Pass
      requires releaseAssets.Some? && CHECKSUM_NAME in releaseAssets.value
      requires checksumAsset == releaseAssets.value[CHECKSUM_NAME]
      requires receipt.surfaces.Get(ReleaseAssets) == Unresolved && receipt.surfaces.Get(Checksums) == Unresolved
      requires Fetched(remote.log, setup.target, setup.platform, CHECKSUM_NAME, checksumAsset, manifest)
      requires Heeds({BytesAsked(checksumAsset.url, Answered(manifest))})
      modifies this`retryable, receipt, remote
      ensures ObservedRelease() && receipt.surfaces.Get(GithubRelease) == Pass
      ensures receipt.surfaces.Get(ReleaseAssets) == Unresolved ==>
                ReleaseAssets in retryable || receipt.surfaces.Get(Checksums) == Failed
      ensures receipt.surfaces.Get(Checksums) == Unresolved ==>
                ReleaseAssets in retryable || receipt.surfaces.Get(ReleaseAssets) == Failed
      ensures receipt.surfaces.Get(ReleaseAssets) == Pass ==> FineManifest(setup.target, setup.platform, manifest)
      ensures ProvenOrHeld({GithubRelease, ReleaseAssets, Checksums}, |old(remote.log)|)
    {
      hide Surfaces.Get, Surfaces.With, Evidence, OneIdentity, Settled, LaneSkips, FailuresOnRecord, BindingHolds,
           FoundOut, Explained, Caused, Advances, AllFine, WasDelayed, Downloaded, ManifestSays, SameNames,
           ReleaseConfirmed, IsReleaseAsset, IsManifest, Payloads, ManifestProven, Sound;
      ghost var t := Now();
      var payloads := Payloads(setup.target.expectedAssets);
      var checksums := ParseChecksums(setup.platform.utf8(manifest), payloads);
      match checksums {
        case Failure(error) =>
          ManifestCauses(remote.log, setup.target, setup.platform, IdentifiedIn(Now()), checksumAsset, manifest, error);
          Fail(Checksums, if error.FormatInvalid? then "checksum_format_invalid" else "checksum_coverage_mismatch");
        case Success(digests) =>
          ManifestHeeded(setup, t, checksumAsset, manifest, digests);
          ObservePayloads(payloads, digests);
      }
    }

    method ObservePayloads(payloads: seq<string>, digests: map<string, string>)
      requires Sound(setup, Now()) && Heeds({}) && boundIdentity
      requires receipt.surfaces.Get(GithubRelease) == Pass && releaseAssets.Some?
      requires receipt.surfaces.Get(ReleaseAssets) == Unresolved && receipt.surfaces.Get(Checksums) == Unresolved
      requires payloads == Payloads(setup.target.expectedAssets) && SameNames(digests.Keys, payloads)
      requires CHECKSUM_NAME in releaseAssets.value
      requires ManifestProven(remote.log, setup.platform, releaseAssets.value[CHECKSUM_NAME], digests)
      modifies this`retryable, receipt, remote
      ensures ObservedRelease() && receipt.surfaces.Get(GithubRelease) == Pass
      ensures receipt.surfaces.Get(ReleaseAssets) == Unresolved ==>
                ReleaseAssets in retryable || receipt.surfaces.Get(Checksums) == Failed
      ensures receipt.surfaces.Get(Checksums) == Unresolved ==>
                ReleaseAssets in retryable || receipt.surfaces.Get(ReleaseAssets) == Failed
      ensures ProvenOrHeld({GithubRelease, ReleaseAssets, Checksums}, |old(remote.log)|)
    {
      hide Surfaces.Get, Surfaces.With, Evidence, OneIdentity, Settled, LaneSkips, FailuresOnRecord, BindingHolds,
           FoundOut, Explained, Caused, Advances, AllFine, WasDelayed, Downloaded, ManifestSays, ManifestProven,
               Payloads, SameNames;
      ghost var s := Now();
      QuietSteps(setup, s, s.log);
      SameNamesAreKeys(digests.Keys, payloads);
      var assets := releaseAssets.value;
      for i := 0 to |payloads|
        invariant Sound(setup, Now()) && Heeds({}) && Now() == s.(log := remote.log) && s.log <= remote.log
        invariant Advances(setup, s, Now(), false)
        invariant ManifestProven(remote.log, setup.platform, assets[CHECKSUM_NAME], digests)
        invariant forall k :: 0 <= k < i ==> payloads[k] in assets
        invariant forall k :: 0 <= k < i ==>
                    PayloadProven(remote.log, setup.platform, assets[payloads[k]], digests[payloads[k]])
      {
        ghost var t := Now();
        var proven := CheckPayload(payloads[i], digests);
        StepsCompose(setup, s, t, Now(), false);
        if !proven {
          HeldSince(setup, Now(), |t.log|, |s.log|);
          return;
        }
        PayloadsKept(t.log, remote.log, setup.platform);
      }
      RecordAssets(payloads, digests);
      StepsCompose(setup, s, s.(log := remote.log), Now(), false);
    }

    /** Fetches a payload and compares its digest with the manifest's. */
    method CheckPayload(name: string, digests: map<string, string>) returns (proven: bool)
      requires Sound(setup, Now()) && Heeds({}) && boundIdentity
      requires receipt.surfaces.Get(GithubRelease) == Pass && releaseAssets.Some?
      requires receipt.surfaces.Get(ReleaseAssets) == Unresolved && receipt.surfaces.Get(Checksums) == Unresolved
      requires name in Payloads(setup.target.expectedAssets) && name in digests && CHECKSUM_NAME in releaseAssets.value
      requires ManifestProven(remote.log, setup.platform, releaseAssets.value[CHECKSUM_NAME], digests)
      modifies this`retryable, receipt`surfaces, receipt`errors, remote
      ensures ObservedRelease() && receipt.surfaces.Get(GithubRelease) == Pass && old(remote.log) <= remote.log
      ensures proven ==> Now() == old(Now()).(log := remote.log)
      ensures proven ==>
                && name in releaseAssets.value
                && PayloadProven(remote.log, setup.platform, releaseAssets.value[name], digests[name])
      ensures !proven && receipt.surfaces.Get(ReleaseAssets) == Unresolved ==>
                ReleaseAssets in retryable || receipt.surfaces.Get(Checksums) == Failed
      ensures !proven && receipt.surfaces.Get(Checksums) == Unresolved ==>
                ReleaseAssets in retryable || receipt.surfaces.Get(ReleaseAssets) == Failed
      ensures !proven ==> HeldUp(|old(remote.log)|)
    {
      hide Surfaces.Get, Surfaces.With, Evidence, OneIdentity, Settled, LaneSkips, FailuresOnRecord, BindingHolds,
           FoundOut, Explained, Caused, Advances, AllFine, WasDelayed, Sound, Downloaded, ManifestSays, ManifestProven,
               Payloads,
           SameNames, ReleaseConfirmed, IsReleaseAsset;
      ghost var t := Now();
      QuietSteps(setup, t, t.log);
      SoundTarget(setup, t);
      AssetsAreTheRelease(setup, t);
      if name !in releaseAssets.value {
        LackCauses(remote.log, setup.target, setup.platform, IdentifiedIn(Now()), releaseAssets.value, name);
        Fail(ReleaseAssets, "release_asset_set_mismatch");
        return false;
      }
      var asset := releaseAssets.value[name];
      var bytes := Download(name, asset);
      if bytes.None? { return false; }
      ghost var u := Now();
      PayloadsKept(t.log, u.log, setup.platform);
      proven := JudgePayload(name, asset, bytes.value, digests);
      StepsCompose(setup, t, u, Now(), false);
    }

    /** Compares the digest of a payload with the manifest's. */
    method JudgePayload(name: string, ghost asset: Asset, bytes: seq<Byte>, digests: map<string, string>)
      returns (proven: bool)
      requires Sound(setup, Now()) && boundIdentity
      requires receipt.surfaces.Get(GithubRelease) == Pass && releaseAssets.Some?
      requires receipt.surfaces.Get(Checksums) == Unresolved && CHECKSUM_NAME in releaseAssets.value
      requires name != CHECKSUM_NAME && name in digests
      requires Fetched(remote.log, setup.target, setup.platform, name, asset, bytes)
      requires ManifestProven(remote.log, setup.platform, releaseAssets.value[CHECKSUM_NAME], digests)
      requires Heeds({BytesAsked(asset.url, Answered(bytes))})
      modifies receipt`surfaces, receipt`errors
      ensures Sound(setup, Now()) && Heeds({}) && Advances(setup, old(Now()), Now(), false)
      ensures proven <==> digests[name] == setup.platform.sha256(bytes)
      ensures proven ==> Now() == old(Now()) && PayloadProven(remote.log, setup.platform, asset, digests[name])
      ensures !proven ==>
                && receipt.surfaces == old(receipt.surfaces).With(Checksums, Failed)
                && receipt.errors == old(receipt.errors) + [ErrorRecord(Checksums, "checksum_digest_mismatch")]
    {
      hide Surfaces.Get, Surfaces.With, Evidence, OneIdentity, Settled, LaneSkips, FailuresOnRecord, BindingHolds,
           FoundOut, Explained, Caused, Advances, AllFine, WasDelayed, Sound, Downloaded, ManifestSays,
           ManifestProven, IsReleaseAsset, ReleaseConfirmed;
      ghost var u := Now();
      QuietSteps(setup, u, u.log);
      AssetsAreTheRelease(setup, u);
      if digests[name] != setup.platform.sha256(bytes) {
        DigestCauses(remote.log, setup.target, setup.platform, IdentifiedIn(Now()),
                     releaseAssets.value[CHECKSUM_NAME], digests, name, asset, bytes);
        Fail(Checksums, "checksum_digest_mismatch");
        return false;
      }
      PayloadHeeded(setup, u, name, asset, bytes, releaseAssets.value[CHECKSUM_NAME], digests);
      return true;
    }

    method RecordAssets(ghost payloads: seq<string>, digests: map<string, string>)
      requires Sound(setup, Now()) && Heeds({}) && boundIdentity
      requires receipt.surfaces.Get(GithubRelease) == Pass && releaseAssets.Some?
      requires receipt.surfaces.Get(ReleaseAssets) == Unresolved && receipt.surfaces.Get(Checksums) == Unresolved
      requires payloads == Payloads(setup.target.expectedAssets) && SameNames(digests.Keys, payloads)
      requires CHECKSUM_NAME in releaseAssets.value
      requires ManifestProven(remote.log, setup.platform, releaseAssets.value[CHECKSUM_NAME], digests)
      requires forall n :: n in payloads ==>
                 n in releaseAssets.value && n in digests
                 && PayloadProven(remote.log, setup.platform, releaseAssets.value[n], digests[n])
      modifies this`retryable, receipt
      ensures Sound(setup, Now()) && Heeds({}) && Advances(setup, old(Now()), Now(), false)
      ensures receipt.surfaces == old(receipt.surfaces).With(ReleaseAssets, Pass).With(Checksums, Pass)
      ensures Now() == old(Now()).(surfaces := receipt.surfaces, retryable := retryable, rows := receipt.assets)
    {
      hide Surfaces.Get, Surfaces.With, Evidence, OneIdentity, Settled, LaneSkips, FailuresOnRecord, BindingHolds,
           FoundOut, Explained, Caused, Advances, AllFine, WasDelayed, Downloaded, ManifestSays, ManifestProven,
           PayloadProven, SameNames, Payloads, RowsAre, AssetsConfirmed;
      ghost var s := Now();
      var names := setup.target.expectedAssets;
      assert forall n :: n in names ==> n in payloads || n == CHECKSUM_NAME;
      var rows := RowsOf(names, releaseAssets.value, digests);
      AllCheckOut(remote.log, names, setup.platform, releaseAssets.value, rows, digests);
      AssetsPass(setup, Now(), rows);
      receipt.assets := rows;
      receipt.SetSurface(ReleaseAssets, Pass);
      receipt.SetSurface(Checksums, Pass);
      retryable := retryable - {ReleaseAssets} - {Checksums};
      HeedKept(setup, s, Now(), {}, {});
    }

    method ObservePinnedLspRelease()
      requires Sound(setup, Now()) && Heeds({}) && boundIdentity
      modifies this`retryable, receipt`surfaces, receipt`errors, remote
      ensures Sound(setup, Now()) && Heeds({}) && boundIdentity && Advances(setup, old(Now()), Now(), false)
      ensures forall x :: x != PinnedLspRelease ==> receipt.surfaces.Get(x) == old(receipt.surfaces).Get(x)
      ensures forall x :: x != PinnedLspRelease ==> (x in retryable <==> x in old(retryable))
      ensures receipt.surfaces.Get(PinnedLspRelease) == Unresolved ==> PinnedLspRelease in retryable
      ensures old(receipt.surfaces).Get(PinnedLspRelease) != Unresolved ==> Now() == old(Now())
      ensures ProvenOrHeld({PinnedLspRelease}, |old(remote.log)|)
    {
      hide Surfaces.Get, Surfaces.With, Evidence, OneIdentity, Settled, LaneSkips, FailuresOnRecord, BindingHolds,
           FoundOut, Explained, Caused, Advances, AllFine, WasDelayed, Sound, MarkedAfterWorkflow;
      ghost var s := Now();
      QuietSteps(setup, s, s.log);
      if receipt.surfaces.Get(PinnedLspRelease) == Unresolved {
        PinnedOnlyOnMainLane(setup, s);
      } else {
        FailedIsOnRecord(setup, s, PinnedLspRelease);
      }
      SoundTarget(setup, s);
      if !setup.target.lane.MainLane? || receipt.surfaces.Get(PinnedLspRelease) != Unresolved
         || setup.target.pinnedLspVersion.None? {
        return;
      }
      AskPinned(PinnedTag(setup.target));
    }

    method AskPinned(tag: string)
      requires Sound(setup, Now()) && Heeds({}) && boundIdentity
      requires receipt.surfaces.Get(PinnedLspRelease) == Unresolved
      requires setup.target.pinnedLspVersion.Some? && tag == PinnedTag(setup.target)
      modifies this`retryable, receipt`surfaces, receipt`errors, remote
      ensures Sound(setup, Now()) && Heeds({}) && boundIdentity && Advances(setup, old(Now()), Now(), false)
      ensures forall x :: x != PinnedLspRelease ==> receipt.surfaces.Get(x) == old(receipt.surfaces).Get(x)
      ensures forall x :: x != PinnedLspRelease ==> (x in retryable <==> x in old(retryable))
      ensures receipt.surfaces.Get(PinnedLspRelease) == Unresolved ==> PinnedLspRelease in retryable
      ensures ProvenOrHeld({PinnedLspRelease}, |old(remote.log)|)
    {
      hide Surfaces.Get, Surfaces.With, Evidence, OneIdentity, Settled, LaneSkips, FailuresOnRecord, BindingHolds,
           FoundOut, Explained, Caused, Advances, AllFine, WasDelayed, Sound, MarkedAfterWorkflow, PinnedCode;
      ghost var s := Now();
      SoundTarget(setup, s);
      var reply := AskJson(ReleaseByTag(tag));
      ghost var t := Now();
      match reply {
        case RetryLater =>
          MarkRetryable(PinnedLspRelease);
          HindranceKept(setup, t, Now(), false, |s.log|, |s.log|);
        case Rejected =>
          NoPinnedCauses(remote.log, setup.target, setup.platform, IdentifiedIn(Now()));
          Fail(PinnedLspRelease, "pinned_lsp_release_response_invalid");
        case Answered(v) => JudgePinned(v, tag);
      }
      StepsCompose(setup, s, t, Now(), false);
    }

    /** Takes an answer about the pinned release for what it says. */
    method JudgePinned(v: Json, tag: string)
      requires Sound(setup, Now()) && boundIdentity && receipt.surfaces.Get(PinnedLspRelease) == Unresolved
      requires setup.target.pinnedLspVersion.Some? && tag == PinnedTag(setup.target)
      requires JsonAsked(ReleaseByTag(tag), Answered(v)) in remote.log
      requires Heeds({JsonAsked(ReleaseByTag(tag), Answered(v))})
      modifies this`retryable, receipt`surfaces, receipt`errors
      ensures Sound(setup, Now()) && Heeds({}) && boundIdentity && Advances(setup, old(Now()), Now(), false)
      ensures forall x :: x != PinnedLspRelease ==> receipt.surfaces.Get(x) == old(receipt.surfaces).Get(x)
      ensures forall x :: x != PinnedLspRelease ==> (x in retryable <==> x in old(retryable))
      ensures receipt.surfaces.Get(PinnedLspRelease) == if PinnedCode(v, tag).None? then Pass else Failed
      ensures receipt.errors
              == old(receipt.errors)
                 + (match PinnedCode(v, tag) case Some(code) => [ErrorRecord(PinnedLspRelease, code)] case None => [])
    {
      hide Surfaces.Get, Surfaces.With, Evidence, OneIdentity, Settled, LaneSkips, FailuresOnRecord, BindingHolds,
           FoundOut, Explained, Caused, Advances, AllFine, WasDelayed, Sound;
      ghost var t := Now();
      PinnedCauses(remote.log, setup.target, setup.platform, IdentifiedIn(t), v);
      if StringField(v, "tag_name") != Some(tag) || BoolField(v, "draft").None? {
        Fail(PinnedLspRelease, "pinned_lsp_release_response_invalid");
      } else if BoolField(v, "draft").value {
        Fail(PinnedLspRelease, "pinned_lsp_release_is_draft");
      } else {
        SoundTarget(setup, t);
        PinnedPasses(setup, t);
        receipt.SetSurface(PinnedLspRelease, Pass);
        retryable := retryable - {PinnedLspRelease};
        AnswerHeeded(setup, t, Now(), ReleaseByTag(tag), v);
      }
    }

    /** Observes everything that comes after the workflow; on no failure, whatever is left unproven is marked for
        retry, and was held up. */
    method ObservePostWorkflow()
      requires Sound(setup, Now()) && Heeds({}) && OnlyFailed(Now(), {Identity, Workflow, Jobs}) && boundIdentity
      modifies this`retryable, this`releaseAssets, receipt, remote
      ensures Sound(setup, Now()) && Heeds({}) && boundIdentity && Advances(setup, old(Now()), Now(), false)
      ensures forall x :: x !in {GithubRelease, ReleaseAssets, Checksums, PinnedLspRelease} ==>
                receipt.surfaces.Get(x) == old(receipt.surfaces).Get(x)
      ensures MarkedAfterWorkflow(Now())
      ensures ProvenOrHeld({GithubRelease, ReleaseAssets, Checksums, PinnedLspRelease}, |old(remote.log)|)
    {
      hide Surfaces.Get, Surfaces.With, Evidence, OneIdentity, Settled, LaneSkips, FailuresOnRecord, BindingHolds,
           FoundOut, Explained, Caused, Advances, AllFine, WasDelayed;
      ghost var s := Now();
      ObserveReleaseProof();
      ghost var t := Now();
      AssetsGoTogether(setup, t);
      ObservePinnedLspRelease();
      StepsCompose(setup, s, t, Now(), false);
      if Hindered(setup, t, |s.log|) { HindranceKept(setup, t, Now(), false, |s.log|, |s.log|); }
      if HeldUp(|t.log|) { HeldSince(setup, Now(), |t.log|, |s.log|); }
    }

    /** How a pass ends: with everything proven, or with something that held the check up in this pass. */
    ghost predicate DoneOrHeld(next: Next, n: int)
      reads this, receipt, remote
    {
      (next.Finish? && AllSurfacesProven(receipt.surfaces)) || HeldUp(n)
    }

    /** One pass through the polling loop. */
    method Poll() returns (next: Next)
      requires Ready(setup, Now()) && Heeds({})
      modifies this, receipt, remote
      ensures next != Proceed && Stands(next) && Advances(setup, old(Now()), Now(), next.PollAgain?)
      ensures DoneOrHeld(next, |old(remote.log)|)
      ensures next.PollAgain? ==> RestsAfterPeel(remote.log)
    {
      hide Surfaces.Get, Surfaces.With, Evidence, OneIdentity, Settled, LaneSkips, FailuresOnRecord, BindingHolds,
           FoundOut, Explained, Caused, Advances, AllFine, WasDelayed, AllSurfacesProven;
      ghost var s := Now();
      next := BindHead();
      ghost var t := Now();
      if !next.Proceed? { return; }
      next := DiscoverRun();
      ghost var u := Now();
      StepsCompose(setup, s, t, u, next.PollAgain?);
      if !next.Proceed? {
        HeldSince(setup, u, |t.log|, |s.log|);
        return;
      }
      var boundNow;
      next, boundNow := BindIdentity();
      ghost var v := Now();
      StepsCompose(setup, s, u, v, next.PollAgain?);
      if HeldUp(|u.log|) { HeldSince(setup, v, |u.log|, |s.log|); }
      if !next.Proceed? { return; }
      next := AfterBinding(boundNow, |s.log|);
      StepsCompose(setup, s, v, Now(), next.PollAgain?);
    }

    method AfterBinding(boundNow: bool, ghost n: int) returns (next: Next)
      requires Sound(setup, Now()) && Heeds({}) && boundIdentity && n <= |remote.log|
      requires OnlyFailed(Now(), if boundNow then {Identity, Workflow} else {Identity})
      requires boundNow && receipt.surfaces.Get(Workflow) == Unresolved ==> HeldUp(n)
      modifies this, receipt, remote
      ensures next != Proceed && Stands(next) && Advances(setup, old(Now()), Now(), next.PollAgain?)
      ensures DoneOrHeld(next, n)
      ensures next.PollAgain? ==> RestsAfterPeel(remote.log)
    {
      hide Surfaces.Get, Surfaces.With, Evidence, OneIdentity, Settled, LaneSkips, FailuresOnRecord, BindingHolds,
           FoundOut, Explained, Caused, Advances, AllFine, WasDelayed, AllSurfacesProven;
      ghost var s := Now();
      QuietSteps(setup, s, s.log);
      if !boundNow && receipt.surfaces.Get(Workflow) == Unresolved {
        RefreshWorkflow();
        if HeldUp(|s.log|) { HeldSince(setup, Now(), |s.log|, n); }
      }
      ghost var t := Now();
      BoundHasAll(setup, t);
      if receipt.surfaces.Get(Workflow) == Unresolved {
        next := RetryOrFinalize(Workflow);
        HindranceKept(setup, t, Now(), next.PollAgain?, n, n);
      } else if receipt.surfaces.Get(Workflow) == Failed {
        ObservePostWorkflow();
        StaysFailed(setup, t, Now(), Workflow);
        FailedSettles(setup, Now(), Workflow);
        next := Finish;
      } else {
        next := AfterWorkflow(n);
      }
      StepsCompose(setup, s, t, Now(), next.PollAgain?);
    }

    method AfterWorkflow(ghost n: int) returns (next: Next)
      requires Sound(setup, Now()) && Heeds({}) && boundIdentity && OnlyFailed(Now(), {Identity}) && n <= |remote.log|
      requires receipt.surfaces.Get(Workflow) == Pass
      modifies this, receipt, remote
      ensures next != Proceed && Stands(next) && Advances(setup, old(Now()), Now(), next.PollAgain?)
      ensures DoneOrHeld(next, n)
      ensures next.PollAgain? ==> RestsAfterPeel(remote.log)
    {
      hide Surfaces.Get, Surfaces.With, Evidence, OneIdentity, Settled, LaneSkips, FailuresOnRecord, BindingHolds,
           FoundOut, Explained, Caused, Advances, AllFine, WasDelayed, AllSurfacesProven;
      ghost var s := Now();
      QuietSteps(setup, s, s.log);
      if receipt.surfaces.Get(Jobs) == Unresolved {
        CheckJobs();
        if HeldUp(|s.log|) { HeldSince(setup, Now(), |s.log|, n); }
      }
      ghost var t := Now();
      BoundHasAll(setup, t);
      if receipt.surfaces.Get(Jobs) == Unresolved {
        next := RetryOrFinalize(Jobs);
        HindranceKept(setup, t, Now(), next.PollAgain?, n, n);
      } else {
        ObservePostWorkflow();
        ghost var u := Now();
        StepsCompose(setup, s, t, u, false);
        if HeldUp(|t.log|) { HeldSince(setup, u, |t.log|, n); }
        next := Conclude(n);
        StepsCompose(setup, s, u, Now(), next.PollAgain?);
        return;
      }
      StepsCompose(setup, s, t, Now(), next.PollAgain?);
    }

    /** The end of a pass whose workflow succeeded: a failure, the last peel of a release proven in all else, or
        sleep. */
    method Conclude(ghost n: int) returns (next: Next)
      requires Sound(setup, Now()) && Heeds({}) && boundIdentity && n <= |remote.log|
      requires receipt.surfaces.Get(Workflow) == Pass && receipt.surfaces.Get(Jobs) in {Pass, Failed}
      requires MarkedAfterWorkflow(Now())
      requires ProvenOrHeld({GithubRelease, ReleaseAssets, Checksums, PinnedLspRelease}, n)
      modifies this, receipt, remote
      ensures next != Proceed && Stands(next) && Advances(setup, old(Now()), Now(), next.PollAgain?)
      ensures DoneOrHeld(next, n)
      ensures next.PollAgain? ==> RestsAfterPeel(remote.log)
    {
      hide Surfaces.Get, Surfaces.With, Evidence, OneIdentity, Settled, LaneSkips, FailuresOnRecord, BindingHolds,
           FoundOut, Explained, Caused, Advances, AllFine, WasDelayed;
      ghost var s := Now();
      QuietSteps(setup, s, s.log);
      if SomeSurface(receipt.surfaces, Failed) {
        var failed :| receipt.surfaces.Get(failed) == Failed;
        FailedSettles(setup, s, failed);
        return Finish;
      }
      NothingLeftUnmarked(setup, s);
      if !AllSurfacesProven(receipt.surfaces) && retryable == {} { return Finish; }
      BoundHasAll(setup, s);
      if !HeldUp(n) { AllProven(setup, s); }
      var proven := AllSurfacesProven(receipt.surfaces);
      var tag := EnsureBoundTagUnchanged();
      ghost var t := Now();
      if tag.Moved? { return Finish; }
      if tag.Retry? { HeldSince(setup, t, |s.log|, n); }
      if proven && tag.Same? {
        Completes(setup, t);
        return Finish;
      }
      if Hindered(setup, s, n) { HindranceKept(setup, s, t, false, n, n); }
      if proven {
        next := SleepOrGiveUp(Identity);
      } else {
        next := SleepOrStop();
      }
      HindranceKept(setup, t, Now(), next.PollAgain?, n, n);
      StepsCompose(setup, s, t, Now(), next.PollAgain?);
    }

    /** Sleeps if there is a next poll; otherwise ends the check with what is unresolved left so. */
    method SleepOrStop() returns (next: Next)
      requires Ready(setup, Now()) && Heeds({}) && !AllSurfacesProven(receipt.surfaces)
      modifies remote
      ensures next != Proceed && Stands(next) && Advances(setup, old(Now()), Now(), next.PollAgain?)
      ensures next.PollAgain? && |old(remote.log)| > 0 && old(remote.log)[|old(remote.log)| - 1].TagPeeled? ==>
                RestsAfterPeel(remote.log)
    {
      hide Surfaces.Get, Surfaces.With, Evidence, OneIdentity, Settled, LaneSkips, FailuresOnRecord, BindingHolds,
           FoundOut, Explained, Caused, Advances, AllFine, WasDelayed;
      ghost var s := Now();
      var slept := SleepUntilNextPoll();
      LogGrowsElsewhere(setup, s, remote.log);
      HeedGrows(setup, s, remote.log, {});
      ClockSteps(setup, s, remote.log, slept);
      ghost var t := s.(log := remote.log);
      assert Now() == t;
      if slept { return PollAgain; }
      StopsUnproven(setup, t);
      return Finish;
    }
  }

  /** The receipt rows, in the order of the expected names. */
  method RowsOf(names: seq<string>, assets: map<string, Asset>, digests: map<string, string>)
    returns (rows: seq<AssetRow>)
    requires forall n :: n in names ==> n in assets
    ensures RowsAre(rows, names, assets, digests)
  {
    rows := [];
    for i := 0 to |names|
      invariant |rows| == i
      invariant forall k :: 0 <= k < i ==>
                  names[k] in assets && rows[k] == ProvenRow(names[k], assets[names[k]], digests)
    {
      assert names[i] in names;
      rows := rows + [ProvenRow(names[i], assets[names[i]], digests)];
    }
  }

  /** What an answer about the bound run puts on record. */
  function RunErrors(tag: string, id: Identified, reply: Reply<Json>): seq<ErrorRecord>
    requires id.headSha.Some? && id.runId.Some?
  {
    match reply
    case RetryLater => []
    case Rejected => [ErrorRecord(Identity, "fixed_run_invalid")]
    case Answered(v) =>
      match DecodeBoundRun(v, tag, id.headSha.value, id.runId.value, id.event, id.attempt)
      case Unbound(code) => [ErrorRecord(Identity, code)]
      case Bound(run) =>
        if run.status == "completed" && run.conclusion != Some(Str("success"))
        then [ErrorRecord(Workflow, "workflow_not_success")]
        else []
  }

  predicate RunPasses(tag: string, id: Identified, reply: Reply<Json>)
    requires id.headSha.Some? && id.runId.Some?
  {
    && reply.Answered? && FineRun(tag, id, id.runId.value, reply.value)
    && DecodeRun(reply.value).value.status == "completed"
  }

  /** What a page of runs shows, with the head it was asked for, is a reason to fail, heeded, or keeps the check up. */
  lemma DiscoveryHeard(c: Setup, s: State, v: Json, r: Discovery)
    requires s.headSha.Some? && |s.log| > 0
    requires s.log[|s.log| - 1] == JsonAsked(RunSearch(c.target.tag), Answered(v))
    requires Heeded(c, s, {JsonAsked(RunSearch(c.target.tag), Answered(v))})
    requires r.Incomplete? <==> IncompletePage(v, "workflow_runs")
    requires PageOf(v, "workflow_runs").None? ==> r == Invalid
    requires PageOf(v, "workflow_runs").Some? && !r.Incomplete? ==>
               Discovers(ListedRuns(v), c.target.tag, s.headSha.value, r)
    ensures r.Incomplete? || r.NotFound? ==> Heeded(c, s, {}) && Hindered(c, s, |s.log| - 1)
    ensures r.Found? ==> SearchFound(s.log, c.target.tag, s.headSha.value, r.run.id, r.run.attempt)
    ensures r.Found? ==>
              var id, attempt := Some(r.run.id), Some(r.run.attempt);
              var t := s.(runId := id, attempt := attempt, receiptRunId := id, receiptAttempt := attempt,
                          event := Some("push"));
              StillIdentified(IdentifiedIn(s), IdentifiedIn(t)) ==> Heeded(c, t, {})
  {
    hide AllFine, WasDelayed, Discovers, ListedRuns, PageOf;
    if r.Found? || r.NotFound? {
      assert PageShows(v, c.target.tag, s.headSha.value, r);
    }
    if r.Incomplete? || r.NotFound? {
      assert FineSearch(c.target.tag, IdentifiedIn(s), v);
      AnswerHeeded(c, s, s, RunSearch(c.target.tag), v);
      HindersHere(c, s, |s.log| - 1, |s.log| - 1);
    }
    if r.Found? {
      var id, attempt := Some(r.run.id), Some(r.run.attempt);
      var t := s.(runId := id, attempt := attempt, receiptRunId := id, receiptAttempt := attempt,
          event := Some("push"));
      assert FineSearch(c.target.tag, IdentifiedIn(t), v);
      if StillIdentified(IdentifiedIn(s), IdentifiedIn(t)) {
        AnswerHeeded(c, s, t, RunSearch(c.target.tag), v);
      }
    }
  }

  lemma ManifestHeeded(c: Setup, s: State, asset: Asset, bytes: seq<Byte>, digests: map<string, string>)
    requires Heeded(c, s, {BytesAsked(asset.url, Answered(bytes))})
    requires Fetched(s.log, c.target, c.platform, CHECKSUM_NAME, asset, bytes)
    requires c.platform.utf8(bytes).Some? && ManifestSays(c.platform.utf8(bytes).value, digests)
    requires SameNames(digests.Keys, Payloads(c.target.expectedAssets))
    ensures Heeded(c, s, {}) && ManifestProven(s.log, c.platform, asset, digests)
  {
    hide AllFine, IsReleaseAsset, ManifestSays, SameNames, Payloads;
    assert FineAsset(s.log, c.target, c.platform, CHECKSUM_NAME, asset, bytes);
    BytesHeeded(c, s, s, asset.url, bytes);
  }

  lemma PayloadHeeded(c: Setup, s: State, name: string, asset: Asset, bytes: seq<Byte>, manifest: Asset,
                      digests: map<string, string>)
    requires Heeded(c, s, {BytesAsked(asset.url, Answered(bytes))}) && name != CHECKSUM_NAME
    requires Fetched(s.log, c.target, c.platform, name, asset, bytes)
    requires IsReleaseAsset(s.log, c.target, c.platform, CHECKSUM_NAME, manifest)
    requires ManifestProven(s.log, c.platform, manifest, digests)
    requires name in digests && digests[name] == c.platform.sha256(bytes)
    ensures Heeded(c, s, {})
  {
    hide AllFine, IsReleaseAsset, ManifestProven;
    assert FinePayload(s.log, c.target, c.platform, name, bytes);
    assert FineAsset(s.log, c.target, c.platform, name, asset, bytes);
    BytesHeeded(c, s, s, asset.url, bytes);
  }

  /** A peel takes no time, asks about nothing but the tag, and leaves nothing unheeded but where it ended. */
  lemma PeelSteps(c: Setup, s: State, longer: seq<Event>, result: PeelResult)
    requires Sound(c, s) && Heeded(c, s, {})
    requires s.log < longer && PeelEndsIn(longer[|s.log|..|longer| - 1], c.target.tag, result)
    requires longer[|longer| - 1] == TagPeeled(result)
    ensures TagsAccounted(longer, c.target.tag) && Advances(c, s, s.(log := longer), false)
    ensures forall e :: e in longer ==> e in s.log || e == TagPeeled(result) || AsksTag(e)
    ensures Heeded(c, s.(log := longer), {TagPeeled(result)})
    ensures result.PeelRetry? ==> Heeded(c, s.(log := longer), {}) && Hindered(c, s.(log := longer), |s.log|)
  {
    hide Surfaces.Get, Surfaces.With, Evidence, OneIdentity, LaneSkips, FailuresOnRecord, BindingHolds, FoundOut,
         AllCaused, Advances, AllFine, PeelEndsIn, TagsAccounted;
    PeelAccounted(s.log, longer, c.target.tag, result);
    PeelAsksTag(longer[|s.log|..|longer| - 1], c.target.tag, result);
    forall i | |s.log| <= i < |longer| - 1 ensures AsksTag(longer[i]) {
      assert longer[i] == longer[|s.log|..|longer| - 1][i - |s.log|];
    }
    QuietSteps(c, s, longer);
    HeedGrows(c, s, longer, {TagPeeled(result)});
    if result.PeelRetry? {
      HeedGrows(c, s, longer, {});
      assert longer[|longer| - 2] == longer[|s.log|..|longer| - 1][|longer| - 2 - |s.log|];
      HindersHere(c, s.(log := longer), |s.log|, |longer| - 2);
    }
  }

  lemma PeelAsksTag(asks: seq<Event>, tag: string, result: PeelResult)
    requires PeelEndsIn(asks, tag, result)
    ensures |asks| > 0 && forall i :: 0 <= i < |asks| ==> AsksTag(asks[i])
    ensures result.PeelRetry? ==> asks[|asks| - 1].json == RetryLater
  {
    forall i | 0 <= i < |asks| ensures AsksTag(asks[i]) {
      if i != 0 { assert asks[i].request == TagObject(NamedSha(asks[i - 1])); }
    }
  }
}
