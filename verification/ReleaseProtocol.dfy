/** The states a completion check goes through, what every one of them keeps, and what a finished one means. */
module ReleaseProtocol {
  import opened Wrappers
  import opened JsonValues
  import opened ReleaseContracts
  import opened ReleaseIdentity
  import opened ReleaseProof
  import opened ReleaseReceipt
  import opened ReleaseCauses
  import opened ReleaseAnswers

  /** What is fixed before the first poll; the run may be given, or is to be discovered. */
  datatype Setup = Setup(target: Target, platform: Platform, givenRunId: Option<int>,
                         startAt: int, deadlineAt: int, pollIntervalMs: int)

  /** What polling changes: the receipt's fields, the checker's own, and the log of the remote. */
  datatype State = State(
    log: seq<Event>, surfaces: Surfaces, errors: seq<ErrorRecord>, headSha: Option<string>,
    receiptRunId: Option<int>, receiptAttempt: Option<int>,
    runId: Option<int>, attempt: Option<int>, event: Option<string>, bound: bool, retryable: set<SurfaceName>,
    assets: Option<map<string, Asset>>, jobs: seq<Job>, rows: seq<AssetRow>)

  /** A failed surface has an error on record, and every error names a failed surface. */
  ghost predicate FailuresOnRecord(s: State)
  {
    && (forall x :: s.surfaces.Get(x) == Failed ==> exists i :: 0 <= i < |s.errors| && s.errors[i].surface == x)
    && (forall i :: 0 <= i < |s.errors| ==> s.surfaces.Get(s.errors[i].surface) == Failed)
  }

  ghost function IdentifiedIn(s: State): Identified { Identified(s.headSha, s.receiptRunId, s.receiptAttempt, s.event) }

  /** The log accounts for every error on record, its marks of where the tag led for every question about it, and its
      answers for what the receipt names. */
  ghost predicate Explained(c: Setup, s: State)
  {
    && AllCaused(s.log, c.target, c.platform, IdentifiedIn(s), s.errors)
    && TagsAccounted(s.log, c.target.tag) && FoundOut(c, s)
  }

  /** The receipt names nothing the checker did not find out: the head is where the tag led, run and attempt are the
      fixed ones, the run is the given one or the only one a search showed, and the event is its. */
  ghost predicate FoundOut(c: Setup, s: State)
  {
    && (s.headSha.Some? ==> TagPeeled(Peeled(s.headSha.value)) in s.log)
    && (s.receiptRunId.Some? ==> s.receiptRunId == s.runId)
    && (s.receiptAttempt.Some? ==> s.receiptAttempt == s.attempt)
    && (s.event.Some? || s.receiptAttempt.Some? ==>
          s.runId.Some? && RunSeen(c.givenRunId, s.log, s.runId.value, s.event, s.receiptAttempt))
    && (c.givenRunId.Some? ==> s.runId == c.givenRunId)
    && (c.givenRunId.None? && s.runId.Some? ==> Discovered(s.log, c.target.tag, s.headSha, s.runId, s.attempt))
  }

  /** A search is for pushes, and shows the attempt as well; otherwise an answer about the run named both. */
  ghost predicate RunSeen(givenRunId: Option<int>, log: seq<Event>, runId: int, event: Option<string>,
                          attempt: Option<int>)
  {
    || (givenRunId.None? && (event.Some? ==> event.value == "push"))
    || exists v: Json ::
         && JsonAsked(RunById(runId), Answered(v)) in log && DecodeRun(v).Some?
         && (event.Some? ==> DecodeRun(v).value.event == event.value)
         && (attempt.Some? ==> DecodeRun(v).value.attempt == attempt.value)
  }

  ghost predicate Discovered(log: seq<Event>, tag: string, headSha: Option<string>, runId: Option<int>,
      attempt: Option<int>)
  {
    headSha.Some? && runId.Some? && attempt.Some? && SearchFound(log, tag, headSha.value, runId.value, attempt.value)
  }

  /** The run is the given one, or the only one a search showed. */
  ghost predicate RunNamed(log: seq<Event>, tag: string, givenRunId: Option<int>, headSha: Option<string>, runId: int,
                           attempt: Option<int>)
  {
    if givenRunId.Some? then runId == givenRunId.value
    else headSha.Some? && exists a :: (attempt.Some? ==> a == attempt.value)
                                      && SearchFound(log, tag, headSha.value, runId, a)
  }

  ghost predicate LaneSkips(c: Setup, surfaces: Surfaces)
  {
    && surfaces.Get(Npm) == Skipped && surfaces.Get(GithubPackages) == Skipped
    && (surfaces.Get(PinnedLspRelease) == Skipped <==> c.target.lane.LspLane?)
    && forall x :: surfaces.Get(x) == Skipped ==> x in {Npm, GithubPackages, PinnedLspRelease}
  }

  /** A surface that passed has its proof in the log. */
  ghost predicate Evidence(c: Setup, s: State)
    requires BindingHolds(s)
  {
    && (s.surfaces.Get(Workflow) == Pass ==>
        s.bound && WorkflowSucceeded(s.log, c.target.tag, s.headSha.value, s.runId.value, s.attempt.value))
    && (s.surfaces.Get(Jobs) == Pass ==>
        s.bound && JobsConfirmed(s.log, c.target.expectedJobs, c.target.lane, s.runId.value, s.attempt.value, s.jobs))
    && (s.surfaces.Get(GithubRelease) == Pass ==>
        s.assets.Some? && ReleaseConfirmed(s.log, c.target.tag, c.target.expectedAssets, c.platform, s.assets.value))
    && (s.surfaces.Get(ReleaseAssets) == Pass <==> s.surfaces.Get(Checksums) == Pass)
    && (s.surfaces.Get(ReleaseAssets) == Pass ==>
          && s.surfaces.Get(GithubRelease) == Pass && s.assets.Some?
          && AssetsConfirmed(s.log, c.target.expectedAssets, c.platform, s.assets.value, s.rows))
    && (s.surfaces.Get(PinnedLspRelease) == Pass ==> PinnedConfirmed(s.log, c.target))
  }

  ghost predicate BindingHolds(s: State)
  {
    && (s.bound ==>
          && s.headSha.Some? && s.runId.Some? && s.attempt.Some? && s.event.Some?
          && s.receiptRunId == s.runId && s.receiptAttempt == s.attempt)
    && (!s.bound ==> forall x :: s.surfaces.Get(x) in {Unresolved, Skipped})
    && (s.attempt.Some? ==> s.runId.Some? && s.receiptAttempt == s.attempt)
  }

  /** What holds whenever the checker may go on. */
  ghost predicate Sound(c: Setup, s: State)
  {
    && WellFormedTarget(c.target) && c.pollIntervalMs > 0
    && FailuresOnRecord(s) && Explained(c, s)
    && LaneSkips(c, s.surfaces)
    && BindingHolds(s)
    && (s.bound ==> s.surfaces.Get(Identity) in {Pass, Failed})
    && Evidence(c, s)
    && OneIdentity(s.log, s.headSha, s.runId, s.attempt, s.surfaces.Get(Identity) != Failed)
  }

  ghost predicate OnlyFailed(s: State, may: set<SurfaceName>)
  {
    forall x :: s.surfaces.Get(x) == Failed ==> x in may
  }

  /** What holds at the head of the polling loop: polling goes on after no failure but one of identity. */
  ghost predicate Ready(c: Setup, s: State) { Sound(c, s) && OnlyFailed(s, {Identity}) }

  /** No answer but the pending ones is a reason to fail. */
  ghost predicate AllFine(c: Setup, s: State, pending: set<Event>)
  {
    forall e :: e in s.log && e !in pending ==> Fine(s.log, c.target, c.platform, IdentifiedIn(s), e)
  }

  /** Every answer but the pending ones was heeded: one that is a reason to fail left an error on record. */
  ghost predicate Heeded(c: Setup, s: State, pending: set<Event>) { s.errors == [] ==> AllFine(c, s, pending) }

  ghost predicate WasDelayed(c: Setup, s: State, n: int)
  {
    exists i :: 0 <= i < |s.log| && n <= i && Hinders(c.target.tag, s.headSha, s.log[i])
  }

  /** Since event `n`, something kept the check from completing. */
  ghost predicate Hindered(c: Setup, s: State, n: int) { s.errors != [] || WasDelayed(c, s, n) }

  ghost predicate AllOthersProven(surfaces: Surfaces)
  {
    forall x :: x != Identity ==> surfaces.Get(x) in {Pass, Skipped}
  }

  /** All but the tag is proven; it was asked for once more, that was answered with retry, and there is no time left. */
  ghost predicate TagUnproven(c: Setup, s: State)
  {
    && AllOthersProven(s.surfaces) && NoFurtherPoll(s.log, c.deadlineAt)
    && |s.log| > 1 && s.log[|s.log| - 2] == TagPeeled(PeelRetry)
  }

  ghost predicate CertifiedIn(c: Setup, s: State)
  {
    && s.headSha.Some? && s.runId.Some? && s.attempt.Some?
    && s.receiptRunId == s.runId && s.receiptAttempt == s.attempt
    && (c.givenRunId.Some? ==> s.runId == c.givenRunId)
    && (c.givenRunId.None? ==> Discovered(s.log, c.target.tag, s.headSha, s.runId, s.attempt))
    && Certified(s.log, c.target, c.platform, s.headSha.value, s.runId.value, s.attempt.value, s.jobs, s.rows)
  }

  /** What holds when the checker stops. */
  ghost predicate Settled(c: Setup, s: State)
  {
    && FailuresOnRecord(s) && Explained(c, s) && Heeded(c, s, {})
    && (AllSurfacesProven(s.surfaces) ==> CertifiedIn(c, s))
    && (!SomeSurface(s.surfaces, Failed) && SomeSurface(s.surfaces, Unresolved) ==>
          NoFurtherPoll(s.log, c.deadlineAt) || EndsAtIncompletePage(s.log, c.target.tag))
    && (s.bound && s.surfaces.Get(Identity) == Unresolved ==> TagUnproven(c, s))
  }

  // ----- time

  /** A lower bound on the present time: the last reading plus what was slept since. */
  ghost function TimeFloor(log: seq<Event>, startAt: int): int
  {
    if log == [] then startAt
    else
      var before := TimeFloor(log[..|log| - 1], startAt);
      match log[|log| - 1]
      case ClockRead(At(ms)) => ms
      case Slept(ms) => before + ms
      case _ => before
  }

  /** The clock starts no earlier than `startAt`, never runs back, and sleeping takes at least as long as was asked. */
  ghost predicate ClockAdvances(log: seq<Event>, startAt: int)
  {
    log == [] ||
    (&& ClockAdvances(log[..|log| - 1], startAt)
     && match log[|log| - 1]
        case ClockRead(At(ms)) => ms >= TimeFloor(log[..|log| - 1], startAt)
        case _ => true)
  }

  function Min(a: int, b: int): int { if a <= b then a else b }

  /** If the clock advances, time did not run back, and a poll both found time left and took a polling
      interval, or all that was left. */
  ghost predicate Elapsed(c: Setup, log: seq<Event>, longer: seq<Event>, polled: bool)
  {
    ClockAdvances(longer, c.startAt) ==>
      && ClockAdvances(log, c.startAt)
      && TimeFloor(longer, c.startAt) >= Min(c.deadlineAt,
                                                  TimeFloor(log, c.startAt) + if polled then c.pollIntervalMs else 0)
      && (polled ==> TimeFloor(log, c.startAt) < c.deadlineAt)
  }

  /** The log ends with a peel of the tag, a clock reading and a sleep: nothing else was asked after the tag. */
  ghost predicate RestsAfterPeel(log: seq<Event>)
  {
    && |log| >= 3
    && log[|log| - 3].TagPeeled? && log[|log| - 2].ClockRead? && log[|log| - 1].Slept?
  }

  // ----- steps

  /** What one step, or any run of them, keeps: what is bound stays bound, what failed stays failed, what
      passed can only fail, errors are never withdrawn; and a poll takes a polling interval. */
  ghost predicate Advances(c: Setup, s: State, t: State, polled: bool)
  {
    && s.log <= t.log && s.errors <= t.errors
    && (s.headSha.Some? ==> t.headSha == s.headSha)
    && (s.runId.Some? ==> t.runId == s.runId)
    && (s.attempt.Some? ==> t.attempt == s.attempt)
    && StillIdentified(IdentifiedIn(s), IdentifiedIn(t))
    && (s.bound ==> t.bound)
    && (forall x :: t.surfaces.Get(x) == Skipped ==> s.surfaces.Get(x) == Skipped)
    && (forall x :: s.surfaces.Get(x) == Failed ==> t.surfaces.Get(x) == Failed)
    && (forall x :: s.surfaces.Get(x) == Pass && x != Identity ==> t.surfaces.Get(x) in {Pass, Failed})
    && Elapsed(c, s.log, t.log, polled)
  }

  lemma StepsCompose(c: Setup, s: State, t: State, u: State, polled: bool)
    requires c.pollIntervalMs > 0
    requires Advances(c, s, t, false) && Advances(c, t, u, polled)
    ensures Advances(c, s, u, polled) && s.log <= t.log <= u.log
  {
    hide Surfaces.Get, Surfaces.With;
  }

  ghost predicate Quiet(e: Event) { !e.ClockRead? && !e.Slept? }

  lemma {:induction false} QuietTakesNoTime(log: seq<Event>, longer: seq<Event>, startAt: int)
    requires log <= longer
    requires forall i :: |log| <= i < |longer| ==> Quiet(longer[i])
    ensures TimeFloor(longer, startAt) == TimeFloor(log, startAt)
    ensures ClockAdvances(longer, startAt) == ClockAdvances(log, startAt)
  {
    if |log| < |longer| {
      QuietTakesNoTime(log, longer[..|longer| - 1], startAt);
    } else {
      assert log == longer;
    }
  }

  /** A poll is a step as well. */
  lemma PollIsStep(c: Setup, s: State, t: State, polled: bool)
    requires c.pollIntervalMs > 0 && Advances(c, s, t, polled)
    ensures Advances(c, s, t, false)
  {
    hide Surfaces.Get, ClockAdvances, TimeFloor;
  }

  /** What was heeded stays heeded, and so do new answers that are fine. */
  lemma HeedKept(c: Setup, s: State, t: State, pending: set<Event>, more: set<Event>)
    requires Heeded(c, s, pending)
    requires s.log <= t.log && s.errors <= t.errors && StillIdentified(IdentifiedIn(s), IdentifiedIn(t))
    requires t.errors == [] ==> forall e :: e in t.log && (e !in s.log || e in pending) && e !in more ==>
                                  Fine(t.log, c.target, c.platform, IdentifiedIn(t), e)
    ensures Heeded(c, t, more)
  {
    hide Fine;
    if t.errors == [] {
      forall e | e in t.log && e !in more ensures Fine(t.log, c.target, c.platform, IdentifiedIn(t), e) {
        if e in s.log && e !in pending {
          FineIsKept(s.log, t.log, c.target, c.platform, IdentifiedIn(s), IdentifiedIn(t), e);
        }
      }
    }
  }

  /** An answer, once it turned out fine, is heeded. */
  lemma AnswerHeeded(c: Setup, s: State, t: State, request: Request, v: Json)
    requires Heeded(c, s, {JsonAsked(request, Answered(v))})
    requires s.log == t.log && s.errors <= t.errors && StillIdentified(IdentifiedIn(s), IdentifiedIn(t))
    requires FineAnswer(c.target, c.platform, IdentifiedIn(t), request, v)
    ensures Heeded(c, t, {})
  {
    hide AllFine, FineAnswer;
    HeedKept(c, s, t, {JsonAsked(request, Answered(v))}, {});
  }

  lemma BytesHeeded(c: Setup, s: State, t: State, url: string, bytes: seq<Byte>)
    requires Heeded(c, s, {BytesAsked(url, Answered(bytes))})
    requires s.log == t.log && s.errors <= t.errors && StillIdentified(IdentifiedIn(s), IdentifiedIn(t))
    requires FineBytes(t.log, c.target, c.platform, url, bytes)
    ensures Heeded(c, t, {})
  {
    hide AllFine, FineBytes;
    HeedKept(c, s, t, {BytesAsked(url, Answered(bytes))}, {});
  }

  /** A request for another try, a peel that ended in one, a question about the tag, a clock reading or a sleep. */
  predicate Unremarkable(e: Event)
  {
    match e
    case JsonAsked(request, reply) => request.TagRef? || request.TagObject? || reply.RetryLater?
    case BytesAsked(_, reply) => reply.RetryLater?
    case TagPeeled(result) => result.PeelRetry?
    case _ => true
  }

  /** New events leave nothing unheeded but what is pending. */
  lemma HeedGrows(c: Setup, s: State, longer: seq<Event>, pending: set<Event>)
    requires Heeded(c, s, {}) && s.log <= longer
    requires forall e :: e in longer ==> e in s.log || e in pending || Unremarkable(e)
    ensures Heeded(c, s.(log := longer), pending)
  {
    hide AllFine;
    HeedKept(c, s, s.(log := longer), {}, pending);
  }

  /** What held the check up once holds it up for the rest of the pass. */
  lemma HindranceKept(c: Setup, s: State, t: State, polled: bool, n: int, m: int)
    requires Advances(c, s, t, polled) && Hindered(c, s, n) && m <= n
    ensures Hindered(c, t, m)
  {
    hide Hinders, Surfaces.Get;
    if s.errors == [] {
      var i :| 0 <= i < |s.log| && n <= i && Hinders(c.target.tag, s.headSha, s.log[i]);
      HindranceIsKept(c.target.tag, s.headSha, t.headSha, s.log[i]);
      assert Hinders(c.target.tag, t.headSha, t.log[i]);
    }
  }

  lemma HeldSince(c: Setup, s: State, n: int, m: int)
    requires Hindered(c, s, n) && m <= n
    ensures Hindered(c, s, m)
  {
  }

  lemma HindersHere(c: Setup, s: State, n: int, i: int)
    requires 0 <= n <= i < |s.log| && Hinders(c.target.tag, s.headSha, s.log[i])
    ensures Hindered(c, s, n)
  {
  }

  /** An event that asks about no other run or attempt and takes the tag nowhere else. */
  ghost predicate Harmless(e: Event, s: State)
  {
    match e
    case JsonAsked(RunById(runId), _) => s.runId == Some(runId)
    case JsonAsked(JobsOf(runId, attempt), _) => s.runId == Some(runId) && s.attempt == Some(attempt)
    case TagPeeled(Peeled(sha)) => s.headSha == Some(sha)
    case _ => true
  }

  /** Growing the log by harmless events keeps every proof and every promise. */
  lemma LogGrows(c: Setup, s: State, longer: seq<Event>)
    requires Sound(c, s) && s.log <= longer && TagsAccounted(longer, c.target.tag)
    requires forall e :: e in longer ==> e in s.log || Harmless(e, s)
    ensures Sound(c, s.(log := longer))
  {
    hide Surfaces.Get, Surfaces.With, AllCaused, TagsAccounted, SearchFound, RunSeen, AllFine;
    EvidenceKept(c, s, longer);
    SearchesKept(s.log, longer, c.target.tag);
    CausesAreKept(s.log, longer, c.target, c.platform, IdentifiedIn(s), IdentifiedIn(s), s.errors);
  }

  /** So does growing it by harmless events that are not about the tag. */
  lemma LogGrowsElsewhere(c: Setup, s: State, longer: seq<Event>)
    requires Sound(c, s) && s.log <= longer
    requires forall i :: |s.log| <= i < |longer| ==> !AboutTag(longer[i]) && Harmless(longer[i], s)
    ensures Sound(c, s.(log := longer))
  {
    hide TagsAccounted, AllCaused, Evidence, FoundOut, OneIdentity, BindingHolds, LaneSkips, FailuresOnRecord;
    OtherEventsAccounted(s.log, longer, c.target.tag);
    LogGrows(c, s, longer);
  }

  lemma SearchesKept(log: seq<Event>, longer: seq<Event>, tag: string)
    requires log <= longer
    ensures forall given, run, event, attempt :: RunSeen(given, log, run, event, attempt) ==>
              RunSeen(given, longer, run, event, attempt)
    ensures forall head, run, attempt :: SearchFound(log, tag, head, run, attempt) ==>
              SearchFound(longer, tag, head, run, attempt)
  {
    hide PageShows, DecodeRun;
  }

  lemma EvidenceKept(c: Setup, s: State, longer: seq<Event>)
    requires s.log <= longer && BindingHolds(s) && Evidence(c, s)
    ensures Evidence(c, s.(log := longer))
  {
    EvidenceIsKept(s.log, longer, c.target, c.platform);
  }

  /** Clock readings and sleeps keep every promise, and take the time `Elapsed` says. */
  lemma ClockSteps(c: Setup, s: State, longer: seq<Event>, polled: bool)
    requires s.log <= longer && Elapsed(c, s.log, longer, polled)
    ensures Advances(c, s, s.(log := longer), polled)
  {
  }

  lemma QuietSteps(c: Setup, s: State, longer: seq<Event>)
    requires s.log <= longer && forall i :: |s.log| <= i < |longer| ==> Quiet(longer[i])
    ensures Advances(c, s, s.(log := longer), false)
  {
    QuietTakesNoTime(s.log, longer, c.startAt);
  }

  /** Whatever was asked, a sound state may still record a failure. */
  lemma MayFail(c: Setup, s: State, longer: seq<Event>)
    requires Sound(c, s) && s.log <= longer && TagsAccounted(longer, c.target.tag)
    ensures FailuresOnRecord(s.(log := longer)) && Explained(c, s.(log := longer))
            && (s.bound ==> s.surfaces.Get(Identity) != Unresolved)
    ensures c.pollIntervalMs > 0
  {
    hide Surfaces.Get, Surfaces.With, AllCaused, TagsAccounted, SearchFound, RunSeen, AllFine;
    CausesAreKept(s.log, longer, c.target, c.platform, IdentifiedIn(s), IdentifiedIn(s), s.errors);
    SearchesKept(s.log, longer, c.target.tag);
  }

  lemma SoundMayFail(c: Setup, s: State)
    requires Sound(c, s)
    ensures FailuresOnRecord(s) && Explained(c, s) && (s.bound ==> s.surfaces.Get(Identity) != Unresolved)
  {
    hide Surfaces.Get, Surfaces.With, AllCaused, TagsAccounted, Evidence, OneIdentity;
  }

  /** A failure settles the check, whatever else was found. */
  lemma FailureSettles(c: Setup, s: State, surface: SurfaceName, code: string)
    requires FailuresOnRecord(s) && Explained(c, s)
    requires Caused(s.log, c.target, c.platform, IdentifiedIn(s), ErrorRecord(surface, code))
    requires surface != Identity ==> s.surfaces.Get(surface) != Pass
    requires s.bound ==> s.surfaces.Get(Identity) != Unresolved
    ensures var t := s.(surfaces := s.surfaces.With(surface, Failed),
                        errors := s.errors + [ErrorRecord(surface, code)]);
            FailuresOnRecord(t) && Explained(c, t) && Settled(c, t) && Advances(c, s, t, false)
  {
    hide Surfaces.Get, Surfaces.With, Caused;
    var t := s.(surfaces := s.surfaces.With(surface, Failed), errors := s.errors + [ErrorRecord(surface, code)]);
    forall x | t.surfaces.Get(x) == Failed ensures exists i :: 0 <= i < |t.errors| && t.errors[i].surface == x {
      if x == surface {
        assert t.errors[|s.errors|].surface == x;
      } else {
        var i :| 0 <= i < |s.errors| && s.errors[i].surface == x;
        assert t.errors[i].surface == x;
      }
    }
    assert t.surfaces.Get(surface) == Failed;
  }

  /** A failure of a surface that had not passed, or of the identity, leaves a sound state sound. */
  lemma FailureKeeps(c: Setup, s: State, surface: SurfaceName, code: string)
    requires Sound(c, s) && s.bound
    requires surface == Identity || s.surfaces.Get(surface) == Unresolved
    requires Caused(s.log, c.target, c.platform, IdentifiedIn(s), ErrorRecord(surface, code))
    ensures Sound(c, s.(surfaces := s.surfaces.With(surface, Failed),
                        errors := s.errors + [ErrorRecord(surface, code)]))
  {
    hide Surfaces.Get, Surfaces.With, Caused, AllCaused, Settled, Advances, WorkflowSucceeded, JobsConfirmed,
         ReleaseConfirmed, AssetsConfirmed, PinnedConfirmed, TagsAccounted, SearchFound, RunSeen, AllFine;
    FailureSettles(c, s, surface, code);
  }

  /** The first peel binds the head. */
  lemma HeadBound(c: Setup, s: State, longer: seq<Event>, sha: string)
    requires Ready(c, s) && s.headSha.None? && s.log <= longer && TagsAccounted(longer, c.target.tag)
    requires forall e :: e in longer ==> e in s.log || Harmless(e, s.(headSha := Some(sha)))
    requires TagPeeled(Peeled(sha)) in longer
    ensures Ready(c, s.(log := longer, headSha := Some(sha)))
  {
    hide Surfaces.Get, Surfaces.With, AllCaused, TagsAccounted, SearchFound, RunSeen, AllFine;
    var t := s.(log := longer, headSha := Some(sha));
    CausesAreKept(s.log, longer, c.target, c.platform, IdentifiedIn(s), IdentifiedIn(t), s.errors);
    SearchesKept(s.log, longer, c.target.tag);
    EvidenceKept(c, s, longer);
  }

  lemma HeadSteps(c: Setup, s: State, sha: string)
    requires s.headSha.None?
    ensures Advances(c, s, s.(headSha := Some(sha)), false)
  {
  }

  /** Nothing is bound before the head is. */
  lemma BoundHasHead(c: Setup, s: State)
    requires Ready(c, s) && s.headSha.None?
    ensures !s.bound && s.surfaces.Get(Identity) == Unresolved
  {
  }

  /** Before the identity is bound nothing has been proven or has failed. */
  lemma UnboundIdentity(c: Setup, s: State)
    requires Ready(c, s) && (s.runId.None? || !s.bound)
    ensures !s.bound && s.surfaces.Get(Identity) == Unresolved && s.surfaces.Get(Workflow) == Unresolved
    ensures FailuresOnRecord(s) && Explained(c, s) && s.receiptAttempt == s.attempt && c.pollIntervalMs > 0
    ensures s.runId.None? ==> s.receiptRunId.None? && s.attempt.None? && s.event.None?
  {
    hide AllCaused, Evidence, OneIdentity, TagsAccounted, SearchFound, RunSeen, AllFine;
  }

  lemma BoundHasAll(c: Setup, s: State)
    requires Sound(c, s) && s.bound
    ensures s.headSha.Some? && s.runId.Some? && s.attempt.Some? && s.event.Some?
    ensures s.receiptRunId == s.runId && s.receiptAttempt == s.attempt && c.pollIntervalMs > 0
    ensures forall x :: x in {Identity, Workflow, Jobs} ==> s.surfaces.Get(x) != Skipped
  {
    hide AllCaused, Evidence, OneIdentity, TagsAccounted, SearchFound, RunSeen, AllFine;
  }

  /** The head that is bound is where the tag led. */
  lemma HeadWasPeeled(c: Setup, s: State)
    requires Sound(c, s) && s.headSha.Some?
    ensures TagPeeled(Peeled(s.headSha.value)) in s.log
  {
    hide AllCaused, Evidence, OneIdentity, TagsAccounted, SearchFound, RunSeen, AllFine;
  }

  /** The assets are those the release was confirmed with. */
  lemma AssetsAreTheRelease(c: Setup, s: State)
    requires Sound(c, s) && s.surfaces.Get(GithubRelease) == Pass && s.assets.Some?
    ensures ReleaseConfirmed(s.log, c.target.tag, c.target.expectedAssets, c.platform, s.assets.value)
    ensures forall name :: name in s.assets.value ==>
              IsReleaseAsset(s.log, c.target, c.platform, name, s.assets.value[name])
  {
    hide AllCaused, OneIdentity, WorkflowSucceeded, JobsConfirmed, ReleaseConfirmed, AssetsConfirmed, PinnedConfirmed,
        TagsAccounted, SearchFound, RunSeen, AllFine;
    forall name | name in s.assets.value
      ensures IsReleaseAsset(s.log, c.target, c.platform, name, s.assets.value[name])
    {
      assert AssetAt(s.assets.value, name) == Some(s.assets.value[name]);
    }
  }

  /** Assets and checksums pass together, and only after the release did. */
  lemma AssetsGoTogether(c: Setup, s: State)
    requires Sound(c, s)
    ensures s.surfaces.Get(ReleaseAssets) == Pass <==> s.surfaces.Get(Checksums) == Pass
    ensures s.surfaces.Get(ReleaseAssets) == Pass ==> s.surfaces.Get(GithubRelease) == Pass
    ensures s.surfaces.Get(GithubRelease) == Pass ==> s.assets.Some?
    ensures forall x :: x in {GithubRelease, ReleaseAssets, Checksums} ==> s.surfaces.Get(x) != Skipped
  {
  }

  lemma StaysFailed(c: Setup, s: State, t: State, surface: SurfaceName)
    requires Advances(c, s, t, false) && s.surfaces.Get(surface) == Failed
    ensures t.surfaces.Get(surface) == Failed
  {
  }

  lemma FailedIsOnRecord(c: Setup, s: State, surface: SurfaceName)
    requires Sound(c, s)
    ensures s.surfaces.Get(surface) == Failed ==> s.errors != []
  {
    hide Surfaces.Get, Surfaces.With, Evidence, OneIdentity, AllCaused, TagsAccounted, SearchFound, RunSeen, AllFine;
  }

  lemma FailedSettles(c: Setup, s: State, surface: SurfaceName)
    requires Sound(c, s) && s.surfaces.Get(surface) == Failed
    ensures Settled(c, s) && s.errors != []
  {
    hide Surfaces.Get, Surfaces.With, Evidence, OneIdentity, AllCaused, TagsAccounted, SearchFound, RunSeen, AllFine;
  }

  /** What comes after the workflow is proven, has failed, or is marked for retry. */
  ghost predicate MarkedAfterWorkflow(s: State)
  {
    OnlyFailed(s, {}) ==>
      forall x :: x in {GithubRelease, ReleaseAssets, Checksums, PinnedLspRelease} ==>
        s.surfaces.Get(x) == Unresolved ==> s.retryable != {}
  }

  /** Without a failure, a succeeded workflow with all that comes after it proven is a proven release. */
  lemma AllProven(c: Setup, s: State)
    requires Sound(c, s) && s.bound && OnlyFailed(s, {})
    requires s.surfaces.Get(Workflow) == Pass && s.surfaces.Get(Jobs) == Pass
    requires forall x :: x in {GithubRelease, ReleaseAssets, Checksums, PinnedLspRelease} ==>
               s.surfaces.Get(x) in {Pass, Skipped}
    ensures AllSurfacesProven(s.surfaces)
  {
    hide Surfaces.Get, Surfaces.With, Evidence, OneIdentity, AllCaused, TagsAccounted, SearchFound, RunSeen, AllFine;
    forall x: SurfaceName ensures s.surfaces.Get(x) in {Pass, Skipped} {
      match x {
        case Identity => case Workflow => case Jobs => case GithubRelease => case ReleaseAssets =>
        case Checksums => case Npm => case GithubPackages => case PinnedLspRelease =>
      }
    }
  }

  /** The early end with nothing marked for retry is never taken: without a failure, what is unproven is marked. */
  lemma NothingLeftUnmarked(c: Setup, s: State)
    requires Sound(c, s) && s.bound && OnlyFailed(s, {})
    requires s.surfaces.Get(Workflow) == Pass && s.surfaces.Get(Jobs) == Pass
    requires MarkedAfterWorkflow(s)
    ensures AllSurfacesProven(s.surfaces) || s.retryable != {}
  {
    hide Sound, Surfaces.Get, Surfaces.With;
    if s.retryable == {} { AllProven(c, s); }
  }

  lemma StopsUnproven(c: Setup, s: State)
    requires Ready(c, s) && Heeded(c, s, {}) && !AllSurfacesProven(s.surfaces) && NoFurtherPoll(s.log, c.deadlineAt)
    ensures Settled(c, s)
  {
    hide Surfaces.Get, Surfaces.With, Evidence, OneIdentity, AllCaused, TagsAccounted, SearchFound, RunSeen, AllFine;
  }

  /** The pinned release is left unchecked on no lane that has one. */
  lemma PinnedOnlyOnMainLane(c: Setup, s: State)
    requires Sound(c, s) && s.surfaces.Get(PinnedLspRelease) == Unresolved
    ensures c.target.lane.MainLane? && c.target.pinnedLspVersion.Some?
  {
  }

  lemma SoundTarget(c: Setup, s: State)
    requires Sound(c, s)
    ensures WellFormedTarget(c.target) && c.pollIntervalMs > 0
  {
  }

  lemma RunIdNoted(c: Setup, s: State)
    requires Ready(c, s) && !s.bound
    ensures Ready(c, s.(receiptRunId := s.runId)) && Advances(c, s, s.(receiptRunId := s.runId), false)
    ensures StillIdentified(IdentifiedIn(s), IdentifiedIn(s.(receiptRunId := s.runId)))
  {
    hide Surfaces.Get, Surfaces.With, OneIdentity, AllCaused, TagsAccounted, SearchFound, RunSeen, AllFine;
    CausesAreKept(s.log, s.log, c.target, c.platform, IdentifiedIn(s), IdentifiedIn(s.(receiptRunId := s.runId)),
        s.errors);
    QuietTakesNoTime(s.log, s.log, c.startAt);
  }

  /** Discovery binds a run where none was bound. */
  lemma RunFound(c: Setup, s: State, runId: int, attempt: int)
    requires Ready(c, s) && s.headSha.Some? && s.runId.None?
    requires SearchFound(s.log, c.target.tag, s.headSha.value, runId, attempt)
    ensures var t := s.(runId := Some(runId), attempt := Some(attempt), receiptRunId := Some(runId),
              receiptAttempt := Some(attempt),
                        event := Some("push"));
            Ready(c, t) && Advances(c, s, t, false)
  {
    hide Surfaces.Get, Surfaces.With, AllCaused, TagsAccounted, SearchFound, AllFine;
    CausesAreKept(s.log, s.log, c.target, c.platform, IdentifiedIn(s),
        Identified(s.headSha, Some(runId), Some(attempt), Some("push")), s.errors);
    QuietTakesNoTime(s.log, s.log, c.startAt);
  }

  /** The run, answered for by its number, binds the identity. */
  lemma IdentityBound(c: Setup, s: State, attempt: int, event: Option<string>)
    requires Ready(c, s) && !s.bound && s.headSha.Some? && s.runId.Some? && s.receiptRunId == s.runId
    requires s.attempt.Some? ==> s.attempt == Some(attempt)
    requires event.Some? && (s.event.Some? ==> s.event == event)
    requires RunSeen(c.givenRunId, s.log, s.runId.value, event, Some(attempt))
    ensures var t := s.(surfaces := s.surfaces.With(Identity, Pass), bound := true, attempt := Some(attempt),
              receiptAttempt := Some(attempt),
                        event := event);
            Ready(c, t) && Advances(c, s, t, false)
  {
    hide AllCaused, Surfaces.Get, Surfaces.With, WorkflowSucceeded, JobsConfirmed, ReleaseConfirmed, AssetsConfirmed,
         PinnedConfirmed, TagsAccounted, SearchFound, RunSeen, AllFine;
    QuietTakesNoTime(s.log, s.log, c.startAt);
    CausesAreKept(s.log, s.log, c.target, c.platform, IdentifiedIn(s),
        Identified(s.headSha, s.receiptRunId, Some(attempt), event), s.errors);
  }

  /** A surface not yet passed or failed is marked for retry, and stays as it was. */
  lemma MarkedForRetry(c: Setup, s: State, surface: SurfaceName)
    requires Sound(c, s) && s.surfaces.Get(surface) == Unresolved
    ensures s.surfaces.With(surface, Unresolved) == s.surfaces
    ensures var t := s.(retryable := s.retryable + {surface}); Sound(c, t) && Advances(c, s, t, false)
  {
    hide AllCaused, OneIdentity, WorkflowSucceeded, JobsConfirmed, ReleaseConfirmed, AssetsConfirmed, PinnedConfirmed,
        TagsAccounted, SearchFound, RunSeen, AllFine;
    QuietTakesNoTime(s.log, s.log, c.startAt);
  }

  /** A surface passes on its proof. */
  lemma WorkflowPasses(c: Setup, s: State)
    requires Sound(c, s) && s.bound && s.surfaces.Get(Workflow) == Unresolved
    requires WorkflowSucceeded(s.log, c.target.tag, s.headSha.value, s.runId.value, s.attempt.value)
    ensures var t := s.(surfaces := s.surfaces.With(Workflow, Pass), retryable := s.retryable - {Workflow});
            Sound(c, t) && Advances(c, s, t, false)
  {
    hide Surfaces.Get, Surfaces.With, WorkflowSucceeded, JobsConfirmed, ReleaseConfirmed, AssetsConfirmed,
         PinnedConfirmed, OneIdentity, AllCaused, TagsAccounted, SearchFound, RunSeen, AllFine;
    QuietTakesNoTime(s.log, s.log, c.startAt);
  }

  lemma JobsPass(c: Setup, s: State, jobs: seq<Job>)
    requires Sound(c, s) && s.bound && s.surfaces.Get(Jobs) == Unresolved
    requires JobsConfirmed(s.log, c.target.expectedJobs, c.target.lane, s.runId.value, s.attempt.value, jobs)
    ensures var t := s.(surfaces := s.surfaces.With(Jobs, Pass), retryable := s.retryable - {Jobs}, jobs := jobs);
            Sound(c, t) && Advances(c, s, t, false)
  {
    hide Surfaces.Get, Surfaces.With, WorkflowSucceeded, JobsConfirmed, ReleaseConfirmed, AssetsConfirmed,
         PinnedConfirmed, OneIdentity, AllCaused, TagsAccounted, SearchFound, RunSeen, AllFine;
    QuietTakesNoTime(s.log, s.log, c.startAt);
  }

  lemma ReleasePasses(c: Setup, s: State, assets: map<string, Asset>)
    requires Sound(c, s) && s.bound && s.surfaces.Get(GithubRelease) == Unresolved
    requires ReleaseConfirmed(s.log, c.target.tag, c.target.expectedAssets, c.platform, assets)
    ensures var t := s.(surfaces := s.surfaces.With(GithubRelease, Pass), retryable := s.retryable - {GithubRelease},
              assets := Some(assets));
            Sound(c, t) && Advances(c, s, t, false)
  {
    hide Surfaces.Get, Surfaces.With, WorkflowSucceeded, JobsConfirmed, ReleaseConfirmed, AssetsConfirmed,
         PinnedConfirmed, OneIdentity, AllCaused, TagsAccounted, SearchFound, RunSeen, AllFine;
    QuietTakesNoTime(s.log, s.log, c.startAt);
  }

  lemma AssetsPass(c: Setup, s: State, rows: seq<AssetRow>)
    requires Sound(c, s) && s.bound && s.surfaces.Get(GithubRelease) == Pass
    requires s.surfaces.Get(ReleaseAssets) == Unresolved && s.surfaces.Get(Checksums) == Unresolved
    requires s.assets.Some? && AssetsConfirmed(s.log, c.target.expectedAssets, c.platform, s.assets.value, rows)
    ensures var t := s.(surfaces := s.surfaces.With(ReleaseAssets, Pass).With(Checksums, Pass),
                        retryable := s.retryable - {ReleaseAssets} - {Checksums}, rows := rows);
            Sound(c, t) && Advances(c, s, t, false)
  {
    hide Surfaces.Get, Surfaces.With, WorkflowSucceeded, JobsConfirmed, ReleaseConfirmed, AssetsConfirmed,
         PinnedConfirmed, OneIdentity, AllCaused, TagsAccounted, SearchFound, RunSeen, AllFine;
    QuietTakesNoTime(s.log, s.log, c.startAt);
  }

  lemma PinnedPasses(c: Setup, s: State)
    requires Sound(c, s) && s.bound && s.surfaces.Get(PinnedLspRelease) == Unresolved
             && PinnedConfirmed(s.log, c.target)
    ensures var t := s.(surfaces := s.surfaces.With(PinnedLspRelease, Pass),
              retryable := s.retryable - {PinnedLspRelease});
            Sound(c, t) && Advances(c, s, t, false)
  {
    hide Surfaces.Get, Surfaces.With, WorkflowSucceeded, JobsConfirmed, ReleaseConfirmed, AssetsConfirmed,
         PinnedConfirmed, OneIdentity, AllCaused, TagsAccounted, SearchFound, RunSeen, AllFine;
    QuietTakesNoTime(s.log, s.log, c.startAt);
  }

  /** With every surface proven and the tag still at the head, the release is certified. */
  lemma Completes(c: Setup, s: State)
    requires Sound(c, s) && s.bound && AllSurfacesProven(s.surfaces) && Heeded(c, s, {})
    requires EndsAtTag(s.log, c.target.tag, s.headSha.value)
    ensures Settled(c, s)
  {
    hide Surfaces.Get, Surfaces.With, WorkflowSucceeded, JobsConfirmed, ReleaseConfirmed, AssetsConfirmed,
         PinnedConfirmed, OneIdentity, EndsAtTag, AllCaused, TagsAccounted, SearchFound, RunSeen, AllFine;
  }

  /** Giving up on a surface leaves nothing claimed. */
  lemma GivesUp(c: Setup, s: State, surface: SurfaceName)
    requires Ready(c, s) && Heeded(c, s, {}) && NoFurtherPoll(s.log, c.deadlineAt)
    requires s.surfaces.Get(surface) == Unresolved
             || (surface == Identity && s.surfaces.Get(Identity) == Pass && TagUnproven(c, s))
    ensures Settled(c, s.(surfaces := s.surfaces.With(surface, Unresolved)))
    ensures Advances(c, s, s.(surfaces := s.surfaces.With(surface, Unresolved)), false)
  {
    hide Surfaces.Get, Surfaces.With, AllCaused, Evidence, OneIdentity, LaneSkips, BindingHolds,
         NoFurtherPoll, Certified, EndsAtIncompletePage, TagsAccounted, SearchFound, RunSeen, AllFine;
    assert s.(surfaces := s.surfaces.With(surface, Unresolved)).surfaces.Get(surface) == Unresolved;
    HeedKept(c, s, s.(surfaces := s.surfaces.With(surface, Unresolved)), {}, {});
    QuietTakesNoTime(s.log, s.log, c.startAt);
  }

  /** A discovery page that cannot prove uniqueness ends the check before anything is bound. */
  lemma IncompleteEnds(c: Setup, s: State)
    requires Ready(c, s) && Heeded(c, s, {}) && s.runId.None? && EndsAtIncompletePage(s.log, c.target.tag)
    ensures var t := s.(surfaces := s.surfaces.With(Identity, Unresolved)); Settled(c, t) && Advances(c, s, t, false)
  {
    hide Surfaces.Get, Surfaces.With, AllCaused, Evidence, OneIdentity, TagsAccounted, SearchFound, RunSeen, AllFine;
    assert s.surfaces.Get(Identity) == Unresolved;
    HeedKept(c, s, s.(surfaces := s.surfaces.With(Identity, Unresolved)), {}, {});
    QuietTakesNoTime(s.log, s.log, c.startAt);
  }

  /** Reading the clock and sleeping until the next poll, or until the deadline if that is nearer. */
  lemma SleepingTakesTime(c: Setup, log: seq<Event>, now: int)
    requires now < c.deadlineAt && c.pollIntervalMs > 0
    ensures Elapsed(c, log, log + [ClockRead(At(now)), Slept(Min(c.pollIntervalMs, c.deadlineAt - now))], true)
  {
    var read := log + [ClockRead(At(now))];
    var slept := read + [Slept(Min(c.pollIntervalMs, c.deadlineAt - now))];
    assert slept[..|slept| - 1] == read && read[..|read| - 1] == log;
    assert slept == log + [ClockRead(At(now)), Slept(Min(c.pollIntervalMs, c.deadlineAt - now))];
    assert TimeFloor(read, c.startAt) == now;
    assert ClockAdvances(slept, c.startAt) ==> ClockAdvances(read, c.startAt);
  }

  lemma ReadingTakesNoTime(c: Setup, log: seq<Event>, reading: Reading)
    ensures Elapsed(c, log, log + [ClockRead(reading)], false)
  {
  }

  // ----- whole runs

  /** The states before the first pass and after each one: every pass but the last leaves the loop ready for another,
      asleep right after the tag was peeled again; and a pass ends with everything proven, or something held it up. */
  ghost predicate IsRun(c: Setup, trace: seq<State>, finished: bool)
  {
    && |trace| > 0
    && (finished ==> |trace| > 1 && Settled(c, trace[|trace| - 1]))
    && (forall k :: 0 <= k < |trace| && (finished ==> k < |trace| - 1) ==> Ready(c, trace[k]))
    && (forall k :: 0 <= k < |trace| - 1 ==> IsPass(c, trace[k], trace[k + 1], finished && k == |trace| - 2))
  }

  ghost predicate IsPass(c: Setup, s: State, t: State, last: bool)
  {
    && Advances(c, s, t, false) && Heeded(c, t, {})
    && ((last && AllSurfacesProven(t.surfaces)) || Hindered(c, t, |s.log|))
    && (!last ==> RestsAfterPeel(t.log))
  }

  /** A run that may go on, gone on with by one pass. */
  lemma {:induction false} RunGrows(c: Setup, trace: seq<State>, t: State, finished: bool)
    requires IsRun(c, trace, false) && IsPass(c, trace[|trace| - 1], t, finished)
    requires if finished then Settled(c, t) else Ready(c, t)
    ensures IsRun(c, trace + [t], finished)
  {
    hide IsPass, Ready, Settled;
    var longer := trace + [t];
    forall k | 0 <= k < |longer| - 1 ensures IsPass(c, longer[k], longer[k + 1], finished && k == |longer| - 2) {
      if k < |trace| - 1 {
        assert IsPass(c, trace[k], trace[k + 1], false);
      }
    }
  }

  /** Over a run, what is bound stays bound, what failed stays failed, and errors are never withdrawn. */
  lemma {:induction false} RunAdvances(c: Setup, trace: seq<State>, finished: bool, i: int, j: int)
    requires IsRun(c, trace, finished) && c.pollIntervalMs > 0 && 0 <= i <= j < |trace|
    ensures Advances(c, trace[i], trace[j], false)
    decreases j - i
  {
    hide Advances, Settled, Ready, AllSurfacesProven, Hindered, Heeded;
    QuietSteps(c, trace[i], trace[i].log);
    if i < j {
      assert IsPass(c, trace[i], trace[i + 1], finished && i == |trace| - 2);
      RunAdvances(c, trace, finished, i + 1, j);
      StepsCompose(c, trace[i], trace[i + 1], trace[j], false);
    }
  }

  /** FAILED is absorbing: a surface that failed in any pass has failed at the end, which decides the outcome. */
  lemma FailureIsFinal(c: Setup, trace: seq<State>, finished: bool, i: int, surface: SurfaceName, identified: bool)
    requires IsRun(c, trace, finished) && c.pollIntervalMs > 0 && 0 <= i < |trace|
    requires trace[i].surfaces.Get(surface) == Failed
    ensures var end := trace[|trace| - 1];
            end.surfaces.Get(surface) == Failed && FinalOutcome(end.surfaces, identified) == FAILED
  {
    hide IsRun, Surfaces.Get;
    RunAdvances(c, trace, finished, i, |trace| - 1);
  }

  /** What a surface that passed may be found as later in the run: passed, or failed; the identity may also be left
      unresolved at the very end, when the last peel of an otherwise proven release could not be made in time. */
  ghost predicate PassKept(c: Setup, trace: seq<State>, finished: bool, j: int, surface: SurfaceName)
    requires 0 <= j < |trace|
  {
    || trace[j].surfaces.Get(surface) in {Pass, Failed}
    || (surface == Identity && finished && j == |trace| - 1 && TagUnproven(c, trace[j]))
  }

  lemma PassIsKept(c: Setup, trace: seq<State>, finished: bool, i: int, j: int, surface: SurfaceName)
    requires IsRun(c, trace, finished) && c.pollIntervalMs > 0 && 0 <= i < j < |trace|
    requires trace[i].surfaces.Get(surface) == Pass
    ensures PassKept(c, trace, finished, j, surface)
  {
    hide Surfaces.Get, TagUnproven, Elapsed, IsPass, AllCaused, Evidence, OneIdentity, LaneSkips, TagsAccounted,
         FailuresOnRecord, FoundOut, CertifiedIn, Heeded;
    RunAdvances(c, trace, finished, i, j);
    assert Ready(c, trace[i]);
    if surface == Identity {
      assert trace[i].bound && trace[j].bound && trace[j].surfaces.Get(Identity) != Skipped;
    }
  }

  /** Without a failure and with nothing to hold it up, a check completes in its first pass. */
  lemma UnhinderedCompletes(c: Setup, trace: seq<State>, finished: bool)
    requires IsRun(c, trace, finished) && c.pollIntervalMs > 0 && |trace| > 1
    requires trace[|trace| - 1].errors == []
    requires var end := trace[|trace| - 1]; NothingHinders(end.log, c.target.tag, end.headSha)
    ensures finished && |trace| == 2 && AllSurfacesProven(trace[1].surfaces)
  {
    hide Surfaces.Get, Elapsed, Settled, Ready, AllSurfacesProven, Hinders, Heeded;
    RunAdvances(c, trace, finished, 1, |trace| - 1);
    var s, t, end := trace[0], trace[1], trace[|trace| - 1];
    assert IsPass(c, s, t, finished && 0 == |trace| - 2);
    assert forall i :: 0 <= i < |t.log| ==> t.log[i] == end.log[i];
    if Hindered(c, t, |s.log|) {
      var i :| 0 <= i < |t.log| && |s.log| <= i && Hinders(c.target.tag, t.headSha, t.log[i]);
      HindranceIsKept(c.target.tag, t.headSha, end.headSha, t.log[i]);
      assert false;
    }
  }
}
