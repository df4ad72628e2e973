/** Decoding of tag objects, workflow runs, the discovery page and the jobs page; and tag peeling. */
module ReleaseIdentity {
  import opened Wrappers
  import opened JsonValues
  import opened ReleaseContracts
  import opened ReleaseRemote

  // ----- commit names

  const HEX_DIGITS := {'0', '1', '2', '3', '4', '5', '6', '7', '8', '9', 'a', 'b', 'c', 'd', 'e', 'f'}
  const SHA_LENGTH: nat := 40

  predicate IsSha(s: string) { |s| == SHA_LENGTH && forall i :: 0 <= i < |s| ==> s[i] in HEX_DIGITS }

  /** All hexadecimal strings of one length: a finite set, which is why peeling a tag must end. */
  ghost function HexStrings(length: nat): set<string>
  {
    if length == 0 then {""}
    else set c, rest | c in HEX_DIGITS && rest in HexStrings(length - 1) :: [c] + rest
  }

  lemma {:induction false} HexStringsHasEvery(s: string, length: nat)
    requires |s| == length && forall i :: 0 <= i < |s| ==> s[i] in HEX_DIGITS
    ensures s in HexStrings(length)
  {
    if length != 0 {
      HexStringsHasEvery(s[1..], length - 1);
      assert s == [s[0]] + s[1..];
    }
  }

  // ----- tag objects

  datatype GitObject = GitObject(kind: string, sha: string)

  function DecodeTagObject(v: Json): (r: Option<GitObject>)
    ensures r.Some? ==> IsSha(r.value.sha)
  {
    match Field(v, "object")
    case Some(named) =>
      if StringField(named, "type").Some? && StringField(named, "sha").Some? && IsSha(StringField(named, "sha").value)
      then Some(GitObject(StringField(named, "type").value, StringField(named, "sha").value))
      else None
    case None => None
  }

  /** The object the remote named in this answer, if the answer is well formed. */
  function ObjectIn(e: Event): Option<GitObject>
  {
    if e.JsonAsked? && e.json.Answered? then DecodeTagObject(e.json.value) else None
  }

  function NamedSha(e: Event): string
  {
    if ObjectIn(e).Some? then ObjectIn(e).value.sha else ""
  }

  /** The answer names an annotated tag, so peeling goes on to the object it points at. */
  predicate PointsOn(e: Event)
  {
    ObjectIn(e).Some? && ObjectIn(e).value.kind == "tag"
  }

  /** Consecutive questions that follow a tag: each asks for the object the answer before it named,
      and no annotated tag is followed twice. */
  ghost predicate IsPeelChain(asks: seq<Event>, tag: string)
  {
    && (forall i :: 0 <= i < |asks| ==> asks[i].JsonAsked?)
    && (forall i :: 0 <= i < |asks| - 1 ==> PointsOn(asks[i]))
    && (|asks| > 0 ==> asks[0].request == TagRef(tag))
    && (forall i :: 0 < i < |asks| ==> asks[i].request == TagObject(NamedSha(asks[i - 1])))
    && (forall i, j :: 0 <= i < j < |asks| - 1 ==> NamedSha(asks[i]) != NamedSha(asks[j]))
  }

  /** What a chain proves, read off its last answer. */
  ghost predicate PeelEndsIn(asks: seq<Event>, tag: string, result: PeelResult)
  {
    && IsPeelChain(asks, tag) && |asks| > 0
    && var last := asks[|asks| - 1];
       match result
       case Peeled(sha) => ObjectIn(last) == Some(GitObject("commit", sha))
       case PeelRetry => last.json == RetryLater
       case PeelFailed(code) =>
         && code == (if |asks| == 1 && ObjectIn(last).None? then "tag_ref_invalid" else "tag_peel_invalid")
         && !last.json.RetryLater?
         && (ObjectIn(last).Some? ==>
               && ObjectIn(last).value.kind != "commit"
               && (ObjectIn(last).value.kind == "tag" ==>
                     exists i :: 0 <= i < |asks| - 1 && NamedSha(asks[i]) == NamedSha(last)))
  }

  /** Following an annotated tag not followed before keeps the chain a chain. */
  lemma ChainGrows(asks: seq<Event>, next: Event, tag: string)
    requires |asks| > 0 && IsPeelChain(asks, tag)
    requires PointsOn(asks[|asks| - 1])
    requires forall i :: 0 <= i < |asks| - 1 ==> NamedSha(asks[i]) != NamedSha(asks[|asks| - 1])
    requires next.JsonAsked? && next.request == TagObject(NamedSha(asks[|asks| - 1]))
    ensures IsPeelChain(asks + [next], tag)
  {
    var longer := asks + [next];
    forall i | 0 < i < |longer| ensures longer[i].request == TagObject(NamedSha(longer[i - 1])) {
      assert longer[i - 1] == asks[i - 1];
    }
  }

  method FollowTag(remote: Remote, tag: string) returns (result: PeelResult, ghost asks: seq<Event>)
    modifies remote
    ensures remote.log == old(remote.log) + asks
    ensures PeelEndsIn(asks, tag, result)
  {
    var reply := remote.RequestJson(TagRef(tag));
    asks := [JsonAsked(TagRef(tag), reply)];
    if !reply.Answered? {
      return if reply.RetryLater? then PeelRetry else PeelFailed("tag_ref_invalid"), asks;
    }
    var decoded := DecodeTagObject(reply.value);
    if decoded.None? {
      return PeelFailed("tag_ref_invalid"), asks;
    }
    var current := decoded.value;
    var visited: set<string> := {};
    while current.kind != "commit"
      invariant remote.log == old(remote.log) + asks
      invariant |asks| > 0 && IsPeelChain(asks, tag)
      invariant ObjectIn(asks[|asks| - 1]) == Some(current)
      invariant visited == set i | 0 <= i < |asks| - 1 :: NamedSha(asks[i])
      invariant visited <= HexStrings(SHA_LENGTH)
      decreases HexStrings(SHA_LENGTH) - visited
    {
      if current.kind != "tag" || current.sha in visited {
        return PeelFailed("tag_peel_invalid"), asks;
      }
      HexStringsHasEvery(current.sha, SHA_LENGTH);
      visited := visited + {current.sha};
      reply := remote.RequestJson(TagObject(current.sha));
      ghost var shorter := asks;
      ChainGrows(shorter, JsonAsked(TagObject(current.sha), reply), tag);
      asks := shorter + [JsonAsked(TagObject(current.sha), reply)];
      assert forall i :: 0 <= i < |shorter| ==> asks[i] == shorter[i];
      if !reply.Answered? {
        return if reply.RetryLater? then PeelRetry else PeelFailed("tag_peel_invalid"), asks;
      }
      decoded := DecodeTagObject(reply.value);
      if decoded.None? {
        return PeelFailed("tag_peel_invalid"), asks;
      }
      current := decoded.value;
    }
    return Peeled(current.sha), asks;
  }

  method PeelTag(remote: Remote, tag: string) returns (result: PeelResult)
    modifies remote
    ensures old(remote.log) < remote.log
    ensures PeelEndsIn(remote.log[|old(remote.log)|..|remote.log| - 1], tag, result)
    ensures remote.log[|remote.log| - 1] == TagPeeled(result)
  {
    ghost var asks;
    result, asks := FollowTag(remote, tag);
    remote.NotePeel(result);
    assert remote.log[|old(remote.log)|..|remote.log| - 1] == asks;
  }

  // ----- marks of peels, and the questions they sum up

  /** The questions from `n` up to the mark at `i` are one whole peel of the tag, and it ended as the mark says. */
  ghost predicate IsPeel(log: seq<Event>, tag: string, n: int, i: int)
  {
    0 <= n < i < |log| && log[i].TagPeeled? && PeelEndsIn(log[n..i], tag, log[i].result)
  }

  predicate AsksTag(e: Event) { e.JsonAsked? && (e.request.TagRef? || e.request.TagObject?) }

  predicate AboutTag(e: Event) { e.TagPeeled? || AsksTag(e) }

  ghost predicate PeelEndsAt(log: seq<Event>, tag: string, i: int) { exists n :: IsPeel(log, tag, n, i) }

  ghost predicate InPeel(log: seq<Event>, tag: string, k: int) { exists n, i :: n <= k < i && IsPeel(log, tag, n, i) }

  /** Every mark is what the answers before it say, and no question about the tag went without its mark. */
  ghost predicate TagsAccounted(log: seq<Event>, tag: string)
  {
    && (forall i :: 0 <= i < |log| && log[i].TagPeeled? ==> PeelEndsAt(log, tag, i))
    && (forall k :: 0 <= k < |log| && AsksTag(log[k]) ==> InPeel(log, tag, k))
  }

  lemma PeelIsKept(log: seq<Event>, longer: seq<Event>, tag: string, n: int, i: int)
    requires log <= longer && IsPeel(log, tag, n, i)
    ensures IsPeel(longer, tag, n, i)
  {
    assert log[n..i] == longer[n..i];
  }

  /** Marks and questions that were accounted for stay so. */
  lemma TagsStay(log: seq<Event>, longer: seq<Event>, tag: string)
    requires log <= longer && TagsAccounted(log, tag)
    ensures forall i :: 0 <= i < |log| && longer[i].TagPeeled? ==> PeelEndsAt(longer, tag, i)
    ensures forall k :: 0 <= k < |log| && AsksTag(longer[k]) ==> InPeel(longer, tag, k)
  {
    hide PeelEndsIn;
    forall n, i | IsPeel(log, tag, n, i) ensures IsPeel(longer, tag, n, i) {
      PeelIsKept(log, longer, tag, n, i);
    }
    forall i | 0 <= i < |log| && longer[i].TagPeeled? ensures PeelEndsAt(longer, tag, i) {
      assert PeelEndsAt(log, tag, i);
    }
    forall k | 0 <= k < |log| && AsksTag(longer[k]) ensures InPeel(longer, tag, k) {
      assert InPeel(log, tag, k);
    }
  }

  /** Questions about anything else leave the tag accounted for. */
  lemma OtherEventsAccounted(log: seq<Event>, longer: seq<Event>, tag: string)
    requires log <= longer && TagsAccounted(log, tag)
    requires forall i :: |log| <= i < |longer| ==> !AboutTag(longer[i])
    ensures TagsAccounted(longer, tag)
  {
    hide PeelEndsAt, InPeel;
    TagsStay(log, longer, tag);
  }

  /** A whole peel and its mark leave the tag accounted for. */
  lemma PeelAccounted(log: seq<Event>, longer: seq<Event>, tag: string, result: PeelResult)
    requires log < longer && TagsAccounted(log, tag)
    requires PeelEndsIn(longer[|log|..|longer| - 1], tag, result) && longer[|longer| - 1] == TagPeeled(result)
    ensures TagsAccounted(longer, tag)
  {
    hide PeelEndsIn, TagsAccounted;
    TagsStay(log, longer, tag);
    PeelIsQuestions(longer[|log|..|longer| - 1], tag, result);
    assert IsPeel(longer, tag, |log|, |longer| - 1);
    assert PeelEndsAt(longer, tag, |longer| - 1);
    assert forall i :: |log| <= i < |longer| - 1 ==> longer[i] == longer[|log|..|longer| - 1][i - |log|];
    forall k | 0 <= k < |longer| && AsksTag(longer[k]) ensures InPeel(longer, tag, k) {
      if |log| <= k { assert k < |longer| - 1; }
    }
    Accounted(longer, tag);
  }

  lemma PeelIsQuestions(asks: seq<Event>, tag: string, result: PeelResult)
    requires PeelEndsIn(asks, tag, result)
    ensures |asks| > 0 && forall i :: 0 <= i < |asks| ==> asks[i].JsonAsked?
  {
  }

  lemma Accounted(log: seq<Event>, tag: string)
    requires forall i :: 0 <= i < |log| && log[i].TagPeeled? ==> PeelEndsAt(log, tag, i)
    requires forall k :: 0 <= k < |log| && AsksTag(log[k]) ==> InPeel(log, tag, k)
    ensures TagsAccounted(log, tag)
  {
  }

  // ----- workflow runs

  datatype Run = Run(id: int, attempt: int, event: string, path: string, headBranch: string, headSha: string,
                     status: string, conclusion: Option<Json>)

  function DecodeRun(v: Json): Option<Run>
  {
    var id := SafeIntegerField(v, "id", 1);
    var attempt := SafeIntegerField(v, "run_attempt", 1);
    var event := StringField(v, "event");
    var path := StringField(v, "path");
    var headBranch := StringField(v, "head_branch");
    var headSha := StringField(v, "head_sha");
    var status := StringField(v, "status");
    if id.Some? && attempt.Some? && event.Some? && path.Some? && headBranch.Some?
       && headSha.Some? && IsSha(headSha.value) && status.Some?
    then Some(Run(id.value, attempt.value, event.value, path.value, headBranch.value, headSha.value,
                  status.value, Field(v, "conclusion")))
    else None
  }

  predicate IsRunEvent(event: string) { event == "push" || event == "workflow_dispatch" }

  predicate HasMatchingRunIdentity(run: Run, tag: string, headSha: string, runId: int, expectedEvent: Option<string>)
  {
    && run.id == runId
    && run.path == ".github/workflows/release.yml"
    && run.headBranch == tag
    && run.headSha == headSha
    && IsRunEvent(run.event)
    && (expectedEvent.None? || run.event == expectedEvent.value)
  }

  datatype BoundRun = Bound(run: Run) | Unbound(code: string)

  function DecodeBoundRun(v: Json, tag: string, headSha: string, runId: int,
                          expectedEvent: Option<string>, expectedAttempt: Option<int>): BoundRun
  {
    var run := DecodeRun(v);
    if run.None? || !HasMatchingRunIdentity(run.value, tag, headSha, runId, expectedEvent) then
      Unbound("run_identity_mismatch")
    else if expectedAttempt.Some? && run.value.attempt != expectedAttempt.value then
      Unbound("run_attempt_changed")
    else
      Bound(run.value)
  }

  /** A run that is bound is this release's, and the attempt that was expected. */
  lemma BoundIsTheRelease(v: Json, tag: string, headSha: string, runId: int, expectedEvent: Option<string>,
      expectedAttempt: Option<int>)
    requires DecodeBoundRun(v, tag, headSha, runId, expectedEvent, expectedAttempt).Bound?
    ensures var run := DecodeBoundRun(v, tag, headSha, runId, expectedEvent, expectedAttempt).run;
            && DecodeRun(v) == Some(run) && HasMatchingRunIdentity(run, tag, headSha, runId, None)
            && IsRunEvent(run.event) && (expectedEvent.Some? ==> run.event == expectedEvent.value)
            && (expectedAttempt.Some? ==> run.attempt == expectedAttempt.value)
  {
    hide DecodeRun;
  }

  // ----- pages of at most one hundred entries

  /** A page that announces how many entries it holds; `None` when it is not one. */
  function PageOf(v: Json, items: string): Option<(int, seq<Json>)>
  {
    var count := SafeIntegerField(v, "total_count", 0);
    var entries := ArrayField(v, items);
    if count.Some? && entries.Some? then Some((count.value, entries.value)) else None
  }

  /** The page holds every entry it announces. */
  predicate PageComplete(page: (int, seq<Json>)) { page.0 == |page.1| && page.0 <= 100 }

  predicate IncompletePage(v: Json, items: string) { PageOf(v, items).Some? && !PageComplete(PageOf(v, items).value) }

  datatype Discovery = Found(run: Run) | NotFound | Ambiguous | Incomplete | Invalid

  predicate IsReleaseRun(run: Option<Run>, tag: string, headSha: string)
  {
    run.Some? && run.value.event == "push" && run.value.headBranch == tag && run.value.headSha == headSha
  }

  /** The runs a discovery page lists, in its order; `None` where an entry is not a run. */
  function ListedRuns(v: Json): (runs: seq<Option<Run>>)
  {
    match PageOf(v, "workflow_runs")
    case Some(page) => seq(|page.1|, i requires 0 <= i < |page.1| => DecodeRun(page.1[i]))
    case None => []
  }

  ghost predicate OnlyReleaseRun(runs: seq<Option<Run>>, i: int, tag: string, headSha: string)
    requires 0 <= i < |runs|
  {
    && IsReleaseRun(runs[i], tag, headSha)
    && forall j :: 0 <= j < |runs| && IsReleaseRun(runs[j], tag, headSha) ==> j == i
  }

  /** Which run of a complete page is the release's: none, exactly one, or more than one. */
  ghost predicate Discovers(runs: seq<Option<Run>>, tag: string, headSha: string, r: Discovery)
  {
    match r
    case Invalid => None in runs
    case Found(run) => None !in runs
        && exists i :: 0 <= i < |runs| && OnlyReleaseRun(runs, i, tag, headSha) && runs[i] == Some(run)
    case NotFound => None !in runs && forall i :: 0 <= i < |runs| ==> !IsReleaseRun(runs[i], tag, headSha)
    case Ambiguous =>
      && None !in runs
      && exists i, j ::
           0 <= i < j < |runs| && IsReleaseRun(runs[i], tag, headSha) && IsReleaseRun(runs[j], tag, headSha)
    case Incomplete => false
  }

  method DecodeDiscovery(v: Json, tag: string, headSha: string) returns (r: Discovery)
    ensures r.Incomplete? <==> IncompletePage(v, "workflow_runs")
    ensures PageOf(v, "workflow_runs").None? ==> r == Invalid
    ensures PageOf(v, "workflow_runs").Some? && !r.Incomplete? ==> Discovers(ListedRuns(v), tag, headSha, r)
  {
    var page := PageOf(v, "workflow_runs");
    if page.None? { return Invalid; }
    if !PageComplete(page.value) { return Incomplete; }
    r := SelectRun(ListedRuns(v), tag, headSha);
  }

  method SelectRun(runs: seq<Option<Run>>, tag: string, headSha: string) returns (r: Discovery)
    ensures Discovers(runs, tag, headSha, r)
  {
    var matches: seq<Run> := [];
    ghost var at: seq<int> := [];
    for i := 0 to |runs|
      invariant |at| == |matches|
      invariant None !in runs[..i]
      invariant forall k :: 0 <= k < |at| ==> 0 <= at[k] < i && IsReleaseRun(runs[at[k]], tag, headSha)
      invariant forall k :: 0 <= k < |at| ==> runs[at[k]] == Some(matches[k])
      invariant forall k, l :: 0 <= k < l < |at| ==> at[k] < at[l]
      invariant forall k :: 0 <= k < i && IsReleaseRun(runs[k], tag, headSha) ==> k in at
    {
      if runs[i].None? { return Invalid; }
      if IsReleaseRun(runs[i], tag, headSha) {
        matches := matches + [runs[i].value];
        at := at + [i];
      }
    }
    if |matches| > 1 {
      assert at[0] < at[1];
      return Ambiguous;
    }
    if |matches| == 1 {
      assert OnlyReleaseRun(runs, at[0], tag, headSha);
      return Found(matches[0]);
    }
    return NotFound;
  }

  // ----- jobs

  predicate NamesJob(jobs: seq<Job>, name: string)
  {
    exists i :: 0 <= i < |jobs| && jobs[i].name == name
  }

  /** `jobs.find(job => job.name === name)` */
  function FindJob(jobs: seq<Job>, name: string): (r: Option<Job>)
    ensures r.Some? ==> r.value in jobs && r.value.name == name
    ensures r.None? <==> !NamesJob(jobs, name)
  {
    if jobs == [] then None
    else if jobs[0].name == name then Some(jobs[0])
    else
      assert NamesJob(jobs, name) <==> NamesJob(jobs[1..], name);
      FindJob(jobs[1..], name)
  }

  predicate ExtraJobAllowed(job: Job, lane: Lane)
  {
    lane.MainLane? && "Native ocmm-lsp (" <= job.name && job.conclusion == "skipped"
  }

  ghost predicate DistinctNames(jobs: seq<Job>)
  {
    forall i, j :: 0 <= i < j < |jobs| ==> jobs[i].name != jobs[j].name
  }

  /** The jobs are the table's: names differ, every expected one has its conclusion, and nothing else is there
      but skipped native builds. */
  ghost predicate JobsMatch(jobs: seq<Job>, expected: seq<Job>, lane: Lane)
  {
    && DistinctNames(jobs)
    && (forall e :: e in expected ==> e in jobs)
    && (forall j :: j in jobs ==>
          || (exists e :: e in expected && e.name == j.name)
          || (lane.MainLane? && "Native ocmm-lsp (" <= j.name && j.conclusion == "skipped"))
  }

  predicate ReadableJob(v: Json)
  {
    && StringField(v, "name").Some? && StringField(v, "name").value != ""
    && StringField(v, "conclusion").Some?
  }

  function JobIn(v: Json): Job
    requires ReadableJob(v)
  {
    Job(StringField(v, "name").value, StringField(v, "conclusion").value)
  }

  /** `jobs` is exactly what the page lists, in its order. */
  ghost predicate ListsJobs(v: Json, jobs: seq<Job>)
  {
    && PageOf(v, "jobs").Some? && PageComplete(PageOf(v, "jobs").value)
    && var items := PageOf(v, "jobs").value.1;
       && |jobs| == |items|
       && forall i :: 0 <= i < |items| ==> ReadableJob(items[i]) && jobs[i] == JobIn(items[i])
  }

  method ReadJobs(v: Json) returns (r: Result<seq<Job>, string>)
    ensures r.Success? ==> ListsJobs(v, r.value) && DistinctNames(r.value)
    ensures r.Failure? ==> forall jobs :: ListsJobs(v, jobs) ==> !DistinctNames(jobs)
    ensures r.Failure? ==>
              r.error == if IncompletePage(v, "jobs") then "jobs_page_incomplete" else "jobs_contract_invalid"
  {
    var page := PageOf(v, "jobs");
    if page.None? { return Failure("jobs_contract_invalid"); }
    if !PageComplete(page.value) { return Failure("jobs_page_incomplete"); }
    var items := page.value.1;
    var jobs: seq<Job> := [];
    var names: set<string> := {};
    for i := 0 to |items|
      invariant |jobs| == i
      invariant forall k :: 0 <= k < i ==> ReadableJob(items[k]) && jobs[k] == JobIn(items[k])
      invariant forall n :: n in names <==> NamesJob(jobs, n)
      invariant DistinctNames(jobs)
    {
      if !ReadableJob(items[i]) { return Failure("jobs_contract_invalid"); }
      var job := JobIn(items[i]);
      if job.name in names {
        var k :| 0 <= k < i && jobs[k].name == job.name;
        forall other: seq<Job> | ListsJobs(v, other) ensures !DistinctNames(other) {
          assert other[k].name == other[i].name;
        }
        return Failure("jobs_contract_invalid");
      }
      names := names + {job.name};
      ghost var before := jobs;
      jobs := jobs + [job];
      forall n ensures n in names <==> NamesJob(jobs, n) {
        if n == job.name { assert jobs[i].name == n; }
        if NamesJob(before, n) { var k :| 0 <= k < i && before[k].name == n; assert jobs[k].name == n; }
      }
    }
    return Success(jobs);
  }

  method DecodeJobs(v: Json, expected: seq<Job>, lane: Lane) returns (r: Result<seq<Job>, string>)
    ensures r.Success? ==> ListsJobs(v, r.value) && JobsMatch(r.value, expected, lane)
    ensures r.Failure? ==> forall jobs :: ListsJobs(v, jobs) ==> !JobsMatch(jobs, expected, lane)
    ensures r.Failure? ==>
              r.error == if IncompletePage(v, "jobs") then "jobs_page_incomplete" else "jobs_contract_invalid"
  {
    r := ReadJobs(v);
    if r.Failure? { return; }
    var jobs := r.value;
    assert forall other :: ListsJobs(v, other) ==> other == jobs;
    var ok := MatchesTable(jobs, expected, lane);
    if !ok { return Failure("jobs_contract_invalid"); }
  }

  method MatchesTable(jobs: seq<Job>, expected: seq<Job>, lane: Lane) returns (ok: bool)
    requires DistinctNames(jobs)
    ensures ok <==> JobsMatch(jobs, expected, lane)
  {
    for i := 0 to |expected|
      invariant forall k :: 0 <= k < i ==> expected[k] in jobs
    {
      var actual := FindJob(jobs, expected[i].name);
      if actual.None? || actual.value.conclusion != expected[i].conclusion {
        assert expected[i] !in jobs;
        return false;
      }
      assert actual.value == expected[i];
    }
    for i := 0 to |jobs|
      invariant forall k :: 0 <= k < i ==> NamesJob(expected, jobs[k].name) || ExtraJobAllowed(jobs[k], lane)
    {
      if !NamesJob(expected, jobs[i].name) && !ExtraJobAllowed(jobs[i], lane) {
        assert jobs[i] in jobs;
        return false;
      }
    }
    return true;
  }
}
