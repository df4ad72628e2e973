/** The receipt a completion check fills in, and what a log of answers proves about a release. */
module ReleaseReceipt {
  import opened Wrappers
  import opened Text
  import opened Sorting
  import opened JsonValues
  import opened ReleaseContracts
  import opened ReleaseIdentity
  import opened ReleaseProof

  class Receipt {
    const repository: Option<string>
    const target: Option<Target>
    var outcome: Outcome
    var headSha: Option<string>
    var runId: Option<int>
    var runAttempt: Option<int>
    var prerelease: Option<bool>
    var surfaces: Surfaces
    var jobs: seq<Job>
    var assets: seq<AssetRow>
    var errors: seq<ErrorRecord>

    constructor (repository: Option<string>, target: Option<Target>)
      ensures this.repository == repository && this.target == target
      ensures outcome == UNRESOLVED && headSha == None && runId == None && runAttempt == None
      ensures surfaces == FRESH_SURFACES
      ensures jobs == [] && assets == [] && errors == []
    {
      this.repository := repository;
      this.target := target;
      outcome := UNRESOLVED;
      headSha, runId, runAttempt, prerelease := None, None, None, None;
      surfaces := FRESH_SURFACES;
      jobs, assets, errors := [], [], [];
    }

    method SetSurface(surface: SurfaceName, status: Status)
      modifies this`surfaces
      ensures surfaces == old(surfaces).With(surface, status)
    {
      surfaces := surfaces.With(surface, status);
    }

    method AddFailure(surface: SurfaceName, code: string)
      modifies this`surfaces, this`errors
      ensures surfaces == old(surfaces).With(surface, Failed)
      ensures errors == old(errors) + [ErrorRecord(surface, code)]
    {
      SetSurface(surface, Failed);
      errors := errors + [ErrorRecord(surface, code)];
    }

    /** Leaves a failed or proven surface alone. */
    method MarkRetryable(retryable: set<SurfaceName>, surface: SurfaceName) returns (now: set<SurfaceName>)
      modifies this`surfaces
      ensures surfaces
              == if old(surfaces).Get(surface) in {Failed, Pass} then old(surfaces)
                 else old(surfaces).With(surface, Unresolved)
      ensures now == if old(surfaces).Get(surface) in {Failed, Pass} then retryable else retryable + {surface}
    {
      now := retryable;
      if surfaces.Get(surface) != Failed && surfaces.Get(surface) != Pass {
        SetSurface(surface, Unresolved);
        now := now + {surface};
      }
    }

    /** Sorts the lists, drops what stands next to its like, and takes the outcome from the surfaces. */
    method FinalizeReceipt()
      modifies this`outcome, this`jobs, this`assets, this`errors
      ensures jobs == Collapse(Sort(old(jobs), JobBefore)) && assets == Collapse(Sort(old(assets), RowBefore))
      ensures errors == Collapse(Sort(old(errors), ErrorBefore))
      ensures outcome == FAILED <==>
                SomeSurface(surfaces, Failed) || (AllSurfacesProven(surfaces) && (repository.None? || target.None?))
      ensures outcome == UNRESOLVED <==> !SomeSurface(surfaces, Failed) && SomeSurface(surfaces, Unresolved)
      ensures outcome == COMPLETED <==> AllSurfacesProven(surfaces) && repository.Some? && target.Some?
    {
      jobs := DeduplicateSorted(jobs, JobBefore);
      assets := DeduplicateSorted(assets, RowBefore);
      errors := DeduplicateSorted(errors, ErrorBefore);
      outcome := FinalOutcome(surfaces, repository.Some? && target.Some?);
    }
  }

  // ----- the order of the receipt's lists

  predicate JobBefore(a: Job, b: Job)
  {
    if a.name != b.name then OrdinalLe(a.name, b.name) else OrdinalLe(a.conclusion, b.conclusion)
  }

  /** `SURFACE_KEYS.indexOf` */
  function SurfaceIndex(surface: SurfaceName): nat
  {
    match surface
    case Identity => 0
    case Workflow => 1
    case Jobs => 2
    case GithubRelease => 3
    case ReleaseAssets => 4
    case Checksums => 5
    case Npm => 6
    case GithubPackages => 7
    case PinnedLspRelease => 8
  }

  predicate ErrorBefore(a: ErrorRecord, b: ErrorRecord)
  {
    if a.surface != b.surface then SurfaceIndex(a.surface) < SurfaceIndex(b.surface) else OrdinalLe(a.code, b.code)
  }

  function SizeOr(size: Option<int>): int { if size.Some? then size.value else -1 }

  function TextOr(text: Option<string>): string { if text.Some? then text.value else "" }

  predicate RowBefore(a: AssetRow, b: AssetRow)
  {
    if a.name != b.name then OrdinalLe(a.name, b.name)
    else if a.size != b.size then a.size < b.size
    else if SizeOr(a.downloadedSize) != SizeOr(b.downloadedSize) then
      SizeOr(a.downloadedSize) < SizeOr(b.downloadedSize)
    else OrdinalLe(TextOr(a.sha256), TextOr(b.sha256))
  }

  /** The surfaces in the order errors are listed in. */
  const SURFACES := [Identity, Workflow, Jobs, GithubRelease, ReleaseAssets, Checksums, Npm, GithubPackages,
                     PinnedLspRelease]

  /** Jobs are listed by name and then by conclusion. */
  lemma JobsBeforeIff(a: Job, b: Job)
    ensures JobBefore(a, b) <==> (a.name != b.name && OrdinalLe(a.name, b.name))
                                 || (a.name == b.name && OrdinalLe(a.conclusion, b.conclusion))
  {
  }

  /** Errors are listed by surface and then by code. */
  lemma ErrorsBeforeIff(a: ErrorRecord, b: ErrorRecord)
    ensures ErrorBefore(a, b)
            <==> || (exists i, j :: 0 <= i < j < 9 && SURFACES[i] == a.surface && SURFACES[j] == b.surface)
                 || (a.surface == b.surface && OrdinalLe(a.code, b.code))
  {
    hide OrdinalLe;
    var i, j := SurfaceIndex(a.surface), SurfaceIndex(b.surface);
    assert forall k :: 0 <= k < 9 ==> SurfaceIndex(SURFACES[k]) == k;
    assert SURFACES[i] == a.surface && SURFACES[j] == b.surface;
  }

  /** Asset rows are listed by name, by size, by the size downloaded, none of it first, and by digest, none first. */
  lemma RowsBeforeIff(a: AssetRow, b: AssetRow)
    ensures var x := if a.downloadedSize == None then -1 else a.downloadedSize.value;
            var y := if b.downloadedSize == None then -1 else b.downloadedSize.value;
            RowBefore(a, b)
            <==> || (a.name != b.name && OrdinalLe(a.name, b.name))
                 || (a.name == b.name && a.size < b.size)
                 || (a.name == b.name && a.size == b.size && x < y)
                 || (a.name == b.name && a.size == b.size && x == y
                     && (a.sha256 == None || (b.sha256 != None && OrdinalLe(a.sha256.value, b.sha256.value))
                         || (b.sha256 == None && a.sha256 == Some(""))))
  {
    NothingIsFirst(TextOr(a.sha256), TextOr(b.sha256));
  }

  lemma NothingIsFirst(a: string, b: string)
    ensures OrdinalLe("", b) && (OrdinalLe(a, "") <==> a == "")
  {
  }

  lemma JobsAreOrdered()
    ensures TotalPreorder(JobBefore) && Antisymmetric(JobBefore)
  {
    hide OrdinalLe;
    forall a: Job, b: Job
      ensures (JobBefore(a, b) || JobBefore(b, a)) && (JobBefore(a, b) && JobBefore(b, a) ==> a == b)
    {
      OrdinalIsTotal(a.name, b.name);
      OrdinalIsTotal(a.conclusion, b.conclusion);
    }
    forall a: Job, b: Job, c: Job | JobBefore(a, b) && JobBefore(b, c) ensures JobBefore(a, c) {
      if a.name != b.name && b.name != c.name {
        OrdinalIsTransitive(a.name, b.name, c.name);
        OrdinalIsTotal(a.name, b.name);
      } else if a.name == b.name == c.name {
        OrdinalIsTransitive(a.conclusion, b.conclusion, c.conclusion);
      }
    }
  }

  lemma ErrorsAreOrdered()
    ensures TotalPreorder(ErrorBefore) && Antisymmetric(ErrorBefore)
  {
    hide OrdinalLe;
    forall a: ErrorRecord, b: ErrorRecord
      ensures (ErrorBefore(a, b) || ErrorBefore(b, a)) && (ErrorBefore(a, b) && ErrorBefore(b, a) ==> a == b)
    {
      OrdinalIsTotal(a.code, b.code);
    }
    forall a: ErrorRecord, b: ErrorRecord, c: ErrorRecord | ErrorBefore(a, b) && ErrorBefore(b, c)
      ensures ErrorBefore(a, c)
    {
      if a.surface == b.surface == c.surface { OrdinalIsTransitive(a.code, b.code, c.code); }
    }
  }

  /** The finalized jobs and errors are the recorded ones, each once, in order, whatever the order they were recorded
      in. */
  lemma FinalListsAreSorted(jobs: seq<Job>, errors: seq<ErrorRecord>)
    ensures var r := Collapse(Sort(jobs, JobBefore));
            && Sorted(r, JobBefore) && (forall x :: x in r <==> x in jobs)
            && forall i, j :: 0 <= i < j < |r| ==> r[i] != r[j]
    ensures var r := Collapse(Sort(errors, ErrorBefore));
            && Sorted(r, ErrorBefore) && (forall x :: x in r <==> x in errors)
            && forall i, j :: 0 <= i < j < |r| ==> r[i] != r[j]
  {
    hide JobBefore, ErrorBefore, Collapse, Sort, Sorted;
    JobsAreOrdered();
    ErrorsAreOrdered();
    DeduplicatedIsSorted(jobs, JobBefore);
    DeduplicatedIsSorted(errors, ErrorBefore);
  }

  predicate SomeSurface(surfaces: Surfaces, status: Status) { exists s: SurfaceName :: surfaces.Get(s) == status }

  predicate AllSurfacesProven(surfaces: Surfaces) { forall s: SurfaceName :: surfaces.Get(s) in {Pass, Skipped} }

  function FinalOutcome(surfaces: Surfaces, identified: bool): (o: Outcome)
    ensures o == COMPLETED <==> AllSurfacesProven(surfaces) && identified
    ensures o == UNRESOLVED <==> !SomeSurface(surfaces, Failed) && SomeSurface(surfaces, Unresolved)
    ensures o == FAILED <==> SomeSurface(surfaces, Failed) || (AllSurfacesProven(surfaces) && !identified)
  {
    if SomeSurface(surfaces, Failed) then FAILED
    else if SomeSurface(surfaces, Unresolved) then UNRESOLVED
    else if !identified then FAILED
    else COMPLETED
  }

  // ----- what a log proves

  /** The run was answered for, by its number, as this attempt of this release, and as finished with success. */
  ghost predicate WorkflowSucceeded(log: seq<Event>, tag: string, headSha: string, runId: int, attempt: int)
  {
    exists v: Json ::
      && JsonAsked(RunById(runId), Answered(v)) in log
      && RunOf(v, tag, headSha, runId, attempt)
      && DecodeRun(v).value.status == "completed" && DecodeRun(v).value.conclusion == Some(Str("success"))
  }

  predicate RunOf(v: Json, tag: string, headSha: string, runId: int, attempt: int)
  {
    && DecodeRun(v).Some?
    && HasMatchingRunIdentity(DecodeRun(v).value, tag, headSha, runId, None)
    && DecodeRun(v).value.attempt == attempt
  }

  /** The jobs of exactly this attempt were answered with, and they are the lane's. */
  ghost predicate JobsConfirmed(log: seq<Event>, expected: seq<Job>, lane: Lane, runId: int, attempt: int,
      jobs: seq<Job>)
  {
    && (exists v: Json :: JsonAsked(JobsOf(runId, attempt), Answered(v)) in log && ListsJobs(v, jobs))
    && JobsMatch(jobs, expected, lane)
  }

  /** The release of the tag was answered for: not a draft, and with exactly the expected assets. */
  ghost predicate ReleaseConfirmed(log: seq<Event>, tag: string, names: seq<string>, platform: Platform,
      assets: map<string, Asset>)
  {
    && (exists v: Json ::
          && JsonAsked(ReleaseByTag(tag), Answered(v)) in log
          && StringField(v, "tag_name") == Some(tag) && BoolField(v, "draft") == Some(false)
          && ArrayField(v, "assets").Some?
          && ListsAssets(ReadAssets(ArrayField(v, "assets").value, platform.httpsUrl), assets))
    && SameNames(assets.Keys, names)
  }

  /** The asset was fetched from its URL with the size the release names. */
  ghost predicate Downloaded(log: seq<Event>, asset: Asset, bytes: seq<Byte>)
  {
    BytesAsked(asset.url, Answered(bytes)) in log && |bytes| == asset.size
  }

  ghost predicate PayloadProven(log: seq<Event>, platform: Platform, asset: Asset, digest: string)
  {
    exists bytes :: Downloaded(log, asset, bytes) && platform.sha256(bytes) == digest
  }

  ghost predicate ManifestProven(log: seq<Event>, platform: Platform, asset: Asset, digests: map<string, string>)
  {
    exists bytes ::
      && Downloaded(log, asset, bytes) && platform.utf8(bytes).Some?
      && ManifestSays(platform.utf8(bytes).value, digests)
  }

  /** The receipt row of a proven asset: its size, as named and as fetched, and a payload's digest. */
  function ProvenRow(name: string, asset: Asset, digests: map<string, string>): AssetRow
  {
    AssetRow(name, asset.size, Some(asset.size),
             if name != CHECKSUM_NAME && name in digests then Some(digests[name]) else None)
  }

  /** Every expected asset was fetched whole, and every payload with the digest the manifest gives it. */
  ghost predicate AssetsCheckOut(log: seq<Event>, names: seq<string>, platform: Platform, assets: map<string, Asset>,
                                 rows: seq<AssetRow>, digests: map<string, string>)
  {
    && CHECKSUM_NAME in assets && ManifestProven(log, platform, assets[CHECKSUM_NAME], digests)
    && SameNames(digests.Keys, Payloads(names))
    && (forall n :: n in Payloads(names) ==>
        n in assets && n in digests && PayloadProven(log, platform, assets[n], digests[n]))
    && RowsAre(rows, names, assets, digests)
  }

  ghost predicate AssetsConfirmed(log: seq<Event>, names: seq<string>, platform: Platform, assets: map<string, Asset>,
                                  rows: seq<AssetRow>)
  {
    exists digests :: AssetsCheckOut(log, names, platform, assets, rows, digests)
  }

  lemma AllCheckOut(log: seq<Event>, names: seq<string>, platform: Platform, assets: map<string, Asset>,
                    rows: seq<AssetRow>, digests: map<string, string>)
    requires CHECKSUM_NAME in assets && ManifestProven(log, platform, assets[CHECKSUM_NAME], digests)
    requires SameNames(digests.Keys, Payloads(names))
    requires forall n :: n in Payloads(names) ==>
               n in assets && n in digests && PayloadProven(log, platform, assets[n], digests[n])
    requires RowsAre(rows, names, assets, digests)
    ensures AssetsConfirmed(log, names, platform, assets, rows)
  {
    assert AssetsCheckOut(log, names, platform, assets, rows, digests);
  }

  ghost predicate RowsAre(rows: seq<AssetRow>, names: seq<string>, assets: map<string, Asset>,
      digests: map<string, string>)
  {
    |rows| == |names|
        && forall i :: 0 <= i < |names| ==>
            && names[i] in assets && rows[i].name == names[i] && rows[i].size == assets[names[i]].size
            && rows[i].downloadedSize == Some(assets[names[i]].size)
            && rows[i].sha256 == if names[i] != "SHA256SUMS.txt" && names[i] in digests then Some(digests[names[i]])
                                 else None
  }

  ghost predicate PinnedConfirmed(log: seq<Event>, target: Target)
  {
    && target.pinnedLspVersion.Some?
    && var tag := PinnedTag(target);
       exists v: Json ::
         && JsonAsked(ReleaseByTag(tag), Answered(v)) in log
         && StringField(v, "tag_name") == Some(tag) && BoolField(v, "draft") == Some(false)
  }

  /** The last thing the remote was asked is the tag, and it still led to this commit. */
  ghost predicate EndsAtTag(log: seq<Event>, tag: string, headSha: string)
  {
    |log| > 0 && log[|log| - 1] == TagPeeled(Peeled(headSha)) && exists n :: PeeledSince(log, n, tag, headSha)
  }

  ghost predicate PeeledSince(log: seq<Event>, n: int, tag: string, headSha: string)
  {
    0 <= n < |log| && PeelEndsIn(log[n..|log| - 1], tag, Peeled(headSha))
  }

  /** Every question about a run or its jobs was about this run and attempt, and the tag never led elsewhere: the marks
      are all accounted for by peels (`TagsAccounted`). */
  ghost predicate OneIdentity(log: seq<Event>, headSha: Option<string>, runId: Option<int>, attempt: Option<int>,
      tagHeld: bool)
  {
    && (forall r, reply :: JsonAsked(RunById(r), reply) in log ==> runId == Some(r))
    && (forall r, a, reply :: JsonAsked(JobsOf(r, a), reply) in log ==> runId == Some(r) && attempt == Some(a))
    && (forall sha :: TagPeeled(Peeled(sha)) in log ==> headSha.Some? && (tagHeld ==> headSha == Some(sha)))
  }

  /** All that `COMPLETED` stands for. */
  ghost predicate Certified(log: seq<Event>, target: Target, platform: Platform, headSha: string, runId: int,
      attempt: int,
                            jobs: seq<Job>, rows: seq<AssetRow>)
  {
    && TagsAccounted(log, target.tag) && OneIdentity(log, Some(headSha), Some(runId), Some(attempt), true)
    && WorkflowSucceeded(log, target.tag, headSha, runId, attempt)
    && JobsConfirmed(log, target.expectedJobs, target.lane, runId, attempt, jobs)
    && (exists assets ::
          && ReleaseConfirmed(log, target.tag, target.expectedAssets, platform, assets)
          && AssetsConfirmed(log, target.expectedAssets, platform, assets, rows))
    && (target.lane.MainLane? ==> PinnedConfirmed(log, target))
    && EndsAtTag(log, target.tag, headSha)
  }

  /** The last event is a clock reading that forbids another poll. */
  ghost predicate NoFurtherPoll(log: seq<Event>, deadlineAt: int)
  {
    && |log| > 0 && log[|log| - 1].ClockRead?
    && (log[|log| - 1].reading.InvalidDate? || log[|log| - 1].reading.ms >= deadlineAt)
  }

  /** The last event is a discovery page that does not hold every run it announces. */
  ghost predicate EndsAtIncompletePage(log: seq<Event>, tag: string)
  {
    && |log| > 0 && log[|log| - 1].JsonAsked?
    && log[|log| - 1].request == RunSearch(tag) && log[|log| - 1].json.Answered?
    && IncompletePage(log[|log| - 1].json.value, "workflow_runs")
  }

  /** Rows in the order of their names, no name twice, are left as they are. */
  lemma RowsStay(rows: seq<AssetRow>, names: seq<string>, assets: map<string, Asset>, digests: map<string, string>)
    requires RowsAre(rows, names, assets, digests) && Sorted(names, OrdinalLe) && NoRepeats(names)
    ensures Collapse(Sort(rows, RowBefore)) == rows
  {
    hide Collapse, Sort, OrdinalLe;
    SortOfSorted(rows, RowBefore);
    CollapseOfDistinct(rows);
  }

  lemma OneStays<T(!new)>(x: T, le: (T, T) -> bool)
    ensures Collapse(Sort([x], le)) == [x]
  {
    SortOfSorted([x], le);
    CollapseOfDistinct([x]);
  }

  // ----- proofs stay proofs as the log grows

  lemma EvidenceIsKept(log: seq<Event>, longer: seq<Event>, target: Target, platform: Platform)
    requires log <= longer
    ensures forall head, run, attempt :: WorkflowSucceeded(log, target.tag, head, run, attempt)
                                         ==> WorkflowSucceeded(longer, target.tag, head, run, attempt)
    ensures forall run, attempt, jobs :: JobsConfirmed(log, target.expectedJobs, target.lane, run, attempt, jobs)
                                         ==> JobsConfirmed(longer, target.expectedJobs, target.lane, run, attempt, jobs)
    ensures forall assets :: ReleaseConfirmed(log, target.tag, target.expectedAssets, platform, assets)
                             ==> ReleaseConfirmed(longer, target.tag, target.expectedAssets, platform, assets)
    ensures forall assets, rows :: AssetsConfirmed(log, target.expectedAssets, platform, assets, rows)
                                   ==> AssetsConfirmed(longer, target.expectedAssets, platform, assets, rows)
    ensures PinnedConfirmed(log, target) ==> PinnedConfirmed(longer, target)
  {
    forall assets, rows | AssetsConfirmed(log, target.expectedAssets, platform, assets, rows)
      ensures AssetsConfirmed(longer, target.expectedAssets, platform, assets, rows)
    {
      var digests :| AssetsCheckOut(log, target.expectedAssets, platform, assets, rows, digests);
      CheckOutKept(log, longer, target.expectedAssets, platform, assets, rows, digests);
    }
  }

  lemma CheckOutKept(log: seq<Event>, longer: seq<Event>, names: seq<string>, platform: Platform,
                     assets: map<string, Asset>, rows: seq<AssetRow>, digests: map<string, string>)
    requires log <= longer && AssetsCheckOut(log, names, platform, assets, rows, digests)
    ensures AssetsCheckOut(longer, names, platform, assets, rows, digests)
  {
  }

  lemma PayloadsKept(log: seq<Event>, longer: seq<Event>, platform: Platform)
    requires log <= longer
    ensures forall asset, digest :: PayloadProven(log, platform, asset, digest) ==>
              PayloadProven(longer, platform, asset, digest)
    ensures forall asset, digests :: ManifestProven(log, platform, asset, digests) ==>
              ManifestProven(longer, platform, asset, digests)
  {
  }
}
