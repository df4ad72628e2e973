/** Which answers a check must fail on, and which keep it from ending in the pass that got them. */
module ReleaseAnswers {
  import opened Wrappers
  import opened JsonValues
  import opened ReleaseContracts
  import opened ReleaseIdentity
  import opened ReleaseProof
  import opened ReleaseReceipt
  import opened ReleaseCauses

  /** The page holds every run there is, and this is what it shows. */
  ghost predicate PageShows(v: Json, tag: string, headSha: string, r: Discovery)
  {
    && PageOf(v, "workflow_runs").Some? && PageComplete(PageOf(v, "workflow_runs").value)
    && Discovers(ListedRuns(v), tag, headSha, r)
  }

  /** A search was answered with every run there is, and exactly this one, in this attempt, was the release's. */
  ghost predicate SearchFound(log: seq<Event>, tag: string, headSha: string, runId: int, attempt: int)
  {
    exists v: Json, run: Run ::
      && JsonAsked(RunSearch(tag), Answered(v)) in log && PageShows(v, tag, headSha, Found(run))
      && run.id == runId && run.attempt == attempt
  }

  /** The page shows the run that was taken, or none yet. */
  ghost predicate FineSearch(tag: string, id: Identified, v: Json)
  {
    || IncompletePage(v, "workflow_runs")
    || (&& id.headSha.Some?
        && exists r: Discovery ::
             && PageShows(v, tag, id.headSha.value, r)
             && (r.NotFound? || (r.Found? && id.runId == Some(r.run.id) && id.attempt == Some(r.run.attempt))))
  }

  /** The answer is about the bound attempt of the bound run, which is running or has succeeded. */
  predicate FineRun(tag: string, id: Identified, runId: int, v: Json)
  {
    && id.headSha.Some? && id.runId == Some(runId) && id.attempt.Some?
    && RunOf(v, tag, id.headSha.value, runId, id.attempt.value)
    && id.event == Some(DecodeRun(v).value.event)
    && (DecodeRun(v).value.status == "completed" ==> DecodeRun(v).value.conclusion == Some(Str("success")))
  }

  ghost predicate FineJobs(target: Target, v: Json)
  {
    exists jobs :: ListsJobs(v, jobs) && JobsMatch(jobs, target.expectedJobs, target.lane)
  }

  ghost predicate FineRelease(target: Target, platform: Platform, v: Json)
  {
    && ReleaseCode(v, target.tag).None?
    && exists assets ::
         && ListsAssets(ReadAssets(ArrayField(v, "assets").value, platform.httpsUrl), assets)
         && SameNames(assets.Keys, target.expectedAssets)
  }

  ghost predicate FineManifest(target: Target, platform: Platform, bytes: seq<Byte>)
  {
    && platform.utf8(bytes).Some?
    && exists digests ::
         ManifestSays(platform.utf8(bytes).value, digests) && SameNames(digests.Keys, Payloads(target.expectedAssets))
  }

  ghost predicate FinePayload(log: seq<Event>, target: Target, platform: Platform, name: string, bytes: seq<Byte>)
  {
    exists manifest, digests ::
      && IsReleaseAsset(log, target, platform, CHECKSUM_NAME, manifest)
      && ManifestProven(log, platform, manifest, digests)
      && name in digests && digests[name] == platform.sha256(bytes)
  }

  /** The bytes are an asset of the release, whole: its manifest, or a payload with the digest a manifest of it
      gives. */
  ghost predicate FineAsset(log: seq<Event>, target: Target, platform: Platform, name: string, asset: Asset,
                            bytes: seq<Byte>)
  {
    && IsReleaseAsset(log, target, platform, name, asset) && |bytes| == asset.size
    && if name == CHECKSUM_NAME then FineManifest(target, platform, bytes)
       else FinePayload(log, target, platform, name, bytes)
  }

  ghost predicate FineBytes(log: seq<Event>, target: Target, platform: Platform, url: string, bytes: seq<Byte>)
  {
    exists name, asset :: FineAsset(log, target, platform, name, asset, bytes) && asset.url == url
  }

  ghost predicate FineAnswer(target: Target, platform: Platform, id: Identified, request: Request, v: Json)
  {
    match request
    case TagRef(_) => true
    case TagObject(_) => true
    case RunSearch(_) => FineSearch(target.tag, id, v)
    case RunById(runId) => FineRun(target.tag, id, runId, v)
    case JobsOf(_, _) => FineJobs(target, v)
    case ReleaseByTag(tag) =>
      if tag == target.tag then FineRelease(target, platform, v) else PinnedCode(v, tag).None?
  }

  /** Nothing here is a reason to fail. Where the tag led is judged by the mark a peel leaves. */
  ghost predicate Fine(log: seq<Event>, target: Target, platform: Platform, id: Identified, e: Event)
  {
    match e
    case JsonAsked(TagRef(_), _) => true
    case JsonAsked(TagObject(_), _) => true
    case JsonAsked(request, Answered(v)) => FineAnswer(target, platform, id, request, v)
    case JsonAsked(_, reply) => reply.RetryLater?
    case BytesAsked(url, Answered(bytes)) => FineBytes(log, target, platform, url, bytes)
    case BytesAsked(_, reply) => reply.RetryLater?
    case TagPeeled(Peeled(sha)) => id.headSha == Some(sha)
    case TagPeeled(result) => result.PeelRetry?
    case ClockRead(_) => true
    case Slept(_) => true
  }

  /** What keeps a pass from completing without a failure: an answer to be asked for again, no run yet, a run that
      has not finished, or a page that does not hold every run. */
  ghost predicate Hinders(tag: string, headSha: Option<string>, e: Event)
  {
    match e
    case JsonAsked(_, RetryLater) => true
    case BytesAsked(_, RetryLater) => true
    case JsonAsked(RunSearch(_), Answered(v)) =>
      IncompletePage(v, "workflow_runs") || (headSha.Some? && PageShows(v, tag, headSha.value, NotFound))
    case JsonAsked(RunById(_), Answered(v)) => DecodeRun(v).Some? && DecodeRun(v).value.status != "completed"
    case _ => false
  }

  ghost predicate NothingHinders(log: seq<Event>, tag: string, headSha: Option<string>)
  {
    forall e :: e in log ==> !Hinders(tag, headSha, e)
  }

  /** What is fine stays fine while the log grows and nothing found out changes. */
  lemma FineIsKept(log: seq<Event>, longer: seq<Event>, target: Target, platform: Platform, id: Identified,
                   later: Identified, e: Event)
    requires log <= longer && StillIdentified(id, later) && Fine(log, target, platform, id, e)
    ensures Fine(longer, target, platform, later, e)
  {
    hide FineBytes, FineJobs, FineRelease, PageShows, RunOf, PinnedCode;
    if e.BytesAsked? && e.bytes.Answered? {
      FineBytesAreKept(log, longer, target, platform, e.url, e.bytes.value);
    }
  }

  lemma FineBytesAreKept(log: seq<Event>, longer: seq<Event>, target: Target, platform: Platform, url: string,
                         bytes: seq<Byte>)
    requires log <= longer && FineBytes(log, target, platform, url, bytes)
    ensures FineBytes(longer, target, platform, url, bytes)
  {
    hide IsReleaseAsset, ManifestProven, FineManifest;
    var name, asset :| FineAsset(log, target, platform, name, asset, bytes) && asset.url == url;
    AssetIsKept(log, longer, target, platform, name, asset);
    PayloadsKept(log, longer, platform);
    if name != CHECKSUM_NAME {
      var manifest, digests :|
        && IsReleaseAsset(log, target, platform, CHECKSUM_NAME, manifest)
        && ManifestProven(log, platform, manifest, digests)
        && name in digests && digests[name] == platform.sha256(bytes);
      AssetIsKept(log, longer, target, platform, CHECKSUM_NAME, manifest);
      assert FinePayload(longer, target, platform, name, bytes);
    }
    assert FineAsset(longer, target, platform, name, asset, bytes);
  }

  lemma HindranceIsKept(tag: string, headSha: Option<string>, later: Option<string>, e: Event)
    requires Hinders(tag, headSha, e) && (headSha.Some? ==> later == headSha)
    ensures Hinders(tag, later, e)
  {
  }
}
