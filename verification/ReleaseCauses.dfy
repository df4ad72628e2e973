/** What in the log accounts for each failure a completion check records. */
module ReleaseCauses {
  import opened Wrappers
  import opened JsonValues
  import opened ReleaseContracts
  import opened ReleaseIdentity
  import opened ReleaseProof
  import opened ReleaseReceipt

  /** What the checker took for the release's identity so far, as its receipt has it; the event is the run's. */
  datatype Identified = Identified(headSha: Option<string>, runId: Option<int>, attempt: Option<int>,
      event: Option<string>)

  /** Nothing that was found out changed. */
  predicate StillIdentified(id: Identified, later: Identified)
  {
    && (id.headSha.Some? ==> later.headSha == id.headSha) && (id.runId.Some? ==> later.runId == id.runId)
    && (id.attempt.Some? ==> later.attempt == id.attempt) && (id.event.Some? ==> later.event == id.event)
  }

  /** A search for the tag's runs was answered with a page that is invalid, or ambiguous. */
  ghost predicate SearchShows(log: seq<Event>, tag: string, headSha: string, r: Discovery)
  {
    exists v: Json ::
      && JsonAsked(RunSearch(tag), Answered(v)) in log
      && !IncompletePage(v, "workflow_runs")
      && if PageOf(v, "workflow_runs").None? then r == Invalid else Discovers(ListedRuns(v), tag, headSha, r)
  }

  ghost predicate IdentityCause(log: seq<Event>, tag: string, id: Identified, code: string)
  {
    || TagPeeled(PeelFailed(code)) in log
    || (code == "tag_head_changed" && TagMoved(log, id))
    || (code == "run_discovery_invalid" && JsonAsked(RunSearch(tag), Rejected) in log)
    || (code == "run_discovery_invalid" && id.headSha.Some? && SearchShows(log, tag, id.headSha.value, Invalid))
    || (code == "run_discovery_ambiguous" && id.headSha.Some? && SearchShows(log, tag, id.headSha.value, Ambiguous))
    || (id.runId.Some? && code == "fixed_run_invalid" && JsonAsked(RunById(id.runId.value), Rejected) in log)
    || (id.runId.Some? && id.headSha.Some? && AnotherRun(log, tag, id, code))
  }

  /** The tag led to the commit that was bound, and to another one. */
  ghost predicate TagMoved(log: seq<Event>, id: Identified)
  {
    id.headSha.Some? && TagPeeled(Peeled(id.headSha.value)) in log
    && exists sha :: Some(sha) != id.headSha && TagPeeled(Peeled(sha)) in log
  }

  /** The run was answered for as something else than what was bound, or than what may be bound. */
  ghost predicate AnotherRun(log: seq<Event>, tag: string, id: Identified, code: string)
    requires id.runId.Some? && id.headSha.Some?
  {
    exists v: Json, event, attempt ::
      && JsonAsked(RunById(id.runId.value), Answered(v)) in log
      && event in {None, id.event} && attempt in {None, id.attempt}
      && DecodeBoundRun(v, tag, id.headSha.value, id.runId.value, event, attempt) == Unbound(code)
  }

  ghost predicate WorkflowCause(log: seq<Event>, tag: string, id: Identified, code: string)
  {
    && code == "workflow_not_success" && id.headSha.Some? && id.runId.Some? && id.attempt.Some?
    && exists v: Json ::
         && JsonAsked(RunById(id.runId.value), Answered(v)) in log
         && RunOf(v, tag, id.headSha.value, id.runId.value, id.attempt.value)
         && DecodeRun(v).value.status == "completed" && DecodeRun(v).value.conclusion != Some(Str("success"))
  }

  ghost predicate JobsCause(log: seq<Event>, target: Target, id: Identified, code: string)
  {
    && id.runId.Some? && id.attempt.Some?
    && var question := JobsOf(id.runId.value, id.attempt.value);
       if code == "jobs_response_invalid" then JsonAsked(question, Rejected) in log
       else exists v: Json ::
              && JsonAsked(question, Answered(v)) in log && OtherJobs(v, target)
              && code == if IncompletePage(v, "jobs") then "jobs_page_incomplete" else "jobs_contract_invalid"
  }

  ghost predicate OtherJobs(v: Json, target: Target)
  {
    forall jobs :: ListsJobs(v, jobs) ==> !JobsMatch(jobs, target.expectedJobs, target.lane)
  }

  /** An answer about a release that is no answer at all. */
  predicate BrokenRelease(v: Json)
  {
    StringField(v, "tag_name").None? || BoolField(v, "draft").None? || BoolField(v, "prerelease").None?
        || ArrayField(v, "assets").None?
  }

  /** The code of the first thing wrong with a release, apart from its assets. */
  function ReleaseCode(v: Json, tag: string): Option<string>
  {
    if BrokenRelease(v) then Some("github_release_response_invalid")
    else if StringField(v, "tag_name") != Some(tag) then Some("release_tag_mismatch")
    else if BoolField(v, "draft").value then Some("release_is_draft")
    else None
  }

  ghost predicate ReleaseCause(log: seq<Event>, tag: string, code: string)
  {
    || (code == "github_release_response_invalid" && JsonAsked(ReleaseByTag(tag), Rejected) in log)
    || exists v: Json :: JsonAsked(ReleaseByTag(tag), Answered(v)) in log && ReleaseCode(v, tag) == Some(code)
  }

  /** The code of the first thing wrong with a pinned release. */
  function PinnedCode(v: Json, tag: string): Option<string>
  {
    if StringField(v, "tag_name") != Some(tag) || BoolField(v, "draft").None? then
        Some("pinned_lsp_release_response_invalid")
    else if BoolField(v, "draft").value then Some("pinned_lsp_release_is_draft")
    else None
  }

  ghost predicate PinnedCause(log: seq<Event>, target: Target, code: string)
  {
    && target.pinnedLspVersion.Some?
    && var tag := PinnedTag(target);
       || (code == "pinned_lsp_release_response_invalid" && JsonAsked(ReleaseByTag(tag), Rejected) in log)
       || exists v: Json :: JsonAsked(ReleaseByTag(tag), Answered(v)) in log && PinnedCode(v, tag) == Some(code)
  }

  /** One of the assets the release was confirmed with. */
  ghost predicate IsReleaseAsset(log: seq<Event>, target: Target, platform: Platform, name: string, asset: Asset)
  {
    exists assets :: ReleaseConfirmed(log, target.tag, target.expectedAssets, platform, assets)
        && AssetAt(assets, name) == Some(asset)
  }

  function AssetAt(assets: map<string, Asset>, name: string): Option<Asset> {
    if name in assets then Some(assets[name]) else None
  }

  ghost predicate AssetsCause(log: seq<Event>, target: Target, platform: Platform, code: string)
  {
    match code
    case "release_asset_response_invalid" =>
      exists name, asset :: IsReleaseAsset(log, target, platform, name, asset) && BytesAsked(asset.url, Rejected) in log
    case "release_asset_size_mismatch" =>
      exists name, asset, bytes :: IsReleaseAsset(log, target, platform, name, asset)
          && BytesAsked(asset.url, Answered(bytes)) in log && |bytes| != asset.size
    case _ =>
      || (exists v: Json ::
            JsonAsked(ReleaseByTag(target.tag), Answered(v)) in log && OtherAssets(v, target, platform, code))
      || (code == "release_asset_set_mismatch" && exists assets, name ::
            && ReleaseConfirmed(log, target.tag, target.expectedAssets, platform, assets)
            && Lacks(assets, target, name))
  }

  predicate Lacks(assets: map<string, Asset>, target: Target, name: string)
  {
    (name == CHECKSUM_NAME || name in Payloads(target.expectedAssets)) && name !in assets
  }

  /** The answer lists no assets of the expected names, and this is the code it is refused with. */
  ghost predicate OtherAssets(v: Json, target: Target, platform: Platform, code: string)
  {
    && ArrayField(v, "assets").Some?
    && RefusedWith(ArrayField(v, "assets").value, platform.httpsUrl, code)
    && forall assets :: ListsAssets(ReadAssets(ArrayField(v, "assets").value, platform.httpsUrl), assets) ==>
        !SameNames(assets.Keys, target.expectedAssets)
  }

  /** An asset of the release was fetched whole. */
  ghost predicate Fetched(log: seq<Event>, target: Target, platform: Platform, name: string, asset: Asset,
      bytes: seq<Byte>)
  {
    IsReleaseAsset(log, target, platform, name, asset) && Downloaded(log, asset, bytes)
  }

  ghost predicate ChecksumsCause(log: seq<Event>, target: Target, platform: Platform, code: string)
  {
    match code
    case "checksum_format_invalid" =>
      exists asset, bytes :: Fetched(log, target, platform, CHECKSUM_NAME, asset, bytes)
          && NoManifest(platform.utf8(bytes))
    case "checksum_coverage_mismatch" =>
      exists asset, bytes :: Fetched(log, target, platform, CHECKSUM_NAME, asset, bytes)
          && OtherCoverage(platform.utf8(bytes), Payloads(target.expectedAssets))
    case "checksum_digest_mismatch" =>
      exists manifest, digests, name, asset, bytes ::
          OtherDigest(log, target, platform, manifest, digests, name, asset, bytes)
    case _ => false
  }

  /** The manifest gives an asset that was fetched whole another digest. */
  ghost predicate OtherDigest(log: seq<Event>, target: Target, platform: Platform, manifest: Asset,
      digests: map<string, string>,
                              name: string, asset: Asset, bytes: seq<Byte>)
  {
    && IsReleaseAsset(log, target, platform, CHECKSUM_NAME, manifest)
       && ManifestProven(log, platform, manifest, digests)
    && Fetched(log, target, platform, name, asset, bytes)
    && name in digests && digests[name] != platform.sha256(bytes)
  }

  ghost predicate NoManifest(text: Option<string>) { text.None? || forall rows :: !IsManifest(text.value, rows) }

  ghost predicate OtherCoverage(text: Option<string>, payloads: seq<string>)
  {
    text.Some? && forall digests :: ManifestSays(text.value, digests) ==> !SameNames(digests.Keys, payloads)
  }

  /** The log accounts for the failure. */
  ghost predicate Caused(log: seq<Event>, target: Target, platform: Platform, id: Identified, e: ErrorRecord)
  {
    match e.surface
    case Identity => IdentityCause(log, target.tag, id, e.code)
    case Workflow => WorkflowCause(log, target.tag, id, e.code)
    case Jobs => JobsCause(log, target, id, e.code)
    case GithubRelease => ReleaseCause(log, target.tag, e.code)
    case ReleaseAssets => AssetsCause(log, target, platform, e.code)
    case Checksums => ChecksumsCause(log, target, platform, e.code)
    case PinnedLspRelease => PinnedCause(log, target, e.code)
    case _ => false
  }

  ghost predicate AllCaused(log: seq<Event>, target: Target, platform: Platform, id: Identified,
      errors: seq<ErrorRecord>)
  {
    forall i :: 0 <= i < |errors| ==> Caused(log, target, platform, id, errors[i])
  }

  lemma AssetIsKept(log: seq<Event>, longer: seq<Event>, target: Target, platform: Platform, name: string, asset: Asset)
    requires log <= longer && IsReleaseAsset(log, target, platform, name, asset)
    ensures IsReleaseAsset(longer, target, platform, name, asset)
  {
  }

  lemma IdentityCauseIsKept(log: seq<Event>, longer: seq<Event>, tag: string, id: Identified, later: Identified,
      code: string)
    requires log <= longer && StillIdentified(id, later) && IdentityCause(log, tag, id, code)
    ensures IdentityCause(longer, tag, later, code)
  {
  }

  lemma AssetsCauseIsKept(log: seq<Event>, longer: seq<Event>, target: Target, platform: Platform, code: string)
    requires log <= longer && AssetsCause(log, target, platform, code)
    ensures AssetsCause(longer, target, platform, code)
  {
    hide IsReleaseAsset, OtherAssets, ReleaseConfirmed, AssetsConfirmed, JobsConfirmed, WorkflowSucceeded,
         PinnedConfirmed, Lacks;
    EvidenceIsKept(log, longer, target, platform);
    forall name, asset | IsReleaseAsset(log, target, platform, name, asset)
      ensures IsReleaseAsset(longer, target, platform, name, asset)
    {
      AssetIsKept(log, longer, target, platform, name, asset);
    }
  }

  lemma ChecksumsCauseIsKept(log: seq<Event>, longer: seq<Event>, target: Target, platform: Platform, code: string)
    requires log <= longer && ChecksumsCause(log, target, platform, code)
    ensures ChecksumsCause(longer, target, platform, code)
  {
    hide IsReleaseAsset, NoManifest, OtherCoverage, ManifestProven, Downloaded;
    forall name, asset | IsReleaseAsset(log, target, platform, name, asset)
      ensures IsReleaseAsset(longer, target, platform, name, asset)
    {
      AssetIsKept(log, longer, target, platform, name, asset);
    }
    DownloadsKept(log, longer);
    PayloadsKept(log, longer, platform);
    assert forall name, asset, bytes :: Fetched(log, target, platform, name, asset, bytes) ==>
        Fetched(longer, target, platform, name, asset, bytes);
    if code == "checksum_digest_mismatch" {
      var manifest, digests, name, asset, bytes :|
        OtherDigest(log, target, platform, manifest, digests, name, asset, bytes);
      assert OtherDigest(longer, target, platform, manifest, digests, name, asset, bytes);
    }
  }

  lemma DownloadsKept(log: seq<Event>, longer: seq<Event>)
    requires log <= longer
    ensures forall asset, bytes :: Downloaded(log, asset, bytes) ==> Downloaded(longer, asset, bytes)
  {
  }

  /** A cause stays a cause while the log grows and nothing found out changes. */
  lemma CauseIsKept(log: seq<Event>, longer: seq<Event>, target: Target, platform: Platform, id: Identified,
      later: Identified, e: ErrorRecord)
    requires log <= longer && StillIdentified(id, later) && Caused(log, target, platform, id, e)
    ensures Caused(longer, target, platform, later, e)
  {
    hide IdentityCause, AssetsCause, ChecksumsCause, OtherJobs, RunOf;
    match e.surface {
      case Identity => IdentityCauseIsKept(log, longer, target.tag, id, later, e.code);
      case ReleaseAssets => AssetsCauseIsKept(log, longer, target, platform, e.code);
      case Checksums => ChecksumsCauseIsKept(log, longer, target, platform, e.code);
      case _ =>
    }
  }

  lemma CausesAreKept(log: seq<Event>, longer: seq<Event>, target: Target, platform: Platform, id: Identified,
      later: Identified, errors: seq<ErrorRecord>)
    requires log <= longer && StillIdentified(id, later) && AllCaused(log, target, platform, id, errors)
    ensures AllCaused(longer, target, platform, later, errors)
  {
    hide Caused;
    forall i | 0 <= i < |errors| ensures Caused(longer, target, platform, later, errors[i]) {
      CauseIsKept(log, longer, target, platform, id, later, errors[i]);
    }
  }

  // ----- the causes, one by one

  lemma PeelCauses(log: seq<Event>, target: Target, platform: Platform, id: Identified, code: string)
    requires TagPeeled(PeelFailed(code)) in log
    ensures Caused(log, target, platform, id, ErrorRecord(Identity, code))
  {
  }

  lemma MoveCauses(log: seq<Event>, target: Target, platform: Platform, id: Identified, sha: string)
    requires id.headSha.Some? && TagPeeled(Peeled(id.headSha.value)) in log && Some(sha) != id.headSha
             && TagPeeled(Peeled(sha)) in log
    ensures Caused(log, target, platform, id, ErrorRecord(Identity, "tag_head_changed"))
  {
  }

  lemma NoSearchCauses(log: seq<Event>, target: Target, platform: Platform, id: Identified)
    requires JsonAsked(RunSearch(target.tag), Rejected) in log
    ensures Caused(log, target, platform, id, ErrorRecord(Identity, "run_discovery_invalid"))
  {
  }

  lemma SearchCauses(log: seq<Event>, target: Target, platform: Platform, id: Identified, v: Json, r: Discovery)
    requires id.headSha.Some? && r in {Invalid, Ambiguous} && JsonAsked(RunSearch(target.tag), Answered(v)) in log
    requires !IncompletePage(v, "workflow_runs")
    requires if PageOf(v, "workflow_runs").None? then r == Invalid
               else Discovers(ListedRuns(v), target.tag, id.headSha.value, r)
    ensures var code := if r == Invalid then "run_discovery_invalid" else "run_discovery_ambiguous";
            Caused(log, target, platform, id, ErrorRecord(Identity, code))
  {
    hide Discovers;
    assert SearchShows(log, target.tag, id.headSha.value, r);
  }

  lemma NoRunCauses(log: seq<Event>, target: Target, platform: Platform, id: Identified)
    requires id.runId.Some? && JsonAsked(RunById(id.runId.value), Rejected) in log
    ensures Caused(log, target, platform, id, ErrorRecord(Identity, "fixed_run_invalid"))
  {
  }

  lemma RunCauses(log: seq<Event>, target: Target, platform: Platform, id: Identified, v: Json, code: string)
    requires id.headSha.Some? && id.runId.Some? && JsonAsked(RunById(id.runId.value), Answered(v)) in log
    requires DecodeBoundRun(v, target.tag, id.headSha.value, id.runId.value, id.event, id.attempt) == Unbound(code)
    ensures Caused(log, target, platform, id, ErrorRecord(Identity, code))
  {
    hide DecodeBoundRun;
    assert AnotherRun(log, target.tag, id, code);
  }

  lemma WorkflowCauses(log: seq<Event>, target: Target, platform: Platform, id: Identified, v: Json)
    requires id.headSha.Some? && id.runId.Some? && id.attempt.Some?
             && JsonAsked(RunById(id.runId.value), Answered(v)) in log
    requires RunOf(v, target.tag, id.headSha.value, id.runId.value, id.attempt.value)
    requires DecodeRun(v).value.status == "completed" && DecodeRun(v).value.conclusion != Some(Str("success"))
    ensures Caused(log, target, platform, id, ErrorRecord(Workflow, "workflow_not_success"))
  {
  }

  lemma NoJobsCause(log: seq<Event>, target: Target, platform: Platform, id: Identified)
    requires id.runId.Some? && id.attempt.Some? && JsonAsked(JobsOf(id.runId.value, id.attempt.value), Rejected) in log
    ensures Caused(log, target, platform, id, ErrorRecord(Jobs, "jobs_response_invalid"))
  {
  }

  lemma JobsCauses(log: seq<Event>, target: Target, platform: Platform, id: Identified, v: Json, code: string)
    requires id.runId.Some? && id.attempt.Some?
             && JsonAsked(JobsOf(id.runId.value, id.attempt.value), Answered(v)) in log
    requires OtherJobs(v, target)
    requires code == if IncompletePage(v, "jobs") then "jobs_page_incomplete" else "jobs_contract_invalid"
    ensures Caused(log, target, platform, id, ErrorRecord(Jobs, code))
  {
  }

  lemma NoReleaseCauses(log: seq<Event>, target: Target, platform: Platform, id: Identified)
    requires JsonAsked(ReleaseByTag(target.tag), Rejected) in log
    ensures Caused(log, target, platform, id, ErrorRecord(GithubRelease, "github_release_response_invalid"))
  {
  }

  /** Whatever is wrong with a release, first of all, is a cause. */
  lemma AnsweredReleaseCauses(log: seq<Event>, target: Target, platform: Platform, id: Identified, v: Json)
    requires JsonAsked(ReleaseByTag(target.tag), Answered(v)) in log
    ensures ReleaseCode(v, target.tag).Some? ==>
              Caused(log, target, platform, id, ErrorRecord(GithubRelease, ReleaseCode(v, target.tag).value))
  {
  }

  lemma AssetListCauses(log: seq<Event>, target: Target, platform: Platform, id: Identified, v: Json, code: string)
    requires JsonAsked(ReleaseByTag(target.tag), Answered(v)) in log && OtherAssets(v, target, platform, code)
    requires code !in {"release_asset_response_invalid", "release_asset_size_mismatch"}
    ensures Caused(log, target, platform, id, ErrorRecord(ReleaseAssets, code))
  {
  }

  lemma NoAssetCauses(log: seq<Event>, target: Target, platform: Platform, id: Identified, name: string, asset: Asset)
    requires IsReleaseAsset(log, target, platform, name, asset) && BytesAsked(asset.url, Rejected) in log
    ensures Caused(log, target, platform, id, ErrorRecord(ReleaseAssets, "release_asset_response_invalid"))
  {
  }

  lemma SizeCauses(log: seq<Event>, target: Target, platform: Platform, id: Identified, name: string, asset: Asset,
      bytes: seq<Byte>)
    requires IsReleaseAsset(log, target, platform, name, asset) && BytesAsked(asset.url, Answered(bytes)) in log
             && |bytes| != asset.size
    ensures Caused(log, target, platform, id, ErrorRecord(ReleaseAssets, "release_asset_size_mismatch"))
  {
  }

  lemma LackCauses(log: seq<Event>, target: Target, platform: Platform, id: Identified, assets: map<string, Asset>,
      name: string)
    requires ReleaseConfirmed(log, target.tag, target.expectedAssets, platform, assets) && Lacks(assets, target, name)
    ensures Caused(log, target, platform, id, ErrorRecord(ReleaseAssets, "release_asset_set_mismatch"))
  {
  }

  lemma ManifestCauses(log: seq<Event>, target: Target, platform: Platform, id: Identified, asset: Asset,
      bytes: seq<Byte>, error: ChecksumError)
    requires Fetched(log, target, platform, CHECKSUM_NAME, asset, bytes)
    requires if error.FormatInvalid? then NoManifest(platform.utf8(bytes))
               else OtherCoverage(platform.utf8(bytes), Payloads(target.expectedAssets))
    ensures var code := if error.FormatInvalid? then "checksum_format_invalid" else "checksum_coverage_mismatch";
            Caused(log, target, platform, id, ErrorRecord(Checksums, code))
  {
  }

  lemma DigestCauses(log: seq<Event>, target: Target, platform: Platform, id: Identified, manifest: Asset,
      digests: map<string, string>, name: string, asset: Asset, bytes: seq<Byte>)
    requires OtherDigest(log, target, platform, manifest, digests, name, asset, bytes)
    ensures Caused(log, target, platform, id, ErrorRecord(Checksums, "checksum_digest_mismatch"))
  {
  }

  lemma NoPinnedCauses(log: seq<Event>, target: Target, platform: Platform, id: Identified)
    requires target.pinnedLspVersion.Some?
    requires JsonAsked(ReleaseByTag(PinnedTag(target)), Rejected) in log
    ensures Caused(log, target, platform, id, ErrorRecord(PinnedLspRelease, "pinned_lsp_release_response_invalid"))
  {
  }

  lemma PinnedCauses(log: seq<Event>, target: Target, platform: Platform, id: Identified, v: Json)
    requires target.pinnedLspVersion.Some? && JsonAsked(ReleaseByTag(PinnedTag(target)), Answered(v)) in log
    ensures PinnedCode(v, PinnedTag(target)).Some? ==>
              Caused(log, target, platform, id, ErrorRecord(PinnedLspRelease, PinnedCode(v, PinnedTag(target)).value))
  {
  }
}
