/** Answers that are all right for one release, said of their members, and why they leave no error. */
module ReleaseRight {
  import opened Wrappers
  import opened JsonValues
  import opened ReleaseContracts
  import opened ReleaseIdentity
  import opened ReleaseProof
  import opened ReleaseReceipt
  import opened ReleaseCauses
  import opened ReleaseAnswers
  import opened ReleaseProtocol
  import opened ReleaseDecoding

  /** What there is of a release: the commit of its tag, by way of tag objects that lead nearer to it each, the run that
      built it, its assets, and the digests of its payloads. */
  datatype Truth = Truth(headSha: string, runId: int, attempt: int, event: string,
                         objects: Request -> GitObject, distance: string -> nat,
                         assets: map<string, Asset>, digests: map<string, string>)

  /** The release is the target's, and its run the given one or one a search is for. */
  ghost predicate IsOf(truth: Truth, target: Target, givenRunId: Option<int>)
  {
    && (if givenRunId.Some? then givenRunId.value == truth.runId else truth.event == "push")
    && CHECKSUM_NAME in truth.assets && SameNames(truth.assets.Keys, target.expectedAssets)
    && SameNames(truth.digests.Keys, Payloads(target.expectedAssets))
  }

  ghost predicate LeadsOn(truth: Truth, request: Request, named: GitObject)
  {
    || (named.kind == "commit" && named.sha == truth.headSha)
    || (named.kind == "tag" && (request.TagObject? ==> truth.distance(named.sha) < truth.distance(request.sha)))
  }

  ghost predicate SearchIsRight(truth: Truth, tag: string, v: Json)
  {
    exists runs: seq<Run>, i: int ::
      && ListsRuns(v, runs) && 0 <= i < |runs| && runs[i].id == truth.runId && runs[i].attempt == truth.attempt
      && forall j :: 0 <= j < |runs| ==> (IsOurs(runs[j], tag, truth.headSha) <==> j == i)
  }

  ghost predicate RunIsRight(truth: Truth, tag: string, v: Json)
  {
    exists run ::
      && DescribesRun(v, run) && IsOfRelease(run, tag, truth.headSha, truth.runId)
      && run.attempt == truth.attempt && run.event == truth.event
      && run.status == "completed" && run.conclusion == Some(Str("success"))
  }

  ghost predicate JobsAreRight(target: Target, v: Json)
  {
    exists entries, jobs ::
      HoldsAll(v, "jobs", entries) && AreJobs(entries, jobs) && JobsMatch(jobs, target.expectedJobs, target.lane)
  }

  ghost predicate ReleaseIsRight(truth: Truth, target: Target, platform: Platform, v: Json)
  {
    exists items, list ::
      IsReleaseAnswer(v, target.tag, false, items) && AreAssets(items, platform.httpsUrl, list, truth.assets)
  }

  /** The entries are these assets, no name among them twice, and the map is theirs. */
  ghost predicate AreAssets(items: seq<Json>, httpsUrl: string -> bool, list: seq<Asset>, assets: map<string, Asset>)
  {
    && |list| == |items| && (forall i :: 0 <= i < |items| ==> IsAsset(items[i], httpsUrl, list[i]))
    && (forall i, j :: 0 <= i < j < |list| ==> list[i].name != list[j].name)
    && (forall i :: 0 <= i < |list| ==> list[i].name in assets && assets[list[i].name] == list[i])
    && (forall n :: n in assets ==> exists i :: 0 <= i < |list| && list[i].name == n)
  }

  ghost predicate BytesAreRight(truth: Truth, platform: Platform, url: string, bytes: seq<Byte>)
  {
    forall name :: name in truth.assets && truth.assets[name].url == url ==>
      && |bytes| == truth.assets[name].size
      && if name == CHECKSUM_NAME
         then platform.utf8(bytes).Some? && ManifestSays(platform.utf8(bytes).value, truth.digests)
         else name in truth.digests && truth.digests[name] == platform.sha256(bytes)
  }

  ghost predicate AnswerIsRight(truth: Truth, target: Target, platform: Platform, request: Request, v: Json)
  {
    match request
    case RunSearch(_) => SearchIsRight(truth, target.tag, v)
    case RunById(_) => RunIsRight(truth, target.tag, v)
    case JobsOf(_, _) => JobsAreRight(target, v)
    case ReleaseByTag(tag) =>
      if tag == target.tag then ReleaseIsRight(truth, target, platform, v)
      else Member(v, "tag_name", Str(tag)) && Member(v, "draft", Bool(false))
    case _ =>
      var named := truth.objects(request);
      NamesObject(v, named.kind, named.sha) && LeadsOn(truth, request, named)
  }

  ghost predicate IsRight(truth: Truth, target: Target, platform: Platform, e: Event)
  {
    match e
    case JsonAsked(request, Answered(v)) => AnswerIsRight(truth, target, platform, request, v)
    case JsonAsked(_, _) => false
    case BytesAsked(url, Answered(bytes)) => BytesAreRight(truth, platform, url, bytes)
    case BytesAsked(_, _) => false
    case _ => true
  }

  /** Every question was answered, and every answer is right for this release. */
  ghost predicate AllRight(truth: Truth, target: Target, platform: Platform, log: seq<Event>)
  {
    forall e :: e in log ==> IsRight(truth, target, platform, e)
  }

  // ----- the tag

  lemma NamedRight(truth: Truth, target: Target, platform: Platform, e: Event)
    requires IsRight(truth, target, platform, e) && AsksTag(e)
    ensures ObjectIn(e) == Some(truth.objects(e.request)) && NamedSha(e) == truth.objects(e.request).sha
    ensures LeadsOn(truth, e.request, truth.objects(e.request)) && e.json.Answered?
  {
    var named := truth.objects(e.request);
    TagObjectIff(e.json.value, named.kind, named.sha);
  }

  /** Along a chain of tag objects each is nearer to the commit than the one before. */
  lemma {:induction false} Nearer(truth: Truth, target: Target, platform: Platform, asks: seq<Event>, tag: string,
                                  i: nat, j: nat)
    requires IsPeelChain(asks, tag) && AllRight(truth, target, platform, asks) && i < j < |asks|
    requires ObjectIn(asks[j]).Some? && ObjectIn(asks[j]).value.kind == "tag"
    ensures truth.distance(NamedSha(asks[j])) < truth.distance(NamedSha(asks[i]))
    decreases j - i
  {
    assert asks[j].request == TagObject(NamedSha(asks[j - 1])) && asks[j] in asks;
    NamedRight(truth, target, platform, asks[j]);
    assert PointsOn(asks[j - 1]);
    if i < j - 1 { Nearer(truth, target, platform, asks, tag, i, j - 1); }
  }

  lemma PeelIsRight(truth: Truth, target: Target, platform: Platform, asks: seq<Event>, tag: string,
                    result: PeelResult)
    requires PeelEndsIn(asks, tag, result) && AllRight(truth, target, platform, asks)
    ensures result == Peeled(truth.headSha)
  {
    hide IsRight, NamedSha, ObjectIn;
    var n := |asks| - 1;
    var last := asks[n];
    assert last in asks;
    assert AsksTag(last) by { assert n > 0 ==> last.request == TagObject(NamedSha(asks[n - 1])); }
    NamedRight(truth, target, platform, last);
    if result.PeelFailed? {
      var i :| 0 <= i < n && NamedSha(asks[i]) == NamedSha(last);
      Nearer(truth, target, platform, asks, tag, i, n);
    }
  }

  lemma PeelsAreRight(truth: Truth, target: Target, platform: Platform, log: seq<Event>, tag: string)
    requires TagsAccounted(log, tag) && AllRight(truth, target, platform, log)
    ensures forall result :: TagPeeled(result) in log ==> result == Peeled(truth.headSha)
  {
    hide IsRight, PeelEndsIn;
    forall result | TagPeeled(result) in log ensures result == Peeled(truth.headSha) {
      var i :| 0 <= i < |log| && log[i] == TagPeeled(result);
      assert PeelEndsAt(log, tag, i);
      var n :| IsPeel(log, tag, n, i);
      assert forall e :: e in log[n..i] ==> e in log;
      PeelIsRight(truth, target, platform, log[n..i], tag, result);
    }
  }

  // ----- no answer is a reason to fail

  /** What was found out is this release's. */
  ghost predicate NamesTruth(truth: Truth, id: Identified)
  {
    && id.headSha in {None, Some(truth.headSha)} && id.runId in {None, Some(truth.runId)}
    && id.attempt in {None, Some(truth.attempt)} && id.event in {None, Some(truth.event)}
  }

  lemma RightSearch(truth: Truth, target: Target, v: Json)
    requires SearchIsRight(truth, target.tag, v)
    ensures PageOf(v, "workflow_runs").Some? && !IncompletePage(v, "workflow_runs")
    ensures forall r :: Discovers(ListedRuns(v), target.tag, truth.headSha, r) ==>
              r.Found? && r.run.id == truth.runId && r.run.attempt == truth.attempt
    ensures forall headSha :: !Discovers(ListedRuns(v), target.tag, headSha, Invalid)
  {
    hide PageOf, DecodeRun, DescribesRun, ListsRuns, ListedRuns;
    var runs: seq<Run>, i :|
      && ListsRuns(v, runs) && 0 <= i < |runs| && runs[i].id == truth.runId && runs[i].attempt == truth.attempt
      && forall j :: 0 <= j < |runs| ==> (IsOurs(runs[j], target.tag, truth.headSha) <==> j == i);
    ListedIff(v, runs);
    assert None !in ListedRuns(v);
  }

  lemma RightRun(truth: Truth, tag: string, v: Json, event: Option<string>, attempt: Option<int>)
    requires RunIsRight(truth, tag, v)
    requires event in {None, Some(truth.event)} && attempt in {None, Some(truth.attempt)}
    ensures DecodeBoundRun(v, tag, truth.headSha, truth.runId, event, attempt).Bound?
    ensures DecodeRun(v).Some? && DecodeRun(v).value.status == "completed"
            && DecodeRun(v).value.conclusion == Some(Str("success"))
            && DecodeRun(v).value.event == truth.event && DecodeRun(v).value.attempt == truth.attempt
  {
    hide DecodeRun, DescribesRun;
    var run :|
      && DescribesRun(v, run) && IsOfRelease(run, tag, truth.headSha, truth.runId)
      && run.attempt == truth.attempt && run.event == truth.event
      && run.status == "completed" && run.conclusion == Some(Str("success"));
    RunIff(v, run);
    BoundIff(v, tag, truth.headSha, truth.runId, event, attempt);
  }

  lemma RightJobs(target: Target, v: Json)
    requires JobsAreRight(target, v)
    ensures !OtherJobs(v, target)
  {
    hide HoldsAll, AreJobs, JobsMatch, ListsJobs;
    var entries, jobs :|
      HoldsAll(v, "jobs", entries) && AreJobs(entries, jobs) && JobsMatch(jobs, target.expectedJobs, target.lane);
    JobsIff(v, jobs);
  }

  lemma RightRelease(truth: Truth, target: Target, platform: Platform, v: Json)
    requires ReleaseIsRight(truth, target, platform, v)
    ensures ReleaseCode(v, target.tag).None? && ArrayField(v, "assets").Some?
    ensures ListsAssets(ReadAssets(ArrayField(v, "assets").value, platform.httpsUrl), truth.assets)
  {
    hide AreAssets, ListsAssets, ReleaseCode;
    var items, list :|
      IsReleaseAnswer(v, target.tag, false, items) && AreAssets(items, platform.httpsUrl, list, truth.assets);
    ReleaseIff(v, target.tag);
    ListIff(v, "assets", items);
    AssetsAreRead(items, platform.httpsUrl, list, truth.assets);
  }

  lemma AssetsAreRead(items: seq<Json>, httpsUrl: string -> bool, list: seq<Asset>, assets: map<string, Asset>)
    requires AreAssets(items, httpsUrl, list, assets)
    ensures ListsAssets(ReadAssets(items, httpsUrl), assets)
  {
    hide IsAsset, ReadAsset;
    var entries := ReadAssets(items, httpsUrl);
    forall i | 0 <= i < |items| ensures entries[i] == Some(list[i]) { AssetIff(items[i], httpsUrl, list[i]); }
    forall n | n in assets ensures exists i :: 0 <= i < |entries| && entries[i] == Some(assets[n]) {
      var i :| 0 <= i < |list| && list[i].name == n;
      assert entries[i] == Some(assets[n]);
    }
  }

  /** The release was confirmed with no other assets. */
  lemma ConfirmedAssets(truth: Truth, target: Target, platform: Platform, log: seq<Event>, assets: map<string, Asset>)
    requires AllRight(truth, target, platform, log)
    requires ReleaseConfirmed(log, target.tag, target.expectedAssets, platform, assets)
    ensures assets == truth.assets
  {
    hide ListsAssets, ReleaseIsRight, ReadAssets;
    var v: Json :|
      && JsonAsked(ReleaseByTag(target.tag), Answered(v)) in log
      && StringField(v, "tag_name") == Some(target.tag) && BoolField(v, "draft") == Some(false)
      && ArrayField(v, "assets").Some?
      && ListsAssets(ReadAssets(ArrayField(v, "assets").value, platform.httpsUrl), assets);
    assert IsRight(truth, target, platform, JsonAsked(ReleaseByTag(target.tag), Answered(v)));
    RightRelease(truth, target, platform, v);
    AssetListIsUnique(ReadAssets(ArrayField(v, "assets").value, platform.httpsUrl), assets, truth.assets);
  }

  lemma NoIdentityCause(truth: Truth, target: Target, platform: Platform, log: seq<Event>, id: Identified, code: string)
    requires AllRight(truth, target, platform, log) && TagsAccounted(log, target.tag) && NamesTruth(truth, id)
    ensures !IdentityCause(log, target.tag, id, code)
  {
    hide TagsAccounted, SearchIsRight, RunIsRight, DecodeBoundRun, Discovers, IncompletePage, PageOf;
    PeelsAreRight(truth, target, platform, log, target.tag);
    assert forall request :: JsonAsked(request, Rejected) in log ==>
        IsRight(truth, target, platform, JsonAsked(request, Rejected));
    forall v: Json | JsonAsked(RunSearch(target.tag), Answered(v)) in log
      ensures PageOf(v, "workflow_runs").Some?
      ensures forall r :: Discovers(ListedRuns(v), target.tag, truth.headSha, r) ==> r.Found?
    {
      assert IsRight(truth, target, platform, JsonAsked(RunSearch(target.tag), Answered(v)));
      RightSearch(truth, target, v);
    }
    forall v: Json, event, attempt |
      && JsonAsked(RunById(truth.runId), Answered(v)) in log
      && event in {None, Some(truth.event)} && attempt in {None, Some(truth.attempt)}
      ensures DecodeBoundRun(v, target.tag, truth.headSha, truth.runId, event, attempt).Bound?
    {
      assert IsRight(truth, target, platform, JsonAsked(RunById(truth.runId), Answered(v)));
      RightRun(truth, target.tag, v, event, attempt);
    }
  }

  lemma NoRunCause(truth: Truth, target: Target, platform: Platform, log: seq<Event>, id: Identified, code: string)
    requires AllRight(truth, target, platform, log)
    ensures !WorkflowCause(log, target.tag, id, code) && !JobsCause(log, target, id, code)
  {
    hide RunIsRight, JobsAreRight, OtherJobs, RunOf, DecodeRun;
    forall r, v: Json | JsonAsked(RunById(r), Answered(v)) in log
      ensures DecodeRun(v).Some? && DecodeRun(v).value.conclusion == Some(Str("success"))
    {
      assert IsRight(truth, target, platform, JsonAsked(RunById(r), Answered(v)));
      RightRun(truth, target.tag, v, None, None);
    }
    forall r, a, v: Json | JsonAsked(JobsOf(r, a), Answered(v)) in log ensures !OtherJobs(v, target) {
      assert IsRight(truth, target, platform, JsonAsked(JobsOf(r, a), Answered(v)));
      RightJobs(target, v);
    }
    forall r, a ensures JsonAsked(JobsOf(r, a), Rejected) !in log {
      assert !IsRight(truth, target, platform, JsonAsked(JobsOf(r, a), Rejected));
    }
  }

  lemma NoReleaseCause(truth: Truth, target: Target, platform: Platform, log: seq<Event>, code: string)
    requires AllRight(truth, target, platform, log) && WellFormedTarget(target)
    ensures !ReleaseCause(log, target.tag, code) && !PinnedCause(log, target, code)
  {
    hide ReleaseIsRight, ReleaseCode, PinnedCode;
    forall tag ensures JsonAsked(ReleaseByTag(tag), Rejected) !in log {
      assert !IsRight(truth, target, platform, JsonAsked(ReleaseByTag(tag), Rejected));
    }
    forall v: Json | JsonAsked(ReleaseByTag(target.tag), Answered(v)) in log ensures ReleaseCode(v, target.tag).None? {
      assert IsRight(truth, target, platform, JsonAsked(ReleaseByTag(target.tag), Answered(v)));
      RightRelease(truth, target, platform, v);
    }
    if target.pinnedLspVersion.Some? {
      var tag := PinnedTag(target);
      forall v: Json | JsonAsked(ReleaseByTag(tag), Answered(v)) in log ensures PinnedCode(v, tag).None? {
        assert IsRight(truth, target, platform, JsonAsked(ReleaseByTag(tag), Answered(v)));
        PinnedIff(v, tag);
      }
    }
  }

  lemma NoAssetsCause(truth: Truth, target: Target, platform: Platform, givenRunId: Option<int>, log: seq<Event>,
                      code: string)
    requires AllRight(truth, target, platform, log) && IsOf(truth, target, givenRunId)
    ensures !AssetsCause(log, target, platform, code)
  {
    hide ReleaseIsRight, ReleaseConfirmed, ListsAssets, ReadAssets, SameNames, Payloads, RefusedWith;
    forall assets | ReleaseConfirmed(log, target.tag, target.expectedAssets, platform, assets)
      ensures assets == truth.assets
    {
      ConfirmedAssets(truth, target, platform, log, assets);
    }
    forall url ensures BytesAsked(url, Rejected) !in log {
      assert !IsRight(truth, target, platform, BytesAsked(url, Rejected));
    }
    forall url, bytes | BytesAsked(url, Answered(bytes)) in log ensures BytesAreRight(truth, platform, url, bytes) {
      assert IsRight(truth, target, platform, BytesAsked(url, Answered(bytes)));
    }
    forall v: Json | JsonAsked(ReleaseByTag(target.tag), Answered(v)) in log
      ensures !OtherAssets(v, target, platform, code)
    {
      assert IsRight(truth, target, platform, JsonAsked(ReleaseByTag(target.tag), Answered(v)));
      RightRelease(truth, target, platform, v);
    }
    NothingLacks(truth, target, givenRunId);
  }

  lemma NothingLacks(truth: Truth, target: Target, givenRunId: Option<int>)
    requires IsOf(truth, target, givenRunId)
    ensures forall name :: !Lacks(truth.assets, target, name)
  {
    SameNamesAreKeys(truth.assets.Keys, target.expectedAssets);
  }

  lemma NoChecksumsCause(truth: Truth, target: Target, platform: Platform, givenRunId: Option<int>, log: seq<Event>,
                         code: string)
    requires AllRight(truth, target, platform, log) && IsOf(truth, target, givenRunId)
    ensures !ChecksumsCause(log, target, platform, code)
  {
    hide ReleaseConfirmed, SameNames, Payloads, ManifestSays, IsManifest;
    forall name, asset, bytes | Fetched(log, target, platform, name, asset, bytes)
      ensures name in truth.assets && truth.assets[name] == asset && BytesAreRight(truth, platform, asset.url, bytes)
    {
      var assets :| ReleaseConfirmed(log, target.tag, target.expectedAssets, platform, assets)
                    && AssetAt(assets, name) == Some(asset);
      ConfirmedAssets(truth, target, platform, log, assets);
      assert IsRight(truth, target, platform, BytesAsked(asset.url, Answered(bytes)));
    }
    forall text: string | ManifestSays(text, truth.digests) ensures !NoManifest(Some(text)) {
      ManifestIs(text, truth.digests);
    }
    forall manifest, digests |
      && IsReleaseAsset(log, target, platform, CHECKSUM_NAME, manifest)
      && ManifestProven(log, platform, manifest, digests)
      ensures digests == truth.digests
    {
      var bytes :| Downloaded(log, manifest, bytes) && platform.utf8(bytes).Some?
                   && ManifestSays(platform.utf8(bytes).value, digests);
      assert Fetched(log, target, platform, CHECKSUM_NAME, manifest, bytes);
      ManifestIsUnambiguous(platform.utf8(bytes).value, digests, truth.digests);
    }
    if code == "checksum_digest_mismatch" && ChecksumsCause(log, target, platform, code) {
      var manifest, digests, name, asset, bytes :|
        OtherDigest(log, target, platform, manifest, digests, name, asset, bytes);
      assert Fetched(log, target, platform, name, asset, bytes);
      assert digests == truth.digests;
      if name == CHECKSUM_NAME { DigestsArePayloads(truth, target, givenRunId); }
    }
  }

  lemma DigestsArePayloads(truth: Truth, target: Target, givenRunId: Option<int>)
    requires IsOf(truth, target, givenRunId)
    ensures CHECKSUM_NAME !in truth.digests
  {
    SameNamesAreKeys(truth.digests.Keys, Payloads(target.expectedAssets));
  }

  lemma ManifestIs(text: string, digests: map<string, string>)
    requires ManifestSays(text, digests)
    ensures !NoManifest(Some(text))
  {
  }

  /** Answers that are right for one release are the cause of no error. */
  lemma NoCause(truth: Truth, target: Target, platform: Platform, givenRunId: Option<int>, log: seq<Event>,
                id: Identified, e: ErrorRecord)
    requires AllRight(truth, target, platform, log) && IsOf(truth, target, givenRunId) && NamesTruth(truth, id)
    requires TagsAccounted(log, target.tag) && WellFormedTarget(target)
    ensures !Caused(log, target, platform, id, e)
  {
    hide AllRight, IsOf, TagsAccounted, IdentityCause, WorkflowCause, JobsCause, ReleaseCause, AssetsCause,
         ChecksumsCause, PinnedCause;
    NoIdentityCause(truth, target, platform, log, id, e.code);
    NoRunCause(truth, target, platform, log, id, e.code);
    NoReleaseCause(truth, target, platform, log, e.code);
    NoAssetsCause(truth, target, platform, givenRunId, log, e.code);
    NoChecksumsCause(truth, target, platform, givenRunId, log, e.code);
  }
}
