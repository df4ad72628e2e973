/** What the decoders read, said of the members of the JSON values themselves. */
module ReleaseDecoding {
  import opened Wrappers
  import opened JsonValues
  import opened ReleaseContracts
  import opened ReleaseIdentity
  import opened ReleaseProof
  import opened ReleaseReceipt
  import opened ReleaseCauses
  import opened ReleaseAnswers

  /** The value is an object and has this member. */
  ghost predicate Member(v: Json, name: string, member: Json) { v.Obj? && name in v.fields && v.fields[name] == member }

  ghost predicate IsCommitName(s: string) { |s| == 40 && forall i :: 0 <= i < 40 ==> s[i] in "0123456789abcdef" }

  ghost predicate IsCount(n: int, low: int) { low <= n <= 9007199254740991 }

  lemma ShaIff(s: string)
    ensures IsSha(s) <==> IsCommitName(s)
  {
    assert forall c :: c in HEX_DIGITS <==> c in "0123456789abcdef";
  }

  lemma StringIff(v: Json, name: string, s: string)
    ensures StringField(v, name) == Some(s) <==> Member(v, name, Str(s))
  {
  }

  lemma CountIff(v: Json, name: string, low: int, n: int)
    requires low >= 0
    ensures SafeIntegerField(v, name, low) == Some(n) <==> Member(v, name, Int(n)) && IsCount(n, low)
  {
  }

  lemma ListIff(v: Json, name: string, items: seq<Json>)
    ensures ArrayField(v, name) == Some(items) <==> Member(v, name, Arr(items))
  {
  }

  // ----- tag objects

  /** The answer names an object of this kind. */
  ghost predicate NamesObject(v: Json, kind: string, sha: string)
  {
    v.Obj? && "object" in v.fields && Member(v.fields["object"], "type", Str(kind))
        && Member(v.fields["object"], "sha", Str(sha)) && IsCommitName(sha)
  }

  lemma TagObjectIff(v: Json, kind: string, sha: string)
    ensures DecodeTagObject(v) == Some(GitObject(kind, sha)) <==> NamesObject(v, kind, sha)
  {
    ShaIff(sha);
  }

  // ----- runs

  ghost predicate DescribesRun(v: Json, run: Run)
  {
    && Member(v, "id", Int(run.id)) && IsCount(run.id, 1)
    && Member(v, "run_attempt", Int(run.attempt)) && IsCount(run.attempt, 1)
    && Member(v, "event", Str(run.event)) && Member(v, "path", Str(run.path))
    && Member(v, "head_branch", Str(run.headBranch))
    && Member(v, "head_sha", Str(run.headSha)) && IsCommitName(run.headSha)
    && Member(v, "status", Str(run.status))
    && run.conclusion == if "conclusion" in v.fields then Some(v.fields["conclusion"]) else None
  }

  /** An object with these members decodes to exactly this run, and nothing else does. */
  lemma RunIff(v: Json, run: Run)
    ensures DecodeRun(v) == Some(run) <==> DescribesRun(v, run)
  {
    hide IsSha, IsCommitName;
    ShaIff(run.headSha);
    CountIff(v, "id", 1, run.id);
    CountIff(v, "run_attempt", 1, run.attempt);
    StringIff(v, "event", run.event);
    StringIff(v, "path", run.path);
    StringIff(v, "head_branch", run.headBranch);
    StringIff(v, "head_sha", run.headSha);
    StringIff(v, "status", run.status);
  }

  lemma NoRunIff(v: Json)
    ensures DecodeRun(v).None? <==> forall run :: !DescribesRun(v, run)
  {
    hide DescribesRun, DecodeRun;
    if DecodeRun(v).Some? { RunIff(v, DecodeRun(v).value); }
    forall run ensures DecodeRun(v) == Some(run) <==> DescribesRun(v, run) { RunIff(v, run); }
  }

  /** The run is one of the release workflow on the release's tag and head, in a way that starts a release. */
  ghost predicate IsOfRelease(run: Run, tag: string, headSha: string, runId: int)
  {
    && run.id == runId && run.path == ".github/workflows/release.yml" && run.headBranch == tag
    && run.headSha == headSha && (run.event == "push" || run.event == "workflow_dispatch")
  }

  /** An answer is bound exactly if it is this run of the release, in the event and attempt that were expected; and the
      code of a refusal says which. */
  lemma BoundIff(v: Json, tag: string, headSha: string, runId: int, event: Option<string>, attempt: Option<int>)
    ensures var r := DecodeBoundRun(v, tag, headSha, runId, event, attempt);
            var same := (run: Run) =>
              IsOfRelease(run, tag, headSha, runId) && (event.Some? ==> Some(run.event) == event);
            && (forall run :: r == Bound(run) <==>
                 DescribesRun(v, run) && same(run) && (attempt.Some? ==> Some(run.attempt) == attempt))
            && (r == Unbound("run_attempt_changed") <==>
                 exists run :: DescribesRun(v, run) && same(run) && attempt.Some? && Some(run.attempt) != attempt)
            && (r == Unbound("run_identity_mismatch") <==> forall run :: DescribesRun(v, run) ==> !same(run))
  {
    hide DescribesRun, DecodeRun;
    forall run ensures DecodeRun(v) == Some(run) <==> DescribesRun(v, run) { RunIff(v, run); }
    assert "run_attempt_changed" != "run_identity_mismatch";
  }

  // ----- pages

  /** The page announces `count` entries and holds these. */
  ghost predicate Announces(v: Json, items: string, count: int, entries: seq<Json>)
  {
    Member(v, "total_count", Int(count)) && IsCount(count, 0) && Member(v, items, Arr(entries))
  }

  /** The page holds all it announces. */
  ghost predicate HoldsAll(v: Json, items: string, entries: seq<Json>)
  {
    Announces(v, items, |entries|, entries) && |entries| <= 100
  }

  lemma PageIff(v: Json, items: string, count: int, entries: seq<Json>)
    ensures PageOf(v, items) == Some((count, entries)) <==> Announces(v, items, count, entries)
  {
    CountIff(v, "total_count", 0, count);
    ListIff(v, items, entries);
  }

  /** What a page is: no page, one that holds less or more than it announces, or a whole one. */
  lemma PageKindIff(v: Json, items: string)
    ensures PageOf(v, items).None? <==> forall count, entries :: !Announces(v, items, count, entries)
    ensures IncompletePage(v, items) <==>
              exists count, entries :: Announces(v, items, count, entries) && (count != |entries| || count > 100)
    ensures forall entries ::
              PageOf(v, items) == Some((|entries|, entries)) && PageComplete(PageOf(v, items).value)
              <==> HoldsAll(v, items, entries)
  {
    hide PageOf, Announces;
    forall count, entries ensures PageOf(v, items) == Some((count, entries)) <==> Announces(v, items, count, entries) {
      PageIff(v, items, count, entries);
    }
    if PageOf(v, items).Some? {
      var page := PageOf(v, items).value;
      assert PageOf(v, items) == Some((page.0, page.1));
      assert Announces(v, items, page.0, page.1);
    }
  }

  // ----- discovery

  ghost predicate IsOurs(run: Run, tag: string, headSha: string)
  {
    run.event == "push" && run.headBranch == tag && run.headSha == headSha
  }

  /** The page holds all runs there are, and they are these. */
  ghost predicate ListsRuns(v: Json, runs: seq<Run>)
  {
    exists entries ::
      && HoldsAll(v, "workflow_runs", entries) && |entries| == |runs|
      && forall i :: 0 <= i < |runs| ==> DescribesRun(entries[i], runs[i])
  }

  lemma ListedIff(v: Json, runs: seq<Run>)
    ensures ListsRuns(v, runs) <==>
              && PageOf(v, "workflow_runs").Some? && PageComplete(PageOf(v, "workflow_runs").value)
              && |ListedRuns(v)| == |runs| && forall i :: 0 <= i < |runs| ==> ListedRuns(v)[i] == Some(runs[i])
  {
    hide PageOf, DecodeRun, DescribesRun, Announces;
    PageKindIff(v, "workflow_runs");
    forall x, run ensures DecodeRun(x) == Some(run) <==> DescribesRun(x, run) { RunIff(x, run); }
    if PageOf(v, "workflow_runs").Some? && PageComplete(PageOf(v, "workflow_runs").value) {
      var page := PageOf(v, "workflow_runs").value;
      assert page == (|page.1|, page.1);
      assert HoldsAll(v, "workflow_runs", page.1);
      if ListsRuns(v, runs) {
        var entries :| HoldsAll(v, "workflow_runs", entries) && |entries| == |runs|
                       && forall i :: 0 <= i < |runs| ==> DescribesRun(entries[i], runs[i]);
        assert PageOf(v, "workflow_runs") == Some((|entries|, entries));
        assert entries == page.1;
      }
    }
  }

  /** What discovery makes of an answer, said of its members: exactly one run of the tag and head is found as it is
      there, none and several are told apart, and an entry that is no run spoils a page that holds all. */
  lemma DiscoveryIff(v: Json, tag: string, headSha: string, r: Discovery)
    requires r.Incomplete? <==> IncompletePage(v, "workflow_runs")
    requires PageOf(v, "workflow_runs").None? ==> r == Invalid
    requires PageOf(v, "workflow_runs").Some? && !r.Incomplete? ==> Discovers(ListedRuns(v), tag, headSha, r)
    ensures forall run :: r == Found(run) <==>
              exists runs, i :: ListsRuns(v, runs) && 0 <= i < |runs| && runs[i] == run
                && forall j :: 0 <= j < |runs| ==> (IsOurs(runs[j], tag, headSha) <==> j == i)
    ensures r == NotFound <==>
              exists runs :: ListsRuns(v, runs) && forall j :: 0 <= j < |runs| ==> !IsOurs(runs[j], tag, headSha)
    ensures r == Ambiguous <==>
              exists runs, i, j :: ListsRuns(v, runs) && 0 <= i < j < |runs|
                && IsOurs(runs[i], tag, headSha) && IsOurs(runs[j], tag, headSha)
    ensures r == Incomplete <==>
              exists count, entries ::
                Announces(v, "workflow_runs", count, entries) && (count != |entries| || count > 100)
  {
    hide PageOf, DecodeRun, DescribesRun, Announces, ListsRuns, ListedRuns;
    PageKindIff(v, "workflow_runs");
    forall runs ensures ListsRuns(v, runs) <==>
        && PageOf(v, "workflow_runs").Some? && PageComplete(PageOf(v, "workflow_runs").value)
        && |ListedRuns(v)| == |runs| && forall i :: 0 <= i < |runs| ==> ListedRuns(v)[i] == Some(runs[i])
    {
      ListedIff(v, runs);
    }
    var listed := ListedRuns(v);
    if None !in listed && PageOf(v, "workflow_runs").Some? && PageComplete(PageOf(v, "workflow_runs").value) {
      forall i | 0 <= i < |listed| ensures listed[i].Some? { assert listed[i] in listed; }
      var runs := seq(|listed|, i requires 0 <= i < |listed| && listed[i].Some? => listed[i].value);
      assert ListsRuns(v, runs);
    }
  }

  // ----- jobs

  ghost predicate IsJob(v: Json, job: Job)
  {
    Member(v, "name", Str(job.name)) && job.name != "" && Member(v, "conclusion", Str(job.conclusion))
  }

  lemma JobIff(v: Json, job: Job)
    ensures ReadableJob(v) && JobIn(v) == job <==> IsJob(v, job)
  {
    StringIff(v, "name", job.name);
    StringIff(v, "conclusion", job.conclusion);
  }

  ghost predicate AreJobs(entries: seq<Json>, jobs: seq<Job>)
  {
    |entries| == |jobs| && forall i :: 0 <= i < |jobs| ==> IsJob(entries[i], jobs[i])
  }

  /** An answer lists these jobs exactly if it holds all entries it announces, and they are these. */
  lemma JobsIff(v: Json, jobs: seq<Job>)
    ensures ListsJobs(v, jobs) <==> exists entries :: HoldsAll(v, "jobs", entries) && AreJobs(entries, jobs)
  {
    hide PageOf, Announces, AreJobs, ReadableJob, JobIn;
    PageKindIff(v, "jobs");
    if PageOf(v, "jobs").Some? && PageComplete(PageOf(v, "jobs").value) {
      var page := PageOf(v, "jobs").value;
      assert page == (|page.1|, page.1);
      assert HoldsAll(v, "jobs", page.1);
      EntriesIff(page.1, jobs);
      forall entries | HoldsAll(v, "jobs", entries) ensures entries == page.1 {
        assert PageOf(v, "jobs") == Some((|entries|, entries));
      }
    }
  }

  lemma EntriesIff(entries: seq<Json>, jobs: seq<Job>)
    ensures AreJobs(entries, jobs) <==>
              |entries| == |jobs|
              && forall i :: 0 <= i < |jobs| ==> ReadableJob(entries[i]) && jobs[i] == JobIn(entries[i])
  {
    hide IsJob, ReadableJob, JobIn;
    forall i | 0 <= i < |jobs| && i < |entries|
      ensures ReadableJob(entries[i]) && jobs[i] == JobIn(entries[i]) <==> IsJob(entries[i], jobs[i])
    {
      JobIff(entries[i], jobs[i]);
    }
  }

  // ----- releases

  ghost predicate IsAsset(v: Json, httpsUrl: string -> bool, asset: Asset)
  {
    && Member(v, "name", Str(asset.name)) && asset.name != ""
    && Member(v, "size", Int(asset.size)) && IsCount(asset.size, 1)
    && Member(v, "browser_download_url", Str(asset.url)) && httpsUrl(asset.url)
  }

  /** An object with these members reads as exactly this asset, and nothing else does. */
  lemma AssetIff(v: Json, httpsUrl: string -> bool, asset: Asset)
    ensures ReadAsset(v, httpsUrl) == Some(asset) <==> IsAsset(v, httpsUrl, asset)
  {
    StringIff(v, "name", asset.name);
    CountIff(v, "size", 1, asset.size);
    StringIff(v, "browser_download_url", asset.url);
  }

  /** An entry that is refused is refused as empty exactly if it has a name and the size zero. */
  lemma AssetErrorIff(v: Json)
    ensures AssetErrorCode(v) == "release_asset_empty" <==>
              exists name :: name != "" && Member(v, "name", Str(name)) && Member(v, "size", Int(0))
    ensures AssetErrorCode(v) != "release_asset_empty" ==> AssetErrorCode(v) == "release_asset_invalid"
  {
    assert "release_asset_empty" != "release_asset_invalid";
    forall name ensures StringField(v, "name") == Some(name) <==> Member(v, "name", Str(name)) {
      StringIff(v, "name", name);
    }
  }

  ghost predicate IsReleaseAnswer(v: Json, tag: string, draft: bool, items: seq<Json>)
  {
    && Member(v, "tag_name", Str(tag)) && Member(v, "draft", Bool(draft)) && Member(v, "assets", Arr(items))
    && exists prerelease :: Member(v, "prerelease", Bool(prerelease))
  }

  /** What is wrong with an answer about the release, apart from its assets. */
  lemma ReleaseIff(v: Json, tag: string)
    ensures ReleaseCode(v, tag) == None <==> exists items :: IsReleaseAnswer(v, tag, false, items)
    ensures ReleaseCode(v, tag) == Some("release_is_draft") <==> exists items :: IsReleaseAnswer(v, tag, true, items)
    ensures ReleaseCode(v, tag) == Some("release_tag_mismatch") <==>
              exists other, draft, items :: other != tag && IsReleaseAnswer(v, other, draft, items)
    ensures ReleaseCode(v, tag) == Some("github_release_response_invalid") <==>
              forall other, draft, items :: !IsReleaseAnswer(v, other, draft, items)
  {
    hide Member;
    AllMembers(v);
    assert "release_is_draft" != "release_tag_mismatch" && "github_release_response_invalid" != "release_is_draft"
           && "github_release_response_invalid" != "release_tag_mismatch";
    if !BrokenRelease(v) {
      assert IsReleaseAnswer(v, StringField(v, "tag_name").value, BoolField(v, "draft").value,
                             ArrayField(v, "assets").value);
    }
  }

  lemma AllMembers(v: Json)
    ensures forall name, s :: StringField(v, name) == Some(s) <==> Member(v, name, Str(s))
    ensures forall name, b :: BoolField(v, name) == Some(b) <==> Member(v, name, Bool(b))
    ensures forall name, items :: ArrayField(v, name) == Some(items) <==> Member(v, name, Arr(items))
  {
  }

  lemma PinnedIff(v: Json, tag: string)
    ensures PinnedCode(v, tag) == None <==> Member(v, "tag_name", Str(tag)) && Member(v, "draft", Bool(false))
    ensures PinnedCode(v, tag) == Some("pinned_lsp_release_is_draft") <==>
              Member(v, "tag_name", Str(tag)) && Member(v, "draft", Bool(true))
    ensures PinnedCode(v, tag) == Some("pinned_lsp_release_response_invalid") <==>
              !Member(v, "tag_name", Str(tag)) || forall draft :: !Member(v, "draft", Bool(draft))
  {
    hide Member;
    AllMembers(v);
    assert "pinned_lsp_release_is_draft" != "pinned_lsp_release_response_invalid";
  }
}
