/** What a release target is, which remote requests are made for it, and what a log of their answers can prove. */
module ReleaseContracts {
  import opened Wrappers
  import opened JsonValues

  datatype Lane = MainLane | LspLane

  datatype Job = Job(name: string, conclusion: string)

  /** What a release tag stands for: its lane and version, the assets its release must carry and the jobs its
      run must have, each with the conclusion it must have reached. */
  datatype Target = Target(lane: Lane, tag: string, version: string, pinnedLspVersion: Option<string>,
                           expectedAssets: seq<string>, expectedJobs: seq<Job>)

  /** The tag of the LSP release a main-lane release is built with. */
  function PinnedTag(t: Target): string
    requires t.pinnedLspVersion.Some?
  {
    "ocmm-lsp-v" + t.pinnedLspVersion.value
  }

  /** `parseReleaseTarget` pins an LSP version for the main lane and for no other, and the pinned release is another. */
  predicate WellFormedTarget(t: Target)
  {
    && (t.lane.MainLane? <==> t.pinnedLspVersion.Some?)
    && (t.pinnedLspVersion.Some? ==> PinnedTag(t) != t.tag)
  }

  const CHECKSUM_NAME := "SHA256SUMS.txt"

  ghost predicate NoRepeats<T>(xs: seq<T>) { forall i, j :: 0 <= i < j < |xs| ==> xs[i] != xs[j] }

  /** The target of a main-lane version: the manifest and two packages, which is all that is released, and five jobs. */
  function MainTarget(version: string, pinnedLspVersion: string): (t: Target)
    ensures WellFormedTarget(t) && t.tag == "v" + version
    ensures NoRepeats(t.expectedAssets) && |t.expectedAssets| == 3 && CHECKSUM_NAME in t.expectedAssets
    ensures Packed("deepwork-codex-plugin", version) in t.expectedAssets
    ensures Packed("ocmm-opencode-plugin", version) in t.expectedAssets
    ensures NoRepeats(JobNames(t.expectedJobs)) && |t.expectedJobs| == 5
    ensures forall name :: name in {"Verify (ocmm)", PINNED_JOB, MAIN_JOB, RELEASE_JOB} ==>
              Job(name, "success") in t.expectedJobs
    ensures Job(LSP_JOB, "skipped") in t.expectedJobs
  {
    var target := Target(MainLane, "v" + version, version, Some(pinnedLspVersion),
           [CHECKSUM_NAME, Packed("deepwork-codex-plugin", version), Packed("ocmm-opencode-plugin", version)],
           [ Job("Verify (ocmm)", "success"), Job(PINNED_JOB, "success"), Job(MAIN_JOB, "success"),
             Job(LSP_JOB, "skipped"), Job(RELEASE_JOB, "success") ]);
    assert target.tag[0] == 'v' && PinnedTag(target)[0] == 'o';
    MainNamesDiffer(target);
    target
  }

  const PINNED_JOB := "Download pinned ocmm-lsp binaries"
  const MAIN_JOB := "Package and publish ocmm"
  const LSP_JOB := "Package and publish ocmm-lsp packages"
  const RELEASE_JOB := "GitHub Release"

  /** The archive a package of this version is released as. */
  function Packed(package: string, version: string): string { package + "-" + version + ".tgz" }

  function JobNames(jobs: seq<Job>): (names: seq<string>)
    ensures |names| == |jobs| && forall i :: 0 <= i < |jobs| ==> names[i] == jobs[i].name
  {
    seq(|jobs|, i requires 0 <= i < |jobs| => jobs[i].name)
  }

  /** The job that builds the LSP server for one platform. */
  function NativeJob(platform: string): Job { Job("Native ocmm-lsp (" + platform + ")", "success") }

  function LspPackages(): (names: seq<string>)
    ensures |names| == 8
  {
    [ "ocmm-lsp-darwin-arm64", "ocmm-lsp-darwin-x64", "ocmm-lsp-linux-arm64-gnu", "ocmm-lsp-linux-arm64-musl",
      "ocmm-lsp-linux-x64-gnu", "ocmm-lsp-linux-x64-musl", "ocmm-lsp-windows-arm64", "ocmm-lsp-windows-x64" ]
  }

  function LspBinaries(): (names: seq<string>)
    ensures |names| == 8
  {
    [ "ocmm-lsp-aarch64-apple-darwin", "ocmm-lsp-aarch64-pc-windows-msvc.exe",
      "ocmm-lsp-aarch64-unknown-linux-gnu", "ocmm-lsp-aarch64-unknown-linux-musl",
      "ocmm-lsp-x86_64-apple-darwin", "ocmm-lsp-x86_64-pc-windows-msvc.exe",
      "ocmm-lsp-x86_64-unknown-linux-gnu", "ocmm-lsp-x86_64-unknown-linux-musl" ]
  }

  function LspPlatforms(): (names: seq<string>)
    ensures |names| == 8
  {
    [ "linux-x64-gnu", "linux-arm64-gnu", "linux-x64-musl", "linux-arm64-musl", "win32-x64", "win32-arm64",
      "darwin-x64", "darwin-arm64" ]
  }

  /** The assets of an LSP-lane version in the order they are fetched: the manifest, and for each of eight platforms a
      binary and a package. */
  function LspAssets(version: string): (names: seq<string>)
    ensures NoRepeats(names) && |names| == 17 && CHECKSUM_NAME in names
    ensures forall package :: package in LspPackages() ==> Packed(package, version) in names
    ensures forall binary :: binary in LspBinaries() ==> binary in names
  {
    var packages, binaries := LspPackages(), LspBinaries();
    var names := [CHECKSUM_NAME, binaries[0], binaries[1], binaries[2], binaries[3],
                  Packed(packages[0], version), Packed(packages[1], version), Packed(packages[2], version),
                  Packed(packages[3], version), Packed(packages[4], version), Packed(packages[5], version),
                  Packed(packages[6], version), Packed(packages[7], version),
                  binaries[4], binaries[5], binaries[6], binaries[7]];
    AssetNamesDiffer(version, names);
    names
  }

  function LspJobs(): (jobs: seq<Job>)
    ensures NoRepeats(JobNames(jobs)) && |jobs| == 13
    ensures forall platform :: platform in LspPlatforms() ==> NativeJob(platform) in jobs
    ensures forall name :: name in {"Verify (ocmm-lsp)", LSP_JOB, RELEASE_JOB} ==> Job(name, "success") in jobs
    ensures forall name :: name in {PINNED_JOB, MAIN_JOB} ==> Job(name, "skipped") in jobs
  {
    var on := LspPlatforms();
    var jobs := [ Job("Verify (ocmm-lsp)", "success"), NativeJob(on[0]), NativeJob(on[1]), NativeJob(on[2]),
                  NativeJob(on[3]), NativeJob(on[4]), NativeJob(on[5]), NativeJob(on[6]), NativeJob(on[7]),
                  Job(LSP_JOB, "success"), Job(PINNED_JOB, "skipped"), Job(MAIN_JOB, "skipped"),
                  Job(RELEASE_JOB, "success") ];
    JobNamesDiffer(jobs);
    jobs
  }

  /** The target of an LSP-lane version. */
  function LspTarget(version: string): (t: Target)
    ensures WellFormedTarget(t) && t.tag == "ocmm-lsp-v" + version
    ensures NoRepeats(t.expectedAssets) && |t.expectedAssets| == 17 && CHECKSUM_NAME in t.expectedAssets
    ensures forall package :: package in LspPackages() ==> Packed(package, version) in t.expectedAssets
    ensures forall binary :: binary in LspBinaries() ==> binary in t.expectedAssets
    ensures NoRepeats(JobNames(t.expectedJobs)) && |t.expectedJobs| == 13
    ensures forall platform :: platform in LspPlatforms() ==> NativeJob(platform) in t.expectedJobs
    ensures forall name :: name in {"Verify (ocmm-lsp)", LSP_JOB, RELEASE_JOB} ==>
              Job(name, "success") in t.expectedJobs
    ensures forall name :: name in {PINNED_JOB, MAIN_JOB} ==> Job(name, "skipped") in t.expectedJobs
  {
    Target(LspLane, "ocmm-lsp-v" + version, version, None, LspAssets(version), LspJobs())
  }

  /** The names of a main-lane version, letter by letter. */
  lemma MainNamesAre(version: string, pinnedLspVersion: string)
    ensures var t := MainTarget(version, pinnedLspVersion);
            && multiset(t.expectedAssets)
               == multiset{"SHA256SUMS.txt", "deepwork-codex-plugin-" + version + ".tgz",
                           "ocmm-opencode-plugin-" + version + ".tgz"}
            && multiset(t.expectedJobs)
               == multiset{Job("Verify (ocmm)", "success"), Job("Download pinned ocmm-lsp binaries", "success"),
                           Job("Package and publish ocmm", "success"),
                           Job("Package and publish ocmm-lsp packages", "skipped"), Job("GitHub Release", "success")}
            && PinnedTag(t) == "ocmm-lsp-v" + pinnedLspVersion && t.version == version && t.lane == MainLane
  {
    assert Packed("deepwork-codex-plugin", version) == "deepwork-codex-plugin-" + version + ".tgz"
           && Packed("ocmm-opencode-plugin", version) == "ocmm-opencode-plugin-" + version + ".tgz";
  }

  /** The packages of an LSP-lane version: for two processors on two systems, and on a third one with two libraries. */
  lemma PackagesAre(processor: string, system: string, version: string)
    requires processor in ["arm64", "x64"] && system in ["darwin", "windows", "linux"]
    ensures system != "linux" ==> "ocmm-lsp-" + system + "-" + processor in LspPackages()
    ensures system == "linux" ==>
              && "ocmm-lsp-linux-" + processor + "-gnu" in LspPackages()
              && "ocmm-lsp-linux-" + processor + "-musl" in LspPackages()
    ensures Packed(system, version) == system + "-" + version + ".tgz"
  {
    var names := LspPackages();
    assert "ocmm-lsp-" + "darwin" + "-" + "arm64" == names[0];
    assert "ocmm-lsp-" + "darwin" + "-" + "x64" == names[1];
    assert "ocmm-lsp-linux-" + "arm64" + "-gnu" == names[2];
    assert "ocmm-lsp-linux-" + "arm64" + "-musl" == names[3];
    assert "ocmm-lsp-linux-" + "x64" + "-gnu" == names[4];
    assert "ocmm-lsp-linux-" + "x64" + "-musl" == names[5];
    assert "ocmm-lsp-" + "windows" + "-" + "arm64" == names[6];
    assert "ocmm-lsp-" + "windows" + "-" + "x64" == names[7];
  }

  /** The jobs that build them, each with its name. */
  lemma NativeJobsAre(processor: string, system: string)
    requires processor in ["arm64", "x64"] && system in ["darwin", "win32", "linux"]
    ensures system != "linux" ==> system + "-" + processor in LspPlatforms()
    ensures system == "linux" ==>
              "linux-" + processor + "-gnu" in LspPlatforms() && "linux-" + processor + "-musl" in LspPlatforms()
    ensures NativeJob(system) == Job("Native ocmm-lsp (" + system + ")", "success")
  {
    var names := LspPlatforms();
    assert "linux-" + "x64" + "-gnu" == names[0];
    assert "linux-" + "arm64" + "-gnu" == names[1];
    assert "linux-" + "x64" + "-musl" == names[2];
    assert "linux-" + "arm64" + "-musl" == names[3];
    assert "win32" + "-" + "x64" == names[4];
    assert "win32" + "-" + "arm64" == names[5];
    assert "darwin" + "-" + "x64" == names[6];
    assert "darwin" + "-" + "arm64" == names[7];
  }

  lemma MainNamesDiffer(t: Target)
    requires t.expectedAssets == [CHECKSUM_NAME, Packed("deepwork-codex-plugin", t.version),
                                  Packed("ocmm-opencode-plugin", t.version)]
    requires JobNames(t.expectedJobs) == ["Verify (ocmm)", PINNED_JOB, MAIN_JOB, LSP_JOB, RELEASE_JOB]
    ensures NoRepeats(t.expectedAssets) && NoRepeats(JobNames(t.expectedJobs))
  {
    assert forall i :: 0 <= i < 3 ==> t.expectedAssets[i][0] == "Sdo"[i];
    assert |MAIN_JOB| != |LSP_JOB|;
    assert forall i :: 0 <= i < 5 ==> JobNames(t.expectedJobs)[i][0] == "VDPPG"[i];
  }

  /** Where an asset of the LSP lane stands, read off a few of its characters. */
  function Place(name: string): nat
    requires |name| >= 14
  {
    var c := (i: nat) => if i < |name| then name[i] else ' ';
    match name[9]
    case 'S' => 0
    case 'a' => if c(17) == 'a' then 1 else if c(17) == 'p' then 2 else if c(31) == 'g' then 3 else 4
    case 'd' => if c(16) == 'a' then 5 else 6
    case 'l' =>
      if c(15) == 'a' then if c(21) == 'g' then 7 else 8
      else if c(19) == 'g' then 9 else 10
    case 'w' => if c(17) == 'a' then 11 else 12
    case _ => if c(16) == 'a' then 13 else if c(16) == 'p' then 14 else if c(30) == 'g' then 15 else 16
  }

  lemma AssetNamesDiffer(version: string, names: seq<string>)
    requires |names| == 17 && names[0] == CHECKSUM_NAME
    requires names[1..5] == LspBinaries()[..4] && names[13..] == LspBinaries()[4..]
    requires forall i :: 0 <= i < 8 ==> names[5 + i] == Packed(LspPackages()[i], version)
    ensures NoRepeats(names)
  {
    hide Place, LspBinaries, LspPackages, Packed;
    PlacesOfPackages(version);
    ManifestIsFirst();
    forall i | 0 <= i < 17 ensures |names[i]| >= 14 && Place(names[i]) == i {
      if 1 <= i < 5 {
        PlacesOfBinaries(i - 1);
        assert names[i] == names[1..5][i - 1] == LspBinaries()[..4][i - 1];
      } else if 5 <= i < 13 {
        var k := i - 5;
        assert 0 <= k < 8 && names[5 + k] == Packed(LspPackages()[k], version);
      } else if i >= 13 {
        PlacesOfBinaries(i - 9);
        assert names[i] == names[13..][i - 13] == LspBinaries()[4..][i - 13];
      }
    }
  }

  lemma ManifestIsFirst()
    ensures |CHECKSUM_NAME| == 14 && Place(CHECKSUM_NAME) == 0
  {
  }

  lemma PlacesOfBinaries(i: nat)
    requires i < 8
    ensures |LspBinaries()[i]| >= 14 && Place(LspBinaries()[i]) == if i < 4 then i + 1 else i + 9
  {
  }

  lemma PlacesOfPackages(version: string)
    ensures forall i :: 0 <= i < 8 ==>
              |Packed(LspPackages()[i], version)| >= 14 && Place(Packed(LspPackages()[i], version)) == i + 5
  {
    forall i | 0 <= i < 8
      ensures |Packed(LspPackages()[i], version)| >= 14 && Place(Packed(LspPackages()[i], version)) == i + 5
    {
      var package := LspPackages()[i];
      assert forall k :: 0 <= k < |package| ==> Packed(package, version)[k] == package[k];
    }
  }

  lemma JobNamesDiffer(jobs: seq<Job>)
    requires |jobs| == 13 && forall i :: 0 <= i < 8 ==> jobs[i + 1] == NativeJob(LspPlatforms()[i])
    requires jobs[0].name == "Verify (ocmm-lsp)" && jobs[9].name == LSP_JOB && jobs[10].name == PINNED_JOB
             && jobs[11].name == MAIN_JOB && jobs[12].name == RELEASE_JOB
    ensures NoRepeats(JobNames(jobs))
  {
    hide NativeJob, LspPlatforms;
    var names := JobNames(jobs);
    NativeNamesDiffer();
    assert |MAIN_JOB| != |LSP_JOB|;
    assert forall i :: 0 <= i < 13 && !(1 <= i <= 8) ==> names[i][0] != 'N';
    forall i | 0 <= i < 13 && 1 <= i <= 8
      ensures |names[i]| > 0 && names[i][0] == 'N' && names[i] == NativeJob(LspPlatforms()[i - 1]).name
    {
      var k := i - 1;
      assert 0 <= k < 8 && jobs[k + 1] == NativeJob(LspPlatforms()[k]);
    }
    assert names[0][0] == 'V' && names[9][0] == 'P' && names[10][0] == 'D';
    assert names[11][0] == 'P' && names[12][0] == 'G';
  }

  lemma NativeNamesDiffer()
    ensures forall i :: 0 <= i < 8 ==> |NativeJob(LspPlatforms()[i]).name| > 0
    ensures forall i :: 0 <= i < 8 ==> NativeJob(LspPlatforms()[i]).name[0] == 'N'
    ensures forall i, j :: 0 <= i < j < 8 ==> NativeJob(LspPlatforms()[i]).name != NativeJob(LspPlatforms()[j]).name
  {
    forall i, j | 0 <= i < j < 8
      ensures NativeJob(LspPlatforms()[i]).name != NativeJob(LspPlatforms()[j]).name
    {
      PlatformsDiffer(i, j);
      NativeIsOfOne(LspPlatforms()[i], LspPlatforms()[j]);
    }
  }

  lemma PlatformsDiffer(i: nat, j: nat)
    requires i < j < 8
    ensures LspPlatforms()[i] != LspPlatforms()[j]
  {
    var names := LspPlatforms();
    assert forall k :: 0 <= k < 8 ==> |names[k]| == [13, 15, 14, 16, 9, 11, 10, 12][k];
  }

  lemma NativeIsOfOne(a: string, b: string)
    ensures NativeJob(a).name == NativeJob(b).name ==> a == b
  {
    var left, right := "Native ocmm-lsp (", ")";
    assert (left + a + right)[|left|..|left + a|] == a;
    assert (left + b + right)[|left|..|left + b|] == b;
  }

  /** Every expected asset but the checksum manifest itself. */
  function Payloads(names: seq<string>): (payloads: seq<string>)
    ensures forall n :: n in payloads <==> n in names && n != CHECKSUM_NAME
  {
    if names == [] then []
    else if names[0] == CHECKSUM_NAME then Payloads(names[1..])
    else [names[0]] + Payloads(names[1..])
  }

  // ----- surfaces and statuses

  datatype SurfaceName =
    | Identity | Workflow | Jobs | GithubRelease | ReleaseAssets | Checksums | Npm | GithubPackages | PinnedLspRelease

  datatype Status = Pass | Failed | Unresolved | Skipped

  datatype Surfaces = Surfaces(
    identity: Status, workflow: Status, jobs: Status, githubRelease: Status, releaseAssets: Status,
    checksums: Status, npm: Status, githubPackages: Status, pinnedLspRelease: Status)
  {
    function Get(surface: SurfaceName): Status
    {
      match surface
      case Identity => identity
      case Workflow => workflow
      case Jobs => jobs
      case GithubRelease => githubRelease
      case ReleaseAssets => releaseAssets
      case Checksums => checksums
      case Npm => npm
      case GithubPackages => githubPackages
      case PinnedLspRelease => pinnedLspRelease
    }

    function With(surface: SurfaceName, status: Status): (r: Surfaces)
      ensures forall other :: r.Get(other) == if other == surface then status else Get(other)
    {
      match surface
      case Identity => this.(identity := status)
      case Workflow => this.(workflow := status)
      case Jobs => this.(jobs := status)
      case GithubRelease => this.(githubRelease := status)
      case ReleaseAssets => this.(releaseAssets := status)
      case Checksums => this.(checksums := status)
      case Npm => this.(npm := status)
      case GithubPackages => this.(githubPackages := status)
      case PinnedLspRelease => this.(pinnedLspRelease := status)
    }
  }

  /** No surface has been checked yet. */
  const FRESH_SURFACES := Surfaces(Unresolved, Unresolved, Unresolved, Unresolved, Unresolved, Unresolved, Unresolved,
      Unresolved, Unresolved)

  datatype Outcome = COMPLETED | FAILED | UNRESOLVED

  datatype Asset = Asset(name: string, size: int, url: string)

  datatype AssetRow = AssetRow(name: string, size: int, downloadedSize: Option<int>, sha256: Option<string>)

  datatype ErrorRecord = ErrorRecord(surface: SurfaceName, code: string)

  // ----- the remote, seen as a log of questions and answers

  type Byte = b: int | 0 <= b < 256

  datatype Request =
    | TagRef(tag: string)
    | TagObject(sha: string)
    | RunSearch(tag: string)
    | RunById(runId: int)
    | JobsOf(runId: int, attempt: int)
    | ReleaseByTag(tag: string)

  /** The three dispositions a request ends in: success, retry, failed. */
  datatype Reply<+T> = Answered(value: T) | RetryLater | Rejected

  datatype Reading = At(ms: int) | InvalidDate

  datatype PeelResult = Peeled(headSha: string) | PeelRetry | PeelFailed(code: string)

  datatype Event =
    | JsonAsked(request: Request, json: Reply<Json>)
    | BytesAsked(url: string, bytes: Reply<seq<Byte>>)
    | TagPeeled(result: PeelResult)
    | ClockRead(reading: Reading)
    | Slept(ms: int)

  /** The functions the checker calls but does not define; every result holds for all of them. */
  datatype Platform = Platform(
    sha256: seq<Byte> -> string,
    utf8: seq<Byte> -> Option<string>,
    httpsUrl: string -> bool)
}
