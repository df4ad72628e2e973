/** The checksum manifest and the asset list of a release. */
module ReleaseProof {
  import opened Wrappers
  import opened Text
  import opened JsonValues
  import opened ReleaseContracts

  // ----- the manifest: rows of a digest, two spaces and a file name

  predicate IsHexAnyCase(c: char) { IsDigit(c) || 'a' <= c <= 'f' || 'A' <= c <= 'F' }

  predicate IsDigest(s: string) { |s| == 64 && forall i :: 0 <= i < |s| ==> IsHexAnyCase(s[i]) }

  /** A payload name no manifest row may carry twice, and that is neither the manifest nor a directory. */
  predicate IsPayloadName(s: string)
  {
    && s != "" && s != CHECKSUM_NAME && s != "." && s != ".."
    && forall i :: 0 <= i < |s| ==> s[i] != '\\' && s[i] != '/' && s[i] != '\r' && s[i] != '\n'
  }

  function LowerHex(c: char): char { if 'A' <= c <= 'F' then c - 'A' + 'a' else c }

  function Lower(s: string): (r: string)
    ensures |r| == |s| && forall i :: 0 <= i < |s| ==> r[i] == LowerHex(s[i])
  {
    seq(|s|, i requires 0 <= i < |s| => LowerHex(s[i]))
  }

  datatype Row = Row(digest: string, name: string)

  /** Sixty-four hexadecimal digits in either case, and a file name that is neither the manifest's nor a directory's. */
  ghost predicate IsRow(row: Row)
  {
    && |row.digest| == 64 && (forall i :: 0 <= i < 64 ==> row.digest[i] in "0123456789abcdefABCDEF")
    && row.name != "" && row.name != "SHA256SUMS.txt" && row.name != "." && row.name != ".."
    && forall i :: 0 <= i < |row.name| ==> row.name[i] !in "\\/\r\n"
  }

  function PrintRow(row: Row): string { row.digest + "  " + row.name }

  lemma RowIff(digest: string, name: string)
    ensures IsRow(Row(digest, name)) <==> IsDigest(digest) && IsPayloadName(name)
  {
    assert forall c :: IsHexAnyCase(c) <==> c in "0123456789abcdefABCDEF";
  }

  /** `CHECKSUM_ROW.exec` together with the tests on the name that follow it. */
  function ReadRow(s: string): (r: Option<Row>)
    ensures r.Some? ==> IsRow(r.value) && PrintRow(r.value) == s
  {
    if |s| > 66 && IsDigest(s[..64]) && s[64] == ' ' && s[65] == ' ' && IsPayloadName(s[66..]) then
      assert s == s[..64] + "  " + s[66..];
      RowIff(s[..64], s[66..]);
      Some(Row(s[..64], s[66..]))
    else None
  }

  lemma ReadOfPrint(row: Row)
    requires IsRow(row)
    ensures ReadRow(PrintRow(row)) == Some(row)
  {
    var s := PrintRow(row);
    assert s[..64] == row.digest && s[66..] == row.name;
    RowIff(row.digest, row.name);
  }

  ghost predicate DistinctRows(rows: seq<Row>)
  {
    forall i, j :: 0 <= i < j < |rows| ==> rows[i].name != rows[j].name
  }

  function PrintRows(rows: seq<Row>): (lines: seq<string>)
    ensures |lines| == |rows| && forall i :: 0 <= i < |rows| ==> lines[i] == PrintRow(rows[i])
  {
    seq(|rows|, i requires 0 <= i < |rows| => PrintRow(rows[i]))
  }

  /** The text is a manifest of these rows: well formed, no name twice, one a line, each line ended. */
  ghost predicate IsManifest(text: string, rows: seq<Row>)
  {
    && |rows| > 0 && (forall i :: 0 <= i < |rows| ==> IsRow(rows[i])) && DistinctRows(rows)
    && text == Join(PrintRows(rows), '\n') + "\n"
  }

  /** The text with the hexadecimal letters among its characters in lower case. */
  ghost predicate IsLowered(s: string, r: string)
  {
    |r| == |s| && forall i :: 0 <= i < |s| ==> IsLoweredChar(s[i], r[i])
  }

  ghost predicate IsLoweredChar(c: char, d: char)
  {
    match c
    case 'A' => d == 'a'
    case 'B' => d == 'b'
    case 'C' => d == 'c'
    case 'D' => d == 'd'
    case 'E' => d == 'e'
    case 'F' => d == 'f'
    case _ => d == c
  }

  /** The names of the rows, each with its digest in lower case. */
  ghost predicate Digests(rows: seq<Row>, digests: map<string, string>)
  {
    && (forall i :: 0 <= i < |rows| ==> rows[i].name in digests && IsLowered(rows[i].digest, digests[rows[i].name]))
    && (forall n :: n in digests ==> exists i :: 0 <= i < |rows| && rows[i].name == n)
  }

  ghost predicate ManifestSays(text: string, digests: map<string, string>)
  {
    exists rows :: IsManifest(text, rows) && Digests(rows, digests)
  }

  lemma RowIsOneLine(row: Row)
    requires IsRow(row)
    ensures '\n' !in PrintRow(row)
  {
    assert forall c :: c in "0123456789abcdefABCDEF" ==> c != '\n';
  }

  /** The lines of a manifest read back as its rows. */
  lemma ManifestReadsBack(text: string, rows: seq<Row>)
    requires IsManifest(text, rows)
    ensures text != "" && text[|text| - 1] == '\n'
    ensures var lines := Split(text[..|text| - 1], '\n');
            |lines| == |rows| && forall i :: 0 <= i < |rows| ==> ReadRow(lines[i]) == Some(rows[i])
  {
    hide IsRow, PrintRow, ReadRow;
    var printed := PrintRows(rows);
    assert text[..|text| - 1] == Join(printed, '\n');
    forall p | p in printed ensures '\n' !in p {
      var i :| 0 <= i < |printed| && p == printed[i];
      RowIsOneLine(rows[i]);
    }
    SplitOfJoin(printed, '\n');
    forall i | 0 <= i < |rows| ensures ReadRow(printed[i]) == Some(rows[i]) {
      ReadOfPrint(rows[i]);
    }
  }

  /** A manifest has one reading. */
  lemma ManifestIsUnambiguous(text: string, a: map<string, string>, b: map<string, string>)
    requires ManifestSays(text, a) && ManifestSays(text, b)
    ensures a == b
  {
    var rows :| IsManifest(text, rows) && Digests(rows, a);
    var others :| IsManifest(text, others) && Digests(others, b);
    RowsAreUnique(text, rows, others);
    DigestsAreUnique(rows, a, b);
  }

  lemma RowsAreUnique(text: string, rows: seq<Row>, others: seq<Row>)
    requires IsManifest(text, rows) && IsManifest(text, others)
    ensures rows == others
  {
    ManifestReadsBack(text, rows);
    ManifestReadsBack(text, others);
  }

  lemma LoweredIsOne(s: string, a: string, b: string)
    requires IsLowered(s, a) && IsLowered(s, b)
    ensures a == b
  {
    hide IsLoweredChar;
    forall c, d, e | IsLoweredChar(c, d) && IsLoweredChar(c, e) ensures d == e { LoweredCharIsOne(c, d, e); }
  }

  lemma LoweredCharIsOne(c: char, d: char, e: char)
    requires IsLoweredChar(c, d) && IsLoweredChar(c, e)
    ensures d == e
  {
  }

  lemma DigestsAreUnique(rows: seq<Row>, a: map<string, string>, b: map<string, string>)
    requires Digests(rows, a) && Digests(rows, b)
    ensures a == b
  {
    hide IsLowered;
    forall s, x, y | IsLowered(s, x) && IsLowered(s, y) ensures x == y { LoweredIsOne(s, x, y); }
  }

  /** A line that does not read, or names what an earlier line named, is in no manifest. */
  lemma BadLine(text: string, rows: seq<Row>)
    requires text != ""
    requires var lines := Split(text[..|text| - 1], '\n');
             && |rows| < |lines| && (forall k :: 0 <= k < |rows| ==> ReadRow(lines[k]) == Some(rows[k]))
             && match ReadRow(lines[|rows|])
                case None => true
                case Some(row) => exists k :: 0 <= k < |rows| && rows[k].name == row.name
    ensures forall others :: !IsManifest(text, others)
  {
    forall others: seq<Row> | IsManifest(text, others) ensures false {
      ManifestReadsBack(text, others);
    }
  }

  method ReadManifest(text: string) returns (r: Option<map<string, string>>)
    ensures r.Some? ==> ManifestSays(text, r.value)
    ensures r.None? ==> forall rows :: !IsManifest(text, rows)
  {
    hide ReadRow, IsManifest, ManifestSays, Split, Digests;
    if text == "" || text[|text| - 1] != '\n' {
      NoLastNewline(text);
      return None;
    }
    var lines := Split(text[..|text| - 1], '\n');
    ghost var rows: seq<Row> := [];
    if text == "\n" {
      BadLine(text, rows);
      return None;
    }
    var checksums: map<string, string> := map[];
    NoRows();
    for i := 0 to |lines|
      invariant |rows| == i && DistinctRows(rows)
      invariant forall k :: 0 <= k < i ==> ReadRow(lines[k]) == Some(rows[k])
      invariant Digests(rows, checksums)
    {
      var row := ReadRow(lines[i]);
      if row.None? || row.value.name in checksums {
        if row.Some? { DigestIsNamed(rows, checksums, row.value.name); }
        BadLine(text, rows);
        return None;
      }
      DigestsGrow(rows, checksums, row.value);
      checksums := checksums[row.value.name := Lower(row.value.digest)];
      rows := rows + [row.value];
    }
    PrintsBack(text, lines, rows);
    Says(text, rows, checksums);
    return Some(checksums);
  }

  lemma NoRows()
    ensures Digests([], map[]) && DistinctRows([])
  {
  }

  lemma DigestIsNamed(rows: seq<Row>, digests: map<string, string>, name: string)
    requires Digests(rows, digests) && name in digests
    ensures exists k :: 0 <= k < |rows| && rows[k].name == name
  {
  }

  lemma PrintsBack(text: string, lines: seq<string>, rows: seq<Row>)
    requires text != "" && text[|text| - 1] == '\n' && lines == Split(text[..|text| - 1], '\n')
    requires |rows| == |lines| && forall k :: 0 <= k < |rows| ==> ReadRow(lines[k]) == Some(rows[k])
    requires DistinctRows(rows)
    ensures IsManifest(text, rows)
  {
    hide IsRow, PrintRow, IsHexAnyCase, IsPayloadName, IsDigest, Join, Split;
    assert lines == PrintRows(rows);
    assert text == text[..|text| - 1] + "\n";
  }

  lemma Says(text: string, rows: seq<Row>, digests: map<string, string>)
    requires IsManifest(text, rows) && Digests(rows, digests)
    ensures ManifestSays(text, digests)
  {
  }

  lemma NoLastNewline(text: string)
    requires text == "" || text[|text| - 1] != '\n'
    ensures forall rows :: !IsManifest(text, rows)
  {
  }

  lemma DigestsGrow(rows: seq<Row>, digests: map<string, string>, row: Row)
    requires DistinctRows(rows) && Digests(rows, digests) && row.name !in digests
    ensures DistinctRows(rows + [row]) && Digests(rows + [row], digests[row.name := Lower(row.digest)])
  {
    var longer, grown := rows + [row], digests[row.name := Lower(row.digest)];
    forall n | n in grown
      ensures exists i :: 0 <= i < |longer| && longer[i].name == n
    {
      if n == row.name {
        assert longer[|rows|].name == n;
      } else {
        var i :| 0 <= i < |rows| && rows[i].name == n;
        assert longer[i].name == n;
      }
    }
  }

  /** The sorted name lists agree: the keys are the expected names, none of them expected twice. */
  predicate SameNames(keys: set<string>, expected: seq<string>) { multiset(keys) == multiset(expected) }

  lemma SameNamesAreKeys(keys: set<string>, expected: seq<string>)
    requires SameNames(keys, expected)
    ensures forall n :: n in keys <==> n in expected
  {
    forall n ensures n in keys <==> n in expected {
      assert n in keys <==> n in multiset(keys);
      assert n in expected <==> n in multiset(expected);
    }
  }

  datatype ChecksumError = FormatInvalid | CoverageMismatch

  /** The digests of a manifest that covers the expected payloads and nothing else. */
  method ParseChecksums(text: Option<string>, payloads: seq<string>)
    returns (r: Result<map<string, string>, ChecksumError>)
    ensures r.Success? ==> text.Some? && ManifestSays(text.value, r.value) && SameNames(r.value.Keys, payloads)
    ensures r.Failure? && r.error.FormatInvalid? ==> text.None? || forall rows :: !IsManifest(text.value, rows)
    ensures r.Failure? && r.error.CoverageMismatch? ==>
              text.Some? && forall digests :: ManifestSays(text.value, digests) ==> !SameNames(digests.Keys, payloads)
  {
    if text.None? { return Failure(FormatInvalid); }
    var checksums := ReadManifest(text.value);
    if checksums.None? { return Failure(FormatInvalid); }
    if !SameNames(checksums.value.Keys, payloads) {
      forall digests | ManifestSays(text.value, digests) ensures !SameNames(digests.Keys, payloads) {
        ManifestIsUnambiguous(text.value, digests, checksums.value);
      }
      return Failure(CoverageMismatch);
    }
    return Success(checksums.value);
  }

  // ----- the asset list

  function ReadAsset(v: Json, httpsUrl: string -> bool): (r: Option<Asset>)
    ensures r.Some? ==> StringField(v, "name") == Some(r.value.name)
  {
    var name := StringField(v, "name");
    var size := SafeIntegerField(v, "size", 1);
    var url := StringField(v, "browser_download_url");
    if name.Some? && name.value != "" && size.Some? && url.Some? && httpsUrl(url.value)
    then Some(Asset(name.value, size.value, url.value))
    else None
  }

  /** The code of the first test an unreadable entry fails. */
  function AssetErrorCode(v: Json): string
  {
    if StringField(v, "name").Some? && StringField(v, "name").value != "" && Field(v, "size") == Some(Int(0))
    then "release_asset_empty"
    else "release_asset_invalid"
  }

  /** `assets` is the list of readable entries, keyed by name, no name twice. */
  ghost predicate ListsAssets(entries: seq<Option<Asset>>, assets: map<string, Asset>)
  {
    && (forall i :: 0 <= i < |entries| ==>
          entries[i].Some? && entries[i].value.name in assets && assets[entries[i].value.name] == entries[i].value)
    && (forall i, j :: 0 <= i < j < |entries| ==> entries[i].value.name != entries[j].value.name)
    && (forall n :: n in assets ==> exists i :: 0 <= i < |entries| && entries[i] == Some(assets[n]))
    && (forall n :: n in assets ==> assets[n].name == n)
  }

  function ReadAssets(items: seq<Json>, httpsUrl: string -> bool): (entries: seq<Option<Asset>>)
    ensures |entries| == |items| && forall i :: 0 <= i < |items| ==> entries[i] == ReadAsset(items[i], httpsUrl)
  {
    seq(|items|, i requires 0 <= i < |items| => ReadAsset(items[i], httpsUrl))
  }

  /** The entry has the name of one before it. */
  ghost predicate RepeatsName(items: seq<Json>, i: int)
    requires 0 <= i < |items|
  {
    StringField(items[i], "name").Some?
        && exists k :: 0 <= k < i && StringField(items[k], "name") == StringField(items[i], "name")
  }

  /** What is wrong with one entry; a repeated name comes before anything else. */
  ghost function EntryError(items: seq<Json>, httpsUrl: string -> bool, i: int): Option<string>
    requires 0 <= i < |items|
  {
    if RepeatsName(items, i) then Some("release_asset_duplicate")
    else if ReadAsset(items[i], httpsUrl).None? then Some(AssetErrorCode(items[i]))
    else None
  }

  ghost predicate EntriesRead(items: seq<Json>, httpsUrl: string -> bool, n: int)
    requires n <= |items|
  {
    forall k :: 0 <= k < n ==> EntryError(items, httpsUrl, k).None?
  }

  /** The code a list is refused with is that of its first wrong entry, or else that of a wrong set of names. */
  ghost predicate RefusedWith(items: seq<Json>, httpsUrl: string -> bool, code: string)
  {
    if EntriesRead(items, httpsUrl, |items|) then code == "release_asset_set_mismatch"
    else exists i :: 0 <= i < |items| && EntriesRead(items, httpsUrl, i) && EntryError(items, httpsUrl, i) == Some(code)
  }

  method DecodeReleaseAssets(items: seq<Json>, expected: seq<string>, httpsUrl: string -> bool)
    returns (r: Result<map<string, Asset>, string>)
    ensures r.Success? ==> ListsAssets(ReadAssets(items, httpsUrl), r.value) && SameNames(r.value.Keys, expected)
    ensures r.Failure? ==>
              forall assets :: ListsAssets(ReadAssets(items, httpsUrl), assets) ==> !SameNames(assets.Keys, expected)
    ensures r.Failure? ==> RefusedWith(items, httpsUrl, r.error)
    ensures r.Failure? ==>
              r.error in {"release_asset_duplicate", "release_asset_empty", "release_asset_invalid",
                          "release_asset_set_mismatch"}
  {
    hide RefusedWith, RepeatsName, EntriesRead, ListsAssets, ReadAsset;
    ghost var entries := ReadAssets(items, httpsUrl);
    var assets: map<string, Asset> := map[];
    NoEntries(items, httpsUrl);
    for i := 0 to |items|
      invariant ListsAssets(entries[..i], assets)
      invariant EntriesRead(items, httpsUrl, i)
    {
      var name := StringField(items[i], "name");
      var asset := ReadAsset(items[i], httpsUrl);
      RepeatsIff(items, httpsUrl, i, assets);
      if name.Some? && name.value in assets {
        RefusedAt(items, httpsUrl, i);
        return Failure("release_asset_duplicate");
      }
      if asset.None? {
        RefusedAt(items, httpsUrl, i);
        return Failure(AssetErrorCode(items[i]));
      }
      ReadOn(items, httpsUrl, i);
      AssetsGrow(entries, i, assets);
      assets := assets[asset.value.name := asset.value];
    }
    assert entries[..|items|] == entries;
    if !SameNames(assets.Keys, expected) {
      forall other | ListsAssets(entries, other) ensures other == assets {
        AssetListIsUnique(entries, assets, other);
      }
      OtherSet(items, httpsUrl);
      return Failure("release_asset_set_mismatch");
    }
    return Success(assets);
  }

  lemma NoEntries(items: seq<Json>, httpsUrl: string -> bool)
    ensures ListsAssets(ReadAssets(items, httpsUrl)[..0], map[]) && EntriesRead(items, httpsUrl, 0)
  {
  }

  lemma ReadOn(items: seq<Json>, httpsUrl: string -> bool, i: int)
    requires 0 <= i < |items| && EntriesRead(items, httpsUrl, i) && EntryError(items, httpsUrl, i).None?
    ensures EntriesRead(items, httpsUrl, i + 1)
  {
  }

  /** The first wrong entry refuses the list. */
  lemma RefusedAt(items: seq<Json>, httpsUrl: string -> bool, i: int)
    requires 0 <= i < |items| && EntriesRead(items, httpsUrl, i) && EntryError(items, httpsUrl, i).Some?
    ensures RefusedWith(items, httpsUrl, EntryError(items, httpsUrl, i).value)
    ensures forall assets :: !ListsAssets(ReadAssets(items, httpsUrl), assets)
  {
    hide ReadAsset, AssetErrorCode;
    var entries := ReadAssets(items, httpsUrl);
    if RepeatsName(items, i) && entries[i].Some? {
      var k :| 0 <= k < i && StringField(items[k], "name") == StringField(items[i], "name");
      assert entries[k].None? || entries[k].value.name == entries[i].value.name;
    }
    assert !EntriesRead(items, httpsUrl, |items|);
  }

  lemma OtherSet(items: seq<Json>, httpsUrl: string -> bool)
    requires EntriesRead(items, httpsUrl, |items|)
    ensures RefusedWith(items, httpsUrl, "release_asset_set_mismatch")
  {
  }

  /** An entry repeats a name exactly if the assets read before it hold that name. */
  lemma RepeatsIff(items: seq<Json>, httpsUrl: string -> bool, i: int, assets: map<string, Asset>)
    requires 0 <= i < |items| && ListsAssets(ReadAssets(items, httpsUrl)[..i], assets)
    ensures var name := StringField(items[i], "name");
            RepeatsName(items, i) <==> name.Some? && name.value in assets
  {
    var entries, name := ReadAssets(items, httpsUrl), StringField(items[i], "name");
    forall k | 0 <= k < i ensures StringField(items[k], "name") == Some(entries[k].value.name) {
      assert entries[..i][k] == entries[k];
    }
    if name.Some? && name.value in assets {
      var k :| 0 <= k < i && entries[..i][k] == Some(assets[name.value]);
      assert StringField(items[k], "name") == name;
    }
  }

  lemma AssetListIsUnique(entries: seq<Option<Asset>>, a: map<string, Asset>, b: map<string, Asset>)
    requires ListsAssets(entries, a) && ListsAssets(entries, b)
    ensures a == b
  {
  }

  lemma AssetsGrow(entries: seq<Option<Asset>>, i: int, assets: map<string, Asset>)
    requires 0 <= i < |entries| && ListsAssets(entries[..i], assets)
    requires entries[i].Some? && entries[i].value.name !in assets
    ensures ListsAssets(entries[..i + 1], assets[entries[i].value.name := entries[i].value])
  {
  }
}
