/**
 * The WHMCS release catalog: the decoded answer of the vendor's download
 * endpoint (a latest release plus a list of LTS releases) turned into a PHP
 * array keyed by version and sorted with `ksort`.
 *
 * A PHP array keeps insertion order, so a catalog is a sequence of entries
 * with distinct keys; `$versions[$k] = $r` is `Put`, `$versions[$k]` is `Find`.
 */
module ReleaseCatalog {
  import opened Php

  const VersionCheckUrl := "https://download.whmcs.com/assets/scripts/get-downloads.php"

  /** The download URL template is `UrlPrefix + VersionPlaceholder + UrlSuffix`. */
  const UrlPrefix := "https://s3.amazonaws.com" + "/releases.whmcs.com" + "/v2/pkgs/whmcs-"
  const VersionPlaceholder := "{VERSION}"
  const UrlSuffix := "-release.1.zip"
  const DownloadTemplate := UrlPrefix + VersionPlaceholder + UrlSuffix

  /** One release record of the decoded endpoint answer. */
  datatype ReleaseRecord = ReleaseRecord(version: string, releaseNotesUrl: Option<string>)

  /** The decoded answer: `latestVersion` and `ltsReleases`. */
  datatype ReleasesDocument = ReleasesDocument(latestVersion: ReleaseRecord, ltsReleases: seq<ReleaseRecord>)

  /** A catalog value: `['version' => …, 'url' => …, 'release_notes' => …]`. */
  datatype Release = Release(version: string, url: string, releaseNotes: Option<string>)

  datatype Entry = Entry(key: string, release: Release)

  type Catalog = seq<Entry>

  /** `str_replace('{VERSION}', $v, DownloadTemplate)`. */
  function DownloadUrl(v: string): (url: string)
    ensures url == UrlPrefix + v + UrlSuffix
  {
    StrReplaceTemplate(VersionPlaceholder, v, UrlPrefix, UrlSuffix);
    StrReplace(VersionPlaceholder, v, DownloadTemplate)
  }

  /** The catalog value built from one release record. */
  function ToRelease(rec: ReleaseRecord): Release {
    Release(rec.version, DownloadUrl(rec.version), rec.releaseNotesUrl)
  }

  /** `$c[$k]`: the value stored under k, or null. */
  function Find(c: Catalog, k: string): (r: Option<Release>)
    ensures r.None? <==> forall i | 0 <= i < |c| :: c[i].key != k
    ensures r.Some? ==> exists i | 0 <= i < |c| :: c[i] == Entry(k, r.value)
  {
    if c == [] then None
    else if c[0].key == k then Some(c[0].release)
    else
      var r := Find(c[1..], k);
      assert forall i | 1 <= i < |c| :: c[i] == c[1..][i - 1];
      r
  }

  predicate DistinctKeys(c: Catalog) {
    forall i, j | 0 <= i < j < |c| :: c[i].key != c[j].key
  }

  /** The keys are in strictly increasing `strcmp` order (what `ksort` leaves). */
  predicate Sorted(c: Catalog) {
    forall i, j | 0 <= i < j < |c| :: StrLess(c[i].key, c[j].key)
  }

  /** `$c[$k] = $r`: overwrite in place when k is present, otherwise append. */
  function Put(c: Catalog, k: string, r: Release): (c': Catalog)
    requires DistinctKeys(c)
    ensures DistinctKeys(c')
    ensures forall k' :: Find(c', k') == if k' == k then Some(r) else Find(c, k')
    ensures Find(c, k).None? ==> c' == c + [Entry(k, r)]
    ensures Find(c, k).Some? ==>
              |c'| == |c| && forall i | 0 <= i < |c| :: c'[i] == if c[i].key == k then Entry(k, r) else c[i]
  {
    if c == [] then [Entry(k, r)]
    else
      DistinctTail(c);
      FindUnfold(c);
      if c[0].key == k then
        FindCons(Entry(k, r), c[1..]);
        DistinctCons(Entry(k, r), c[1..]);
        [Entry(k, r)] + c[1..]
      else
        var tail := Put(c[1..], k, r);
        FindCons(c[0], tail);
        DistinctCons(c[0], tail);
        ConsSnoc(c, Entry(k, r));
        [c[0]] + tail
  }

  lemma ConsSnoc(c: Catalog, e: Entry)
    requires c != []
    ensures [c[0]] + (c[1..] + [e]) == c + [e]
  {
    assert c == [c[0]] + c[1..];
  }

  /** Looking up in a non-empty catalog: its first entry, or the rest. */
  lemma FindUnfold(c: Catalog)
    requires c != []
    ensures forall k :: Find(c, k) == if k == c[0].key then Some(c[0].release) else Find(c[1..], k)
  {
  }

  lemma FindCons(e: Entry, c: Catalog)
    ensures forall k :: Find([e] + c, k) == if k == e.key then Some(e.release) else Find(c, k)
  {
    assert ([e] + c)[1..] == c;
  }

  /** The rest of a catalog with distinct keys has distinct keys and lacks the first key. */
  lemma DistinctTail(c: Catalog)
    requires DistinctKeys(c) && c != []
    ensures DistinctKeys(c[1..]) && Find(c[1..], c[0].key).None?
  {
    forall j | 0 <= j < |c| - 1
      ensures c[1..][j].key != c[0].key
    {
      assert c[1..][j] == c[j + 1];
    }
  }

  /** Putting an entry with an absent key in front keeps keys distinct. */
  lemma DistinctCons(e: Entry, c: Catalog)
    requires DistinctKeys(c) && Find(c, e.key).None?
    ensures DistinctKeys([e] + c)
  {
    var c' := [e] + c;
    forall i, j | 0 <= i < j < |c'|
      ensures c'[i].key != c'[j].key
    {
      assert c'[j] == c[j - 1];
      if i > 0 {
        assert c'[i] == c[i - 1];
      }
    }
  }

  /** ksort's insertion step: put e among the sorted entries of c. */
  function Insert(e: Entry, c: Catalog): (r: Catalog)
    requires Sorted(c) && Find(c, e.key).None?
    ensures Sorted(r) && |r| == |c| + 1
    ensures forall i | 0 <= i < |r| :: r[i] == e || r[i] in c
    ensures forall k :: Find(r, k) == if k == e.key then Some(e.release) else Find(c, k)
  {
    if c == [] then [e]
    else if StrLess(e.key, c[0].key) then
      forall j | 0 <= j < |c|
        ensures StrLess(e.key, c[j].key)
      {
        if j > 0 {
          StrLessTransitive(e.key, c[0].key, c[j].key);
        }
      }
      SortedCons(e, c);
      FindCons(e, c);
      [e] + c
    else
      StrLessTotal(e.key, c[0].key);
      FindUnfold(c);
      var rest := Insert(e, c[1..]);
      forall i | 0 <= i < |rest|
        ensures StrLess(c[0].key, rest[i].key) && (rest[i] == e || rest[i] in c)
      {
        if rest[i] != e {
          var j :| 0 <= j < |c[1..]| && c[1..][j] == rest[i];
          assert c[j + 1] == rest[i];
        }
      }
      SortedCons(c[0], rest);
      FindCons(c[0], rest);
      [c[0]] + rest
  }

  /** An entry below every key of a sorted catalog can go in front of it. */
  lemma SortedCons(x: Entry, c: Catalog)
    requires Sorted(c)
    requires forall j | 0 <= j < |c| :: StrLess(x.key, c[j].key)
    ensures Sorted([x] + c)
  {
    var r := [x] + c;
    forall i, j | 0 <= i < j < |r|
      ensures StrLess(r[i].key, r[j].key)
    {
      assert r[j] == c[j - 1];
      if i > 0 {
        assert r[i] == c[i - 1];
      }
    }
  }

  /** `ksort($c)`: the same entries, reordered by key. */
  function KSort(c: Catalog): (r: Catalog)
    requires DistinctKeys(c)
    ensures Sorted(r) && |r| == |c|
    ensures forall k :: Find(r, k) == Find(c, k)
  {
    if c == [] then []
    else
      assert forall j | 0 <= j < |c| - 1 :: c[1..][j].key != c[0].key;
      var r := Insert(c[0], KSort(c[1..]));
      assert forall k :: Find(c, k) == if k == c[0].key then Some(c[0].release) else Find(c[1..], k);
      r
  }

  /** The records of a document, in the order the source stores them. */
  function Records(doc: ReleasesDocument): seq<ReleaseRecord> {
    [doc.latestVersion] + doc.ltsReleases
  }

  /** The last record of version k: later `$versions[$k] = …` assignments overwrite earlier ones. */
  function LastWith(recs: seq<ReleaseRecord>, k: string): (r: Option<ReleaseRecord>)
    ensures r.Some? ==> r.value.version == k && r.value in recs
    ensures r.None? <==> forall i | 0 <= i < |recs| :: recs[i].version != k
  {
    if recs == [] then None
    else if recs[|recs| - 1].version == k then Some(recs[|recs| - 1])
    else
      var r := LastWith(recs[..|recs| - 1], k);
      assert forall i | 0 <= i < |recs| - 1 :: recs[i] == recs[..|recs| - 1][i];
      r
  }

  /** Reference meaning of the catalog: what is stored under key k. */
  function Expected(recs: seq<ReleaseRecord>, k: string): Option<Release> {
    match LastWith(recs, k)
    case None => None
    case Some(rec) => Some(ToRelease(rec))
  }

  /** One more LTS record extends the prefix of the records read so far by that record. */
  lemma RecordsPrefix(doc: ReleasesDocument, i: nat)
    requires i < |doc.ltsReleases|
    ensures Records(doc)[..i + 2] == Records(doc)[..i + 1] + [doc.ltsReleases[i]]
  {
    assert Records(doc)[i + 1] == doc.ltsReleases[i];
  }

  /** A record appended last decides its own key and leaves every other key alone. */
  lemma ExpectedSnoc(recs: seq<ReleaseRecord>, rec: ReleaseRecord)
    ensures forall k :: Expected(recs + [rec], k) == if k == rec.version then Some(ToRelease(rec)) else Expected(recs, k)
  {
    assert (recs + [rec])[..|recs|] == recs;
  }

  /** c holds exactly the releases of doc, keyed by version and in `ksort` order. */
  ghost predicate IsCatalogOf(c: Catalog, doc: ReleasesDocument) {
    Sorted(c) && forall k :: Find(c, k) == Expected(Records(doc), k)
  }

  /** What any stored catalog satisfies: sorted, and each entry is the release of its own key. */
  predicate WellFormed(c: Catalog) {
    && Sorted(c)
    && forall i | 0 <= i < |c| ::
         c[i].release.version == c[i].key && c[i].release.url == UrlPrefix + c[i].key + UrlSuffix
  }

  /**
   * The loop of `_getReleaseData`: store the latest release, then each LTS
   * release (overwriting an entry of the same version), then `ksort`.
   */
  method BuildVersions(doc: ReleasesDocument) returns (versions: Catalog)
    ensures IsCatalogOf(versions, doc)
  {
    var latest := doc.latestVersion;
    versions := Put([], latest.version, ToRelease(latest));
    assert Records(doc)[..1] == [latest];
    for i := 0 to |doc.ltsReleases|
      invariant DistinctKeys(versions)
      invariant forall k :: Find(versions, k) == Expected(Records(doc)[..i + 1], k)
    {
      var rel := doc.ltsReleases[i];
      ghost var before := Records(doc)[..i + 1];
      versions := Put(versions, rel.version, ToRelease(rel));
      RecordsPrefix(doc, i);
      ExpectedSnoc(before, rel);
    }
    assert Records(doc)[..|doc.ltsReleases| + 1] == Records(doc);
    versions := KSort(versions);
  }

  /** Every built catalog is well formed: each key holds its own release and download URL. */
  lemma {:induction false} CatalogOfIsWellFormed(c: Catalog, doc: ReleasesDocument)
    requires IsCatalogOf(c, doc)
    ensures WellFormed(c)
  {
    forall i | 0 <= i < |c|
      ensures c[i].release.version == c[i].key && c[i].release.url == UrlPrefix + c[i].key + UrlSuffix
    {
      FindSortedAt(c, i);
    }
  }

  /** In a sorted catalog, looking up the key of an entry finds that entry. */
  lemma {:induction false} FindSortedAt(c: Catalog, i: nat)
    requires Sorted(c) && i < |c|
    ensures Find(c, c[i].key) == Some(c[i].release)
  {
    if i > 0 {
      StrLessIrreflexive(c[0].key);
      assert c[0].key != c[i].key;
      assert c[1..][i - 1] == c[i];
      FindSortedAt(c[1..], i - 1);
    }
  }

  /** In a well-formed catalog, the release found under v has version v and v's download URL. */
  lemma FindInWellFormed(c: Catalog, v: string)
    requires WellFormed(c) && Find(c, v).Some?
    ensures Find(c, v).value.version == v
    ensures Find(c, v).value.url == UrlPrefix + v + UrlSuffix
  {
  }

  /** The latest release is always in the catalog. */
  lemma {:induction false} LatestIsListed(doc: ReleasesDocument)
    ensures Expected(Records(doc), doc.latestVersion.version).Some?
  {
    assert Records(doc)[0] == doc.latestVersion;
  }

  /** A version is listed exactly when it is the latest or one of the LTS releases. */
  lemma {:induction false} ListedVersions(doc: ReleasesDocument, k: string)
    ensures Expected(Records(doc), k).Some? <==>
              (k == doc.latestVersion.version || exists i | 0 <= i < |doc.ltsReleases| :: doc.ltsReleases[i].version == k)
  {
    var recs := Records(doc);
    assert recs[0] == doc.latestVersion;
    assert forall i | 0 <= i < |doc.ltsReleases| :: recs[i + 1] == doc.ltsReleases[i];
    if Expected(recs, k).Some? && k != doc.latestVersion.version {
      var j :| 0 <= j < |recs| && recs[j].version == k;
      assert recs[j] == doc.ltsReleases[j - 1];
    }
  }

  /** An LTS release overwrites an earlier entry of the same version, the latest release included. */
  lemma {:induction false} LtsOverridesEarlier(doc: ReleasesDocument, i: nat)
    requires i < |doc.ltsReleases|
    requires forall j | i < j < |doc.ltsReleases| :: doc.ltsReleases[j].version != doc.ltsReleases[i].version
    ensures Expected(Records(doc), doc.ltsReleases[i].version) == Some(ToRelease(doc.ltsReleases[i]))
  {
    var recs := Records(doc);
    var k := doc.ltsReleases[i].version;
    LastWithAfter(recs, i + 1, k);
  }

  /** The record kept for k is the last record of version k. */
  lemma {:induction false} LastWithAfter(recs: seq<ReleaseRecord>, n: nat, k: string)
    requires n < |recs| && recs[n].version == k
    requires forall j | n < j < |recs| :: recs[j].version != k
    ensures LastWith(recs, k) == Some(recs[n])
    decreases |recs|
  {
    if n < |recs| - 1 {
      var front := recs[..|recs| - 1];
      assert forall j | n < j < |front| :: front[j] == recs[j];
      LastWithAfter(front, n, k);
    }
  }
}
