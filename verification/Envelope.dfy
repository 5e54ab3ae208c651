/**
 The portable envelope of a backup package: building it, inspecting it without
 extracting, and extracting it into a new directory.
 */
module Envelope {
  import opened Common
  import opened Strings
  import opened Packages
  import opened MemberOrder

  const MAX_MANIFEST: nat := 1024 * 1024
  const BLOCK: nat := 1024

  /// ## What a reader accepts

  predicate SafeMembers(ms: seq<Member>) {
    forall i :: 0 <= i < |ms| ==> SafeMemberName(ms[i].name) && ms[i].kind.Regular?
  }

  /** The checks both readers make on an archive before they look at its manifest. */
  predicate MembersFit(ms: seq<Member>, max: nat) {
    && SafeMembers(ms) && TotalSize(ms) <= max && Distinct(ms)
    && MANIFEST in NameSet(ms) && |FilesOf(ms)[MANIFEST]| <= MAX_MANIFEST
  }

  /** The manifest both readers parse, when it declares a complete local backup and exactly the archive's members. */
  predicate Declares(tools: Tools, ms: seq<Member>, j: Json) {
    && MANIFEST in NameSet(ms) && tools.parse(FilesOf(ms)[MANIFEST]) == Some(j)
    && IsCompleteLocal(j) && HasGoodEvidence(j) && NameSet(ms) == DeclaredNames(j)
  }

  /** The metadata `inspect_envelope` expects of each name: a later entry for a name replaces an earlier one. */
  function ExpectedUpTo(j: Json, n: nat): (r: map<string, Json>)
    requires n <= |Evidence(j)|
    ensures r.Keys == {MANIFEST, ARCHIVE} + EntryPaths(Evidence(j)[..n])
  {
    if n == 0 then map[MANIFEST := Null, ARCHIVE := Get(j, "archive")]
    else
      assert EntryPaths(Evidence(j)[..n]) == EntryPaths(Evidence(j)[..n - 1]) + {EntryPath(Evidence(j)[n - 1])} by {
        EntryPathsNext(Evidence(j), n - 1);
      }
      ExpectedUpTo(j, n - 1)[EntryPath(Evidence(j)[n - 1]) := EntryMetadata(Evidence(j)[n - 1])]
  }

  lemma EntryPathsNext(entries: seq<Json>, n: nat)
    requires n < |entries|
    ensures EntryPaths(entries[..n + 1]) == EntryPaths(entries[..n]) + {EntryPath(entries[n])}
  {
    hide EntryPath;
    assert forall i :: 0 <= i < n ==> entries[..n + 1][i] == entries[..n][i];
    assert entries[..n + 1][n] == entries[n];
    forall p | p in EntryPaths(entries[..n])
      ensures p in EntryPaths(entries[..n + 1])
    {
      var i :| 0 <= i < n && EntryPath(entries[..n][i]) == p;
      assert EntryPath(entries[..n + 1][i]) == p;
    }
  }

  function Expected(j: Json): (r: map<string, Json>)
    ensures r.Keys == DeclaredNames(j)
  {
    assert Evidence(j)[..|Evidence(j)|] == Evidence(j);
    ExpectedUpTo(j, |Evidence(j)|)
  }

  /** A member without metadata is not looked at; the others must agree with theirs. */
  predicate MemberHolds(tools: Tools, metadata: Json, m: Member) {
    metadata == Null || Describes(tools, metadata, BaseName(m.name), m.data)
  }

  predicate MembersHold(tools: Tools, expected: map<string, Json>, ms: seq<Member>) {
    forall i :: 0 <= i < |ms| ==> ms[i].name in expected && MemberHolds(tools, expected[ms[i].name], ms[i])
  }

  predicate InspectsAs(tools: Tools, ms: seq<Member>, max: nat, j: Json) {
    && MembersFit(ms, max) && Declares(tools, ms, j) && HasBackupId(j)
    && MembersHold(tools, Expected(j), ms)
  }

  /** `inspect_envelope` accepts the file, with the manifest `j`. */
  predicate Inspects(tools: Tools, envelope: Bytes, max: nat, j: Json) {
    && |envelope| <= max && tools.untar(envelope).Some?
    && InspectsAs(tools, tools.untar(envelope).value, max, j)
  }

  predicate ExtractsAs(tools: Tools, ms: seq<Member>, max: nat, j: Json) {
    && MembersFit(ms, max) && Declares(tools, ms, j) && HasBackupId(j)
    && FilesHold(tools, j, FilesOf(ms))
  }

  /** `extract_envelope` accepts the file, when every write succeeds. */
  predicate Extracts(tools: Tools, envelope: Bytes, expectedSha: string, max: nat, j: Json) {
    && |envelope| <= max && (expectedSha == "" || tools.sha(envelope) == expectedSha)
    && tools.untar(envelope).Some?
    && ExtractsAs(tools, tools.untar(envelope).value, max, j)
  }

  /// ## Extraction is stricter than inspection

  predicate EntriesDistinct(j: Json) {
    forall a, b :: 0 <= a < b < |Evidence(j)| ==> EntryPath(Evidence(j)[a]) != EntryPath(Evidence(j)[b])
  }

  /** Each expected metadata is the archive's, or that of an evidence entry with this path. */
  lemma {:induction false} ExpectedFrom(j: Json, n: nat, name: string) returns (k: nat)
    requires n <= |Evidence(j)| && HasGoodEvidence(j)
    requires name in ExpectedUpTo(j, n) && name != MANIFEST && name != ARCHIVE
    ensures k < n && EntryPath(Evidence(j)[k]) == name && ExpectedUpTo(j, n)[name] == EntryMetadata(Evidence(j)[k])
  {
    hide HasGoodEvidence, EntryPath, EntryPaths;
    if EntryPath(Evidence(j)[n - 1]) == name {
      k := n - 1;
    } else {
      k := ExpectedFrom(j, n - 1, name);
    }
  }

  lemma {:induction false} ExpectedFixed(j: Json, n: nat)
    requires n <= |Evidence(j)|
    ensures ExpectedUpTo(j, n)[MANIFEST] == Null && ExpectedUpTo(j, n)[ARCHIVE] == Get(j, "archive")
  {
    FixedNames();
    if n > 0 {
      ExpectedFixed(j, n - 1);
    }
  }

  /** The path of a good entry ends in the file name its metadata gives. */
  lemma GoodEntryName(entry: Json)
    requires IsGoodEntry(entry)
    ensures var name := Get(EntryMetadata(entry), "filename").s;
            && name != "" && BaseName(EntryPath(entry)) == name
            && PathParts(EntryPath(entry)) == ["evidence", name] && !IsAbsolute(EntryPath(entry))
  {
    hide BaseName, PathParts;
    EvidencePathParts(Get(EntryMetadata(entry), "filename").s);
  }

  /** Whatever extraction accepts inspection accepts too, with the same manifest. */
  lemma ExtractImpliesInspect(tools: Tools, ms: seq<Member>, max: nat, j: Json)
    requires ExtractsAs(tools, ms, max, j)
    ensures InspectsAs(tools, ms, max, j)
  {
    hide SafeMembers, IsCompleteLocal, HasBackupId, BaseName, PathParts, IsGoodEntry, Describes, ExpectedUpTo, TotalSize,
         FilesOf;
    forall i | 0 <= i < |ms|
      ensures ms[i].name in Expected(j) && MemberHolds(tools, Expected(j)[ms[i].name], ms[i])
    {
      MemberExtracted(tools, ms, j, i);
    }
  }

  /** The path of an entry that holds has the metadata's file name as its last part. */
  lemma EntryDescribes(tools: Tools, e: Json, files: map<string, Bytes>)
    requires IsGoodEntry(e) && EntryPath(e) in files
    ensures EntryHolds(tools, e, files) <==> Describes(tools, EntryMetadata(e), BaseName(EntryPath(e)), files[EntryPath(e)])
  {
    hide BaseName, PathParts, Describes, EntryPath;
    GoodEntryName(e);
  }

  lemma ArchiveName()
    ensures BaseName(ARCHIVE) == ARCHIVE && ARCHIVE != MANIFEST
  {
    FixedNames();
    PlainNameParts(ARCHIVE);
  }

  lemma MemberExtracted(tools: Tools, ms: seq<Member>, j: Json, i: nat)
    requires Distinct(ms) && NameSet(ms) == DeclaredNames(j) && FilesHold(tools, j, FilesOf(ms)) && i < |ms|
    ensures ms[i].name in Expected(j) && MemberHolds(tools, Expected(j)[ms[i].name], ms[i])
  {
    hide BaseName, Describes, ExpectedUpTo, FilesOf, EntryPaths, EntryPath, EntryHolds, EntryMetadata, Distinct;
    var n, name := |Evidence(j)|, ms[i].name;
    assert name in NameSet(ms);
    FilesOfAt(ms, i);
    ExpectedFixed(j, n);
    ArchiveName();
    assert name in Expected(j).Keys;
    if name != ARCHIVE && name != MANIFEST {
      var k := ExpectedFrom(j, n, name);
      EntryDescribes(tools, Evidence(j)[k], FilesOf(ms));
    }
  }

  /** Python's equality of JSON numbers, where a boolean equals 0 or 1. */
  function AsNumber(j: Json): Option<int> {
    match j
    case Num(n) => Some(n)
    case Bool(b) => Some(if b then 1 else 0)
    case _ => None
  }

  /** The two descriptions of a file give the same size and hash. */
  predicate SameDescription(a: Json, b: Json) {
    AsNumber(Get(a, "size")) == AsNumber(Get(b, "size")) && Get(a, "sha256") == Get(b, "sha256")
  }

  /** Entries that name one file describe it alike. */
  predicate RepeatsAgree(j: Json) {
    forall a, b :: 0 <= a < |Evidence(j)| && 0 <= b < |Evidence(j)| && EntryPath(Evidence(j)[a]) == EntryPath(Evidence(j)[b]) ==>
      SameDescription(EntryMetadata(Evidence(j)[a]), EntryMetadata(Evidence(j)[b]))
  }

  /** Of two descriptions under one file name that agree, either both fit the data or neither does. */
  lemma DescribesAlike(tools: Tools, a: Json, b: Json, filename: string, data: Bytes)
    requires a.Obj? && b.Obj? && Get(a, "filename") == Get(b, "filename") == Str(filename)
    ensures Describes(tools, b, filename, data) ==> (Describes(tools, a, filename, data) <==> SameDescription(a, b))
  {
  }

  /** Entries of one path have one file name. */
  lemma SamePathSameName(a: Json, b: Json)
    requires IsGoodEntry(a) && IsGoodEntry(b) && EntryPath(a) == EntryPath(b)
    ensures Get(EntryMetadata(a), "filename") == Get(EntryMetadata(b), "filename")
  {
    hide IsSimpleName, EndsWith;
    EvidencePathInjective(Get(EntryMetadata(a), "filename").s, Get(EntryMetadata(b), "filename").s);
  }

  /**
   Extraction accepts exactly what inspection accepts, when the manifest gives
   metadata for the archive and entries that name one file describe it alike.
   Inspection looks at the last of such entries only.
   */
  lemma InspectIsExtract(tools: Tools, ms: seq<Member>, max: nat, j: Json)
    ensures ExtractsAs(tools, ms, max, j)
            <==> InspectsAs(tools, ms, max, j) && Get(j, "archive") != Null && RepeatsAgree(j)
  {
    hide InspectsAs, ExtractsAs, RepeatsAgree;
    if ExtractsAs(tools, ms, max, j) {
      ExtractImpliesInspect(tools, ms, max, j);
      ArchiveDescribed(tools, ms, max, j);
      ExtractedRepeatsAgree(tools, ms, max, j);
    }
    if InspectsAs(tools, ms, max, j) && Get(j, "archive") != Null && RepeatsAgree(j) {
      InspectedHolds(tools, ms, max, j);
      ExtractsWhenHolds(tools, ms, max, j);
    }
  }

  lemma ExtractsWhenHolds(tools: Tools, ms: seq<Member>, max: nat, j: Json)
    requires InspectsAs(tools, ms, max, j) && FilesHold(tools, j, FilesOf(ms))
    ensures ExtractsAs(tools, ms, max, j)
  {
    hide MembersFit, Declares, HasBackupId, FilesHold, MembersHold, FilesOf;
  }

  /** All entries that name a file that is there with its metadata agree. */
  lemma ExtractedRepeatsAgree(tools: Tools, ms: seq<Member>, max: nat, j: Json)
    requires ExtractsAs(tools, ms, max, j)
    ensures RepeatsAgree(j)
  {
    hide MembersFit, IsCompleteLocal, HasBackupId, FilesOf, DeclaredNames, EntryPath, Describes, IsGoodEntry, SameDescription;
    var es := Evidence(j);
    forall a, b | 0 <= a < |es| && 0 <= b < |es| && EntryPath(es[a]) == EntryPath(es[b])
      ensures SameDescription(EntryMetadata(es[a]), EntryMetadata(es[b]))
    {
      assert EntryHolds(tools, es[a], FilesOf(ms)) && EntryHolds(tools, es[b], FilesOf(ms));
      HeldAlike(tools, es[a], es[b], FilesOf(ms));
    }
  }

  lemma HeldAlike(tools: Tools, a: Json, b: Json, files: map<string, Bytes>)
    requires IsGoodEntry(a) && IsGoodEntry(b) && EntryPath(a) == EntryPath(b)
    requires EntryHolds(tools, a, files) && EntryHolds(tools, b, files)
    ensures SameDescription(EntryMetadata(a), EntryMetadata(b))
  {
    hide IsSimpleName, EndsWith, EntryPath, Describes, SameDescription;
    SamePathSameName(a, b);
    DescribesAlike(tools, EntryMetadata(a), EntryMetadata(b), Get(EntryMetadata(b), "filename").s, files[EntryPath(b)]);
  }

  lemma ArchiveDescribed(tools: Tools, ms: seq<Member>, max: nat, j: Json)
    requires ExtractsAs(tools, ms, max, j)
    ensures Get(j, "archive").Obj?
  {
    hide SafeMembers, IsCompleteLocal, HasBackupId, FilesOf, DeclaredNames, HasGoodEvidence;
  }

  lemma InspectedHolds(tools: Tools, ms: seq<Member>, max: nat, j: Json)
    requires RepeatsAgree(j) && InspectsAs(tools, ms, max, j) && Get(j, "archive") != Null
    ensures FilesHold(tools, j, FilesOf(ms))
  {
    hide SafeMembers, IsCompleteLocal, HasBackupId, BaseName, PathParts, IsGoodEntry, Describes, ExpectedUpTo, TotalSize,
         FilesOf, RepeatsAgree;
    var n := |Evidence(j)|;
    ExpectedFixed(j, n);
    FixedNames();
    PlainNameParts(ARCHIVE);
    assert ARCHIVE in NameSet(ms);
    var i :| 0 <= i < |ms| && ms[i].name == ARCHIVE;
    FilesOfAt(ms, i);
    forall k | 0 <= k < n
      ensures EntryHolds(tools, Evidence(j)[k], FilesOf(ms))
    {
      EntryInspected(tools, ms, max, j, k);
    }
  }

  lemma EntryInspected(tools: Tools, ms: seq<Member>, max: nat, j: Json, k: nat)
    requires RepeatsAgree(j) && InspectsAs(tools, ms, max, j) && k < |Evidence(j)|
    ensures EntryHolds(tools, Evidence(j)[k], FilesOf(ms))
  {
    hide SafeMembers, IsCompleteLocal, HasBackupId, BaseName, PathParts, ExpectedUpTo, TotalSize, FilesOf, EntryHolds,
         SameDescription, Describes, IsSimpleName, EndsWith, EntryPath, EntryMetadata;
    var e := Evidence(j)[k];
    assert EntryPath(e) in EntryPaths(Evidence(j));
    assert EntryPath(e) in NameSet(ms);
    var i :| 0 <= i < |ms| && ms[i].name == EntryPath(e);
    FilesOfAt(ms, i);
    PathsApart(j);
    var last := ExpectedFrom(j, |Evidence(j)|, EntryPath(e));
    HoldsThroughLast(tools, e, Evidence(j)[last], FilesOf(ms));
  }

  /** What fits the last of two agreeing entries of one path fits the other. */
  lemma HoldsThroughLast(tools: Tools, e: Json, last: Json, files: map<string, Bytes>)
    requires IsGoodEntry(e) && IsGoodEntry(last) && EntryPath(e) == EntryPath(last) && EntryPath(e) in files
    requires SameDescription(EntryMetadata(e), EntryMetadata(last))
    requires MemberHolds(tools, EntryMetadata(last), Member(EntryPath(last), Regular, files[EntryPath(last)]))
    ensures EntryHolds(tools, e, files)
  {
    hide BaseName, PathParts, Describes, EntryPath, SameDescription, IsSimpleName, EndsWith;
    SamePathSameName(e, last);
    EntryDescribes(tools, last, files);
    GoodEntryName(last);
    DescribesAlike(tools, EntryMetadata(e), EntryMetadata(last), Get(EntryMetadata(last), "filename").s, files[EntryPath(last)]);
  }

  lemma PathsApart(j: Json)
    ensures forall i :: 0 <= i < |Evidence(j)| ==>
              EntryPath(Evidence(j)[i]) != MANIFEST && EntryPath(Evidence(j)[i]) != ARCHIVE
  {
    FixedNames();
  }

  /// ## Building the envelope

  /** What stands at a relative path of a package directory, other than a directory. */
  datatype Node = File(data: Bytes) | Symlink | Special

  type Directory = map<string, Node>

  predicate AllFiles(dir: Directory) {
    forall n :: n in dir ==> dir[n].File?
  }

  function DataOf(dir: Directory): (files: map<string, Bytes>)
    ensures AllFiles(dir) ==> files.Keys == dir.Keys
  {
    map n | n in dir && dir[n].File? :: dir[n].data
  }

  /** The package is a complete local backup that holds exactly what its manifest declares. */
  predicate IsPackage(tools: Tools, dir: Directory, j: Json) {
    && AllFiles(dir) && MANIFEST in dir && tools.parse(DataOf(dir)[MANIFEST]) == Some(j)
    && IsCompleteLocal(j) && HasBackupId(j) && FilesHold(tools, j, DataOf(dir))
  }

  function EntryMembers(entries: seq<Json>, files: map<string, Bytes>): (ms: seq<Member>)
    ensures |ms| == |entries|
  {
    seq(|entries|, i requires 0 <= i < |entries| =>
      var path := EntryPath(entries[i]); Member(path, Regular, if path in files then files[path] else []))
  }

  /** The members of a package, before they are sorted. */
  function PackageMembers(j: Json, files: map<string, Bytes>): seq<Member>
    requires MANIFEST in files && ARCHIVE in files
  {
    [Member(ARCHIVE, Regular, files[ARCHIVE])] + EntryMembers(Evidence(j), files)
    + [Member(MANIFEST, Regular, files[MANIFEST])]
  }

  function Estimate(ms: seq<Member>): nat {
    TotalSize(ms) + BLOCK * (|ms| + 2)
  }

  /** A plain file below `prefix` that the metadata names and describes. */
  predicate Verifies(tools: Tools, dir: Directory, prefix: string, metadata: Json) {
    && metadata.Obj? && Get(metadata, "filename").Str? && IsSimpleName(Get(metadata, "filename").s)
    && var path := prefix + Get(metadata, "filename").s;
    && path in dir && dir[path].File?
    && Describes(tools, metadata, Get(metadata, "filename").s, dir[path].data)
  }

  /** One file against its metadata, as `_verify_file` compares them. */
  method VerifyFile(tools: Tools, dir: Directory, prefix: string, metadata: Json) returns (ok: bool)
    ensures ok <==> Verifies(tools, dir, prefix, metadata)
  {
    ok := false;
    if metadata.Obj? && Get(metadata, "filename").Str? && IsSimpleName(Get(metadata, "filename").s) {
      var path := prefix + Get(metadata, "filename").s;
      if path in dir && dir[path].File? {
        var data := dir[path].data;
        ok := EqualsInt(Get(metadata, "size"), |data|) && Get(metadata, "sha256") == Str(tools.sha(data));
      }
    }
  }

  /** Evidence entries in order, verified: their members and the paths they name. */
  method VerifiedEntries(tools: Tools, dir: Directory, entries: seq<Json>)
    returns (r: Result<(seq<Member>, set<string>), string>)
    ensures r.Success? <==>
            forall k :: 0 <= k < |entries| ==> IsGoodEntry(entries[k]) && EntryHolds(tools, entries[k], DataOf(dir))
    ensures r.Success? ==> r.value == (EntryMembers(entries, DataOf(dir)), EntryPaths(entries))
  {
    hide BaseName, PathParts, EndsWith, Describes;
    var members: seq<Member> := [];
    var expected: set<string> := {};
    for i := 0 to |entries|
      invariant forall k :: 0 <= k < i ==> IsGoodEntry(entries[k]) && EntryHolds(tools, entries[k], DataOf(dir))
      invariant expected == EntryPaths(entries[..i])
      invariant members == EntryMembers(entries[..i], DataOf(dir))
    {
      if !IsGoodEntry(entries[i]) {
        return Failure("manifest_filename_invalid");
      }
      var held := VerifyFile(tools, dir, "evidence/", EntryMetadata(entries[i]));
      if !held {
        return Failure("archive_checksum_mismatch");
      }
      EntryPathsNext(entries, i);
      EntryMembersNext(entries, i, DataOf(dir));
      members := members + [Member(EntryPath(entries[i]), Regular, dir[EntryPath(entries[i])].data)];
      expected := expected + {EntryPath(entries[i])};
    }
    assert entries[..|entries|] == entries;
    return Success((members, expected));
  }

  /** What a package that holds looks like before any file is read. */
  lemma HoldsShape(tools: Tools, j: Json, files: map<string, Bytes>)
    ensures FilesHold(tools, j, files) ==>
              && Get(j, "archive").Obj? && Get(Get(j, "archive"), "filename") == Str(ARCHIVE)
              && Get(j, "evidence").Arr? && EqualsInt(Get(j, "evidence_file_count"), |Evidence(j)|)
  {
  }

  /** The files the manifest declares, verified and in name order. */
  method ValidatedLocalFiles(tools: Tools, dir: Directory, j: Json) returns (r: Result<seq<Member>, string>)
    requires MANIFEST in dir && dir[MANIFEST].File?
    ensures r.Success? <==> AllFiles(dir) && FilesHold(tools, j, DataOf(dir))
    ensures r.Success? ==> r.value == Sort(PackageMembers(j, DataOf(dir)))
  {
    hide BaseName, PathParts, EndsWith, Describes, Sort, FilesOf, IsGoodEntry, EntryHolds, EntryMembers, EntryPaths;
    HoldsShape(tools, j, DataOf(dir));
    if !Get(j, "archive").Obj? || !Get(j, "evidence").Arr? {
      return Failure("manifest_contract_invalid");
    }
    if Get(Get(j, "archive"), "filename") != Str(ARCHIVE) {
      return Failure("manifest_filename_invalid");
    }
    FixedNames();
    assert "" + ARCHIVE == ARCHIVE;
    var archived := VerifyFile(tools, dir, "", Get(j, "archive"));
    if !archived {
      return Failure("archive_checksum_mismatch");
    }
    if !EqualsInt(Get(j, "evidence_file_count"), |Evidence(j)|) {
      return Failure("evidence_count_mismatch");
    }
    var entries :- VerifiedEntries(tools, dir, Evidence(j));
    if !AllFiles(dir) {
      return Failure("backup_symlink_rejected");
    }
    if dir.Keys != {MANIFEST, ARCHIVE} + entries.1 {
      return Failure("backup_members_unexpected");
    }
    return Success(Sort([Member(ARCHIVE, Regular, dir[ARCHIVE].data)] + entries.0
                        + [Member(MANIFEST, Regular, dir[MANIFEST].data)]));
  }

  lemma EntryMembersNext(entries: seq<Json>, n: nat, files: map<string, Bytes>)
    requires n < |entries| && EntryPath(entries[n]) in files
    ensures EntryMembers(entries[..n + 1], files)
         == EntryMembers(entries[..n], files) + [Member(EntryPath(entries[n]), Regular, files[EntryPath(entries[n])])]
  {
    hide EntryPath;
    assert entries[..n + 1][n] == entries[n];
    assert forall i :: 0 <= i < n ==> entries[..n + 1][i] == entries[..n][i];
  }

  /** The envelope of a package: an archive of its files in name order, when it fits. */
  method CreateEnvelope(tools: Tools, dir: Directory, targetExists: bool, max: nat) returns (r: Result<(Json, Bytes), string>)
    ensures r.Success? ==>
              && var (j, envelope) := r.value;
              && IsPackage(tools, dir, j)
              && envelope == tools.tar(Sort(PackageMembers(j, DataOf(dir))))
              && |envelope| <= max && Estimate(Sort(PackageMembers(j, DataOf(dir)))) <= max
    ensures r.Success? <==>
            && !targetExists && MANIFEST in dir && dir[MANIFEST].File? && tools.parse(dir[MANIFEST].data).Some?
            && var j := tools.parse(dir[MANIFEST].data).value;
            && IsPackage(tools, dir, j)
            && Estimate(Sort(PackageMembers(j, DataOf(dir)))) <= max
            && |tools.tar(Sort(PackageMembers(j, DataOf(dir))))| <= max
  {
    hide Describes, Sort, FilesOf, FilesHold, TotalSize;
    if MANIFEST !in dir || !dir[MANIFEST].File? {
      return Failure("manifest_missing");
    }
    var parsed := tools.parse(dir[MANIFEST].data);
    if parsed == None {
      return Failure("manifest_invalid");
    }
    var j := parsed.value;
    if !IsCompleteLocal(j) || !HasBackupId(j) {
      return Failure("backup_not_complete_local");
    }
    var files :- ValidatedLocalFiles(tools, dir, j);
    if targetExists {
      return Failure("envelope_target_exists");
    }
    if Estimate(files) > max {
      return Failure("envelope_size_limit_exceeded");
    }
    var envelope := tools.tar(files);
    if |envelope| > max {
      return Failure("envelope_size_limit_exceeded");
    }
    return Success((j, envelope));
  }

  /// ## The round trip

  /** The names a reader would refuse are not among the evidence files. */
  predicate PlainEntries(j: Json) {
    forall i :: 0 <= i < |Evidence(j)| ==>
      && '\\' !in EntryPath(Evidence(j)[i]) && NUL !in EntryPath(Evidence(j)[i])
  }

  lemma PackageMemberNames(tools: Tools, j: Json, files: map<string, Bytes>)
    requires FilesHold(tools, j, files)
    ensures var ms := PackageMembers(j, files); var n := |Evidence(j)|;
            && |ms| == n + 2 && ms[0].name == ARCHIVE && ms[n + 1].name == MANIFEST
            && (forall i :: 0 < i <= n ==> ms[i].name == EntryPath(Evidence(j)[i - 1]))
            && (forall i :: 0 <= i < |ms| ==> ms[i].name in files && files[ms[i].name] == ms[i].data)
  {
    hide EntryPath, Describes, HasGoodEvidence;
    var es := Evidence(j);
    assert MANIFEST in DeclaredNames(j);
    assert forall k :: 0 <= k < |es| ==> EntryHolds(tools, es[k], files);
  }

  lemma PackageNameSet(tools: Tools, j: Json, files: map<string, Bytes>)
    requires FilesHold(tools, j, files)
    ensures NameSet(PackageMembers(j, files)) == DeclaredNames(j)
  {
    hide EntryPath, Describes, HasGoodEvidence, PackageMembers, EntryHolds;
    HoldsBoth(tools, j, files);
    PackageMemberNames(tools, j, files);
    var es, ms := Evidence(j), PackageMembers(j, files);
    forall n | n in DeclaredNames(j)
      ensures n in NameSet(ms)
    {
      if n in EntryPaths(es) {
        var k :| 0 <= k < |es| && EntryPath(es[k]) == n;
        assert ms[k + 1].name == n;
      }
    }
  }

  lemma PackageMembersDistinct(tools: Tools, j: Json, files: map<string, Bytes>)
    requires FilesHold(tools, j, files) && EntriesDistinct(j)
    ensures Distinct(PackageMembers(j, files))
  {
    hide EntryPath, Describes, HasGoodEvidence, PackageMembers, EntryHolds, FilesHold;
    HoldsBoth(tools, j, files);
    PackageMemberNames(tools, j, files);
    FixedNames();
    PathsApart(j);
  }

  lemma SafeDeclared(j: Json, name: string)
    requires HasGoodEvidence(j) && PlainEntries(j) && name in DeclaredNames(j)
    ensures SafeMemberName(name)
  {
    hide PathParts, IsSimpleName, EndsWith;
    FixedNames();
    if name == MANIFEST || name == ARCHIVE {
      PlainNameParts(name);
    } else {
      var k :| 0 <= k < |Evidence(j)| && EntryPath(Evidence(j)[k]) == name;
      GoodEntryName(Evidence(j)[k]);
      NotDots(Get(EntryMetadata(Evidence(j)[k]), "filename").s);
    }
  }

  lemma NotDots(name: string)
    requires EndsWith(name, ".age")
    ensures name != ".." && name != ""
  {
  }

  lemma UnsortedPackage(tools: Tools, j: Json, files: map<string, Bytes>)
    requires FilesHold(tools, j, files) && EntriesDistinct(j)
    ensures Distinct(PackageMembers(j, files)) && FilesOf(PackageMembers(j, files)) == files
    ensures forall m :: m in PackageMembers(j, files) ==> m.kind.Regular?
  {
    hide FilesOf, Distinct, Describes, EntryPath, EntryPaths;
    PackageMembersDistinct(tools, j, files);
    PackageMemberNames(tools, j, files);
    PackageNameSet(tools, j, files);
    FilesOfAll(PackageMembers(j, files), files);
  }

  /** A list without repeated names stands for `files` when it names all of them and carries their data. */
  lemma FilesOfAll(ms: seq<Member>, files: map<string, Bytes>)
    requires Distinct(ms) && NameSet(ms) == files.Keys
    requires forall i :: 0 <= i < |ms| ==> ms[i].name in files && files[ms[i].name] == ms[i].data
    ensures FilesOf(ms) == files
  {
    hide FilesOf, Distinct;
    forall n | n in files
      ensures FilesOf(ms)[n] == files[n]
    {
      var i :| 0 <= i < |ms| && ms[i].name == n;
      FilesOfAt(ms, i);
    }
  }

  /** The sorted members of a package stand for the package's files. */
  lemma SortedPackage(tools: Tools, j: Json, files: map<string, Bytes>)
    requires FilesHold(tools, j, files) && EntriesDistinct(j)
    ensures var ms := Sort(PackageMembers(j, files));
            StrictlySorted(ms) && Distinct(ms) && FilesOf(ms) == files && (forall m :: m in ms ==> m.kind.Regular?)
  {
    hide FilesOf, Sort, FilesHold, EntriesDistinct, PackageMembers, Less, Distinct, DeclaredNames, Describes;
    assert MANIFEST in files && ARCHIVE in files by {
      HoldsBoth(tools, j, files);
    }
    var unsorted := PackageMembers(j, files);
    var ms := Sort(unsorted);
    UnsortedPackage(tools, j, files);
    SortSorts(unsorted);
    SortedDistinct(ms);
    SameFiles(unsorted, ms);
  }

  lemma HoldsBoth(tools: Tools, j: Json, files: map<string, Bytes>)
    requires FilesHold(tools, j, files)
    ensures MANIFEST in files && ARCHIVE in files
  {
    assert MANIFEST in DeclaredNames(j);
  }

  /** The conditions of the readers that the builder does not check. */
  predicate ReadersAccept(j: Json, files: map<string, Bytes>)
    requires MANIFEST in files
  {
    EntriesDistinct(j) && PlainEntries(j) && |files[MANIFEST]| <= MAX_MANIFEST
  }

  lemma ReadableExtracts(tools: Tools, dir: Directory, j: Json, max: nat)
    requires tools.Lawful() && IsPackage(tools, dir, j) && ReadersAccept(j, DataOf(dir))
    requires Estimate(Sort(PackageMembers(j, DataOf(dir)))) <= max
    ensures var ms := Sort(PackageMembers(j, DataOf(dir))); ExtractsAs(tools, ms, max, j) && FilesOf(ms) == DataOf(dir)
  {
    hide FilesOf, Sort, EntryPath, EntryPaths, IsCompleteLocal, HasBackupId, Expected, MembersHold, SafeMemberName, PlainEntries,
         HasGoodEvidence;
    var files := DataOf(dir);
    var ms := Sort(PackageMembers(j, files));
    SortedPackage(tools, j, files);
    forall i | 0 <= i < |ms|
      ensures SafeMemberName(ms[i].name) && ms[i].kind.Regular?
    {
      assert ms[i] in ms && ms[i].name in NameSet(ms);
      assert ms[i].name in files.Keys;
      SafeDeclared(j, ms[i].name);
    }
    assert NameSet(ms) == files.Keys;
  }

  /** An archive of a package's members that either reader accepts has distinct, plain names and a small manifest. */
  lemma AcceptedIsReadable(tools: Tools, dir: Directory, j: Json, max: nat)
    requires IsPackage(tools, dir, j) && MembersFit(Sort(PackageMembers(j, DataOf(dir))), max)
    ensures ReadersAccept(j, DataOf(dir))
  {
    hide FilesOf, Sort, EntryPath, EntryPaths, IsCompleteLocal, HasBackupId, SafeMemberName, HasGoodEvidence, PackageMembers,
         Describes, Distinct, TotalSize, PlainEntries;
    var files := DataOf(dir);
    var unsorted := PackageMembers(j, files);
    PackageMemberNames(tools, j, files);
    SortDistinct(unsorted);
    DistinctEntries(unsorted, j);
    forall i | 0 <= i < |unsorted|
      ensures SafeMemberName(unsorted[i].name)
    {
      assert unsorted[i] in Sort(unsorted);
    }
    SafeEntries(unsorted, j);
    SortedPackage(tools, j, files);
  }

  lemma SafeEntries(ms: seq<Member>, j: Json)
    requires |ms| == |Evidence(j)| + 2 && forall i :: 0 <= i < |ms| ==> SafeMemberName(ms[i].name)
    requires forall i :: 0 < i <= |Evidence(j)| ==> ms[i].name == EntryPath(Evidence(j)[i - 1])
    ensures PlainEntries(j)
  {
    hide EntryPath, SafeMemberName;
    forall i | 0 <= i < |Evidence(j)|
      ensures '\\' !in EntryPath(Evidence(j)[i]) && NUL !in EntryPath(Evidence(j)[i])
    {
      assert SafeMemberName(ms[i + 1].name);
      SafeHasNoBackslash(ms[i + 1].name);
    }
  }

  lemma SafeHasNoBackslash(name: string)
    requires SafeMemberName(name)
    ensures '\\' !in name && NUL !in name
  {
  }

  lemma DistinctEntries(ms: seq<Member>, j: Json)
    requires Distinct(ms) && |ms| == |Evidence(j)| + 2
    requires forall i :: 0 < i <= |Evidence(j)| ==> ms[i].name == EntryPath(Evidence(j)[i - 1])
    ensures EntriesDistinct(j)
  {
    hide EntryPath;
    forall a, b | 0 <= a < b < |Evidence(j)|
      ensures EntryPath(Evidence(j)[a]) != EntryPath(Evidence(j)[b])
    {
      assert ms[a + 1].name != ms[b + 1].name;
    }
  }

  /**
   What is built is read back exactly when the evidence files have distinct names
   free of backslash and NUL and the manifest is at most 1 MiB: then both readers
   accept the envelope with the package's own manifest and the members are exactly
   the package's files; otherwise neither reader accepts it at all.
   */
  lemma EnvelopeRoundTrip(tools: Tools, dir: Directory, j: Json, max: nat)
    requires tools.Lawful() && IsPackage(tools, dir, j)
    requires Estimate(Sort(PackageMembers(j, DataOf(dir)))) <= max
    requires |tools.tar(Sort(PackageMembers(j, DataOf(dir))))| <= max
    ensures var envelope := tools.tar(Sort(PackageMembers(j, DataOf(dir))));
            && (Inspects(tools, envelope, max, j) <==> ReadersAccept(j, DataOf(dir)))
            && (Extracts(tools, envelope, tools.sha(envelope), max, j) <==> ReadersAccept(j, DataOf(dir)))
            && (ReadersAccept(j, DataOf(dir)) ==> FilesOf(tools.untar(envelope).value) == DataOf(dir))
            && (forall k :: Inspects(tools, envelope, max, k) || Extracts(tools, envelope, tools.sha(envelope), max, k) ==>
                  ReadersAccept(j, DataOf(dir)) && k == j)
  {
    hide FilesOf, Sort, ReadersAccept, MembersFit, HasBackupId, FilesHold, MembersHold, IsCompleteLocal, HasGoodEvidence,
         PackageMembers, TotalSize;
    HoldsBoth(tools, j, DataOf(dir));
    var ms := Sort(PackageMembers(j, DataOf(dir)));
    assert tools.untar(tools.tar(ms)) == Some(ms);
    if ReadersAccept(j, DataOf(dir)) {
      ReadableExtracts(tools, dir, j, max);
      ExtractImpliesInspect(tools, ms, max, j);
    }
    if MembersFit(ms, max) {
      AcceptedIsReadable(tools, dir, j, max);
    }
  }

  /**
   The envelope depends only on the files: any list of regular members in
   strict name order that stands for the same files gives the same bytes.
   */
  lemma EnvelopeCanonical(tools: Tools, j: Json, files: map<string, Bytes>, ms: seq<Member>)
    requires FilesHold(tools, j, files) && EntriesDistinct(j)
    requires StrictlySorted(ms) && FilesOf(ms) == files && forall m :: m in ms ==> m.kind.Regular?
    ensures tools.tar(ms) == tools.tar(Sort(PackageMembers(j, files)))
  {
    hide FilesOf, Sort, EntryPath, EntryPaths, Describes, HasGoodEvidence, Less;
    SortedPackage(tools, j, files);
    SortedUnique(ms, Sort(PackageMembers(j, files)));
  }

  /// ## The two readers

  lemma TotalSizeNext(ms: seq<Member>, n: nat)
    requires n < |ms|
    ensures TotalSize(ms[..n + 1]) == TotalSize(ms[..n]) + |ms[n].data|
  {
    assert ms[..n + 1][..n] == ms[..n];
  }

  lemma {:induction false} TotalSizeGrows(ms: seq<Member>, n: nat)
    requires n <= |ms|
    ensures TotalSize(ms[..n]) <= TotalSize(ms)
    decreases |ms| - n
  {
    if n == |ms| {
      assert ms[..n] == ms;
    } else {
      TotalSizeNext(ms, n);
      TotalSizeGrows(ms, n + 1);
    }
  }

  /** The loop over the archive's members: their kinds, names and sizes. */
  method ScanMembers(ms: seq<Member>, max: nat) returns (r: Result<(), string>)
    ensures r.Success? <==> MembersFit(ms, max)
  {
    hide SafeMemberName, FilesOf, TotalSize;
    var names: seq<string> := [];
    var total := 0;
    TotalSizeNone(ms);
    for i := 0 to |ms|
      invariant names == NamesOf(ms[..i])
      invariant total == TotalSize(ms[..i]) <= max
      invariant forall k :: 0 <= k < i ==> SafeMemberName(ms[k].name) && ms[k].kind.Regular?
    {
      if !SafeMemberName(ms[i].name) || !ms[i].kind.Regular? {
        return Failure("envelope_member_invalid");
      }
      names := names + [ms[i].name];
      total := total + |ms[i].data|;
      TotalSizeNext(ms, i);
      TotalSizeGrows(ms, i + 1);
      if total > max {
        return Failure("envelope_size_limit_exceeded");
      }
    }
    assert ms[..|ms|] == ms;
    if exists i, j :: 0 <= i < j < |names| && names[i] == names[j] {
      return Failure("envelope_members_invalid");
    }
    if MANIFEST !in names {
      return Failure("envelope_members_invalid");
    }
    var k :| 0 <= k < |ms| && ms[k].name == MANIFEST;
    FilesOfAt(ms, k);
    if |ms[k].data| > MAX_MANIFEST {
      return Failure("manifest_size_invalid");
    }
    return Success(());
  }

  lemma TotalSizeNone(ms: seq<Member>)
    ensures TotalSize(ms[..0]) == 0
  {
  }

  /** The manifest of a scanned archive, when it declares exactly the archive's members. */
  method ReadManifest(tools: Tools, ms: seq<Member>, max: nat) returns (r: Result<Json, string>)
    requires MembersFit(ms, max)
    ensures r.Success? ==> Declares(tools, ms, r.value)
    ensures forall j :: Declares(tools, ms, j) ==> r == Success(j)
  {
    hide FilesOf, IsGoodEntry, TotalSize, SafeMembers, EntryPath;
    var parsed := tools.parse(FilesOf(ms)[MANIFEST]);
    if parsed == None {
      return Failure("manifest_invalid");
    }
    var j := parsed.value;
    if !IsCompleteLocal(j) {
      return Failure("backup_not_complete_local");
    }
    if !Get(j, "evidence").Arr? || !EqualsInt(Get(j, "evidence_file_count"), |Evidence(j)|) {
      return Failure("evidence_count_mismatch");
    }
    var expected := {MANIFEST, ARCHIVE};
    var entries := Evidence(j);
    for i := 0 to |entries|
      invariant forall k :: 0 <= k < i ==> IsGoodEntry(entries[k])
      invariant expected == {MANIFEST, ARCHIVE} + EntryPaths(entries[..i])
    {
      if !IsGoodEntry(entries[i]) {
        return Failure("manifest_filename_invalid");
      }
      EntryPathsNext(entries, i);
      expected := expected + {EntryPath(entries[i])};
    }
    assert entries[..|entries|] == entries;
    if NameSet(ms) != expected {
      return Failure("envelope_members_unexpected");
    }
    return Success(j);
  }

  /** Validates members and hashes without extracting. */
  method InspectEnvelope(tools: Tools, envelope: Bytes, max: nat) returns (r: Result<Json, string>)
    ensures r.Success? ==> Inspects(tools, envelope, max, r.value)
    ensures forall j :: Inspects(tools, envelope, max, j) ==> r == Success(j)
  {
    hide MembersFit, HasBackupId, MemberHolds, ExpectedUpTo, IsCompleteLocal, HasGoodEvidence, FilesOf, EntryPaths;
    if |envelope| > max || tools.untar(envelope) == None {
      return Failure("envelope_invalid");
    }
    var ms := tools.untar(envelope).value;
    var _ :- ScanMembers(ms, max);
    var j :- ReadManifest(tools, ms, max);
    if !HasBackupId(j) {
      return Failure("backup_not_complete_local");
    }
    var expected := Expected(j);
    for i := 0 to |ms|
      invariant forall k :: 0 <= k < i ==> ms[k].name in expected && MemberHolds(tools, expected[ms[k].name], ms[k])
    {
      assert ms[i].name in NameSet(ms);
      if !MemberHolds(tools, expected[ms[i].name], ms[i]) {
        return Failure("envelope_member_checksum_mismatch");
      }
    }
    return Success(j);
  }

  /** The names extraction may write. */
  function WrittenNames(tools: Tools, envelope: Bytes): set<string> {
    match tools.untar(envelope)
    case Some(ms) => NameSet(ms)
    case None => {}
  }

  /** The directory an envelope is extracted into; None while it does not exist. */
  class Target {
    var files: Option<map<string, Bytes>>

    constructor ()
      ensures files == None
    {
      files := None;
    }

    /**
     Validates everything it can before writing, writes the members, and checks
     the written package again. `fault` is the write that fails, if any, and
     `stuck` what cannot be removed. On success the directory holds exactly the
     members; on any failure after its creation it is gone, or what could not be
     removed stays, under names of members.
     */
    method Extract(tools: Tools, envelope: Bytes, expectedSha: string, max: nat, fault: Option<nat>,
                   stuck: Option<map<string, Bytes>>) returns (r: Result<(), string>)
      modifies this
      ensures old(files).Some? ==> r.Failure? && files == old(files)
      ensures r.Failure? && stuck == None ==> files == old(files)
      ensures r.Failure? && files.Some? && old(files) == None ==> files.value.Keys <= WrittenNames(tools, envelope)
      ensures r.Success? ==>
                && (exists j :: Extracts(tools, envelope, expectedSha, max, j))
                && files == Some(FilesOf(tools.untar(envelope).value))
      ensures forall j :: old(files) == None && fault == None && Extracts(tools, envelope, expectedSha, max, j) ==> r.Success?
    {
      hide MembersFit, HasBackupId, Describes, ExpectedUpTo, IsCompleteLocal, HasGoodEvidence, FilesHold, FilesOf;
      if |envelope| > max || (expectedSha != "" && tools.sha(envelope) != expectedSha) {
        return Failure("envelope_checksum_mismatch");
      }
      if files.Some? {
        return Failure("extract_target_exists");
      }
      files := Some(map[]);
      var extracted := ExtractMembers(tools, envelope, max, fault);
      if extracted.Failure? {
        files := match stuck
          case None => None
          case Some(left) => Some(map n | n in left && n in WrittenNames(tools, envelope) :: left[n]);
        return Failure(extracted.error);
      }
      var j := extracted.value;
      assert Extracts(tools, envelope, expectedSha, max, j);
      return Success(());
    }

    method ExtractMembers(tools: Tools, envelope: Bytes, max: nat, fault: Option<nat>) returns (r: Result<Json, string>)
      requires files == Some(map[])
      modifies this
      ensures r.Success? ==>
                && tools.untar(envelope).Some? && ExtractsAs(tools, tools.untar(envelope).value, max, r.value)
                && files == Some(FilesOf(tools.untar(envelope).value))
      ensures tools.untar(envelope).Some? && fault == None ==>
                forall j :: ExtractsAs(tools, tools.untar(envelope).value, max, j) ==> r == Success(j)
    {
      hide MembersFit, HasBackupId, Describes, IsCompleteLocal, HasGoodEvidence, FilesHold, PathParts, FilesOf, EntryPaths;
      if tools.untar(envelope) == None {
        return Failure("envelope_invalid");
      }
      var ms := tools.untar(envelope).value;
      var _ :- ScanMembers(ms, max);
      var j :- ReadManifest(tools, ms, max);
      var written: map<string, Bytes> := map[];
      assert ms[..0] == [];
      for i := 0 to |ms|
        invariant written == FilesOf(ms[..i])
      {
        if fault == Some(i) {
          return Failure("write_failed");
        }
        assert ms[i].name in NameSet(ms);
        DeclaredPath(j, ms[i].name);
        FilesOfNext(ms, i);
        written := written[Join(PathParts(ms[i].name), "/") := ms[i].data];
      }
      assert ms[..|ms|] == ms;
      files := Some(written);
      if !HasBackupId(j) {
        return Failure("backup_not_complete_local");
      }
      var dir := map n | n in written :: File(written[n]);
      assert DataOf(dir) == written;
      var checked :- ValidatedLocalFiles(tools, dir, j);
      return Success(j);
    }
  }

  /** A declared name is written under itself. */
  lemma DeclaredPath(j: Json, name: string)
    requires HasGoodEvidence(j) && name in DeclaredNames(j)
    ensures Join(PathParts(name), "/") == name
  {
    hide PathParts, IsSimpleName, EndsWith;
    FixedNames();
    if name == MANIFEST || name == ARCHIVE {
      PlainNameParts(name);
    } else {
      var k :| 0 <= k < |Evidence(j)| && EntryPath(Evidence(j)[k]) == name;
      var filename := Get(EntryMetadata(Evidence(j)[k]), "filename").s;
      GoodEntryName(Evidence(j)[k]);
      EvidenceJoin(filename);
    }
  }

  lemma EvidenceJoin(filename: string)
    ensures Join(["evidence", filename], "/") == EvidencePath(filename)
  {
    assert ["evidence", filename][1..] == [filename];
  }

  lemma FilesOfNext(ms: seq<Member>, i: nat)
    requires i < |ms|
    ensures FilesOf(ms[..i + 1]) == FilesOf(ms[..i])[ms[i].name := ms[i].data]
    ensures FilesOf(ms[..0]) == map[]
  {
    assert ms[..i + 1][..i] == ms[..i];
  }

  /// ## Inspection does not require metadata for the archive

  /** A complete manifest that says nothing about the archive. */
  function SilentManifest(backupId: string): Json {
    Obj(map["manifest_version" := Num(1), "status" := Str("COMPLETE_LOCAL"), "off_vm_status" := Str("NOT_UPLOADED"),
            "backup_id" := Str(backupId), "evidence" := Arr([]), "evidence_file_count" := Num(0)])
  }

  /** Inspection accepts any archive bytes under such a manifest, and extraction rejects them. */
  lemma SilentArchivePassesInspection(tools: Tools, backupId: string, data: Bytes, max: nat)
    requires tools.Lawful() && IsBackupId(backupId)
    requires var text := tools.render(SilentManifest(backupId)); |text| <= MAX_MANIFEST && |text| + |data| <= max
    ensures var j := SilentManifest(backupId);
            var ms := [Member(MANIFEST, Regular, tools.render(j)), Member(ARCHIVE, Regular, data)];
            InspectsAs(tools, ms, max, j) && forall k :: !ExtractsAs(tools, ms, max, k)
  {
    hide IsBackupId, SafeMemberName, PathParts;
    var j := SilentManifest(backupId);
    var ms := [Member(MANIFEST, Regular, tools.render(j)), Member(ARCHIVE, Regular, data)];
    SilentRead(backupId);
    FixedNames();
    SafeDeclared(j, MANIFEST);
    SafeDeclared(j, ARCHIVE);
    FilesOfAt(ms, 0);
    assert ms[..1] == [ms[0]] && ms[..1][..0] == [];
    assert TotalSize(ms[..1]) == |ms[0].data|;
    assert NameSet(ms) == {MANIFEST, ARCHIVE} by {
      assert ms[0].name == MANIFEST && ms[1].name == ARCHIVE;
    }
    ExpectedFixed(j, 0);
    forall k | ExtractsAs(tools, ms, max, k)
      ensures false
    {
      assert tools.parse(tools.render(j)) == Some(j);
      ArchiveDescribed(tools, ms, max, k);
    }
  }

  lemma SilentRead(backupId: string)
    requires IsBackupId(backupId)
    ensures var j := SilentManifest(backupId);
            && IsCompleteLocal(j) && HasBackupId(j) && HasGoodEvidence(j) && PlainEntries(j)
            && DeclaredNames(j) == {MANIFEST, ARCHIVE} && Evidence(j) == [] && Get(j, "archive") == Null
  {
  }

  /// ## Inspection looks at the last of two entries for one file

  const FILE := "a.age"

  function EntryWith(metadata: Json): Json {
    Obj(map["encrypted" := metadata])
  }

  /** Metadata that gives a wrong hash for the data. */
  function WrongMetadata(tools: Tools, data: Bytes): Json {
    Obj(map["filename" := Str(FILE), "size" := Num(|data|), "sha256" := Str(tools.sha(data) + "x")])
  }

  /** A complete manifest that describes one file twice, wrongly and then rightly. */
  function TwiceManifest(tools: Tools, backupId: string, dump: Bytes, data: Bytes): Json {
    Obj(map["manifest_version" := Num(1), "status" := Str("COMPLETE_LOCAL"), "off_vm_status" := Str("NOT_UPLOADED"),
            "backup_id" := Str(backupId), "archive" := MetadataOf(tools, ARCHIVE, dump),
            "evidence" := Arr([EntryWith(WrongMetadata(tools, data)), EntryWith(MetadataOf(tools, FILE, data))]),
            "evidence_file_count" := Num(2)])
  }

  lemma TwiceRead(tools: Tools, backupId: string, dump: Bytes, data: Bytes)
    requires IsBackupId(backupId)
    ensures var j := TwiceManifest(tools, backupId, dump, data);
            && IsCompleteLocal(j) && HasBackupId(j) && Get(j, "archive") == MetadataOf(tools, ARCHIVE, dump)
            && Evidence(j) == [EntryWith(WrongMetadata(tools, data)), EntryWith(MetadataOf(tools, FILE, data))]
            && Get(j, "evidence").Arr? && EqualsInt(Get(j, "evidence_file_count"), 2)
  {
    hide IsBackupId, MetadataOf, WrongMetadata, EntryWith;
  }

  lemma MetadataFields(tools: Tools, data: Bytes)
    ensures var wrong, right := WrongMetadata(tools, data), MetadataOf(tools, FILE, data);
            && wrong.Obj? && right.Obj? && Get(wrong, "filename") == Get(right, "filename") == Str(FILE)
            && Get(wrong, "sha256") == Str(tools.sha(data) + "x") && Get(right, "sha256") == Str(tools.sha(data))
  {
  }

  lemma EntryWithFields(metadata: Json)
    requires metadata.Obj? && Get(metadata, "filename") == Str(FILE)
    ensures IsGoodEntry(EntryWith(metadata)) && EntryPath(EntryWith(metadata)) == EvidencePath(FILE)
    ensures EntryMetadata(EntryWith(metadata)) == metadata
  {
    hide EvidencePath;
    assert FILE[|FILE| - 4..] == ".age" && '/' !in FILE && FILE != ".";
  }

  lemma TwiceEntries(tools: Tools, data: Bytes)
    ensures var wrong, right := EntryWith(WrongMetadata(tools, data)), EntryWith(MetadataOf(tools, FILE, data));
            && IsGoodEntry(wrong) && IsGoodEntry(right)
            && EntryPath(wrong) == EntryPath(right) == EvidencePath(FILE)
            && EntryMetadata(right) == MetadataOf(tools, FILE, data)
            && !SameDescription(EntryMetadata(wrong), EntryMetadata(right))
  {
    hide IsGoodEntry, EntryPath, EntryMetadata, EntryWith, MetadataOf, WrongMetadata, EvidencePath, Get;
    MetadataFields(tools, data);
    EntryWithFields(WrongMetadata(tools, data));
    EntryWithFields(MetadataOf(tools, FILE, data));
    assert |tools.sha(data) + "x"| != |tools.sha(data)|;
  }

  lemma TwiceDeclares(tools: Tools, backupId: string, dump: Bytes, data: Bytes)
    requires IsBackupId(backupId)
    ensures var j := TwiceManifest(tools, backupId, dump, data);
            && HasGoodEvidence(j) && PlainEntries(j) && DeclaredNames(j) == {MANIFEST, ARCHIVE, EvidencePath(FILE)}
            && !RepeatsAgree(j)
  {
    hide IsBackupId, MetadataOf, WrongMetadata, EntryWith, IsGoodEntry, EntryPath, SameDescription, EntryMetadata, TwiceManifest,
         IsCompleteLocal, HasBackupId, Get, EqualsInt, Evidence;
    var j := TwiceManifest(tools, backupId, dump, data);
    TwiceRead(tools, backupId, dump, data);
    TwiceEntries(tools, data);
    assert '\\' !in EvidencePath(FILE) && NUL !in EvidencePath(FILE);
    var es := Evidence(j);
    assert EntryPaths(es) == {EvidencePath(FILE)} by {
      assert EntryPath(es[0]) == EvidencePath(FILE);
    }
    assert EntryPath(es[0]) == EntryPath(es[1]) && !SameDescription(EntryMetadata(es[0]), EntryMetadata(es[1]));
  }

  lemma TwiceExpected(tools: Tools, backupId: string, dump: Bytes, data: Bytes)
    requires IsBackupId(backupId)
    ensures var j := TwiceManifest(tools, backupId, dump, data);
            && |Evidence(j)| == 2
            && ExpectedUpTo(j, 2) == map[MANIFEST := Null, ARCHIVE := MetadataOf(tools, ARCHIVE, dump),
                                         EvidencePath(FILE) := MetadataOf(tools, FILE, data)]
  {
    hide IsBackupId, MetadataOf, WrongMetadata, EntryWith, IsGoodEntry, EntryPath, SameDescription, EntryMetadata, TwiceManifest,
         IsCompleteLocal, HasBackupId, Get, EqualsInt, Evidence, EntryPaths;
    var j := TwiceManifest(tools, backupId, dump, data);
    TwiceRead(tools, backupId, dump, data);
    TwiceEntries(tools, data);
    FixedNames();
    var es := Evidence(j);
    assert ExpectedUpTo(j, 1) == ExpectedUpTo(j, 0)[EntryPath(es[0]) := EntryMetadata(es[0])];
    assert ExpectedUpTo(j, 2) == ExpectedUpTo(j, 1)[EntryPath(es[1]) := EntryMetadata(es[1])];
  }

  lemma ThreeMembers(a: Member, b: Member, c: Member)
    requires a.name != b.name && a.name != c.name && b.name != c.name
    ensures var ms := [a, b, c];
            && Distinct(ms) && NameSet(ms) == {a.name, b.name, c.name}
            && TotalSize(ms) == |a.data| + |b.data| + |c.data| && FilesOf(ms)[a.name] == a.data
  {
    var ms := [a, b, c];
    FilesOfAt(ms, 0);
    assert ms[..2] == [a, b] && [a, b][..1] == [a] && [a][..0] == [];
    assert TotalSize([a]) == |a.data| && TotalSize([a, b]) == |a.data| + |b.data|;
    assert ms[0].name in NameSet(ms) && ms[1].name in NameSet(ms) && ms[2].name in NameSet(ms);
  }

  /** Inspection accepts such an archive, and extraction rejects it. */
  lemma RepeatedEntryPassesInspection(tools: Tools, backupId: string, dump: Bytes, data: Bytes, max: nat)
    requires tools.Lawful() && IsBackupId(backupId)
    requires var text := tools.render(TwiceManifest(tools, backupId, dump, data));
             |text| <= MAX_MANIFEST && |text| + |dump| + |data| <= max
    ensures var j := TwiceManifest(tools, backupId, dump, data);
            var ms := [Member(MANIFEST, Regular, tools.render(j)), Member(ARCHIVE, Regular, dump),
                       Member(EvidencePath(FILE), Regular, data)];
            InspectsAs(tools, ms, max, j) && Get(j, "archive") != Null && !ExtractsAs(tools, ms, max, j)
  {
    hide IsBackupId, MetadataOf, TwiceManifest, IsCompleteLocal, HasBackupId, HasGoodEvidence, PlainEntries, DeclaredNames,
         SafeMemberName, RepeatsAgree, ExpectedUpTo, Distinct, TotalSize, FilesOf, NameSet, ExtractsAs, BaseName, EvidencePath,
         Describes, Evidence, Get;
    var j := TwiceManifest(tools, backupId, dump, data);
    var a, b, c := Member(MANIFEST, Regular, tools.render(j)), Member(ARCHIVE, Regular, dump),
      Member(EvidencePath(FILE), Regular, data);
    var ms := [a, b, c];
    TwiceRead(tools, backupId, dump, data);
    TwiceDeclares(tools, backupId, dump, data);
    TwiceExpected(tools, backupId, dump, data);
    FixedNames();
    ThreeMembers(a, b, c);
    SafeDeclared(j, MANIFEST);
    SafeDeclared(j, ARCHIVE);
    SafeDeclared(j, EvidencePath(FILE));
    assert tools.parse(tools.render(j)) == Some(j);
    ArchiveName();
    EvidencePathParts(FILE);
    assert |Evidence(j)| == 2;
    forall i | 0 <= i < |ms|
      ensures ms[i].name in Expected(j) && MemberHolds(tools, Expected(j)[ms[i].name], ms[i])
    {
      assert ms[i] == if i == 0 then a else if i == 1 then b else c;
    }
    InspectIsExtract(tools, ms, max, j);
    assert MetadataOf(tools, ARCHIVE, dump).Obj? by {
      MetadataIsObject(tools, ARCHIVE, dump);
    }
  }

  lemma MetadataIsObject(tools: Tools, filename: string, data: Bytes)
    ensures MetadataOf(tools, filename, data).Obj?
  {
  }
}
