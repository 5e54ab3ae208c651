/** A backup package: its manifest, the files the manifest declares, and their names. */
module Packages {
  import opened Common
  import opened Strings

  /// ## JSON values

  datatype Json =
    | Null
    | Bool(b: bool)
    | Num(n: int)
    | Str(s: string)
    | Arr(items: seq<Json>)
    | Obj(fields: map<string, Json>)

  /** `value.get(key)` on an object: a missing key reads as null. */
  function Get(j: Json, key: string): Json {
    if j.Obj? && key in j.fields then j.fields[key] else Null
  }

  /** Python's `value == n`, where a boolean equals 0 or 1. */
  predicate EqualsInt(j: Json, n: int) {
    j == Num(n) || (j.Bool? && n == if j.b then 1 else 0)
  }

  /// ## The tools the package is handled with

  /** Archive, JSON text and hash, of which only the stated laws are used. */
  datatype Tools = Tools(
    tar: seq<Member> -> Bytes,
    untar: Bytes -> Option<seq<Member>>,
    render: Json -> Bytes,
    parse: Bytes -> Option<Json>,
    sha: Bytes -> string)
  {
    ghost predicate Lawful() {
      && (forall ms :: untar(tar(ms)) == Some(ms))
      && (forall j :: parse(render(j)) == Some(j))
    }

    ghost predicate CollisionFree() {
      forall a, b :: sha(a) == sha(b) ==> a == b
    }
  }

  datatype Kind = Regular | OtherKind

  datatype Member = Member(name: string, kind: Kind, data: Bytes)

  function NamesOf(ms: seq<Member>): (names: seq<string>)
    ensures |names| == |ms|
    ensures forall i :: 0 <= i < |ms| ==> names[i] == ms[i].name
  {
    seq(|ms|, i requires 0 <= i < |ms| => ms[i].name)
  }

  function NameSet(ms: seq<Member>): set<string> {
    set i | 0 <= i < |ms| :: ms[i].name
  }

  predicate Distinct(ms: seq<Member>) {
    forall i, j :: 0 <= i < j < |ms| ==> ms[i].name != ms[j].name
  }

  /** The file system content a list of members stands for; a later member hides an earlier one. */
  function FilesOf(ms: seq<Member>): (files: map<string, Bytes>)
    ensures files.Keys == NameSet(ms)
  {
    if ms == [] then map[]
    else
      var last := ms[|ms| - 1];
      assert NameSet(ms) == NameSet(ms[..|ms| - 1]) + {last.name} by {
        assert forall i :: 0 <= i < |ms| - 1 ==> ms[..|ms| - 1][i] == ms[i];
      }
      FilesOf(ms[..|ms| - 1])[last.name := last.data]
  }

  lemma {:induction false} FilesOfAt(ms: seq<Member>, i: nat)
    requires i < |ms| && Distinct(ms)
    ensures ms[i].name in FilesOf(ms) && FilesOf(ms)[ms[i].name] == ms[i].data
  {
    var shorter := ms[..|ms| - 1];
    assert forall k :: 0 <= k < |shorter| ==> shorter[k] == ms[k];
    if i < |shorter| {
      FilesOfAt(shorter, i);
    }
  }

  function TotalSize(ms: seq<Member>): nat {
    if ms == [] then 0 else TotalSize(ms[..|ms| - 1]) + |ms[|ms| - 1].data|
  }

  /// ## Names

  predicate IsCleanPart(part: string) {
    part != "" && part != "."
  }

  /** `PurePosixPath(name).parts` of a relative name. */
  function PathParts(name: string): seq<string> {
    Filter(IsCleanPart, SplitOn(name, '/'))
  }

  predicate IsAbsolute(name: string) {
    name != "" && name[0] == '/'
  }

  const NUL: char := 0 as char

  predicate SafeMemberName(name: string) {
    && !IsAbsolute(name) && PathParts(name) != [] && ".." !in PathParts(name)
    && '\\' !in name && NUL !in name
  }

  /** `Path(name).name == name` */
  predicate IsSimpleName(name: string) {
    '/' !in name && name != "."
  }

  predicate EndsWith(s: string, suffix: string) {
    |suffix| <= |s| && s[|s| - |suffix|..] == suffix
  }

  function BaseName(name: string): string {
    var parts := PathParts(name);
    if parts == [] then "" else parts[|parts| - 1]
  }

  lemma {:induction false} CleanJoin(parts: seq<string>)
    requires |parts| >= 1
    requires forall p :: p in parts ==> IsCleanPart(p) && '/' !in p
    ensures PathParts(Join(parts, "/")) == parts
  {
    SplitOnJoin(parts, '/');
    FilterAll(IsCleanPart, parts);
  }

  const MANIFEST := "manifest.json"
  const ARCHIVE := "postgres.dump.age"

  function EvidencePath(filename: string): string {
    "evidence/" + filename
  }

  lemma EvidencePathParts(filename: string)
    requires IsSimpleName(filename) && filename != ""
    ensures PathParts(EvidencePath(filename)) == ["evidence", filename]
    ensures BaseName(EvidencePath(filename)) == filename && !IsAbsolute(EvidencePath(filename))
  {
    var parts := ["evidence", filename];
    assert Join(parts[1..], "/") == filename;
    assert Join(parts, "/") == EvidencePath(filename);
    CleanJoin(parts);
  }

  lemma PlainNameParts(name: string)
    requires IsSimpleName(name) && name != ""
    ensures PathParts(name) == [name] && BaseName(name) == name && !IsAbsolute(name)
  {
    CleanJoin([name]);
    assert name[0] in name;
  }

  lemma FixedNames()
    ensures IsSimpleName(MANIFEST) && IsSimpleName(ARCHIVE) && '\\' !in MANIFEST && '\\' !in ARCHIVE
    ensures NUL !in MANIFEST && NUL !in ARCHIVE
    ensures MANIFEST != ARCHIVE
    ensures forall f :: EvidencePath(f) != MANIFEST && EvidencePath(f) != ARCHIVE
    ensures MANIFEST != ".." && ARCHIVE != ".."
  {
    assert MANIFEST[0] == 'm' && ARCHIVE[0] == 'p';
    forall f
      ensures EvidencePath(f) != MANIFEST && EvidencePath(f) != ARCHIVE
    {
      assert EvidencePath(f)[0] == 'e';
    }
  }

  /** Distinct file names give distinct paths. */
  lemma EvidencePathInjective(a: string, b: string)
    requires EvidencePath(a) == EvidencePath(b)
    ensures a == b
  {
    assert EvidencePath(a)[9..] == a && EvidencePath(b)[9..] == b;
  }

  /// ## The manifest

  predicate IsDigit(c: char) { '0' <= c <= '9' }

  predicate IsHex(c: char) { IsDigit(c) || 'a' <= c <= 'f' }

  /** `[0-9]{8}T[0-9]{6}Z-[0-9a-f]{32}` */
  predicate IsBackupId(s: string) {
    && |s| == 49
    && (forall i :: 0 <= i < 8 ==> IsDigit(s[i])) && s[8] == 'T'
    && (forall i :: 9 <= i < 15 ==> IsDigit(s[i])) && s[15] == 'Z' && s[16] == '-'
    && (forall i :: 17 <= i < 49 ==> IsHex(s[i]))
  }

  const MANIFEST_VERSION := 1

  predicate IsCompleteLocal(j: Json) {
    && j.Obj?
    && EqualsInt(Get(j, "manifest_version"), MANIFEST_VERSION)
    && Get(j, "status") == Str("COMPLETE_LOCAL") && Get(j, "off_vm_status") == Str("NOT_UPLOADED")
  }

  predicate HasBackupId(j: Json) {
    Get(j, "backup_id").Str? && IsBackupId(Get(j, "backup_id").s)
  }

  function Evidence(j: Json): seq<Json> {
    if Get(j, "evidence").Arr? then Get(j, "evidence").items else []
  }

  function EntryMetadata(entry: Json): Json {
    Get(entry, "encrypted")
  }

  /** An evidence entry that names an encrypted file of the evidence directory. */
  predicate IsGoodEntry(entry: Json) {
    var metadata := EntryMetadata(entry);
    && metadata.Obj? && Get(metadata, "filename").Str?
    && var name := Get(metadata, "filename").s; IsSimpleName(name) && EndsWith(name, ".age")
  }

  function EntryPath(entry: Json): string {
    var filename := Get(EntryMetadata(entry), "filename");
    EvidencePath(if filename.Str? then filename.s else "")
  }

  predicate HasGoodEvidence(j: Json) {
    && Get(j, "evidence").Arr?
    && EqualsInt(Get(j, "evidence_file_count"), |Evidence(j)|)
    && forall i :: 0 <= i < |Evidence(j)| ==> IsGoodEntry(Evidence(j)[i])
  }

  function EntryPaths(entries: seq<Json>): set<string> {
    set i | 0 <= i < |entries| :: EntryPath(entries[i])
  }

  /** The members a package with this manifest has. */
  function DeclaredNames(j: Json): set<string> {
    {MANIFEST, ARCHIVE} + EntryPaths(Evidence(j))
  }

  /** `metadata` describes the file `data` called `filename`. */
  predicate Describes(tools: Tools, metadata: Json, filename: string, data: Bytes) {
    && metadata.Obj? && Get(metadata, "filename") == Str(filename)
    && EqualsInt(Get(metadata, "size"), |data|) && Get(metadata, "sha256") == Str(tools.sha(data))
  }

  function MetadataOf(tools: Tools, filename: string, data: Bytes): (m: Json)
    ensures Describes(tools, m, filename, data)
  {
    Obj(map["filename" := Str(filename), "size" := Num(|data|), "sha256" := Str(tools.sha(data))])
  }

  /** The entry's metadata describes the file at its path. */
  predicate EntryHolds(tools: Tools, entry: Json, files: map<string, Bytes>) {
    && EntryPath(entry) in files && Get(EntryMetadata(entry), "filename").Str?
    && Describes(tools, EntryMetadata(entry), Get(EntryMetadata(entry), "filename").s, files[EntryPath(entry)])
  }

  /** Every file the manifest declares is there with its size and hash, and nothing else is. */
  predicate FilesHold(tools: Tools, j: Json, files: map<string, Bytes>) {
    && HasGoodEvidence(j)
    && files.Keys == DeclaredNames(j)
    && Describes(tools, Get(j, "archive"), ARCHIVE, files[ARCHIVE])
    && forall i :: 0 <= i < |Evidence(j)| ==> EntryHolds(tools, Evidence(j)[i], files)
  }
}
