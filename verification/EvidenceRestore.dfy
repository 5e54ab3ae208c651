/** The isolated restore of a backup, and what it gives back from end to end. */
module EvidenceRestore {
  import opened Common
  import opened Strings
  import opened Packages
  import opened MemberOrder
  import opened Envelope
  import opened EvidenceBackup

  /// ## A backup is a package

  lemma OutcomeFields(h: Header, archive: Json, entries: seq<Json>)
    ensures var r := Outcome(h, archive, entries);
            && r.Keys == {"archive", "evidence", "evidence_file_count", "completed_at_utc", "status"}
            && r["archive"] == archive && r["evidence"] == Arr(entries) && r["evidence_file_count"] == Num(|entries|)
            && r["status"] == Str("COMPLETE_LOCAL")
  {
  }

  lemma StartedFields(h: Header)
    ensures var s := Started(h);
            && "manifest_version" in s && s["manifest_version"] == Num(MANIFEST_VERSION)
            && "backup_id" in s && s["backup_id"] == Str(h.backupId)
            && "alembic_head" in s && s["alembic_head"] == Str(EXPECTED_HEAD)
            && "off_vm_provider" in s && s["off_vm_provider"] == Str("google_drive")
            && "off_vm_status" in s && s["off_vm_status"] == Str("NOT_UPLOADED")
  {
  }

  lemma CompletedFields(h: Header, archive: Json, entries: seq<Json>)
    ensures var j := Completed(h, archive, entries);
            && IsCompleteLocal(j) && Get(j, "backup_id") == Str(h.backupId) && Get(j, "archive") == archive
            && Get(j, "evidence") == Arr(entries) && Get(j, "evidence_file_count") == Num(|entries|)
            && Get(j, "alembic_head") == Str(EXPECTED_HEAD) && Get(j, "off_vm_provider") == Str("google_drive")
  {
    hide Started, Outcome;
    StartedFields(h);
    OutcomeFields(h, archive, entries);
  }

  lemma EntryFields(tools: Tools, ref: Ref, encrypted: Bytes)
    ensures var e := EntryOf(tools, ref, encrypted);
            && Get(e, "path") == Str(ref.path) && Get(e, "size") == Num(ref.size) && Get(e, "sha256") == Str(ref.sha)
            && EntryMetadata(e) == MetadataOf(tools, FileName(ref), encrypted)
            && Get(EntryMetadata(e), "filename") == Str(FileName(ref)) && EntryPath(e) == EvidencePath(FileName(ref))
  {
    hide FileName, EvidencePath;
  }

  /** Every field of the manifest a backup starts with. */
  lemma StartedWritten(h: Header)
    ensures Started(h) == map[
              "manifest_version" := Num(1), "backup_id" := Str(h.backupId), "status" := Str("IN_PROGRESS"),
              "started_at_utc" := Str(h.startedAt), "completed_at_utc" := Null,
              "application_commit" := Str(h.commit), "alembic_head" := Str("0107_temporal_receipt_evidence_f2e2"),
              "postgres_version" := Str(h.postgresVersion), "pg_dump_version" := Str(h.pgDumpVersion),
              "archive_format" := Str("custom"), "archive" := Null, "encryption" := Str("age"),
              "encryption_recipient_identifier" := Str(h.recipients),
              "evidence_file_count" := Num(0), "evidence" := Arr([]), "off_vm_provider" := Str("google_drive"),
              "off_vm_folder_id" := Str(h.folder), "remote_file_id" := Null, "off_vm_status" := Str("NOT_UPLOADED")]
  {
  }

  /** A complete backup sets five of them and leaves the others. */
  lemma CompletedWritten(h: Header, archive: Json, entries: seq<Json>)
    ensures Completed(h, archive, entries) == Obj(Started(h)
              ["archive" := archive]["evidence" := Arr(entries)]["evidence_file_count" := Num(|entries|)]
              ["completed_at_utc" := Str(h.completedAt)]["status" := Str("COMPLETE_LOCAL")])
  {
    hide Started;
  }

  /** Every field of an evidence entry. */
  lemma EntryWritten(tools: Tools, ref: Ref, encrypted: Bytes)
    ensures EntryOf(tools, ref, encrypted) == Obj(map[
              "table" := Str(ref.table), "row_id" := Num(ref.rowId), "path" := Str(ref.path), "size" := Num(ref.size),
              "sha256" := Str(ref.sha),
              "encrypted" := Obj(map["filename" := Str(ref.table + "-" + Decimal(ref.rowId) + ".age"), "size" := Num(|encrypted|),
                                     "sha256" := Str(tools.sha(encrypted))])])
  {
    hide Decimal;
  }

  predicate PlainNames(refs: seq<Ref>) {
    forall i :: 0 <= i < |refs| ==> IsPlainName(FileName(refs[i]))
  }

  lemma BackupEntryFields(tools: Tools, vault: Vault, root: EvidenceTree, refs: seq<Ref>, i: nat)
    requires i < |refs|
    ensures var e := BackupEntries(tools, vault, root, refs)[i];
            && EntryPath(e) == EvidencePath(FileName(refs[i]))
            && Get(e, "path") == Str(refs[i].path) && Get(e, "size") == Num(refs[i].size)
            && Get(e, "sha256") == Str(refs[i].sha)
            && Get(EntryMetadata(e), "filename") == Str(FileName(refs[i]))
            && Describes(tools, EntryMetadata(e), FileName(refs[i]), SealedAt(vault, root, refs[i], i))
  {
    hide FileName, EvidencePath, Describes, EntryOf, MetadataOf;
    EntryFields(tools, refs[i], SealedAt(vault, root, refs[i], i));
  }

  lemma BackupEntriesGood(tools: Tools, vault: Vault, root: EvidenceTree, refs: seq<Ref>)
    requires DistinctNames(refs) && PlainNames(refs)
    ensures var es := BackupEntries(tools, vault, root, refs);
            && (forall i :: 0 <= i < |es| ==> IsGoodEntry(es[i]) && EntryPath(es[i]) == EvidencePath(FileName(refs[i])))
            && (forall i :: 0 <= i < |es| ==> '\\' !in EntryPath(es[i]) && NUL !in EntryPath(es[i]))
            && (forall a, b :: 0 <= a < b < |es| ==> EntryPath(es[a]) != EntryPath(es[b]))
            && EntryPaths(es) == EvidenceNames(refs)
  {
    hide FileName, IsSimpleName, EndsWith, EntryPath, EntryOf, BackupEntries, EvidencePath;
    var es := BackupEntries(tools, vault, root, refs);
    forall i | 0 <= i < |es|
      ensures IsGoodEntry(es[i]) && EntryPath(es[i]) == EvidencePath(FileName(refs[i]))
      ensures '\\' !in EntryPath(es[i]) && NUL !in EntryPath(es[i])
    {
      BackupEntryFields(tools, vault, root, refs, i);
      PlainPath(FileName(refs[i]));
    }
    forall b | 0 <= b < |es|
      ensures forall a :: 0 <= a < b ==> EntryPath(es[a]) != EntryPath(es[b])
    {
      NamesApart(refs, b);
    }
    SamePaths(es, refs);
  }

  lemma PlainPath(name: string)
    requires IsPlainName(name)
    ensures '\\' !in EvidencePath(name) && NUL !in EvidencePath(name)
  {
  }

  lemma SamePaths(es: seq<Json>, refs: seq<Ref>)
    requires |es| == |refs| && forall i :: 0 <= i < |es| ==> EntryPath(es[i]) == EvidencePath(FileName(refs[i]))
    ensures EntryPaths(es) == EvidenceNames(refs)
  {
    hide EntryPath, EvidencePath, FileName;
    forall p
      ensures p in EntryPaths(es) <==> p in EvidenceNames(refs)
    {
      if p in EntryPaths(es) {
        var i :| 0 <= i < |es| && EntryPath(es[i]) == p;
        assert EvidencePath(FileName(refs[i])) == p;
      }
      if p in EvidenceNames(refs) {
        var i :| 0 <= i < |refs| && EvidencePath(FileName(refs[i])) == p;
        assert EntryPath(es[i]) == p;
      }
    }
  }

  /** What a backup makes is a complete package whose evidence files have distinct, plain names. */
  lemma BackupIsPackage(tools: Tools, vault: Vault, h: Header, dump: Bytes, root: EvidenceTree, refs: seq<Ref>, dir: Directory)
    requires tools.Lawful() && IsBackupId(h.backupId) && DistinctNames(refs) && PlainNames(refs)
    requires IsBackupOf(tools, vault, h, dump, root, refs, dir)
    ensures var j := BackupManifest(tools, vault, h, dump, root, refs);
            IsPackage(tools, dir, j) && EntriesDistinct(j) && PlainEntries(j)
  {
    hide FileName, EntryPath, EntryPaths, BackupEntries, Completed, IsBackupId, Describes, IsGoodEntry, EvidenceNames, EvidencePath,
         IsCompleteLocal, PlainNames, DistinctNames, SealedAt, EntryMetadata;
    var es := BackupEntries(tools, vault, root, refs);
    var j := BackupManifest(tools, vault, h, dump, root, refs);
    CompletedFields(h, MetadataOf(tools, ARCHIVE, vault.seal(0, dump)), es);
    BackupEntriesGood(tools, vault, root, refs);
    AllNodesAreFiles(vault, root, refs, dir);
    assert tools.parse(tools.render(j)) == Some(j);
    forall i | 0 <= i < |es|
      ensures EntryHolds(tools, es[i], DataOf(dir))
    {
      BackupEntryFields(tools, vault, root, refs, i);
    }
  }

  lemma AllNodesAreFiles(vault: Vault, root: EvidenceTree, refs: seq<Ref>, dir: Directory)
    requires HoldsEvidence(vault, root, refs, dir) && dir.Keys == {MANIFEST, ARCHIVE} + EvidenceNames(refs)
    requires dir[MANIFEST].File? && dir[ARCHIVE].File?
    ensures AllFiles(dir)
  {
    hide FileName, EvidencePath, SealedAt;
    forall n | n in dir
      ensures dir[n].File?
    {
      if n in EvidenceNames(refs) {
        var i :| 0 <= i < |refs| && EvidencePath(FileName(refs[i])) == n;
      }
    }
  }

  /** A backup that failed is never taken for a package. */
  lemma FailedIsNoPackage(tools: Tools, fields: map<string, Json>, code: string, dir: Directory, j: Json)
    requires tools.Lawful() && MANIFEST in dir && dir[MANIFEST] == File(tools.render(Failed(fields, code)))
    ensures !IsPackage(tools, dir, j)
  {
    hide FilesHold, HasBackupId;
    assert tools.parse(tools.render(Failed(fields, code))) == Some(Failed(fields, code));
    assert Get(Failed(fields, code), "status") == Str("FAILED");
  }

  /// ## Restoring

  /** Iterating over a JSON value: an empty object or string has no elements either. */
  function Items(j: Json): Option<seq<Json>> {
    if j.Arr? then Some(j.items)
    else if j == Obj(map[]) || j == Str("") then Some([])
    else None
  }

  predicate IsContract(j: Json) {
    && EqualsInt(Get(j, "manifest_version"), MANIFEST_VERSION) && Get(j, "status") == Str("COMPLETE_LOCAL")
    && Get(j, "off_vm_provider") == Str("google_drive") && Get(j, "alembic_head") == Str(EXPECTED_HEAD)
  }

  function ClearAt(vault: Vault, dir: Directory, path: string): Option<Bytes> {
    if path in dir && dir[path].File? then vault.open(dir[path].data) else None
  }

  function ClearOf(vault: Vault, dir: Directory, entry: Json): Option<Bytes> {
    ClearAt(vault, dir, EntryPath(entry))
  }

  function TargetOf(entry: Json): seq<string> {
    PathParts(if Get(entry, "path").Str? then Get(entry, "path").s else "")
  }

  /** The first `n` files as they are written. */
  function RestoredUpTo(vault: Vault, dir: Directory, entries: seq<Json>, n: nat): map<seq<string>, Bytes>
    requires n <= |entries|
  {
    if n == 0 then map[]
    else
      var before := RestoredUpTo(vault, dir, entries, n - 1);
      match ClearOf(vault, dir, entries[n - 1])
      case Some(data) => before[TargetOf(entries[n - 1]) := data]
      case None => before
  }

  function Restored(vault: Vault, dir: Directory, entries: seq<Json>): map<seq<string>, Bytes> {
    RestoredUpTo(vault, dir, entries, |entries|)
  }

  /** The target is no directory, and its parent directories can be made. */
  predicate IsFree(files: map<seq<string>, Bytes>, target: seq<string>) {
    target != [] && forall p :: p in files ==> !(p < target) && !(target < p)
  }

  predicate HasSafePath(entry: Json) {
    && Get(entry, "path").Str? && !IsAbsolute(Get(entry, "path").s) && ".." !in TargetOf(entry)
  }

  predicate ClearMatches(tools: Tools, entry: Json, data: Bytes) {
    EqualsInt(Get(entry, "size"), |data|) && Get(entry, "sha256") == Str(tools.sha(data))
  }

  predicate EntryRestores(tools: Tools, vault: Vault, dir: Directory, entries: seq<Json>, i: nat)
    requires i < |entries|
  {
    && HasSafePath(entries[i])
    && IsFree(RestoredUpTo(vault, dir, entries, i), TargetOf(entries[i]))
    && ClearOf(vault, dir, entries[i]).Some? && ClearMatches(tools, entries[i], ClearOf(vault, dir, entries[i]).value)
  }

  predicate ArchiveRestores(tools: Tools, vault: Vault, dir: Directory, metadata: Json) {
    && Verifies(tools, dir, "", metadata)
    && var clear := ClearAt(vault, dir, Get(metadata, "filename").s);
    && clear.Some? && vault.lists(clear.value) && vault.loads(clear.value).Some?
  }

  /** The database the archive restores. */
  function DatabaseIn(vault: Vault, dir: Directory, metadata: Json): Option<Database> {
    match ClearAt(vault, dir, if Get(metadata, "filename").Str? then Get(metadata, "filename").s else "")
    case Some(clear) => vault.loads(clear)
    case None => None
  }

  /** The entries list the references field by field. */
  predicate Lists(entries: seq<Json>, refs: seq<Ref>) {
    && |entries| == |refs|
    && forall i :: 0 <= i < |refs| ==> ListsRef(entries[i], refs[i])
  }

  predicate ListsRef(entry: Json, ref: Ref) {
    && Get(entry, "table") == Str(ref.table) && EqualsInt(Get(entry, "row_id"), ref.rowId)
    && Get(entry, "path") == Str(ref.path) && EqualsInt(Get(entry, "size"), ref.size) && Get(entry, "sha256") == Str(ref.sha)
  }

  /** The restored root holds a file of the recorded size and hash for the reference. */
  predicate Stands(tools: Tools, files: map<seq<string>, Bytes>, ref: Ref) {
    var path := PathParts(ref.path);
    path in files && |files[path]| == ref.size && tools.sha(files[path]) == ref.sha
  }

  /** The restored database is sound, refers to exactly the entries, and every file it refers to stands. */
  predicate IsValidRestore(tools: Tools, db: Database, entries: seq<Json>, files: map<seq<string>, Bytes>) {
    && db.sound && AllReadable("", db.workflow) && AllReadable(IMPROVEMENT_PREFIX, db.improvement)
    && var refs := AllRefs(db.workflow, db.improvement);
    && Lists(entries, refs)
    && forall i :: 0 <= i < |refs| ==> Stands(tools, files, refs[i])
  }

  /** The restore of a package with this manifest goes through. */
  predicate RestoreAccepts(tools: Tools, vault: Vault, dir: Directory, j: Json) {
    && IsContract(j) && ArchiveRestores(tools, vault, dir, Get(j, "archive"))
    && var items := Items(Get(j, "evidence"));
    && items.Some? && EqualsInt(Get(j, "evidence_file_count"), |items.value|)
    && (forall i :: 0 <= i < |items.value| ==>
          && Verifies(tools, dir, "evidence/", EntryMetadata(items.value[i]))
          && EntryRestores(tools, vault, dir, items.value, i))
    && DatabaseIn(vault, dir, Get(j, "archive")).Some?
    && IsValidRestore(tools, DatabaseIn(vault, dir, Get(j, "archive")).value, items.value,
                      Restored(vault, dir, items.value))
  }

  /** The evidence entries of the manifest in a package directory. */
  function EntriesIn(tools: Tools, dir: Directory): seq<Json> {
    if MANIFEST in dir && dir[MANIFEST].File? && tools.parse(dir[MANIFEST].data).Some? then
      var items := Items(Get(tools.parse(dir[MANIFEST].data).value, "evidence"));
      if items.Some? then items.value else []
    else []
  }

  predicate PartlyRestored(vault: Vault, dir: Directory, entries: seq<Json>, files: map<seq<string>, Bytes>) {
    exists n: nat :: n <= |entries| && files == RestoredUpTo(vault, dir, entries, n)
  }

  /// ## The final checks over the database's rows

  /** The root holds, at the parts of the row's prefixed key, a file of the row's size and digest. */
  predicate RowStands(tools: Tools, files: map<seq<string>, Bytes>, prefix: string, row: Row) {
    var path := PathParts(prefix + row.key);
    path in files && |files[path]| == row.size && tools.sha(files[path]) == row.digest
  }

  /** The entry is the row's own: its table and id, its path, size and digest. */
  predicate IsEntryOf(entry: Json, table: string, prefix: string, row: Row) {
    && Get(entry, "table") == Str(table) && EqualsInt(Get(entry, "row_id"), row.id)
    && Get(entry, "path") == Str(if PathParts(prefix + row.key) == [] then "." else Join(PathParts(prefix + row.key), "/"))
    && EqualsInt(Get(entry, "size"), row.size) && Get(entry, "sha256") == Str(row.digest)
  }

  /** The rows of a table are readable, stand in the root, and are the entries from `from` on. */
  predicate RowsAgree(tools: Tools, table: string, prefix: string, rows: seq<Row>, entries: seq<Json>, from: nat,
                      files: map<seq<string>, Bytes>)
  {
    && from + |rows| <= |entries|
    && forall i :: 0 <= i < |rows| ==>
         && IsReadable(prefix, rows[i]) && RowStands(tools, files, prefix, rows[i])
         && IsEntryOf(entries[from + i], table, prefix, rows[i])
  }

  /** The evidence paths of a table's rows. */
  function RowPaths(prefix: string, rows: seq<Row>): set<seq<string>> {
    set i | 0 <= i < |rows| :: PathParts(prefix + rows[i].key)
  }

  /** What the two evidence tables hold is what the root holds. */
  predicate RootIsRows(tools: Tools, db: Database, files: map<seq<string>, Bytes>) {
    && (forall i :: 0 <= i < |db.workflow| ==> RowStands(tools, files, "", db.workflow[i]))
    && (forall i :: 0 <= i < |db.improvement| ==> RowStands(tools, files, "continuous-improvement/", db.improvement[i]))
    && files.Keys == RowPaths("", db.workflow) + RowPaths("continuous-improvement/", db.improvement)
  }

  lemma ReadablePath(table: string, prefix: string, row: Row)
    requires IsReadable(prefix, row)
    ensures PathParts(RefOf(table, prefix, row).path) == PathParts(prefix + row.key)
  {
    hide PathParts, PathText, IsDigest;
    PathReadBack(prefix + row.key);
  }

  lemma RowAsRef(tools: Tools, table: string, prefix: string, row: Row, entry: Json, files: map<seq<string>, Bytes>)
    requires IsReadable(prefix, row)
    ensures ListsRef(entry, RefOf(table, prefix, row)) <==> IsEntryOf(entry, table, prefix, row)
    ensures Stands(tools, files, RefOf(table, prefix, row)) <==> RowStands(tools, files, prefix, row)
  {
    hide PathParts, IsDigest, Get, EqualsInt, Join;
    ReadablePath(table, prefix, row);
  }

  /** References of one table against entries and files. */
  predicate RefsAgree(tools: Tools, refs: seq<Ref>, entries: seq<Json>, from: nat, files: map<seq<string>, Bytes>) {
    && from + |refs| <= |entries|
    && forall i :: 0 <= i < |refs| ==> ListsRef(entries[from + i], refs[i]) && Stands(tools, files, refs[i])
  }

  lemma RowsAsRefs(tools: Tools, table: string, prefix: string, rows: seq<Row>, entries: seq<Json>, from: nat,
                   files: map<seq<string>, Bytes>)
    ensures RowsAgree(tools, table, prefix, rows, entries, from, files)
            <==> AllReadable(prefix, rows) && RefsAgree(tools, RefsOf(table, prefix, rows), entries, from, files)
  {
    hide IsReadable, ListsRef, Stands, IsEntryOf, RowStands, RefOf;
    forall i | 0 <= i < |rows| && from + |rows| <= |entries| && IsReadable(prefix, rows[i])
      ensures ListsRef(entries[from + i], RefsOf(table, prefix, rows)[i]) <==> IsEntryOf(entries[from + i], table, prefix, rows[i])
      ensures Stands(tools, files, RefsOf(table, prefix, rows)[i]) <==> RowStands(tools, files, prefix, rows[i])
    {
      RowAsRef(tools, table, prefix, rows[i], entries[from + i], files);
    }
  }

  lemma RefsInTwo(tools: Tools, a: seq<Ref>, b: seq<Ref>, entries: seq<Json>, files: map<seq<string>, Bytes>)
    ensures Lists(entries, a + b) && (forall i :: 0 <= i < |a + b| ==> Stands(tools, files, (a + b)[i])) <==>
            && |entries| == |a| + |b|
            && RefsAgree(tools, a, entries, 0, files) && RefsAgree(tools, b, entries, |a|, files)
  {
    hide ListsRef, Stands;
    var refs := a + b;
    assert forall i :: 0 <= i < |a| ==> refs[i] == a[i];
    assert forall i :: 0 <= i < |b| ==> refs[|a| + i] == b[i];
    if RefsAgree(tools, b, entries, |a|, files) {
      forall i | |a| <= i < |refs|
        ensures i < |entries| && ListsRef(entries[i], refs[i]) && Stands(tools, files, refs[i])
      {
        assert ListsRef(entries[|a| + (i - |a|)], b[i - |a|]);
      }
    }
  }

  /** The final checks pass exactly when the database is sound and its rows, the entries and the files agree one by one. */
  lemma ValidIff(tools: Tools, db: Database, entries: seq<Json>, files: map<seq<string>, Bytes>)
    ensures IsValidRestore(tools, db, entries, files) <==>
            && db.sound && |entries| == |db.workflow| + |db.improvement|
            && RowsAgree(tools, "workflow_execution_evidence_files", "", db.workflow, entries, 0, files)
            && RowsAgree(tools, "continuous_improvement_execution_evidence_files", "continuous-improvement/",
                         db.improvement, entries, |db.workflow|, files)
  {
    hide Lists, Stands, RowsAgree, RefsAgree, AllReadable;
    TableNames();
    RowsAsRefs(tools, WORKFLOW, "", db.workflow, entries, 0, files);
    RowsAsRefs(tools, IMPROVEMENT, IMPROVEMENT_PREFIX, db.improvement, entries, |db.workflow|, files);
    RefsInTwo(tools, RefsOf(WORKFLOW, "", db.workflow), RefsOf(IMPROVEMENT, IMPROVEMENT_PREFIX, db.improvement), entries, files);
  }

  /** A restore that went through leaves files at the entries' paths only. */
  lemma {:induction false} RestoredPaths(vault: Vault, dir: Directory, entries: seq<Json>, n: nat)
    requires n <= |entries| && forall i :: 0 <= i < n ==> ClearOf(vault, dir, entries[i]).Some?
    ensures RestoredUpTo(vault, dir, entries, n).Keys == set i | 0 <= i < n :: TargetOf(entries[i])
  {
    hide TargetOf, ClearOf;
    if n > 0 {
      RestoredPaths(vault, dir, entries, n - 1);
    }
  }

  /** The entries' paths are those of the rows. */
  lemma EntryPathsAreRows(tools: Tools, db: Database, entries: seq<Json>, files: map<seq<string>, Bytes>)
    requires IsValidRestore(tools, db, entries, files)
    ensures (set i | 0 <= i < |entries| :: TargetOf(entries[i]))
         == RowPaths("", db.workflow) + RowPaths("continuous-improvement/", db.improvement)
  {
    hide RowsAgree, PathParts, IsValidRestore, TargetOf, RowPaths;
    ValidIff(tools, db, entries, files);
    var n := |db.workflow|;
    RowTargets(tools, "workflow_execution_evidence_files", "", db.workflow, entries, 0, files);
    RowTargets(tools, "continuous_improvement_execution_evidence_files", "continuous-improvement/", db.improvement, entries, n, files);
    forall i | n <= i < |entries|
      ensures TargetOf(entries[i]) == PathParts("continuous-improvement/" + db.improvement[i - n].key)
    {
      assert entries[i] == entries[n + (i - n)];
    }
    TargetsAreRows(entries, db.workflow, db.improvement);
  }

  lemma RowTargets(tools: Tools, table: string, prefix: string, rows: seq<Row>, entries: seq<Json>, from: nat,
                   files: map<seq<string>, Bytes>)
    requires RowsAgree(tools, table, prefix, rows, entries, from, files)
    ensures forall i :: 0 <= i < |rows| ==> TargetOf(entries[from + i]) == PathParts(prefix + rows[i].key)
  {
    hide IsReadable, RowStands, PathParts, TargetOf, IsEntryOf;
    forall i | 0 <= i < |rows|
      ensures TargetOf(entries[from + i]) == PathParts(prefix + rows[i].key)
    {
      EntryTarget(entries[from + i], table, prefix, rows[i]);
    }
  }

  lemma TargetsAreRows(entries: seq<Json>, first: seq<Row>, second: seq<Row>)
    requires |entries| == |first| + |second|
    requires forall i :: 0 <= i < |entries| ==>
               TargetOf(entries[i]) == if i < |first| then PathParts("" + first[i].key)
                                       else PathParts("continuous-improvement/" + second[i - |first|].key)
    ensures (set i | 0 <= i < |entries| :: TargetOf(entries[i]))
         == RowPaths("", first) + RowPaths("continuous-improvement/", second)
  {
    hide PathParts, TargetOf;
    forall p | p in RowPaths("", first)
      ensures p in (set i | 0 <= i < |entries| :: TargetOf(entries[i]))
    {
      var i :| 0 <= i < |first| && PathParts("" + first[i].key) == p;
      assert TargetOf(entries[i]) == p;
    }
    forall p | p in RowPaths("continuous-improvement/", second)
      ensures p in (set i | 0 <= i < |entries| :: TargetOf(entries[i]))
    {
      var i :| 0 <= i < |second| && PathParts("continuous-improvement/" + second[i].key) == p;
      assert TargetOf(entries[|first| + i]) == p;
    }
  }

  lemma TableNames()
    ensures WORKFLOW == "workflow_execution_evidence_files"
    ensures IMPROVEMENT == "continuous_improvement_execution_evidence_files"
  {
  }

  lemma EntryTarget(entry: Json, table: string, prefix: string, row: Row)
    requires IsEntryOf(entry, table, prefix, row) && IsReadable(prefix, row)
    ensures TargetOf(entry) == PathParts(prefix + row.key)
  {
    hide PathParts, IsDigest, Join;
    PathReadBack(prefix + row.key);
  }

  /** After a restore that went through the root is what the restored database's rows say. */
  lemma RestoredRootIsRows(tools: Tools, vault: Vault, dir: Directory, j: Json)
    requires RestoreAccepts(tools, vault, dir, j)
    ensures DatabaseIn(vault, dir, Get(j, "archive")).Some? && DatabaseIn(vault, dir, Get(j, "archive")).value.sound
    ensures RootIsRows(tools, DatabaseIn(vault, dir, Get(j, "archive")).value, Restored(vault, dir, Items(Get(j, "evidence")).value))
  {
    hide IsContract, ArchiveRestores, Verifies, IsReadable, RowStands, IsFree, ClearMatches, HasSafePath, PathParts, IsEntryOf,
         IsValidRestore, TargetOf, ClearOf, RestoredUpTo, DatabaseIn;
    var entries, db := Items(Get(j, "evidence")).value, DatabaseIn(vault, dir, Get(j, "archive")).value;
    var files := Restored(vault, dir, entries);
    ValidIff(tools, db, entries, files);
    forall i | 0 <= i < |entries|
      ensures ClearOf(vault, dir, entries[i]).Some?
    {
      assert EntryRestores(tools, vault, dir, entries, i);
    }
    RestoredPaths(vault, dir, entries, |entries|);
    EntryPathsAreRows(tools, db, entries, files);
  }

  /** The database that a restore of the package in this directory loads. */
  predicate Loads(tools: Tools, vault: Vault, dir: Directory, db: Database) {
    && MANIFEST in dir && dir[MANIFEST].File? && tools.parse(dir[MANIFEST].data).Some?
    && var name := Get(Get(tools.parse(dir[MANIFEST].data).value, "archive"), "filename");
    && name.Str? && name.s in dir && dir[name.s].File?
    && vault.open(dir[name.s].data).Some? && vault.loads(vault.open(dir[name.s].data).value) == Some(db)
  }

  lemma DatabaseLoads(tools: Tools, vault: Vault, dir: Directory)
    requires MANIFEST in dir && dir[MANIFEST].File? && tools.parse(dir[MANIFEST].data).Some?
    requires RestoreAccepts(tools, vault, dir, tools.parse(dir[MANIFEST].data).value)
    ensures var j := tools.parse(dir[MANIFEST].data).value;
            && DatabaseIn(vault, dir, Get(j, "archive")).Some?
            && Loads(tools, vault, dir, DatabaseIn(vault, dir, Get(j, "archive")).value)
            && forall db :: Loads(tools, vault, dir, db) ==> db == DatabaseIn(vault, dir, Get(j, "archive")).value
  {
    hide IsContract, EntryRestores, IsValidRestore, Items;
  }

  /** After a restore that went through the root is what the rows of the one database it loaded say. */
  lemma RestoredAsLoaded(tools: Tools, vault: Vault, dir: Directory)
    requires MANIFEST in dir && dir[MANIFEST].File? && tools.parse(dir[MANIFEST].data).Some?
    requires RestoreAccepts(tools, vault, dir, tools.parse(dir[MANIFEST].data).value)
    ensures exists db :: Loads(tools, vault, dir, db)
    ensures forall db :: Loads(tools, vault, dir, db) ==>
              db.sound && RootIsRows(tools, db, Restored(vault, dir, EntriesIn(tools, dir)))
  {
    hide RestoreAccepts, Loads, RootIsRows, Restored, DatabaseIn;
    DatabaseLoads(tools, vault, dir);
    RestoredRootIsRows(tools, vault, dir, tools.parse(dir[MANIFEST].data).value);
    assert Items(Get(tools.parse(dir[MANIFEST].data).value, "evidence")).Some? by {
      AcceptedHasItems(tools, vault, dir, tools.parse(dir[MANIFEST].data).value);
    }
  }

  lemma AcceptedHasItems(tools: Tools, vault: Vault, dir: Directory, j: Json)
    requires RestoreAccepts(tools, vault, dir, j)
    ensures Items(Get(j, "evidence")).Some?
  {
  }

  class EvidenceRoot {
    var files: map<seq<string>, Bytes>

    constructor ()
      ensures files == map[]
    {
      files := map[];
    }

    /**
     Verifies every encrypted file, then decrypts the evidence in order, checking
     each file against its entry, loads the dump, and checks the restored database
     and the files against each other. On failure the root holds the files written
     so far, in order, and nothing else.
     */
    method RestoreIsolated(tools: Tools, vault: Vault, dir: Directory) returns (r: Result<nat, string>)
      modifies this
      ensures r.Success? <==>
              && old(files) == map[] && MANIFEST in dir && dir[MANIFEST].File? && tools.parse(dir[MANIFEST].data).Some?
              && RestoreAccepts(tools, vault, dir, tools.parse(dir[MANIFEST].data).value)
      ensures r.Success? ==>
                r.value == |EntriesIn(tools, dir)| && files == Restored(vault, dir, EntriesIn(tools, dir))
      ensures r.Success? ==>
                && (exists db :: Loads(tools, vault, dir, db))
                && forall db :: Loads(tools, vault, dir, db) ==> db.sound && RootIsRows(tools, db, files)
      ensures r.Failure? ==>
                || files == old(files)
                || (old(files) == map[] && PartlyRestored(vault, dir, EntriesIn(tools, dir), files))
    {
      hide Verifies, EntryRestores, RestoredUpTo, IsValidRestore, RootIsRows, Loads, RowsAgree, EntryMetadata, Get, Items,
           EqualsInt;
      if files != map[] {
        return Failure("restore_inputs_invalid");
      }
      if MANIFEST !in dir || !dir[MANIFEST].File? || tools.parse(dir[MANIFEST].data).None? {
        return Failure("restore_failed");
      }
      var j := tools.parse(dir[MANIFEST].data).value;
      if !EqualsInt(Get(j, "manifest_version"), MANIFEST_VERSION) || Get(j, "status") != Str("COMPLETE_LOCAL") {
        return Failure("backup_not_complete_local");
      }
      if Get(j, "off_vm_provider") != Str("google_drive") || Get(j, "alembic_head") != Str(EXPECTED_HEAD) {
        return Failure("manifest_contract_invalid");
      }
      var archived := VerifyFile(tools, dir, "", Get(j, "archive"));
      if !archived {
        return Failure("archive_checksum_mismatch");
      }
      if Items(Get(j, "evidence")).None? {
        return Failure("restore_failed");
      }
      var entries := Items(Get(j, "evidence")).value;
      var held := VerifyEvidence(tools, dir, entries);
      if !held {
        return Failure("archive_checksum_mismatch");
      }
      if !EqualsInt(Get(j, "evidence_file_count"), |entries|) {
        return Failure("evidence_count_mismatch");
      }
      VerifiedName(tools, dir, "", Get(j, "archive"));
      var dump := ClearAt(vault, dir, Get(Get(j, "archive"), "filename").s);
      if dump.None? || !vault.lists(dump.value) {
        return Failure("tool_failed");
      }
      var _ :- RestoreEntries(tools, vault, dir, entries);
      assert PartlyRestored(vault, dir, entries, files);
      if vault.loads(dump.value).None? {
        return Failure("tool_failed");
      }
      var _ :- Validate(tools, vault.loads(dump.value).value, entries);
      RestoredAsLoaded(tools, vault, dir);
      return Success(|entries|);
    }

    /** Every encrypted file against its entry. */
    method VerifyEvidence(tools: Tools, dir: Directory, entries: seq<Json>) returns (ok: bool)
      ensures ok <==> forall k :: 0 <= k < |entries| ==> Verifies(tools, dir, "evidence/", EntryMetadata(entries[k]))
    {
      hide Verifies;
      for i := 0 to |entries|
        invariant forall k :: 0 <= k < i ==> Verifies(tools, dir, "evidence/", EntryMetadata(entries[k]))
      {
        var held := VerifyFile(tools, dir, "evidence/", EntryMetadata(entries[i]));
        if !held {
          return false;
        }
      }
      return true;
    }

    /** What is checked once everything is restored, by reading only. */
    method Validate(tools: Tools, db: Database, entries: seq<Json>) returns (r: Result<(), string>)
      ensures r.Success? <==> IsValidRestore(tools, db, entries, files)
      ensures r.Success? <==>
                && db.sound && |entries| == |db.workflow| + |db.improvement|
                && RowsAgree(tools, "workflow_execution_evidence_files", "", db.workflow, entries, 0, files)
                && RowsAgree(tools, "continuous_improvement_execution_evidence_files", "continuous-improvement/",
                             db.improvement, entries, |db.workflow|, files)
    {
      hide PathParts, AllReadable, AllRefs, ListsRef, RowsAgree;
      ValidIff(tools, db, entries, files);
      if !db.sound {
        return Failure("financial_integrity_check_failed");
      }
      var refs :- EvidenceRefs(db.workflow, db.improvement);
      if !Lists(entries, refs) {
        return Failure("restored_evidence_inventory_mismatch");
      }
      for i := 0 to |refs|
        invariant forall k :: 0 <= k < i ==> Stands(tools, files, refs[k])
      {
        var path := PathParts(refs[i].path);
        if path !in files {
          return Failure("evidence_missing");
        }
        if tools.sha(files[path]) != refs[i].sha || |files[path]| != refs[i].size {
          return Failure("restored_evidence_mismatch");
        }
      }
      return Success(());
    }

    method RestoreEntries(tools: Tools, vault: Vault, dir: Directory, entries: seq<Json>) returns (r: Result<(), string>)
      requires files == map[]
      modifies this
      ensures r.Success? <==> forall i :: 0 <= i < |entries| ==> EntryRestores(tools, vault, dir, entries, i)
      ensures r.Success? ==> files == Restored(vault, dir, entries)
      ensures r.Failure? ==> PartlyRestored(vault, dir, entries, files)
    {
      hide PathParts, ClearMatches;
      for i := 0 to |entries|
        invariant forall k :: 0 <= k < i ==> EntryRestores(tools, vault, dir, entries, k)
        invariant files == RestoredUpTo(vault, dir, entries, i)
      {
        assert EntryRestores(tools, vault, dir, entries, i) ==> HasSafePath(entries[i]);
        if !HasSafePath(entries[i]) {
          return Failure("evidence_key_invalid");
        }
        var target := TargetOf(entries[i]);
        if !IsFree(files, target) {
          return Failure("restore_failed");
        }
        var clear := ClearOf(vault, dir, entries[i]);
        if clear.None? {
          return Failure("tool_failed");
        }
        files := files[target := clear.value];
        assert files == RestoredUpTo(vault, dir, entries, i + 1);
        if !ClearMatches(tools, entries[i], clear.value) {
          return Failure("restored_evidence_mismatch");
        }
      }
      return Success(());
    }
  }

  lemma VerifiedName(tools: Tools, dir: Directory, prefix: string, metadata: Json)
    requires Verifies(tools, dir, prefix, metadata)
    ensures Get(metadata, "filename").Str?
  {
  }

  /// ## From end to end

  function Paths(refs: seq<Ref>): set<seq<string>> {
    set i | 0 <= i < |refs| :: PathParts(refs[i].path)
  }

  /** The referenced files of an evidence directory, under their paths. */
  function Referenced(root: EvidenceTree, refs: seq<Ref>): map<seq<string>, Bytes> {
    map p | p in Paths(refs) && p in root && root[p].File? :: root[p].data
  }

  lemma BackupLists(tools: Tools, vault: Vault, root: EvidenceTree, refs: seq<Ref>)
    ensures Lists(BackupEntries(tools, vault, root, refs), refs)
  {
    hide FileName, MetadataOf, SealedAt;
  }

  /** The first `n` entries decrypt to the referenced bytes. */
  predicate Decrypts(vault: Vault, dir: Directory, entries: seq<Json>, root: EvidenceTree, refs: seq<Ref>, n: nat)
    requires n <= |entries| && n <= |refs|
  {
    forall i :: 0 <= i < n ==>
      DataAt(root, refs[i]).Some? && ClearOf(vault, dir, entries[i]) == DataAt(root, refs[i])
  }

  lemma PathsNext(refs: seq<Ref>, n: nat)
    requires n < |refs|
    ensures Paths(refs[..n + 1]) == Paths(refs[..n]) + {PathParts(refs[n].path)}
    ensures Paths(refs[..0]) == {}
  {
    hide PathParts;
    assert forall k :: 0 <= k < n ==> refs[..n + 1][k] == refs[..n][k] == refs[k];
    assert refs[..n + 1][n] == refs[n];
    forall p | p in Paths(refs[..n])
      ensures p in Paths(refs[..n + 1])
    {
      var k :| 0 <= k < n && PathParts(refs[..n][k].path) == p;
      assert PathParts(refs[..n + 1][k].path) == p;
    }
    assert PathParts(refs[..n + 1][n].path) == PathParts(refs[n].path);
  }

  /** Decrypting each entry to its referenced bytes gives exactly the referenced files. */
  lemma {:induction false} RestoredIsReferenced(vault: Vault, dir: Directory, entries: seq<Json>, root: EvidenceTree,
                                                refs: seq<Ref>, n: nat)
    requires Lists(entries, refs) && n <= |refs| && Decrypts(vault, dir, entries, root, refs, n)
    ensures RestoredUpTo(vault, dir, entries, n) == Referenced(root, refs[..n])
    ensures Referenced(root, refs[..n]).Keys == Paths(refs[..n])
  {
    hide PathParts, ClearOf, DataAt, Paths, Referenced;
    if n == 0 {
      NoPaths(root, refs);
    } else {
      RestoredIsReferenced(vault, dir, entries, root, refs, n - 1);
      ReferencedNext(root, refs, n - 1);
    }
  }

  lemma ReferencedNext(root: EvidenceTree, refs: seq<Ref>, n: nat)
    requires n < |refs| && DataAt(root, refs[n]).Some? && Referenced(root, refs[..n]).Keys == Paths(refs[..n])
    ensures Referenced(root, refs[..n + 1])
         == Referenced(root, refs[..n])[PathParts(refs[n].path) := DataAt(root, refs[n]).value]
    ensures Referenced(root, refs[..n + 1]).Keys == Paths(refs[..n + 1])
  {
    hide PathParts, Paths;
    PathsNext(refs, n);
  }

  lemma NoPaths(root: EvidenceTree, refs: seq<Ref>)
    ensures Paths(refs[..0]) == {} && Referenced(root, refs[..0]) == map[]
  {
  }

  /** In a tree no referenced file stands in another's way. */
  lemma ReferencedFree(root: EvidenceTree, refs: seq<Ref>, n: nat)
    requires n < |refs| && IsTree(root) && DataAt(root, refs[n]).Some?
    ensures IsFree(Referenced(root, refs[..n]), PathParts(refs[n].path))
  {
    hide PathParts;
  }

  lemma ClearOfBackup(tools: Tools, vault: Vault, h: Header, dump: Bytes, root: EvidenceTree, refs: seq<Ref>,
                      dir: Directory, i: nat)
    requires vault.Lawful() && IsBackupOf(tools, vault, h, dump, root, refs, dir) && i < |refs|
    requires DataAt(root, refs[i]).Some?
    ensures var e := BackupEntries(tools, vault, root, refs)[i];
            && ClearOf(vault, dir, e) == DataAt(root, refs[i])
            && (IsPlainName(FileName(refs[i])) ==> Verifies(tools, dir, "evidence/", EntryMetadata(e)))
  {
    hide FileName, BackupManifest, EvidenceNames, BackupEntries, EntryPath, DataAt;
    BackupEntryFields(tools, vault, root, refs, i);
    var data := DataAt(root, refs[i]).value;
    assert vault.open(vault.seal(i + 1, data)) == Some(data);
  }

  /** A sound database whose rows give these references. */
  predicate IsSource(db: Database, refs: seq<Ref>) {
    && db.sound && AllReadable("", db.workflow) && AllReadable(IMPROVEMENT_PREFIX, db.improvement)
    && AllRefs(db.workflow, db.improvement) == refs
  }

  /** The referenced files of a root they match stand. */
  lemma ReferencedStand(tools: Tools, root: EvidenceTree, refs: seq<Ref>, i: nat)
    requires AllMatch(tools, root, refs) && i < |refs|
    ensures Stands(tools, Referenced(root, refs), refs[i])
  {
    hide PathParts;
    assert Matches(tools, root, refs[i]);
    assert PathParts(refs[i].path) in Paths(refs);
  }

  /** The database the dump was taken of and the files it refers to pass the final checks. */
  lemma SourceIsValid(tools: Tools, vault: Vault, root: EvidenceTree, refs: seq<Ref>, db: Database)
    requires AllMatch(tools, root, refs) && IsSource(db, refs)
    ensures IsValidRestore(tools, db, BackupEntries(tools, vault, root, refs), Referenced(root, refs))
  {
    hide Stands, Referenced, Lists, AllMatch, AllReadable, AllRefs;
    BackupLists(tools, vault, root, refs);
    forall i | 0 <= i < |refs|
      ensures Stands(tools, Referenced(root, refs), refs[i])
    {
      ReferencedStand(tools, root, refs, i);
    }
  }

  /**
   Restoring an intact backup with the matching key goes through and leaves the
   root holding exactly the referenced paths with their original bytes.
   */
  lemma RestoreOfBackup(tools: Tools, vault: Vault, h: Header, dump: Bytes, root: EvidenceTree, refs: seq<Ref>,
                        dir: Directory)
    requires vault.Lawful() && vault.lists(dump) && vault.loads(dump).Some?
    requires IsTree(root) && AllMatch(tools, root, refs) && PlainNames(refs)
    requires forall i :: 0 <= i < |refs| ==> StaysInside(refs[i])
    requires IsSource(vault.loads(dump).value, refs)
    requires IsBackupOf(tools, vault, h, dump, root, refs, dir)
    ensures RestoreAccepts(tools, vault, dir, BackupManifest(tools, vault, h, dump, root, refs))
    ensures Restored(vault, dir, BackupEntries(tools, vault, root, refs)) == Referenced(root, refs)
  {
    hide FileName, BackupEntries, Completed, PathParts, Describes, EntryPath, IsBackupOf, RestoredUpTo, ArchiveRestores,
         DataAt, Verifies, ClearOf, Referenced, EntryMetadata, DatabaseIn, IsValidRestore, IsSource;
    var es := BackupEntries(tools, vault, root, refs);
    CompletedFields(h, MetadataOf(tools, ARCHIVE, vault.seal(0, dump)), es);
    BackupLists(tools, vault, root, refs);
    ArchiveOfBackup(tools, vault, h, dump, root, refs, dir);
    forall i | 0 <= i < |es|
      ensures Verifies(tools, dir, "evidence/", EntryMetadata(es[i])) && ClearOf(vault, dir, es[i]) == DataAt(root, refs[i])
    {
      ClearOfBackup(tools, vault, h, dump, root, refs, dir, i);
    }
    forall i | 0 <= i < |es|
      ensures EntryRestores(tools, vault, dir, es, i)
    {
      RestoredIsReferenced(vault, dir, es, root, refs, i);
      ReferencedFree(root, refs, i);
    }
    RestoredIsReferenced(vault, dir, es, root, refs, |refs|);
    assert refs[..|refs|] == refs;
    SourceIsValid(tools, vault, root, refs, vault.loads(dump).value);
  }

  lemma ArchiveOfBackup(tools: Tools, vault: Vault, h: Header, dump: Bytes, root: EvidenceTree, refs: seq<Ref>, dir: Directory)
    requires vault.Lawful() && vault.lists(dump) && vault.loads(dump).Some?
    requires IsBackupOf(tools, vault, h, dump, root, refs, dir)
    ensures ArchiveRestores(tools, vault, dir, MetadataOf(tools, ARCHIVE, vault.seal(0, dump)))
    ensures DatabaseIn(vault, dir, MetadataOf(tools, ARCHIVE, vault.seal(0, dump))) == vault.loads(dump)
  {
    hide FileName, BackupManifest, EvidenceNames, HoldsEvidence, IsSimpleName;
    FixedNames();
    assert "" + ARCHIVE == ARCHIVE;
    assert vault.open(vault.seal(0, dump)) == Some(dump);
  }

  /** The package directory an envelope is extracted into. */
  function Received(files: map<string, Bytes>): (dir: Directory)
    ensures AllFiles(dir) && DataOf(dir) == files
  {
    map n | n in files :: File(files[n])
  }

  /**
   Backup, envelope, extract and restore: for all evidence rows with readable
   keys whose files match them, the restored root holds exactly the referenced
   paths with their original bytes.
   */
  lemma EndToEnd(tools: Tools, vault: Vault, h: Header, dump: Bytes, root: EvidenceTree,
                 workflow: seq<Row>, improvement: seq<Row>, dir: Directory, max: nat)
    requires tools.Lawful() && vault.Lawful() && IsBackupId(h.backupId)
    requires vault.lists(dump) && vault.loads(dump) == Some(Database(workflow, improvement, true))
    requires UniqueIds(workflow) && UniqueIds(improvement) && IsTree(root)
    requires AllReadable("", workflow) && AllReadable(IMPROVEMENT_PREFIX, improvement)
    requires AllMatch(tools, root, AllRefs(workflow, improvement))
    requires IsBackupOf(tools, vault, h, dump, root, AllRefs(workflow, improvement), dir)
    requires var j := BackupManifest(tools, vault, h, dump, root, AllRefs(workflow, improvement));
             PackageFits(tools, j, dir, max)
    ensures var refs := AllRefs(workflow, improvement);
            var j := BackupManifest(tools, vault, h, dump, root, refs);
            var envelope := tools.tar(Sort(PackageMembers(j, DataOf(dir))));
            && Extracts(tools, envelope, tools.sha(envelope), max, j)
            && var received := Received(FilesOf(tools.untar(envelope).value));
            && RestoreAccepts(tools, vault, received, j)
            && Restored(vault, received, Evidence(j)) == Referenced(root, refs)
  {
    hide FileName, BackupEntries, Completed, PathParts, RestoreAccepts, IsReadable, AllRefs, FilesOf, Sort, IsBackupId,
         Extracts, IsBackupOf, RestoredUpTo, IsPackage, Referenced, Restored, EntriesDistinct, PlainEntries, TotalSize, Inspects,
         AllReadable, AllMatch;
    var refs := AllRefs(workflow, improvement);
    var j := BackupManifest(tools, vault, h, dump, root, refs);
    RefNamesDistinct(workflow, improvement);
    RefsStayInside(workflow, improvement);
    BackupIsPackage(tools, vault, h, dump, root, refs, dir);
    EnvelopeRoundTrip(tools, dir, j, max);
    var received := Received(FilesOf(tools.untar(tools.tar(Sort(PackageMembers(j, DataOf(dir))))).value));
    SameDirectory(dir, received, tools, j);
    RestoreOfBackup(tools, vault, h, dump, root, refs, dir);
    CompletedFields(h, MetadataOf(tools, ARCHIVE, vault.seal(0, dump)), BackupEntries(tools, vault, root, refs));
  }

  /** The size limits the readers put on a package. */
  predicate PackageFits(tools: Tools, j: Json, dir: Directory, max: nat) {
    && MANIFEST in DataOf(dir) && ARCHIVE in DataOf(dir) && |DataOf(dir)[MANIFEST]| <= MAX_MANIFEST
    && Estimate(Sort(PackageMembers(j, DataOf(dir)))) <= max
    && |tools.tar(Sort(PackageMembers(j, DataOf(dir))))| <= max
  }

  lemma SameDirectory(a: Directory, b: Directory, tools: Tools, j: Json)
    requires IsPackage(tools, a, j) && AllFiles(b) && DataOf(a) == DataOf(b)
    ensures a == b
  {
    hide FilesHold, HasBackupId, IsCompleteLocal;
    forall n | n in a
      ensures a[n] == b[n]
    {
      assert n in DataOf(a) && DataOf(a)[n] == DataOf(b)[n];
    }
  }

  /**
   With a hash without collisions, a restore under the backup's own manifest
   that goes through leaves the original bytes, whatever the encrypted files
   were replaced with and whatever key decrypts them.
   */
  lemma OnlyOriginalBytes(tools: Tools, vault: Vault, h: Header, dump: Bytes, root: EvidenceTree, refs: seq<Ref>,
                          other: Vault, dir: Directory)
    requires tools.CollisionFree() && AllMatch(tools, root, refs)
    requires RestoreAccepts(tools, other, dir, BackupManifest(tools, vault, h, dump, root, refs))
    ensures Restored(other, dir, BackupEntries(tools, vault, root, refs)) == Referenced(root, refs)
  {
    hide FileName, BackupEntries, Completed, PathParts, Describes, EntryPath, RestoredUpTo, ArchiveRestores, Verifies,
         Referenced, IsFree, IsContract, ClearOf, DataAt, IsValidRestore, DatabaseIn;
    var es := BackupEntries(tools, vault, root, refs);
    CompletedFields(h, MetadataOf(tools, ARCHIVE, vault.seal(0, dump)), es);
    BackupLists(tools, vault, root, refs);
    forall i | 0 <= i < |es|
      ensures DataAt(root, refs[i]).Some? && ClearOf(other, dir, es[i]) == DataAt(root, refs[i])
    {
      assert EntryRestores(tools, other, dir, es, i) && Matches(tools, root, refs[i]);
    }
    RestoredIsReferenced(other, dir, es, root, refs, |refs|);
    assert refs[..|refs|] == refs;
  }
}
