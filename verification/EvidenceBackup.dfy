/**
 Backing up the evidence files the database refers to, and restoring them: the
 references, the encrypted package, and the isolated restore.
 */
module EvidenceBackup {
  import opened Common
  import opened Strings
  import opened Packages
  import opened MemberOrder
  import opened Envelope

  /// ## Encryption and the database tools

  /** A row of an evidence table; an absent key or digest reads as the empty string. */
  datatype Row = Row(id: int, key: string, size: int, digest: string)

  /** What is read of a database: its evidence rows, and whether its head, guards and hash chains pass the checks. */
  datatype Database = Database(workflow: seq<Row>, improvement: seq<Row>, sound: bool)

  /**
   Encryption takes the position of the file, so that the same bytes may be
   encrypted differently each time. `lists` and `loads` are the two runs of
   `pg_restore` on a decrypted dump, the second with the database it restores.
   */
  datatype Vault = Vault(seal: (nat, Bytes) -> Bytes, open: Bytes -> Option<Bytes>,
                         lists: Bytes -> bool, loads: Bytes -> Option<Database>) {
    ghost predicate Lawful() {
      forall n, data :: open(seal(n, data)) == Some(data)
    }
  }

  /// ## References

  datatype Ref = Ref(table: string, rowId: int, path: string, size: int, sha: string)

  const EVIDENCE_FILES := "_execution_evidence_files"
  const WORKFLOW := "workflow" + EVIDENCE_FILES
  const IMPROVEMENT := "continuous_improvement" + EVIDENCE_FILES
  const IMPROVEMENT_PREFIX := "continuous-improvement/"

  predicate IsDigest(s: string) {
    |s| == 64 && forall i :: 0 <= i < |s| ==> IsHex(s[i])
  }

  /** `str(PurePosixPath(...))` of a relative path with these parts. */
  function PathText(parts: seq<string>): string {
    if parts == [] then "." else Join(parts, "/")
  }

  predicate IsReadable(prefix: string, row: Row) {
    && row.key != "" && IsDigest(row.digest) && row.size >= 0
    && !IsAbsolute(prefix + row.key) && ".." !in PathParts(prefix + row.key)
  }

  const HEX_DIGITS := "0123456789abcdef"

  /** A key that stays below the root, a size and a hash of 64 hexadecimal digits. */
  lemma ReadableIff(prefix: string, row: Row)
    ensures IsReadable(prefix, row) <==>
            && row.key != "" && row.size >= 0 && |row.digest| == 64
            && (forall i :: 0 <= i < 64 ==> row.digest[i] in HEX_DIGITS)
            && !(prefix + row.key != "" && (prefix + row.key)[0] == '/') && ".." !in PathParts(prefix + row.key)
  {
    hide PathParts;
    forall c: char
      ensures IsHex(c) <==> c in HEX_DIGITS
    {
      HexDigit(c);
    }
  }

  lemma HexDigit(c: char)
    ensures IsHex(c) <==> c in HEX_DIGITS
  {
    assert HEX_DIGITS[0] == '0' && HEX_DIGITS[1] == '1' && HEX_DIGITS[2] == '2' && HEX_DIGITS[3] == '3' && HEX_DIGITS[4] == '4'
        && HEX_DIGITS[5] == '5' && HEX_DIGITS[6] == '6' && HEX_DIGITS[7] == '7' && HEX_DIGITS[8] == '8' && HEX_DIGITS[9] == '9'
        && HEX_DIGITS[10] == 'a' && HEX_DIGITS[11] == 'b' && HEX_DIGITS[12] == 'c' && HEX_DIGITS[13] == 'd'
        && HEX_DIGITS[14] == 'e' && HEX_DIGITS[15] == 'f';
  }

  function RefOf(table: string, prefix: string, row: Row): Ref {
    Ref(table, row.id, PathText(PathParts(prefix + row.key)), row.size, row.digest)
  }

  function RefsOf(table: string, prefix: string, rows: seq<Row>): (refs: seq<Ref>)
    ensures |refs| == |rows|
  {
    seq(|rows|, i requires 0 <= i < |rows| => RefOf(table, prefix, rows[i]))
  }

  /** All references of the two tables, each in id order. */
  function AllRefs(workflow: seq<Row>, improvement: seq<Row>): seq<Ref> {
    RefsOf(WORKFLOW, "", workflow) + RefsOf(IMPROVEMENT, IMPROVEMENT_PREFIX, improvement)
  }

  predicate AllReadable(prefix: string, rows: seq<Row>) {
    forall i :: 0 <= i < |rows| ==> IsReadable(prefix, rows[i])
  }

  /** The primary key of an evidence table. */
  predicate UniqueIds(rows: seq<Row>) {
    forall i, j :: 0 <= i < j < |rows| ==> rows[i].id != rows[j].id
  }

  method TableRefs(table: string, prefix: string, rows: seq<Row>) returns (r: Result<seq<Ref>, string>)
    ensures r.Success? <==> AllReadable(prefix, rows)
    ensures r.Success? ==> r.value == RefsOf(table, prefix, rows)
  {
    hide PathParts, IsDigest, Join;
    var refs: seq<Ref> := [];
    for i := 0 to |rows|
      invariant forall k :: 0 <= k < i ==> IsReadable(prefix, rows[k])
      invariant refs == RefsOf(table, prefix, rows[..i])
    {
      var row := rows[i];
      if row.key == "" || !IsDigest(row.digest) || row.size < 0 {
        return Failure("evidence_metadata_invalid");
      }
      var parts := PathParts(prefix + row.key);
      if IsAbsolute(prefix + row.key) || ".." in parts {
        return Failure("evidence_key_invalid");
      }
      refs := refs + [Ref(table, row.id, PathText(parts), row.size, row.digest)];
    }
    assert rows[..|rows|] == rows;
    return Success(refs);
  }

  method EvidenceRefs(workflow: seq<Row>, improvement: seq<Row>) returns (r: Result<seq<Ref>, string>)
    ensures r.Success? <==> AllReadable("", workflow) && AllReadable(IMPROVEMENT_PREFIX, improvement)
    ensures r.Success? ==> r.value == AllRefs(workflow, improvement)
  {
    var first :- TableRefs(WORKFLOW, "", workflow);
    var second :- TableRefs(IMPROVEMENT, IMPROVEMENT_PREFIX, improvement);
    return Success(first + second);
  }

  lemma {:induction false} SplitOnApart(s: string, c: char)
    ensures forall p :: p in SplitOn(s, c) ==> c !in p
    decreases |s|
  {
    var i := IndexOf(s, c);
    if i < |s| {
      SplitOnApart(s[i + 1..], c);
    } else {
      assert s[..i] == s;
    }
  }

  /** Reading a stored path back gives the parts it was made of, none of which leaves the root. */
  lemma PathReadBack(name: string)
    requires !IsAbsolute(name) && ".." !in PathParts(name)
    ensures var text := PathText(PathParts(name));
            PathParts(text) == PathParts(name) && !IsAbsolute(text) && ".." !in PathParts(text)
  {
    var parts := PathParts(name);
    SplitOnApart(name, '/');
    if parts == [] {
      SplitOnPart(".", '/', "");
      assert SplitOn(".", '/') == ["."];
      assert Filter(IsCleanPart, ["."]) == [] by {
        FilterNone(IsCleanPart, ["."]);
      }
    } else {
      CleanJoin(parts);
      assert parts[0] in parts;
    }
  }

  predicate StaysInside(ref: Ref) {
    !IsAbsolute(ref.path) && ".." !in PathParts(ref.path)
  }

  lemma RefsStayInside(workflow: seq<Row>, improvement: seq<Row>)
    requires AllReadable("", workflow) && AllReadable(IMPROVEMENT_PREFIX, improvement)
    ensures forall i :: 0 <= i < |AllRefs(workflow, improvement)| ==> StaysInside(AllRefs(workflow, improvement)[i])
  {
    hide PathParts, IsDigest, PathText;
    forall i | 0 <= i < |AllRefs(workflow, improvement)|
      ensures StaysInside(AllRefs(workflow, improvement)[i])
    {
      if i < |workflow| {
        PathReadBack("" + workflow[i].key);
      } else {
        PathReadBack(IMPROVEMENT_PREFIX + improvement[i - |workflow|].key);
      }
    }
  }

  /// ## File names

  function Digits(n: nat): (s: string)
    ensures s != "" && forall c :: c in s ==> IsDigit(c)
  {
    if n < 10 then [('0' as int + n) as char] else Digits(n / 10) + [('0' as int + n % 10) as char]
  }

  function Decimal(n: int): string {
    if n < 0 then "-" + Digits(-n) else Digits(n)
  }

  function FileName(ref: Ref): string {
    ref.table + "-" + Decimal(ref.rowId) + ".age"
  }

  lemma {:induction false} DigitsInjective(a: nat, b: nat)
    requires Digits(a) == Digits(b)
    ensures a == b
  {
    if a >= 10 && b >= 10 {
      assert Digits(a)[..|Digits(a)| - 1] == Digits(a / 10);
      assert Digits(b)[..|Digits(b)| - 1] == Digits(b / 10);
      DigitsInjective(a / 10, b / 10);
      assert Digits(a)[|Digits(a)| - 1] == ('0' as int + a % 10) as char;
      assert Digits(b)[|Digits(b)| - 1] == ('0' as int + b % 10) as char;
    }
  }

  lemma DecimalInjective(a: int, b: int)
    requires Decimal(a) == Decimal(b)
    ensures a == b
  {
    hide Digits;
    var x, y := if a < 0 then -a else a, if b < 0 then -b else b;
    assert Decimal(a)[0] == '-' <==> a < 0 by {
      assert Digits(x)[0] in Digits(x);
    }
    assert Decimal(b)[0] == '-' <==> b < 0 by {
      assert Digits(y)[0] in Digits(y);
    }
    if a < 0 {
      assert Decimal(a)[1..] == Digits(x) && Decimal(b)[1..] == Digits(y);
    }
    DigitsInjective(x, y);
  }

  lemma TableInitials()
    ensures WORKFLOW != "" && WORKFLOW[0] == 'w' && IMPROVEMENT != "" && IMPROVEMENT[0] == 'c'
  {
  }

  lemma FileNameInjective(a: Ref, b: Ref)
    requires a.table in {WORKFLOW, IMPROVEMENT} && b.table in {WORKFLOW, IMPROVEMENT}
    requires FileName(a) == FileName(b)
    ensures a.table == b.table && a.rowId == b.rowId
  {
    hide Decimal;
    TableInitials();
    assert FileName(a)[0] == a.table[0] && FileName(b)[0] == b.table[0];
    assert a.table == b.table;
    var n := |a.table| + 1;
    assert FileName(a)[n..|FileName(a)| - 4] == Decimal(a.rowId);
    assert FileName(b)[n..|FileName(b)| - 4] == Decimal(b.rowId);
    DecimalInjective(a.rowId, b.rowId);
  }

  predicate DistinctNames(refs: seq<Ref>) {
    forall i, j :: 0 <= i < j < |refs| ==> FileName(refs[i]) != FileName(refs[j])
  }

  lemma RefNamesDistinct(workflow: seq<Row>, improvement: seq<Row>)
    requires UniqueIds(workflow) && UniqueIds(improvement)
    ensures DistinctNames(AllRefs(workflow, improvement))
    ensures forall i :: 0 <= i < |AllRefs(workflow, improvement)| ==>
              IsPlainName(FileName(AllRefs(workflow, improvement)[i]))
  {
    hide FileName, PathParts, PathText, IsPlainName;
    var refs := AllRefs(workflow, improvement);
    assert forall i :: 0 <= i < |refs| ==> refs[i].table == if i < |workflow| then WORKFLOW else IMPROVEMENT;
    TableInitials();
    forall i, j | 0 <= i < j < |refs|
      ensures FileName(refs[i]) != FileName(refs[j])
    {
      if FileName(refs[i]) == FileName(refs[j]) {
        FileNameInjective(refs[i], refs[j]);
      }
    }
    forall i | 0 <= i < |refs|
      ensures IsPlainName(FileName(refs[i]))
    {
      FileNamePlain(refs[i]);
    }
  }

  /** A name any reader of a package accepts. */
  predicate IsPlainName(name: string) {
    IsSimpleName(name) && EndsWith(name, ".age") && '\\' !in name && NUL !in name
  }

  predicate IsPlainChar(c: char) {
    c != '/' && c != '\\' && c != NUL
  }

  predicate IsPlain(s: string) {
    forall i :: 0 <= i < |s| ==> IsPlainChar(s[i])
  }

  lemma TablesPlain()
    ensures IsPlain(WORKFLOW) && IsPlain(IMPROVEMENT)
  {
    assert IsPlain("workflow") && IsPlain("continuous_improvement") && IsPlain(EVIDENCE_FILES);
  }

  lemma DecimalPlain(n: int)
    ensures IsPlain(Decimal(n))
  {
    hide Digits;
    var digits := Digits(if n < 0 then -n else n);
    assert forall i :: 0 <= i < |digits| ==> digits[i] in digits;
  }

  lemma FileNamePlain(ref: Ref)
    requires ref.table in {WORKFLOW, IMPROVEMENT}
    ensures IsPlainName(FileName(ref))
  {
    hide Decimal;
    var name := FileName(ref);
    TablesPlain();
    DecimalPlain(ref.rowId);
    assert IsPlain("-") && IsPlain(".age");
    assert IsPlain(name);
    assert name[|name| - 4..] == ".age";
    assert |name| > 4;
  }

  /// ## The package a backup makes

  /** The fields a backup records that nothing below depends on. */
  datatype Header = Header(backupId: string, startedAt: string, completedAt: string, commit: string, folder: string,
                           postgresVersion: string, pgDumpVersion: string, recipients: string)

  const EXPECTED_HEAD := "0107_temporal_receipt_evidence_f2e2"

  /** The fields when the dump starts, with the versions read by then. */
  function Started(h: Header): map<string, Json> {
    map["manifest_version" := Num(MANIFEST_VERSION), "backup_id" := Str(h.backupId),
        "started_at_utc" := Str(h.startedAt), "completed_at_utc" := Null,
        "application_commit" := Str(h.commit), "alembic_head" := Str(EXPECTED_HEAD),
        "postgres_version" := Str(h.postgresVersion), "pg_dump_version" := Str(h.pgDumpVersion),
        "archive_format" := Str("custom"), "archive" := Null, "encryption" := Str("age"),
        "encryption_recipient_identifier" := Str(h.recipients),
        "evidence_file_count" := Num(0), "evidence" := Arr([]), "off_vm_provider" := Str("google_drive"),
        "off_vm_folder_id" := Str(h.folder), "remote_file_id" := Null,
        "off_vm_status" := Str("NOT_UPLOADED"), "status" := Str("IN_PROGRESS")]
  }

  /** The fields when the rows are read: `pg_dump` has not been asked for its version yet. */
  function Connected(h: Header): map<string, Json> {
    Started(h)["pg_dump_version" := Null]
  }

  /** The fields of a new backup. */
  function Opened(h: Header): map<string, Json> {
    Connected(h)["postgres_version" := Null]["alembic_head" := Null]
  }

  /** The fields a backup sets when it is complete. */
  function Outcome(h: Header, archive: Json, entries: seq<Json>): map<string, Json> {
    map["archive" := archive, "evidence" := Arr(entries), "evidence_file_count" := Num(|entries|),
        "completed_at_utc" := Str(h.completedAt), "status" := Str("COMPLETE_LOCAL")]
  }

  function Completed(h: Header, archive: Json, entries: seq<Json>): Json {
    Obj(Started(h) + Outcome(h, archive, entries))
  }

  function Failed(fields: map<string, Json>, code: string): Json {
    Obj(fields + map["status" := Str("FAILED"), "error_code" := Str(code)])
  }

  lemma FailedWritten(fields: map<string, Json>, code: string)
    ensures Failed(fields, code) == Obj(fields["status" := Str("FAILED")]["error_code" := Str(code)])
  {
    assert fields + map["status" := Str("FAILED"), "error_code" := Str(code)]
        == fields["status" := Str("FAILED")]["error_code" := Str(code)];
  }

  function EntryOf(tools: Tools, ref: Ref, encrypted: Bytes): Json {
    Obj(map["table" := Str(ref.table), "row_id" := Num(ref.rowId), "path" := Str(ref.path),
            "size" := Num(ref.size), "sha256" := Str(ref.sha),
            "encrypted" := MetadataOf(tools, FileName(ref), encrypted)])
  }

  /** The evidence directory: what stands at each path below it, other than directories. */
  type EvidenceTree = map<seq<string>, Node>

  /** Nothing stands below a file, and the root is a directory. */
  predicate IsTree(root: EvidenceTree) {
    && [] !in root
    && forall a, b :: a in root && b in root ==> !(a < b)
  }

  function DataAt(root: EvidenceTree, ref: Ref): Option<Bytes> {
    var parts := PathParts(ref.path);
    if parts in root && root[parts].File? then Some(root[parts].data) else None
  }

  predicate Matches(tools: Tools, root: EvidenceTree, ref: Ref) {
    && DataAt(root, ref).Some?
    && |DataAt(root, ref).value| == ref.size && tools.sha(DataAt(root, ref).value) == ref.sha
  }

  predicate AllMatch(tools: Tools, root: EvidenceTree, refs: seq<Ref>) {
    forall i :: 0 <= i < |refs| ==> Matches(tools, root, refs[i])
  }

  /** The evidence directory holds, at the parts of the row's prefixed key, a file of the row's size and digest. */
  predicate HoldsRow(tools: Tools, root: EvidenceTree, prefix: string, row: Row) {
    var path := PathParts(prefix + row.key);
    && path in root && root[path].File?
    && |root[path].data| == row.size && tools.sha(root[path].data) == row.digest
  }

  lemma RowMatches(tools: Tools, root: EvidenceTree, table: string, prefix: string, row: Row)
    requires IsReadable(prefix, row)
    ensures Matches(tools, root, RefOf(table, prefix, row)) <==> HoldsRow(tools, root, prefix, row)
  {
    hide PathParts, PathText, IsDigest;
    PathReadBack(prefix + row.key);
  }

  lemma TableMatches(tools: Tools, root: EvidenceTree, table: string, prefix: string, rows: seq<Row>)
    requires AllReadable(prefix, rows)
    ensures AllMatch(tools, root, RefsOf(table, prefix, rows)) <==>
            forall i :: 0 <= i < |rows| ==> HoldsRow(tools, root, prefix, rows[i])
  {
    hide IsReadable, Matches, HoldsRow, RefOf;
    forall i | 0 <= i < |rows|
      ensures Matches(tools, root, RefsOf(table, prefix, rows)[i]) <==> HoldsRow(tools, root, prefix, rows[i])
    {
      RowMatches(tools, root, table, prefix, rows[i]);
    }
  }

  lemma AllMatchBoth(tools: Tools, root: EvidenceTree, a: seq<Ref>, b: seq<Ref>)
    ensures AllMatch(tools, root, a + b) <==> AllMatch(tools, root, a) && AllMatch(tools, root, b)
  {
    hide Matches;
    if AllMatch(tools, root, a + b) {
      assert forall i :: 0 <= i < |a| ==> (a + b)[i] == a[i];
      forall i | 0 <= i < |b|
        ensures Matches(tools, root, b[i])
      {
        assert (a + b)[|a| + i] == b[i];
      }
    }
  }

  /** The references match exactly when every row of the two tables has its file. */
  lemma AllMatchIff(tools: Tools, root: EvidenceTree, workflow: seq<Row>, improvement: seq<Row>)
    requires AllReadable("", workflow) && AllReadable("continuous-improvement/", improvement)
    ensures AllMatch(tools, root, AllRefs(workflow, improvement)) <==>
            && (forall i :: 0 <= i < |workflow| ==> HoldsRow(tools, root, "", workflow[i]))
            && forall i :: 0 <= i < |improvement| ==> HoldsRow(tools, root, "continuous-improvement/", improvement[i])
  {
    hide AllMatch, HoldsRow, AllReadable, RefsOf;
    TableMatches(tools, root, WORKFLOW, "", workflow);
    TableMatches(tools, root, IMPROVEMENT, IMPROVEMENT_PREFIX, improvement);
    AllMatchBoth(tools, root, RefsOf(WORKFLOW, "", workflow), RefsOf(IMPROVEMENT, IMPROVEMENT_PREFIX, improvement));
  }

  function SealedAt(vault: Vault, root: EvidenceTree, ref: Ref, n: nat): Bytes {
    match DataAt(root, ref)
    case Some(data) => vault.seal(n + 1, data)
    case None => []
  }

  function BackupEntries(tools: Tools, vault: Vault, root: EvidenceTree, refs: seq<Ref>): (entries: seq<Json>)
    ensures |entries| == |refs|
  {
    seq(|refs|, i requires 0 <= i < |refs| => EntryOf(tools, refs[i], SealedAt(vault, root, refs[i], i)))
  }

  function BackupManifest(tools: Tools, vault: Vault, h: Header, dump: Bytes, root: EvidenceTree, refs: seq<Ref>): Json {
    Completed(h, MetadataOf(tools, ARCHIVE, vault.seal(0, dump)), BackupEntries(tools, vault, root, refs))
  }

  function EvidenceNames(refs: seq<Ref>): set<string> {
    set i | 0 <= i < |refs| :: EvidencePath(FileName(refs[i]))
  }

  /** The evidence directory of the package holds the encrypted file of each reference. */
  predicate HoldsEvidence(vault: Vault, root: EvidenceTree, refs: seq<Ref>, dir: Directory) {
    forall i :: 0 <= i < |refs| ==>
      && EvidencePath(FileName(refs[i])) in dir
      && dir[EvidencePath(FileName(refs[i]))] == File(SealedAt(vault, root, refs[i], i))
  }

  predicate IsBackupOf(tools: Tools, vault: Vault, h: Header, dump: Bytes, root: EvidenceTree, refs: seq<Ref>, dir: Directory) {
    && dir.Keys == {MANIFEST, ARCHIVE} + EvidenceNames(refs)
    && dir[MANIFEST] == File(tools.render(BackupManifest(tools, vault, h, dump, root, refs)))
    && dir[ARCHIVE] == File(vault.seal(0, dump))
    && HoldsEvidence(vault, root, refs, dir)
  }

  lemma HoldsNext(vault: Vault, root: EvidenceTree, refs: seq<Ref>, dir: Directory, n: nat)
    requires n < |refs| && DistinctNames(refs) && HoldsEvidence(vault, root, refs[..n], dir)
    ensures var path := EvidencePath(FileName(refs[n]));
            && HoldsEvidence(vault, root, refs[..n + 1], dir[path := File(SealedAt(vault, root, refs[n], n))])
            && EvidenceNames(refs[..n + 1]) == EvidenceNames(refs[..n]) + {path}
            && path !in EvidenceNames(refs[..n]) && path != MANIFEST && path != ARCHIVE
  {
    hide FileName, EvidencePath, SealedAt;
    assert forall k :: 0 <= k < n ==> refs[..n + 1][k] == refs[..n][k] == refs[k];
    assert refs[..n + 1][n] == refs[n];
    NamesApart(refs, n);
    FixedNames();
    forall p | p in EvidenceNames(refs[..n])
      ensures p in EvidenceNames(refs[..n + 1])
    {
      var k :| 0 <= k < n && EvidencePath(FileName(refs[..n][k])) == p;
      assert EvidencePath(FileName(refs[..n + 1][k])) == p;
    }
    assert EvidencePath(FileName(refs[..n + 1][n])) == EvidencePath(FileName(refs[n]));
  }

  lemma NamesApart(refs: seq<Ref>, n: nat)
    requires n < |refs| && DistinctNames(refs)
    ensures forall k :: 0 <= k < n ==> EvidencePath(FileName(refs[k])) != EvidencePath(FileName(refs[n]))
  {
    hide FileName, EvidencePath;
    forall k | 0 <= k < n
      ensures EvidencePath(FileName(refs[k])) != EvidencePath(FileName(refs[n]))
    {
      if EvidencePath(FileName(refs[k])) == EvidencePath(FileName(refs[n])) {
        EvidencePathInjective(FileName(refs[k]), FileName(refs[n]));
      }
    }
  }

  /**
   What fails, if anything: a connection, a query or a version check before the
   dump, `pg_dump` itself, or `age` at an evidence file.
   */
  datatype Fault = Nowhere | AtDatabase | AtDump | AtFile(k: nat)

  predicate Interrupts(fault: Fault, files: nat) {
    fault.AtDatabase? || fault.AtDump? || (fault.AtFile? && fault.k < files)
  }

  /**
   The manifest says FAILED, with the entries of the files encrypted before the
   first one that is missing, not encrypted or not the file of its row.
   */
  ghost predicate StoppedAtFile(tools: Tools, vault: Vault, root: EvidenceTree, refs: seq<Ref>, fault: Fault,
                                fields: map<string, Json>, manifest: Node, error: string) {
    exists n :: 0 <= n < |refs| && AllMatch(tools, root, refs[..n])
      && (DataAt(root, refs[n]).Some? ==>
            error == if fault == AtFile(n) then "age_encrypt_failed" else "evidence_content_mismatch")
      && manifest == File(tools.render(Failed(fields["evidence" := Arr(BackupEntries(tools, vault, root, refs[..n]))], error)))
  }

  class StagingDirectory {
    var dir: Directory

    constructor ()
      ensures dir == map[]
    {
      dir := map[];
    }

    /**
     Encrypts the dump and every referenced evidence file, in order. It succeeds
     exactly when no tool fails, all references are readable and every file
     matches its row; the directory is then the backup of those files, and on any
     failure its manifest says FAILED.
     */
    method CreateBackup(tools: Tools, vault: Vault, h: Header, dump: Bytes, root: EvidenceTree,
                        workflow: seq<Row>, improvement: seq<Row>, fault: Fault) returns (r: Result<(), string>)
      requires dir == map[] && UniqueIds(workflow) && UniqueIds(improvement)
      modifies this
      ensures r.Success? <==>
              && AllReadable("", workflow) && AllReadable(IMPROVEMENT_PREFIX, improvement)
              && AllMatch(tools, root, AllRefs(workflow, improvement))
              && !Interrupts(fault, |AllRefs(workflow, improvement)|)
      ensures r.Success? ==> IsBackupOf(tools, vault, h, dump, root, AllRefs(workflow, improvement), dir)
      ensures r.Failure? ==>
                && MANIFEST in dir
                && (|| (fault.AtDatabase? && exists fields :: dir[MANIFEST] == File(tools.render(Failed(fields, r.error))))
                    || (!(AllReadable("", workflow) && AllReadable(IMPROVEMENT_PREFIX, improvement))
                        && dir[MANIFEST] == File(tools.render(Failed(Connected(h), r.error))))
                    || (fault.AtDump? && r.error == "pg_dump_failed"
                        && dir[MANIFEST] == File(tools.render(Failed(Started(h), r.error))))
                    || StoppedAtFile(tools, vault, root, AllRefs(workflow, improvement), fault,
                                     Started(h)["archive" := MetadataOf(tools, ARCHIVE, vault.seal(0, dump))],
                                     dir[MANIFEST], r.error))
    {
      hide PathParts, FileName, EvidencePath, Started, Connected, Opened, AllReadable, MetadataOf, EvidenceNames, HoldsEvidence, Matches,
           StoppedAtFile, Failed;
      var fields := Opened(h);
      dir := map[MANIFEST := File(tools.render(Obj(fields)))];
      if fault.AtDatabase? {
        dir := dir[MANIFEST := File(tools.render(Failed(fields, "backup_failed")))];
        return Failure("backup_failed");
      }
      fields := Connected(h);
      var refs := EvidenceRefs(workflow, improvement);
      if refs.Failure? {
        dir := dir[MANIFEST := File(tools.render(Failed(fields, refs.error)))];
        return Failure(refs.error);
      }
      fields := Started(h);
      RefNamesDistinct(workflow, improvement);
      FixedNames();
      if fault.AtDump? {
        dir := dir[MANIFEST := File(tools.render(Failed(fields, "pg_dump_failed")))];
        return Failure("pg_dump_failed");
      }
      dir := dir[ARCHIVE := File(vault.seal(0, dump))];
      fields := fields["archive" := MetadataOf(tools, ARCHIVE, vault.seal(0, dump))];
      var entries := EncryptEvidence(tools, vault, root, refs.value, fields, fault);
      if entries.Failure? {
        return Failure(entries.error);
      }
      var completed := Completed(h, MetadataOf(tools, ARCHIVE, vault.seal(0, dump)), entries.value);
      ManifestApart(vault, root, refs.value, dir, File(tools.render(completed)));
      dir := dir[MANIFEST := File(tools.render(completed))];
      return Success(());
    }

    method EncryptEvidence(tools: Tools, vault: Vault, root: EvidenceTree, refs: seq<Ref>, fields: map<string, Json>,
                           fault: Fault) returns (r: Result<seq<Json>, string>)
      requires DistinctNames(refs) && dir.Keys == {MANIFEST, ARCHIVE} && !fault.AtDatabase? && !fault.AtDump?
      modifies this
      ensures r.Success? <==> AllMatch(tools, root, refs) && !Interrupts(fault, |refs|)
      ensures r.Success? ==>
                && r.value == BackupEntries(tools, vault, root, refs)
                && dir.Keys == {MANIFEST, ARCHIVE} + EvidenceNames(refs) && HoldsEvidence(vault, root, refs, dir)
                && dir[ARCHIVE] == old(dir[ARCHIVE])
      ensures r.Failure? ==>
                && MANIFEST in dir
                && StoppedAtFile(tools, vault, root, refs, fault, fields, dir[MANIFEST], r.error)
    {
      hide PathParts, FileName, EvidencePath, MetadataOf, EvidenceNames, HoldsEvidence, DistinctNames, EntryOf, Failed;
      var entries: seq<Json> := [];
      NoEvidence(vault, root, refs, dir);
      for i := 0 to |refs|
        invariant !Interrupts(fault, i) && forall k :: 0 <= k < i ==> Matches(tools, root, refs[k])
        invariant entries == BackupEntries(tools, vault, root, refs[..i])
        invariant dir.Keys == {MANIFEST, ARCHIVE} + EvidenceNames(refs[..i])
        invariant HoldsEvidence(vault, root, refs[..i], dir)
        invariant dir[ARCHIVE] == old(dir[ARCHIVE])
      {
        var ref := refs[i];
        var source := DataAt(root, ref);
        if source.None? {
          dir := dir[MANIFEST := File(tools.render(Failed(fields["evidence" := Arr(entries)], "evidence_missing")))];
          return Failure("evidence_missing");
        }
        if fault == AtFile(i) {
          dir := dir[MANIFEST := File(tools.render(Failed(fields["evidence" := Arr(entries)], "age_encrypt_failed")))];
          return Failure("age_encrypt_failed");
        }
        var encrypted := vault.seal(i + 1, source.value);
        if |source.value| != ref.size || tools.sha(source.value) != ref.sha {
          dir := dir[MANIFEST := File(tools.render(Failed(fields["evidence" := Arr(entries)], "evidence_content_mismatch")))];
          return Failure("evidence_content_mismatch");
        }
        HoldsNext(vault, root, refs, dir, i);
        BackupEntriesNext(tools, vault, root, refs, i);
        dir := dir[EvidencePath(FileName(ref)) := File(encrypted)];
        entries := entries + [EntryOf(tools, ref, encrypted)];
      }
      assert refs[..|refs|] == refs;
      return Success(entries);
    }
  }

  lemma NoEvidence(vault: Vault, root: EvidenceTree, refs: seq<Ref>, dir: Directory)
    ensures EvidenceNames(refs[..0]) == {} && HoldsEvidence(vault, root, refs[..0], dir)
  {
  }

  lemma BackupEntriesNext(tools: Tools, vault: Vault, root: EvidenceTree, refs: seq<Ref>, n: nat)
    requires n < |refs|
    ensures BackupEntries(tools, vault, root, refs[..n + 1])
         == BackupEntries(tools, vault, root, refs[..n]) + [EntryOf(tools, refs[n], SealedAt(vault, root, refs[n], n))]
  {
    hide EntryOf, SealedAt;
    assert forall k :: 0 <= k < n ==> refs[..n + 1][k] == refs[..n][k];
    assert refs[..n + 1][n] == refs[n];
  }

  /** Evidence paths are not the manifest's, so replacing the manifest leaves the evidence as it is. */
  lemma ManifestApart(vault: Vault, root: EvidenceTree, refs: seq<Ref>, dir: Directory, node: Node)
    requires HoldsEvidence(vault, root, refs, dir)
    ensures HoldsEvidence(vault, root, refs, dir[MANIFEST := node])
  {
    hide FileName, EvidencePath, SealedAt;
    FixedNames();
  }
}
