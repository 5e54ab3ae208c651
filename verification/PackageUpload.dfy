/**
 A backup package from its directory to the folder and back: the canonical
 envelope is uploaded and confirmed, downloaded again, extracted and restored.
 */
module PackageUpload {
  import opened Common
  import opened Packages
  import opened MemberOrder
  import opened Envelope
  import opened EvidenceBackup
  import opened EvidenceRestore
  import opened DriveServer
  import opened UploadClient
  import opened DriveUpload

  /// ## The envelope as what is uploaded

  function IdOf(j: Json): string {
    var id := Get(j, "backup_id");
    if id.Str? then id.s else ""
  }

  /** The manifest an envelope carries, if it has one that parses. */
  function ManifestIn(tools: Tools, envelope: Bytes): Option<Json> {
    match tools.untar(envelope)
    case Some(ms) => if MANIFEST in NameSet(ms) then tools.parse(FilesOf(ms)[MANIFEST]) else None
    case None => None
  }

  /** The backup id that inspecting a file before its upload gives. */
  function InspectedId(tools: Tools, envelope: Bytes): Result<string, string> {
    match ManifestIn(tools, envelope)
    case None => Failure("manifest_invalid")
    case Some(j) =>
      if Inspects(tools, envelope, MAX_ENVELOPE_BYTES, j) then Success(IdOf(j)) else Failure("envelope_invalid")
  }

  function Inspection(tools: Tools): Bytes -> Result<string, string> {
    (envelope: Bytes) => InspectedId(tools, envelope)
  }

  /** It is the id of the manifest `inspect_envelope` accepts the file with. */
  lemma InspectionGivesId(tools: Tools, envelope: Bytes, j: Json)
    requires Inspects(tools, envelope, MAX_ENVELOPE_BYTES, j)
    ensures Inspection(tools)(envelope) == Success(IdOf(j))
  {
    hide MembersFit, MembersHold, HasBackupId, HasGoodEvidence, IsCompleteLocal, FilesOf;
  }

  /** A file inspection accepts has a manifest. */
  lemma InspectionAccepts(tools: Tools, envelope: Bytes, id: string) returns (j: Json)
    requires Inspection(tools)(envelope) == Success(id)
    ensures Inspects(tools, envelope, MAX_ENVELOPE_BYTES, j) && IdOf(j) == id
  {
    hide Inspects;
    j := ManifestIn(tools, envelope).value;
  }

  /** The destination hashes and inspects with these tools. */
  ghost predicate IsFor(destination: Destination, tools: Tools) {
    destination.sha == tools.sha && destination.inspect == Inspection(tools)
  }

  /** The directory is a package, with this manifest, whose envelope can be built. */
  predicate Packs(tools: Tools, dir: Directory, j: Json) {
    && IsPackage(tools, dir, j)
    && Estimate(Sort(PackageMembers(j, DataOf(dir)))) <= MAX_ENVELOPE_BYTES
    && |tools.tar(Sort(PackageMembers(j, DataOf(dir))))| <= MAX_ENVELOPE_BYTES
  }

  function EnvelopeOf(tools: Tools, dir: Directory, j: Json): Bytes
    requires Packs(tools, dir, j)
  {
    tools.tar(Sort(PackageMembers(j, DataOf(dir))))
  }

  /** The manifest of a package directory whose envelope can be built. */
  function PackageIn(tools: Tools, dir: Directory): (r: Option<Json>)
    ensures r.Some? ==> Packs(tools, dir, r.value)
  {
    if MANIFEST in dir && dir[MANIFEST].File? && tools.parse(dir[MANIFEST].data).Some?
       && Packs(tools, dir, tools.parse(dir[MANIFEST].data).value)
    then tools.parse(dir[MANIFEST].data) else None
  }

  lemma PackageInAll(tools: Tools, dir: Directory, j: Json)
    requires Packs(tools, dir, j)
    ensures PackageIn(tools, dir) == Some(j)
  {
    hide FilesHold, HasBackupId, IsCompleteLocal, Sort, TotalSize, PackageMembers;
  }

  /** The manifest and the envelope of a package, or why there is none. */
  method Pack(tools: Tools, dir: Directory) returns (r: Result<(Json, Bytes), string>)
    ensures r.Success? <==> PackageIn(tools, dir).Some?
    ensures r.Success? ==> PackageIn(tools, dir) == Some(r.value.0) && r.value.1 == EnvelopeOf(tools, dir, r.value.0)
  {
    hide FilesHold, HasBackupId, Sort, TotalSize, PackageMembers, IsCompleteLocal;
    r := CreateEnvelope(tools, dir, false, MAX_ENVELOPE_BYTES);
  }

  /// ## The upload

  /** What COMPLETE_OFF_VM stands for: one verified copy of an inspected file that hashes like the package's envelope. */
  ghost predicate OffVm(destination: Destination, tools: Tools, dir: Directory, j: Json, remote: Metadata)
    reads destination.drive
  {
    && Packs(tools, dir, j)
    && destination.Confirmed(remote, destination.ExpectedFor(IdOf(j), EnvelopeOf(tools, dir, j)))
    && exists file :: IsInspected(destination, tools, file, EnvelopeOf(tools, dir, j), IdOf(j))
  }

  ghost predicate IsInspected(destination: Destination, tools: Tools, file: Bytes, envelope: Bytes, id: string) {
    SameEnvelope(tools.sha, file, envelope) && destination.inspect(file) == Success(id)
  }

  /** The folder and the work directory are in the way of nothing, and readers accept the package. */
  ghost predicate IsReady(destination: Destination, tools: Tools, dir: Directory, work: WorkDirectory)
    reads destination.drive, work
  {
    && PackageIn(tools, dir).Some?
    && var j := PackageIn(tools, dir).value;
    && ReadersAccept(j, DataOf(dir)) && EnvelopeOf(tools, dir, j) != []
    && destination.drive.steady && destination.drive.answers && work.steady && work.envelope in {None, Some(EnvelopeOf(tools, dir, j))}
    && |destination.Copies(IdOf(j))| <= 1
    && destination.CopiesVerify(destination.ExpectedFor(IdOf(j), EnvelopeOf(tools, dir, j)))
  }

  lemma ReadyIsUploadable(destination: Destination, tools: Tools, dir: Directory, work: WorkDirectory)
    requires tools.Lawful() && IsFor(destination, tools) && IsReady(destination, tools, dir, work)
    ensures var j := PackageIn(tools, dir).value; destination.Uploadable(IdOf(j), EnvelopeOf(tools, dir, j))
  {
    hide Tools.Lawful, IsPackage, ReadersAccept, Inspects, Extracts, Inspection, Sort, PackageMembers, TotalSize,
         Destination.CopiesVerify;
    var j := PackageIn(tools, dir).value;
    EnvelopeRoundTrip(tools, dir, j, MAX_ENVELOPE_BYTES);
    InspectionGivesId(tools, EnvelopeOf(tools, dir, j), j);
  }

  /** The labels of the objects with the package's id are true. */
  ghost predicate TrulyLabelled(destination: Destination, tools: Tools, j: Json)
    reads destination.drive
  {
    Labelled(destination.drive.objects, destination.folder, IdOf(j), tools.sha)
  }

  /**
   Packs a directory and uploads the envelope. A directory that is no package
   uploads nothing; COMPLETE_OFF_VM is only written over a confirmed copy of the
   package; and on a steady server a readable package fails only for too many
   rate limits in a row.
   */
  method UploadPackage(destination: Destination, tools: Tools, dir: Directory, work: WorkDirectory)
    returns (r: Result<Receipt, UploadError>, ghost written: seq<Receipt>, ghost raised: bool)
    requires destination.drive.Valid() && IsFor(destination, tools)
    modifies destination.drive, work
    ensures destination.drive.Valid()
    ensures work.receipts == old(work.receipts) + written && ReceiptRun(written, raised)
    ensures PackageIn(tools, dir).None? ==>
              r.Failure? && written == [] && destination.drive.objects == old(destination.drive.objects)
    ensures r.Success? ==> |written| == 2 && written[1] == r.value && r.value.status.CompleteOffVm?
    ensures (exists w :: w in written && w.status.CompleteOffVm?) ==>
              && PackageIn(tools, dir).Some? && |written| >= 2 && written[1].remote.Some?
              && OffVm(destination, tools, dir, PackageIn(tools, dir).value, written[1].remote.value)
    ensures PackageIn(tools, dir).Some? && old(TrulyLabelled(destination, tools, PackageIn(tools, dir).value)) ==>
              TrulyLabelled(destination, tools, PackageIn(tools, dir).value)
    ensures old(destination.drive.log) <= destination.drive.log
    ensures tools.Lawful() && old(IsReady(destination, tools, dir, work)) ==>
              (r.Success? <==> !Overrun(destination.drive.log[|old(destination.drive.log)|..]))
  {
    hide Tools.Lawful, Packs, Drive.Valid, Destination.Uploadable, Destination.Confirmed, Labelled, Overrun, ReadersAccept,
         PackageIn, Inspection, SameEnvelope, Destination.CopiesVerify, Destination.Copies, EnvelopeOf;
    var packed := Pack(tools, dir);
    if packed.Failure? {
      return Failure(Drive(packed.error)), [], false;
    }
    var (j, envelope) := packed.value;
    if tools.Lawful() && IsReady(destination, tools, dir, work) {
      ReadyIsUploadable(destination, tools, dir, work);
    }
    r, written, raised := destination.UploadPackageLocked(work, IdOf(j), Success(envelope));
    assert (exists w :: w in written && w.status.CompleteOffVm?) ==>
        IsInspected(destination, tools, work.envelope.value, envelope, IdOf(j));
  }

  /// ## What the copy is

  /** The inspected file is the envelope, and the readers accept the envelope. */
  lemma OffVmIsReadable(destination: Destination, tools: Tools, dir: Directory, j: Json, remote: Metadata)
    requires tools.Lawful() && tools.CollisionFree() && IsFor(destination, tools)
    requires OffVm(destination, tools, dir, j, remote)
    ensures ReadersAccept(j, DataOf(dir))
    ensures var envelope := EnvelopeOf(tools, dir, j);
            && Extracts(tools, envelope, tools.sha(envelope), MAX_ENVELOPE_BYTES, j)
            && FilesOf(tools.untar(envelope).value) == DataOf(dir)
  {
    hide IsPackage, ReadersAccept, Inspects, Extracts, Inspection, Sort, PackageMembers, TotalSize, FilesOf,
         Destination.Confirmed, Tools.Lawful;
    var envelope := EnvelopeOf(tools, dir, j);
    var file :| IsInspected(destination, tools, file, envelope, IdOf(j));
    assert file == envelope;
    var k := InspectionAccepts(tools, envelope, IdOf(j));
    EnvelopeRoundTrip(tools, dir, j, MAX_ENVELOPE_BYTES);
  }

  /**
   When the receipt says COMPLETE_OFF_VM, labels are true and the hash has no
   collisions, the one object of the folder with the package's id is the
   package's envelope, and it extracts to exactly the package's files.
   */
  lemma OffVmIsThePackage(destination: Destination, tools: Tools, dir: Directory, j: Json, remote: Metadata)
    requires tools.Lawful() && tools.CollisionFree() && IsFor(destination, tools)
    requires OffVm(destination, tools, dir, j, remote) && TrulyLabelled(destination, tools, j)
    ensures |destination.Copies(IdOf(j))| == 1
    ensures var content := destination.Copies(IdOf(j))[0].content;
            && content == EnvelopeOf(tools, dir, j)
            && Extracts(tools, content, remote.props.localSha, MAX_ENVELOPE_BYTES, j)
            && FilesOf(tools.untar(content).value) == DataOf(dir)
  {
    hide IsPackage, ReadersAccept, Inspects, Extracts, Inspection, Sort, PackageMembers, TotalSize, FilesOf,
         Tools.Lawful, Destination.Copies, Packs;
    OffVmIsReadable(destination, tools, dir, j, remote);
    assert CollisionFree(destination.sha);
    destination.ConfirmedIsTheFile(remote, IdOf(j), EnvelopeOf(tools, dir, j));
  }

  /// ## The download

  /** The blocks of a response, and whether the response, the stream or the disk fails after them. */
  datatype Transfer = Transfer(blocks: seq<Bytes>, broken: bool)

  function Joined(blocks: seq<Bytes>): Bytes {
    if blocks == [] then [] else Joined(blocks[..|blocks| - 1]) + blocks[|blocks| - 1]
  }

  lemma JoinedNext(blocks: seq<Bytes>, i: nat)
    requires i < |blocks|
    ensures Joined(blocks[..i + 1]) == Joined(blocks[..i]) + blocks[i]
  {
    assert blocks[..i + 1][..i] == blocks[..i];
  }

  lemma {:induction false} JoinedGrows(blocks: seq<Bytes>, i: nat)
    requires i <= |blocks|
    ensures |Joined(blocks[..i])| <= |Joined(blocks)|
    decreases |blocks| - i
  {
    if i == |blocks| {
      assert blocks[..i] == blocks;
    } else {
      JoinedNext(blocks, i);
      JoinedGrows(blocks, i + 1);
    }
  }

  predicate IsMd5(s: string) {
    |s| == 32 && forall i :: 0 <= i < |s| ==> IsHex(s[i])
  }

  /** The hash a download has to have: the caller's, or else the object's label. */
  function WantedSha(m: Metadata, expectedSha: string): string {
    if expectedSha != "" then expectedSha else m.props.localSha
  }

  predicate IsManaged(m: Metadata, expectedSha: string) {
    && m.props.marker == "v1" && IsBackupId(m.props.backupId) && m.name == RemoteName(m.props.backupId)
    && IsDigest(WantedSha(m, expectedSha))
  }

  predicate HasSize(m: Metadata, expectedSize: Option<nat>) {
    0 < m.size <= MAX_ENVELOPE_BYTES && expectedSize in {None, Some(m.size)} && IsMd5(m.md5)
  }

  /** A download of the object described by `m` accepts these bytes. */
  predicate Accepts(sha: Bytes -> string, md5: Bytes -> string, m: Metadata, expectedSize: Option<nat>, expectedSha: string,
                    bytes: Bytes)
  {
    && IsManaged(m, expectedSha) && HasSize(m, expectedSize)
    && |bytes| == m.size && md5(bytes) == m.md5 && sha(bytes) == WantedSha(m, expectedSha)
  }

  /** The file a download writes; None while it does not exist. */
  class DownloadTarget {
    var file: Option<Bytes>

    constructor ()
      ensures file == None
    {
      file := None;
    }

    /** Leaves exactly the received bytes, when they are what the description says; on any failure nothing new is left. */
    method Download(sha: Bytes -> string, md5: Bytes -> string, m: Metadata, expectedSize: Option<nat>, expectedSha: string,
                    transfer: Transfer) returns (r: Result<(), string>)
      modifies this
      ensures r.Success? <==>
              && old(file) == None && !transfer.broken
              && Accepts(sha, md5, m, expectedSize, expectedSha, Joined(transfer.blocks))
      ensures file == if r.Success? then Some(Joined(transfer.blocks)) else old(file)
      ensures r.Success? ==>
                && |file.value| == m.size && (expectedSize.Some? ==> |file.value| == expectedSize.value)
                && md5(file.value) == m.md5
                && (if expectedSha != "" then sha(file.value) == expectedSha else sha(file.value) == m.props.localSha)
    {
      hide IsManaged, Joined;
      if !IsManaged(m, expectedSha) {
        return Failure("drive_object_not_managed");
      }
      if m.size == 0 || m.size > MAX_ENVELOPE_BYTES || expectedSize !in {None, Some(m.size)} {
        return Failure("drive_remote_size_mismatch");
      }
      if !IsMd5(m.md5) {
        return Failure("drive_remote_checksum_missing");
      }
      if file.Some? {
        return Failure("download_target_exists");
      }
      var received: Bytes := [];
      NothingJoined(transfer.blocks);
      for i := 0 to |transfer.blocks|
        invariant received == Joined(transfer.blocks[..i]) && |received| <= m.size
        invariant file == old(file)
      {
        JoinedNext(transfer.blocks, i);
        JoinedGrows(transfer.blocks, i + 1);
        received := received + transfer.blocks[i];
        if |received| > m.size {
          return Failure("drive_download_size_mismatch");
        }
      }
      assert transfer.blocks[..|transfer.blocks|] == transfer.blocks;
      if transfer.broken {
        return Failure("drive_transport_failed");
      }
      if |received| != m.size || md5(received) != m.md5 || sha(received) != WantedSha(m, expectedSha) {
        return Failure("drive_download_checksum_mismatch");
      }
      file := Some(received);
      return Success(());
    }
  }

  lemma NothingJoined(blocks: seq<Bytes>)
    ensures Joined(blocks[..0]) == []
  {
  }

  /** What a download of the confirmed copy accepts is the envelope, and the copy is labelled with its hash. */
  lemma AcceptedIsTheEnvelope(destination: Destination, tools: Tools, dir: Directory, j: Json, remote: Metadata, bytes: Bytes)
    requires tools.CollisionFree() && IsFor(destination, tools) && OffVm(destination, tools, dir, j, remote)
    ensures remote.props.localSha == tools.sha(EnvelopeOf(tools, dir, j))
    ensures Accepts(tools.sha, destination.drive.md5, remote, None, "", bytes) ==> bytes == EnvelopeOf(tools, dir, j)
  {
    hide FilesHold, IsCompleteLocal, IsBackupId, IsDigest, IsMd5, Sort, PackageMembers, TotalSize, IsInspected,
         Destination.Copies, Drive.Describe, RemoteName, IsPackage;
  }

  /** A download of the confirmed copy accepts the package's envelope and no other bytes. */
  lemma DownloadIsTheEnvelope(destination: Destination, tools: Tools, dir: Directory, j: Json, remote: Metadata, bytes: Bytes)
    requires tools.CollisionFree() && IsFor(destination, tools) && OffVm(destination, tools, dir, j, remote)
    requires IsDigest(tools.sha(EnvelopeOf(tools, dir, j))) && IsMd5(destination.drive.md5(EnvelopeOf(tools, dir, j)))
    requires EnvelopeOf(tools, dir, j) != []
    ensures Accepts(tools.sha, destination.drive.md5, remote, None, "", bytes) <==> bytes == EnvelopeOf(tools, dir, j)
  {
    hide FilesHold, IsCompleteLocal, IsBackupId, IsDigest, IsMd5, Sort, PackageMembers, TotalSize, IsInspected,
         Destination.Copies, Drive.Describe, RemoteName;
    AcceptedIsTheEnvelope(destination, tools, dir, j, remote, bytes);
  }

  /// ## From the evidence files to the folder and back

  /**
   Backup, packing, upload, download, extraction and restore: when the receipt
   says COMPLETE_OFF_VM, whatever a download of the copy accepts extracts to a
   package whose restore goes through and leaves exactly the referenced paths
   with their original bytes.
   */
  lemma ThereAndBack(destination: Destination, tools: Tools, vault: Vault, h: Header, dump: Bytes, root: EvidenceTree,
                     workflow: seq<Row>, improvement: seq<Row>, dir: Directory, remote: Metadata, bytes: Bytes)
    requires tools.Lawful() && tools.CollisionFree() && vault.Lawful() && IsFor(destination, tools) && IsBackupId(h.backupId)
    requires vault.lists(dump) && vault.loads(dump) == Some(Database(workflow, improvement, true))
    requires UniqueIds(workflow) && UniqueIds(improvement) && IsTree(root)
    requires AllReadable("", workflow) && AllReadable(IMPROVEMENT_PREFIX, improvement)
    requires AllMatch(tools, root, AllRefs(workflow, improvement))
    requires IsBackupOf(tools, vault, h, dump, root, AllRefs(workflow, improvement), dir)
    requires PackageIn(tools, dir).Some? && OffVm(destination, tools, dir, PackageIn(tools, dir).value, remote)
    requires Accepts(tools.sha, destination.drive.md5, remote, None, "", bytes)
    ensures var refs := AllRefs(workflow, improvement);
            var j := BackupManifest(tools, vault, h, dump, root, refs);
            && Extracts(tools, bytes, remote.props.localSha, MAX_ENVELOPE_BYTES, j)
            && var received := Received(FilesOf(tools.untar(bytes).value));
            && RestoreAccepts(tools, vault, received, j)
            && Restored(vault, received, Evidence(j)) == Referenced(root, refs)
  {
    hide *;
    var refs := AllRefs(workflow, improvement);
    var j := BackupManifest(tools, vault, h, dump, root, refs);
    BackupPacks(tools, vault, h, dump, root, workflow, improvement, dir);
    OffVmIsReadable(destination, tools, dir, j, remote);
    ReadableFits(tools, dir, j);
    EndToEnd(tools, vault, h, dump, root, workflow, improvement, dir, MAX_ENVELOPE_BYTES);
    AcceptedIsTheEnvelope(destination, tools, dir, j, remote, bytes);
    EnvelopeUnfolded(tools, dir, j);
  }

  lemma EnvelopeUnfolded(tools: Tools, dir: Directory, j: Json)
    requires Packs(tools, dir, j)
    ensures MANIFEST in DataOf(dir) && ARCHIVE in DataOf(dir)
    ensures EnvelopeOf(tools, dir, j) == tools.tar(Sort(PackageMembers(j, DataOf(dir))))
  {
  }

  lemma ReadableFits(tools: Tools, dir: Directory, j: Json)
    requires Packs(tools, dir, j) && ReadersAccept(j, DataOf(dir))
    ensures PackageFits(tools, j, dir, MAX_ENVELOPE_BYTES)
  {
    hide IsCompleteLocal, HasBackupId, Sort, PackageMembers, TotalSize, EntriesDistinct, PlainEntries;
  }

  /** The package a backup directory packs is the backup's own. */
  lemma BackupPacks(tools: Tools, vault: Vault, h: Header, dump: Bytes, root: EvidenceTree,
                    workflow: seq<Row>, improvement: seq<Row>, dir: Directory)
    requires tools.Lawful() && IsBackupId(h.backupId) && UniqueIds(workflow) && UniqueIds(improvement)
    requires IsBackupOf(tools, vault, h, dump, root, AllRefs(workflow, improvement), dir) && PackageIn(tools, dir).Some?
    ensures PackageIn(tools, dir) == Some(BackupManifest(tools, vault, h, dump, root, AllRefs(workflow, improvement)))
  {
    hide FilesHold, IsCompleteLocal, HasBackupId, BackupManifest, Sort, PackageMembers, TotalSize, EntriesDistinct, PlainEntries,
         IsBackupOf, Tools.Lawful, DistinctNames, IsBackupId, AllRefs, IsPlainName, FileName;
    RefNamesDistinct(workflow, improvement);
    BackupIsPackage(tools, vault, h, dump, root, AllRefs(workflow, improvement), dir);
  }
}
