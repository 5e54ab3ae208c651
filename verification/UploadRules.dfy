/** Which remote copies, files and downloads are accepted, field by field. */
module UploadRules {
  import opened Common
  import opened Packages
  import opened MemberOrder
  import opened Envelope
  import opened EnvelopeRules
  import opened EvidenceBackup
  import opened DriveServer
  import opened DriveUpload
  import opened PackageUpload

  /** A remote copy is accepted exactly when its description is this one, marked or not. */
  lemma VerifiesIff(m: Metadata, e: Expected, folder: string)
    ensures DriveUpload.Verifies(m, e, folder) <==>
            && m.id != ""
            && m == Metadata(m.id, e.backupId + ".frcaixinha.tar", "application/x-tar", [folder],
                             Properties("v1", e.backupId, e.sha, e.size), m.verified, e.size, e.md5, false)
  {
  }

  /** The object was uploaded by this program, and `wanted` is the hash to look for. */
  predicate IsOurs(m: Metadata, wanted: string) {
    && m.props.marker == "v1" && IsBackupId(m.props.backupId) && m.name == m.props.backupId + ".frcaixinha.tar"
    && |wanted| == 64 && AreHexDigits(wanted)
  }

  lemma HexIff(s: string)
    ensures AreHexDigits(s) <==> forall i :: 0 <= i < |s| ==> IsHex(s[i])
  {
  }

  /** A download takes exactly the bytes of the recorded size and MD5, and of the hash the caller gave or else the label's. */
  lemma AcceptsIff(sha: Bytes -> string, md5: Bytes -> string, m: Metadata, expectedSize: Option<nat>, expectedSha: string,
                   bytes: Bytes)
    ensures Accepts(sha, md5, m, expectedSize, expectedSha, bytes) <==>
            && IsOurs(m, sha(bytes)) && 0 < |bytes| <= 100 * 1024 * 1024 * 1024 && |bytes| == m.size
            && (expectedSize.Some? ==> |bytes| == expectedSize.value)
            && md5(bytes) == m.md5 && |m.md5| == 32 && AreHexDigits(m.md5)
            && (expectedSha != "" ==> sha(bytes) == expectedSha) && (expectedSha == "" ==> sha(bytes) == m.props.localSha)
  {
    hide IsBackupId, AreHexDigits, IsHex;
    HexIff(m.md5);
    HexIff(WantedSha(m, expectedSha));
  }

  /**
   A file is uploaded under an id exactly when it is a plain archive of at most the
   limit whose manifest is that of a complete local backup with this id and
   declares exactly its members, each of which agrees with the last entry for it.
   */
  lemma InspectedIdIff(tools: Tools, envelope: Bytes, id: string)
    ensures Inspection(tools)(envelope) == Success(id) <==>
            && |envelope| <= 100 * 1024 * 1024 * 1024 && tools.untar(envelope).Some?
            && var ms := tools.untar(envelope).value;
            exists j ::
              && Get(j, "backup_id") == Str(id) && IsPlainArchive(ms, 100 * 1024 * 1024 * 1024) && Carries(tools, ms, j)
              && IsUploadable(j) && ListsFiles(j) && HasDeclared(ms, j)
              && forall i :: 0 <= i < |ms| ==> AgreesWithLast(tools, j, ms[i])
  {
    hide InspectsAs, IsPlainArchive, Carries, ListsFiles, HasDeclared, AgreesWithLast, ManifestIn, Inspection, IsBackupId;
    var limit := 100 * 1024 * 1024 * 1024;
    if Inspection(tools)(envelope) == Success(id) {
      var j := InspectionAccepts(tools, envelope, id);
      InspectedIff(tools, tools.untar(envelope).value, limit, j);
    }
    if |envelope| <= limit && tools.untar(envelope).Some? {
      var ms := tools.untar(envelope).value;
      forall j | IsPlainArchive(ms, limit) && Carries(tools, ms, j) && IsUploadable(j) && ListsFiles(j) && HasDeclared(ms, j)
                 && Get(j, "backup_id") == Str(id) && forall i :: 0 <= i < |ms| ==> AgreesWithLast(tools, j, ms[i])
        ensures Inspection(tools)(envelope) == Success(id)
      {
        InspectedIff(tools, ms, limit, j);
        InspectionGivesId(tools, envelope, j);
      }
    }
  }

  /** An envelope found in the work directory is kept only for the same hash and size; without collisions it is then the same file. */
  lemma SameEnvelopeIff(sha: Bytes -> string, found: Bytes, built: Bytes)
    ensures SameEnvelope(sha, found, built) <==> sha(found) == sha(built) && |found| == |built|
    ensures DriveUpload.CollisionFree(sha) ==> (SameEnvelope(sha, found, built) <==> found == built)
  {
  }
}
