/** Which packages an isolated restore accepts, in terms of the manifest, the files and the restored rows. */
module RestoreRules {
  import opened Common
  import opened Strings
  import opened Packages
  import opened MemberOrder
  import opened Envelope
  import opened EnvelopeRules
  import opened EvidenceBackup
  import opened EvidenceRestore

  /** A complete backup of this program at the database revision it expects. */
  predicate IsOurBackup(j: Json) {
    && EqualsInt(Get(j, "manifest_version"), 1) && Get(j, "status") == Str("COMPLETE_LOCAL")
    && Get(j, "off_vm_provider") == Str("google_drive")
    && Get(j, "alembic_head") == Str("0107_temporal_receipt_evidence_f2e2")
  }

  lemma ContractIff(j: Json)
    ensures IsContract(j) <==> IsOurBackup(j)
  {
  }

  /** The package holds the file the metadata names, with the recorded size and hash. */
  predicate HasFile(tools: Tools, dir: Directory, prefix: string, metadata: Json) {
    && metadata.Obj? && Get(metadata, "filename").Str?
    && var name := Get(metadata, "filename").s;
    && '/' !in name && name != "."
    && prefix + name in dir && dir[prefix + name].File? && IsMetadataOf(tools, metadata, name, dir[prefix + name].data)
  }

  lemma VerifiesIff(tools: Tools, dir: Directory, prefix: string, metadata: Json)
    ensures Verifies(tools, dir, prefix, metadata) <==> HasFile(tools, dir, prefix, metadata)
  {
  }

  /** The evidence the manifest lists; an empty object or string lists none. */
  predicate ListsEvidence(j: Json, entries: seq<Json>) {
    || Get(j, "evidence") == Arr(entries)
    || (entries == [] && (Get(j, "evidence") == Obj(map[]) || Get(j, "evidence") == Str("")))
  }

  lemma ItemsIff(j: Json, entries: seq<Json>)
    ensures Items(Get(j, "evidence")) == Some(entries) <==> ListsEvidence(j, entries)
  {
  }

  /** The dump opens and loads as this database. */
  predicate HoldsDump(vault: Vault, dir: Directory, name: string, db: Database) {
    && name in dir && dir[name].File? && vault.open(dir[name].data).Some?
    && var dump := vault.open(dir[name].data).value;
    vault.lists(dump) && vault.loads(dump) == Some(db)
  }

  /** The entry's path stays below the root, and its file opens to the bytes the entry describes. */
  predicate OpensAs(tools: Tools, vault: Vault, dir: Directory, entry: Json) {
    && Get(entry, "path").Str?
    && var path := Get(entry, "path").s;
    && !(path != "" && path[0] == '/') && ".." !in PathParts(path) && PathParts(path) != []
    && Get(Get(entry, "encrypted"), "filename").Str?
    && var name := "evidence/" + Get(Get(entry, "encrypted"), "filename").s;
    && name in dir && dir[name].File? && vault.open(dir[name].data).Some?
    && var data := vault.open(dir[name].data).value;
    EqualsInt(Get(entry, "size"), |data|) && Get(entry, "sha256") == Str(tools.sha(data))
  }

  /** One entry's path runs through the file of the other. */
  predicate Nested(a: Json, b: Json) {
    && Get(a, "path").Str? && Get(b, "path").Str?
    && var p, q := PathParts(Get(a, "path").s), PathParts(Get(b, "path").s);
    p < q || q < p
  }

  lemma EntryRestoresIff(tools: Tools, vault: Vault, dir: Directory, entries: seq<Json>, i: nat)
    requires i < |entries| && HasFile(tools, dir, "evidence/", Get(entries[i], "encrypted"))
    requires forall k :: 0 <= k < i ==> OpensAs(tools, vault, dir, entries[k])
    ensures EntryRestores(tools, vault, dir, entries, i) <==>
            && OpensAs(tools, vault, dir, entries[i])
            && forall k :: 0 <= k < i ==> !Nested(entries[k], entries[i])
  {
    hide PathParts, EqualsInt, RestoredUpTo;
    forall k | 0 <= k < i
      ensures ClearOf(vault, dir, entries[k]).Some? && TargetOf(entries[k]) == PathParts(Get(entries[k], "path").s)
    {
      assert OpensAs(tools, vault, dir, entries[k]);
    }
    RestoredPaths(vault, dir, entries, i);
    assert forall k :: 0 <= k < i ==> TargetOf(entries[k]) in RestoredUpTo(vault, dir, entries, i);
  }

  /** Every entry restores exactly when every file opens as described and no path runs through another file. */
  lemma {:induction false} EntriesRestoreIff(tools: Tools, vault: Vault, dir: Directory, entries: seq<Json>, n: nat)
    requires n <= |entries|
    requires forall i :: 0 <= i < n ==> HasFile(tools, dir, "evidence/", Get(entries[i], "encrypted"))
    ensures (forall i :: 0 <= i < n ==> EntryRestores(tools, vault, dir, entries, i)) <==>
            && (forall i :: 0 <= i < n ==> OpensAs(tools, vault, dir, entries[i]))
            && forall k, i :: 0 <= k < i < n ==> !Nested(entries[k], entries[i])
  {
    hide HasFile, EntryRestores, OpensAs, Nested;
    if n > 0 {
      EntriesRestoreIff(tools, vault, dir, entries, n - 1);
      if forall i :: 0 <= i < n - 1 ==> OpensAs(tools, vault, dir, entries[i]) {
        EntryRestoresIff(tools, vault, dir, entries, n - 1);
      }
    }
  }

  lemma ArchiveRestoresIff(tools: Tools, vault: Vault, dir: Directory, metadata: Json)
    ensures ArchiveRestores(tools, vault, dir, metadata) <==>
            && HasFile(tools, dir, "", metadata)
            && exists db :: HoldsDump(vault, dir, Get(metadata, "filename").s, db)
    ensures HasFile(tools, dir, "", metadata) ==>
              forall db :: HoldsDump(vault, dir, Get(metadata, "filename").s, db) ==> DatabaseIn(vault, dir, metadata) == Some(db)
  {
    if ArchiveRestores(tools, vault, dir, metadata) {
      var name := Get(metadata, "filename").s;
      assert "" + name == name;
      assert HoldsDump(vault, dir, name, vault.loads(vault.open(dir[name].data).value).value);
    }
    if HasFile(tools, dir, "", metadata) {
      assert "" + Get(metadata, "filename").s == Get(metadata, "filename").s;
    }
  }

  /** The restored rows, the entries and the files agree, table by table. */
  predicate Agrees(tools: Tools, db: Database, entries: seq<Json>, files: map<seq<string>, Bytes>) {
    && db.sound && |entries| == |db.workflow| + |db.improvement|
    && RowsAgree(tools, "workflow_execution_evidence_files", "", db.workflow, entries, 0, files)
    && RowsAgree(tools, "continuous_improvement_execution_evidence_files", "continuous-improvement/",
                 db.improvement, entries, |db.workflow|, files)
  }

  /** Every file of the package opens as described, and no path runs through another file. */
  predicate FilesOpen(tools: Tools, vault: Vault, dir: Directory, entries: seq<Json>) {
    && (forall i :: 0 <= i < |entries| ==> HasFile(tools, dir, "evidence/", Get(entries[i], "encrypted")))
    && (forall i :: 0 <= i < |entries| ==> OpensAs(tools, vault, dir, entries[i]))
    && (forall k, i :: 0 <= k < i < |entries| ==> !Nested(entries[k], entries[i]))
  }

  /** A backup of ours whose files are all there and open, whose paths do not run through each other, and whose dump agrees. */
  predicate IsRestorable(tools: Tools, vault: Vault, dir: Directory, j: Json, entries: seq<Json>, db: Database) {
    && IsOurBackup(j) && ListsEvidence(j, entries) && EqualsInt(Get(j, "evidence_file_count"), |entries|)
    && HasFile(tools, dir, "", Get(j, "archive"))
    && HoldsDump(vault, dir, Get(Get(j, "archive"), "filename").s, db)
    && FilesOpen(tools, vault, dir, entries)
    && Agrees(tools, db, entries, Restored(vault, dir, entries))
  }

  lemma FilesOpenIff(tools: Tools, vault: Vault, dir: Directory, entries: seq<Json>)
    ensures FilesOpen(tools, vault, dir, entries) <==>
            forall i :: 0 <= i < |entries| ==>
              && Verifies(tools, dir, "evidence/", EntryMetadata(entries[i]))
              && EntryRestores(tools, vault, dir, entries, i)
  {
    hide HasFile, Verifies, EntryRestores, OpensAs, Nested;
    forall i | 0 <= i < |entries|
      ensures Verifies(tools, dir, "evidence/", EntryMetadata(entries[i])) <==>
              HasFile(tools, dir, "evidence/", Get(entries[i], "encrypted"))
    {
      VerifiesIff(tools, dir, "evidence/", Get(entries[i], "encrypted"));
    }
    if forall i :: 0 <= i < |entries| ==> HasFile(tools, dir, "evidence/", Get(entries[i], "encrypted")) {
      EntriesRestoreIff(tools, vault, dir, entries, |entries|);
    }
  }

  lemma AcceptsWith(tools: Tools, vault: Vault, dir: Directory, j: Json, entries: seq<Json>, db: Database)
    requires Items(Get(j, "evidence")) == Some(entries) && DatabaseIn(vault, dir, Get(j, "archive")) == Some(db)
    requires HasFile(tools, dir, "", Get(j, "archive")) && HoldsDump(vault, dir, Get(Get(j, "archive"), "filename").s, db)
    ensures RestoreAccepts(tools, vault, dir, j) <==> IsRestorable(tools, vault, dir, j, entries, db)
  {
    hide FilesOpen, HasFile, Verifies, EntryRestores, ArchiveRestores, HoldsDump, IsValidRestore, RowsAgree,
         Restored, Items, ListsEvidence, EqualsInt, DatabaseIn, IsContract, IsOurBackup, EntryMetadata;
    ContractIff(j);
    ItemsIff(j, entries);
    ArchiveRestoresIff(tools, vault, dir, Get(j, "archive"));
    FilesOpenIff(tools, vault, dir, entries);
    ValidIff(tools, db, entries, Restored(vault, dir, entries));
  }

  /** What an isolated restore accepts. */
  lemma AcceptsIff(tools: Tools, vault: Vault, dir: Directory, j: Json)
    ensures RestoreAccepts(tools, vault, dir, j) <==> exists entries, db :: IsRestorable(tools, vault, dir, j, entries, db)
  {
    hide HasFile, HoldsDump, RestoreAccepts, Items, ListsEvidence, DatabaseIn, ArchiveRestores, Agrees, EntryRestores;
    var metadata := Get(j, "archive");
    ArchiveRestoresIff(tools, vault, dir, metadata);
    if RestoreAccepts(tools, vault, dir, j) {
      AcceptedParts(tools, vault, dir, j);
      var entries, db := Items(Get(j, "evidence")).value, DatabaseIn(vault, dir, metadata).value;
      AcceptsWith(tools, vault, dir, j, entries, db);
    }
    if entries, db :| IsRestorable(tools, vault, dir, j, entries, db) {
      ItemsIff(j, entries);
      AcceptsWith(tools, vault, dir, j, entries, db);
    }
  }

  lemma AcceptedParts(tools: Tools, vault: Vault, dir: Directory, j: Json)
    requires RestoreAccepts(tools, vault, dir, j)
    ensures Items(Get(j, "evidence")).Some? && ArchiveRestores(tools, vault, dir, Get(j, "archive"))
    ensures DatabaseIn(vault, dir, Get(j, "archive")).Some?
  {
  }
}
