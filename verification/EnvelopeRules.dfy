/** What an accepted envelope and a package are, field by field and member by member. */
module EnvelopeRules {
  import opened Common
  import opened Strings
  import opened Packages
  import opened MemberOrder
  import opened Envelope

  /// ## Names and identifiers

  predicate AreDigits(s: string) {
    forall i :: 0 <= i < |s| ==> '0' <= s[i] <= '9'
  }

  predicate AreHexDigits(s: string) {
    forall i :: 0 <= i < |s| ==> '0' <= s[i] <= '9' || s[i] in {'a', 'b', 'c', 'd', 'e', 'f'}
  }

  /** A backup id is a date, `T`, a time, `Z-` and 32 hexadecimal digits. */
  lemma BackupIdIff(s: string)
    ensures IsBackupId(s) <==>
            exists date, time, hex :: |date| == 8 && |time| == 6 && |hex| == 32 && AreDigits(date) && AreDigits(time)
                                   && AreHexDigits(hex) && s == date + "T" + time + "Z-" + hex
  {
    if IsBackupId(s) {
      var date, time, hex := s[..8], s[9..15], s[17..];
      assert AreDigits(date) && AreDigits(time) && AreHexDigits(hex);
      assert s == date + "T" + time + "Z-" + hex;
    }
    if date, time, hex :| |date| == 8 && |time| == 6 && |hex| == 32 && AreDigits(date) && AreDigits(time)
                          && AreHexDigits(hex) && s == date + "T" + time + "Z-" + hex {
      assert forall i :: 0 <= i < 8 ==> s[i] == date[i];
      assert s[8] == 'T' && s[15] == 'Z' && s[16] == '-';
      assert forall i :: 9 <= i < 15 ==> s[i] == time[i - 9];
      assert forall i :: 17 <= i < 49 ==> s[i] == hex[i - 17];
    }
  }

  lemma EndsWithIff(s: string, suffix: string)
    ensures EndsWith(s, suffix) <==> exists front :: s == front + suffix
  {
    if EndsWith(s, suffix) {
      assert s == s[..|s| - |suffix|] + suffix;
    }
  }

  /** Relative, with a part that names something, never upwards, and without backslash and NUL. */
  lemma SafeNameIff(name: string)
    ensures SafeMemberName(name) <==>
            && name != "" && name[0] != '/' && '\\' !in name && (0 as char) !in name
            && ".." !in SplitOn(name, '/') && exists part :: part in SplitOn(name, '/') && part != "" && part != "."
  {
    hide PathParts;
    if name == "" {
      EmptySplit();
    }
    PartsOfName(name);
  }

  lemma PartsOfName(name: string)
    ensures PathParts(name) != [] <==> exists part :: part in SplitOn(name, '/') && part != "" && part != "."
    ensures ".." in PathParts(name) <==> ".." in SplitOn(name, '/')
  {
    hide SplitOn;
    var parts := PathParts(name);
    if parts != [] {
      assert parts[0] in parts;
      assert IsCleanPart(parts[0]) && parts[0] in SplitOn(name, '/');
    }
    if part :| part in SplitOn(name, '/') && part != "" && part != "." {
      assert IsCleanPart(part);
      assert part in parts;
    }
    assert IsCleanPart("..");
  }

  lemma EmptySplit()
    ensures SplitOn("", '/') == [""]
  {
    SplitOnPart("", '/', "");
  }

  /// ## JSON

  /** A number, or the boolean Python takes for it. */
  lemma EqualsIntIff(j: Json, n: int)
    ensures EqualsInt(j, n) <==> j == Num(n) || (j == Bool(true) && n == 1) || (j == Bool(false) && n == 0)
  {
  }

  /** The metadata gives this name, and the size and hash of these bytes. */
  predicate IsMetadataOf(tools: Tools, metadata: Json, name: string, data: Bytes) {
    && Get(metadata, "filename") == Str(name) && Get(metadata, "sha256") == Str(tools.sha(data))
    && EqualsInt(Get(metadata, "size"), |data|)
  }

  lemma DescribesIff(tools: Tools, metadata: Json, name: string, data: Bytes)
    ensures Describes(tools, metadata, name, data) <==> IsMetadataOf(tools, metadata, name, data)
  {
  }

  /** A complete local backup that was not uploaded, with a well-formed id. */
  predicate IsUploadable(j: Json) {
    && EqualsInt(Get(j, "manifest_version"), 1)
    && Get(j, "status") == Str("COMPLETE_LOCAL") && Get(j, "off_vm_status") == Str("NOT_UPLOADED")
    && Get(j, "backup_id").Str? && IsBackupId(Get(j, "backup_id").s)
  }

  /** The evidence entry names an encrypted file by a plain name. */
  predicate NamesFile(entry: Json, name: string) {
    && Get(Get(entry, "encrypted"), "filename") == Str(name) && '/' !in name && name != "."
    && EndsWith(name, ".age")
  }

  /** The evidence of the manifest is a list of as many entries as it says, each naming a file. */
  predicate ListsFiles(j: Json) {
    && Get(j, "evidence").Arr? && EqualsInt(Get(j, "evidence_file_count"), |Get(j, "evidence").items|)
    && forall k :: 0 <= k < |Get(j, "evidence").items| ==>
         var name := Get(Get(Get(j, "evidence").items[k], "encrypted"), "filename");
         name.Str? && NamesFile(Get(j, "evidence").items[k], name.s)
  }

  /** The file the k-th evidence entry names. */
  function FileAt(j: Json, k: nat): string
    requires ListsFiles(j) && k < |Get(j, "evidence").items|
  {
    Get(Get(Get(j, "evidence").items[k], "encrypted"), "filename").s
  }

  /** The name is the manifest's, the dump's or that of an evidence file. */
  predicate IsDeclared(j: Json, name: string)
    requires ListsFiles(j)
  {
    || name == "manifest.json" || name == "postgres.dump.age"
    || exists k :: 0 <= k < |Get(j, "evidence").items| && name == "evidence/" + FileAt(j, k)
  }

  lemma ManifestIff(j: Json)
    ensures IsCompleteLocal(j) && HasBackupId(j) <==> IsUploadable(j)
    ensures HasGoodEvidence(j) <==> ListsFiles(j)
    ensures ListsFiles(j) ==> forall name :: name in DeclaredNames(j) <==> IsDeclared(j, name)
  {
    hide IsBackupId, EndsWith;
    if ListsFiles(j) {
      forall name
        ensures name in DeclaredNames(j) <==> IsDeclared(j, name)
      {
        if name in EntryPaths(Evidence(j)) {
          var k :| 0 <= k < |Evidence(j)| && EntryPath(Evidence(j)[k]) == name;
          assert name == "evidence/" + FileAt(j, k);
        }
        if k: nat :| k < |Get(j, "evidence").items| && name == "evidence/" + FileAt(j, k) {
          assert EntryPath(Evidence(j)[k]) == name;
        }
      }
    }
  }

  /// ## Packages

  /**
   A package holds plain files only: the manifest, the dump it describes, and the
   evidence files it describes, and nothing else.
   */
  lemma PackageIff(tools: Tools, dir: Directory, j: Json)
    ensures IsPackage(tools, dir, j) <==>
            && (forall name :: name in dir ==> dir[name].File?)
            && "manifest.json" in dir && tools.parse(dir["manifest.json"].data) == Some(j) && IsUploadable(j) && ListsFiles(j)
            && (forall name :: name in dir <==> IsDeclared(j, name))
            && IsMetadataOf(tools, Get(j, "archive"), "postgres.dump.age", dir["postgres.dump.age"].data)
            && forall k :: 0 <= k < |Get(j, "evidence").items| ==>
                 IsMetadataOf(tools, Get(Get(j, "evidence").items[k], "encrypted"), FileAt(j, k), dir["evidence/" + FileAt(j, k)].data)
  {
    hide IsUploadable, IsCompleteLocal, HasBackupId, Describes, IsMetadataOf, NamesFile, IsGoodEntry, DeclaredNames;
    ManifestIff(j);
    if ListsFiles(j) && AllFiles(dir) {
      assert DataOf(dir).Keys == dir.Keys;
      if DataOf(dir).Keys == DeclaredNames(j) {
        FilesAgree(tools, j, dir);
      }
    }
  }

  lemma FilesAgree(tools: Tools, j: Json, dir: Directory)
    requires ListsFiles(j) && AllFiles(dir) && dir.Keys == DeclaredNames(j)
    ensures ARCHIVE in dir && forall k :: 0 <= k < |Evidence(j)| ==> "evidence/" + FileAt(j, k) in dir
    ensures Describes(tools, Get(j, "archive"), ARCHIVE, DataOf(dir)[ARCHIVE])
            <==> IsMetadataOf(tools, Get(j, "archive"), "postgres.dump.age", dir["postgres.dump.age"].data)
    ensures forall k :: 0 <= k < |Evidence(j)| ==>
              (EntryHolds(tools, Evidence(j)[k], DataOf(dir)) <==>
                 IsMetadataOf(tools, Get(Evidence(j)[k], "encrypted"), FileAt(j, k), dir["evidence/" + FileAt(j, k)].data))
  {
    hide Describes, IsMetadataOf;
    DescribesIff(tools, Get(j, "archive"), ARCHIVE, dir[ARCHIVE].data);
    forall k | 0 <= k < |Evidence(j)|
      ensures "evidence/" + FileAt(j, k) in dir
      ensures EntryHolds(tools, Evidence(j)[k], DataOf(dir)) <==>
                IsMetadataOf(tools, Get(Evidence(j)[k], "encrypted"), FileAt(j, k), dir["evidence/" + FileAt(j, k)].data)
    {
      assert EntryPath(Evidence(j)[k]) == "evidence/" + FileAt(j, k);
      assert EntryPath(Evidence(j)[k]) in EntryPaths(Evidence(j));
      DescribesIff(tools, Get(Evidence(j)[k], "encrypted"), FileAt(j, k), dir["evidence/" + FileAt(j, k)].data);
    }
  }

  /// ## Envelopes

  /** What both readers ask of an archive before its manifest: plain files of different safe names within the size limit. */
  predicate IsPlainArchive(ms: seq<Member>, max: nat) {
    && (forall i :: 0 <= i < |ms| ==> ms[i].kind == Regular && SafeMemberName(ms[i].name))
    && (forall i, k :: 0 <= i < k < |ms| ==> ms[i].name != ms[k].name)
    && TotalSize(ms) <= max
  }

  /** The archive carries the manifest, of at most 1 MiB. */
  predicate Carries(tools: Tools, ms: seq<Member>, j: Json) {
    exists i :: 0 <= i < |ms| && ms[i].name == "manifest.json" && |ms[i].data| <= 1048576 && tools.parse(ms[i].data) == Some(j)
  }

  /** The archive's members are exactly those the manifest declares. */
  ghost predicate HasDeclared(ms: seq<Member>, j: Json)
    requires ListsFiles(j)
  {
    forall name :: IsDeclared(j, name) <==> exists i :: 0 <= i < |ms| && ms[i].name == name
  }

  lemma FitsAndDeclares(tools: Tools, ms: seq<Member>, max: nat, j: Json)
    ensures MembersFit(ms, max) && Declares(tools, ms, j) && HasBackupId(j) <==>
            IsPlainArchive(ms, max) && Carries(tools, ms, j) && IsUploadable(j) && ListsFiles(j) && HasDeclared(ms, j)
  {
    hide IsUploadable, IsCompleteLocal, HasBackupId, HasGoodEvidence, ListsFiles, SafeMemberName, TotalSize, FilesOf, IsDeclared,
         DeclaredNames;
    ManifestIff(j);
    if ListsFiles(j) {
      assert NameSet(ms) == DeclaredNames(j) <==> HasDeclared(ms, j) by {
        SameNames(ms, j);
      }
    }
    if Distinct(ms) {
      forall i | 0 <= i < |ms| && ms[i].name == MANIFEST
        ensures FilesOf(ms)[MANIFEST] == ms[i].data
      {
        FilesOfAt(ms, i);
      }
    }
  }

  lemma SameNames(ms: seq<Member>, j: Json)
    requires ListsFiles(j)
    ensures NameSet(ms) == DeclaredNames(j) <==> HasDeclared(ms, j)
  {
    hide ListsFiles, IsDeclared, DeclaredNames, HasGoodEvidence, IsUploadable, IsCompleteLocal, HasBackupId;
    ManifestIff(j);
    forall name
      ensures name in NameSet(ms) <==> exists i :: 0 <= i < |ms| && ms[i].name == name
    {
    }
    if HasDeclared(ms, j) {
      forall name
        ensures name in NameSet(ms) <==> name in DeclaredNames(j)
      {
        assert IsDeclared(j, name) <==> exists i :: 0 <= i < |ms| && ms[i].name == name;
      }
    }
    if NameSet(ms) == DeclaredNames(j) {
      forall name
        ensures IsDeclared(j, name) <==> exists i :: 0 <= i < |ms| && ms[i].name == name
      {
        assert name in DeclaredNames(j) <==> IsDeclared(j, name);
      }
    }
  }

  /** A package of these files, as extraction and packing see it. */
  ghost predicate HoldsAll(tools: Tools, j: Json, files: map<string, Bytes>)
    requires ListsFiles(j)
  {
    && "postgres.dump.age" in files && IsMetadataOf(tools, Get(j, "archive"), "postgres.dump.age", files["postgres.dump.age"])
    && forall k :: 0 <= k < |Get(j, "evidence").items| ==>
         && "evidence/" + FileAt(j, k) in files
         && IsMetadataOf(tools, Get(Get(j, "evidence").items[k], "encrypted"), FileAt(j, k), files["evidence/" + FileAt(j, k)])
  }

  /**
   Extraction accepts exactly the archives of plain, distinct, safe members within
   the limit that carry a complete manifest declaring just them, when every
   declared file has the size and hash its entry gives.
   */
  lemma ExtractedIff(tools: Tools, ms: seq<Member>, max: nat, j: Json)
    ensures ExtractsAs(tools, ms, max, j) <==>
            && IsPlainArchive(ms, max) && Carries(tools, ms, j) && IsUploadable(j) && ListsFiles(j) && HasDeclared(ms, j)
            && HoldsAll(tools, j, FilesOf(ms))
  {
    hide MembersFit, Declares, HasBackupId, IsPlainArchive, Carries, IsUploadable, ListsFiles, HasDeclared, FilesHold, HoldsAll, FilesOf;
    FitsAndDeclares(tools, ms, max, j);
    if IsPlainArchive(ms, max) && Carries(tools, ms, j) && IsUploadable(j) && ListsFiles(j) && HasDeclared(ms, j) {
      SameNames(ms, j);
      HeldIff(tools, j, FilesOf(ms));
    }
  }

  lemma HeldIff(tools: Tools, j: Json, files: map<string, Bytes>)
    requires ListsFiles(j) && files.Keys == DeclaredNames(j)
    ensures FilesHold(tools, j, files) <==> HoldsAll(tools, j, files)
  {
    hide Describes, IsMetadataOf, NamesFile, IsGoodEntry, DeclaredNames;
    ManifestIff(j);
    var dir: Directory := map n | n in files :: File(files[n]);
    assert DataOf(dir) == files;
    FilesAgree(tools, j, dir);
  }

  /**
   Inspection accepts exactly such archives when the dump agrees with its metadata,
   unless that is null, and every evidence member agrees with the last entry that
   names it.
   */
  lemma InspectedIff(tools: Tools, ms: seq<Member>, max: nat, j: Json)
    ensures InspectsAs(tools, ms, max, j) <==>
            && IsPlainArchive(ms, max) && Carries(tools, ms, j) && IsUploadable(j) && ListsFiles(j) && HasDeclared(ms, j)
            && forall i :: 0 <= i < |ms| ==> AgreesWithLast(tools, j, ms[i])
  {
    hide MembersFit, Declares, HasBackupId, IsPlainArchive, Carries, IsUploadable, ListsFiles, HasDeclared, AgreesWithLast,
         MemberHolds;
    FitsAndDeclares(tools, ms, max, j);
    if IsPlainArchive(ms, max) && Carries(tools, ms, j) && IsUploadable(j) && ListsFiles(j) && HasDeclared(ms, j) {
      SameNames(ms, j);
      forall i | 0 <= i < |ms|
        ensures ms[i].name in Expected(j)
        ensures MemberHolds(tools, Expected(j)[ms[i].name], ms[i]) <==> AgreesWithLast(tools, j, ms[i])
      {
        assert ms[i].name in NameSet(ms);
        LastHolds(tools, j, ms[i]);
      }
    }
  }

  /** The k-th entry is the last to name this member. */
  predicate IsLastFor(j: Json, k: nat, name: string)
    requires ListsFiles(j)
  {
    && k < |Get(j, "evidence").items| && name == "evidence/" + FileAt(j, k)
    && forall i :: k < i < |Get(j, "evidence").items| ==> name != "evidence/" + FileAt(j, i)
  }

  ghost predicate AgreesWithLast(tools: Tools, j: Json, m: Member)
    requires ListsFiles(j)
  {
    && (m.name == "postgres.dump.age" ==>
          Get(j, "archive") == Null || IsMetadataOf(tools, Get(j, "archive"), "postgres.dump.age", m.data))
    && forall k: nat :: IsLastFor(j, k, m.name) ==>
         IsMetadataOf(tools, Get(Get(j, "evidence").items[k], "encrypted"), FileAt(j, k), m.data)
  }

  lemma {:induction false} LastExpected(j: Json, n: nat, name: string) returns (k: nat)
    requires ListsFiles(j) && n <= |Evidence(j)| && name in ExpectedUpTo(j, n) && name != MANIFEST && name != ARCHIVE
    ensures k < n && name == "evidence/" + FileAt(j, k) && ExpectedUpTo(j, n)[name] == Get(Evidence(j)[k], "encrypted")
    ensures forall i :: k < i < n ==> name != "evidence/" + FileAt(j, i)
  {
    hide NamesFile, EntryPaths;
    assert n > 0;
    assert EntryPath(Evidence(j)[n - 1]) == "evidence/" + FileAt(j, n - 1);
    if name == "evidence/" + FileAt(j, n - 1) {
      k := n - 1;
    } else {
      k := LastExpected(j, n - 1, name);
    }
  }

  lemma LastHolds(tools: Tools, j: Json, m: Member)
    requires ListsFiles(j) && m.name in DeclaredNames(j)
    ensures MemberHolds(tools, Expected(j)[m.name], m) <==> AgreesWithLast(tools, j, m)
  {
    hide Describes, IsMetadataOf, ExpectedUpTo, NamesFile, DeclaredNames, BaseName;
    var n := |Evidence(j)|;
    ExpectedFixed(j, n);
    FixedNames();
    ArchiveName();
    ManifestIff(j);
    forall k: nat | k < n
      ensures "evidence/" + FileAt(j, k) != ARCHIVE && "evidence/" + FileAt(j, k) != MANIFEST
    {
      assert EvidencePath(FileAt(j, k)) == "evidence/" + FileAt(j, k);
    }
    if m.name == ARCHIVE {
      DescribesIff(tools, Get(j, "archive"), ARCHIVE, m.data);
    } else if m.name != MANIFEST {
      var k := LastExpected(j, n, m.name);
      EvidenceNamed(j, k);
      DescribesIff(tools, Get(Evidence(j)[k], "encrypted"), FileAt(j, k), m.data);
      assert IsLastFor(j, k, m.name);
      forall i: nat | IsLastFor(j, i, m.name)
        ensures i == k
      {
      }
    }
  }

  lemma EvidenceNamed(j: Json, k: nat)
    requires ListsFiles(j) && k < |Evidence(j)|
    ensures BaseName("evidence/" + FileAt(j, k)) == FileAt(j, k) && Get(Evidence(j)[k], "encrypted") != Null
  {
    hide BaseName, EndsWith;
    assert NamesFile(Evidence(j)[k], FileAt(j, k));
    assert FileAt(j, k) != "" by {
      NotDots(FileAt(j, k));
    }
    EvidencePathParts(FileAt(j, k));
    assert EvidencePath(FileAt(j, k)) == "evidence/" + FileAt(j, k);
  }

  /// ## Sizes

  /** The size of an archive's contents is that of its parts, and of one member its own. */
  lemma {:induction false} TotalSizeAdds(a: seq<Member>, b: seq<Member>)
    ensures TotalSize(a + b) == TotalSize(a) + TotalSize(b)
    ensures |b| == 1 ==> TotalSize(b) == |b[0].data|
  {
    if b == [] {
      assert a + b == a;
    } else {
      var last := |b| - 1;
      assert (a + b)[..|a + b| - 1] == a + b[..last];
      TotalSizeAdds(a, b[..last]);
      assert |b| == 1 ==> b[..last] == [];
    }
  }

  /** Whether a package fits is first judged by its contents and one block for each member and for two more. */
  lemma EstimateIs(ms: seq<Member>)
    ensures Estimate(ms) == TotalSize(ms) + 1024 * |ms| + 2048
  {
  }
}
