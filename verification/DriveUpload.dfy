/** Uploading one backup envelope to the folder, with reconciliation by backup id. */
module DriveUpload {
  import opened Common
  import opened DriveServer
  import opened UploadClient
  import opened ResumableSession

  const TAR := "application/x-tar"
  const MAX_ENVELOPE_BYTES: nat := 100 * 1024 * 1024 * 1024

  /** What the remote copy has to agree with. */
  datatype Expected = Expected(backupId: string, size: nat, sha: string, md5: string)

  function RemoteName(backupId: string): string {
    backupId + ".frcaixinha.tar"
  }

  predicate Verifies(m: Metadata, e: Expected, folder: string) {
    && m.id != "" && !m.trashed
    && m.name == RemoteName(e.backupId) && m.mimeType == TAR && m.parents == [folder]
    && m.props.backupId == e.backupId && m.props.marker == "v1"
    && m.props.localSha == e.sha && m.props.localSize == e.size
    && m.size == e.size && m.md5 == e.md5
  }

  function VerifyRemote(m: Metadata, e: Expected, folder: string): Result<Metadata, UploadError> {
    if Verifies(m, e, folder) then Success(m) else Failure(Drive("drive_remote_verification_failed"))
  }

  function DeclaredFor(e: Expected, folder: string): Declared {
    Declared(RemoteName(e.backupId), TAR, [folder], Properties("v1", e.backupId, e.sha, e.size), e.size)
  }

  /** A reply after which the request to open a session is repeated. */
  predicate IsRetried(reply: OpenReply) {
    || reply == NoAnswer(false)
    || (reply.Opened?
        && (reply.status in {429, 500, 502, 503, 504} || (reply.status == 403 && reply.rateLimited)))
  }

  /** An open session at a trusted host. */
  predicate IsOpening(reply: OpenReply) {
    reply.Opened? && (reply.status == 200 || reply.status == 201) && reply.location == Some(true)
  }

  /** The errors after which the folder is asked again. */
  predicate Ambiguous(error: UploadError) {
    error.Http? || error in {Drive("drive_timeout"), Drive("drive_transport_failed"),
                             Drive("drive_ambiguous_upload_result"), Drive("drive_upload_session_expired")}
  }

  ghost predicate CollisionFree(hash: Bytes -> string) {
    forall a, b :: hash(a) == hash(b) ==> a == b
  }

  /** Every object of the folder with this backup id carries the hash of its own content. */
  ghost predicate Labelled(objects: seq<RemoteObject>, folder: string, backupId: string, sha: Bytes -> string) {
    forall o :: o in objects && HasBackup(folder, backupId)(o) ==> o.declared.props.localSha == sha(o.content)
  }

  /** At most one more object, a faithful copy of `file`, and only where there was none. */
  ghost predicate LandedAtMostOnce(before: seq<RemoteObject>, after: seq<RemoteObject>, e: Expected, folder: string, file: Bytes) {
    || after == before
    || (&& |after| == |before| + 1 && after[..|before|] == before
        && Matching(before, folder, e.backupId) == []
        && after[|before|].declared == DeclaredFor(e, folder) && after[|before|].content == file)
  }

  /** The exchanges of one session that was just opened, with the result they lead to. */
  ghost predicate Exchanged(file: Bytes, w: ServerState, log: seq<Request>, r: Result<Metadata, UploadError>, v: ServerState) {
    Leads(file, START, log, Client.Ended(r)) && Chained(w, log, v)
  }

  /**
   What one call does to the server: nothing, or, when it found no copy, requests
   to open a session and the exchanges of the session that was opened at last.
   */
  ghost predicate CallSteps(w: ServerState, e: Expected, folder: string, file: Bytes, log: seq<Request>, v: ServerState) {
    || (log == [] && v == w)
    || (&& Matching(w.objects, folder, e.backupId) == [] && file != []
        && exists tries, u :: Reopened(w, DeclaredFor(e, folder), tries, u) && SessionSteps(u, e, folder, file, log, v))
  }

  ghost predicate SessionSteps(u: ServerState, e: Expected, folder: string, file: Bytes, log: seq<Request>, v: ServerState) {
    || (log == [] && v == u)
    || exists r :: Exchanged(file, OpenedWith(u, DeclaredFor(e, folder)), log, r, v)
  }

  /**
   How a call ends whose session was used: it succeeds exactly when the upload
   landed and the replies told the client so, or left it in doubt.
   */
  ghost predicate EndsAsReplied(file: Bytes, log: seq<Request>, session: Option<Session>, r: Result<Metadata, UploadError>) {
    forall res :: Leads(file, START, log, Client.Ended(res)) ==>
      (r.Success? <==> session.Some? && session.value.landed.Some? && (res.Success? || Ambiguous(res.error)))
  }

  /** One more object: one more match exactly when it carries the id. */
  lemma MatchingSnoc(objects: seq<RemoteObject>, o: RemoteObject, folder: string, backupId: string)
    ensures Matching(objects + [o], folder, backupId)
         == Matching(objects, folder, backupId) + if HasBackup(folder, backupId)(o) then [o] else []
  {
    FilterConcat(HasBackup(folder, backupId), objects, [o]);
    assert [o][1..] == [];
  }

  lemma LandedCount(before: seq<RemoteObject>, after: seq<RemoteObject>, e: Expected, folder: string, file: Bytes)
    requires LandedAtMostOnce(before, after, e, folder, file)
    ensures after != before ==> Matching(after, folder, e.backupId) == [after[|before|]]
  {
    if after != before {
      assert after == before + [after[|before|]];
      MatchingSnoc(before, after[|before|], folder, e.backupId);
    }
  }

  class Destination {
    const drive: Drive
    const folder: string
    const sha: Bytes -> string
    /** The backup id of a valid envelope, or why it is invalid. */
    const inspect: Bytes -> Result<string, string>

    constructor (drive: Drive, folder: string, sha: Bytes -> string, inspect: Bytes -> Result<string, string>)
      ensures this.drive == drive && this.folder == folder && this.sha == sha && this.inspect == inspect
    {
      this.drive, this.folder, this.sha, this.inspect := drive, folder, sha, inspect;
    }

    function ExpectedFor(backupId: string, file: Bytes): Expected
    {
      Expected(backupId, |file|, sha(file), drive.md5(file))
    }

    function Copies(backupId: string): seq<RemoteObject>
      reads drive
    {
      Matching(drive.objects, folder, backupId)
    }

    /** The one copy of the folder, as the API describes it, verified against `e` and marked. */
    ghost predicate Confirmed(m: Metadata, e: Expected)
      reads drive
    {
      && |Copies(e.backupId)| == 1
      && m == drive.Describe(Copies(e.backupId)[0])
      && m.verified && Verifies(m, e, folder)
    }

    /** The copies of the folder agree with `e`. */
    ghost predicate CopiesVerify(e: Expected)
      reads drive
    {
      forall o :: o in Copies(e.backupId) ==> Verifies(drive.Describe(o), e, folder)
    }

    /** Nothing but lost replies and server faults of media requests stands in the way of uploading `file`. */
    ghost predicate Uploadable(backupId: string, file: Bytes)
      reads drive
    {
      && drive.steady && drive.answers && inspect(file) == Success(backupId) && 0 < |file| <= MAX_ENVELOPE_BYTES
      && |Copies(backupId)| <= 1 && CopiesVerify(ExpectedFor(backupId, file))
    }

    method Reconcile(e: Expected) returns (r: Result<Option<Metadata>, UploadError>)
      ensures r.Success? && r.value.None? ==> Copies(e.backupId) == []
      ensures r.Success? && r.value.Some? ==>
                |Copies(e.backupId)| == 1 && r.value.value == drive.Describe(Copies(e.backupId)[0])
                && Verifies(r.value.value, e, folder)
      ensures |Copies(e.backupId)| > 1 && drive.answers ==> r == Failure(Drive("drive_duplicate_backup_id"))
      ensures |Copies(e.backupId)| > 1 ==> r.Failure?
      ensures drive.answers && |Copies(e.backupId)| <= 1 && CopiesVerify(e) ==> r.Success?
    {
      var listed := drive.List(folder, e.backupId);
      match listed {
        case None =>
          var error: UploadError := *;
          return Failure(error);
        case Some(matches) =>
          if |matches| > 1 {
            return Failure(Drive("drive_duplicate_backup_id"));
          }
          if matches == [] {
            return Success(None);
          }
          var m :- VerifyRemote(matches[0], e, folder);
          return Success(Some(m));
      }
    }

    method MarkRemoteVerified(m: Metadata, e: Expected) returns (r: Result<Metadata, UploadError>)
      requires drive.Valid()
      modifies drive`verified
      ensures drive.Valid()
      ensures r.Success? ==> Verifies(r.value, e, folder) && r.value.verified
      ensures r.Success? ==> forall o :: o in drive.objects && o.id == m.id ==> r.value == drive.Describe(o)
      ensures drive.answers && (exists o :: o in drive.objects && o.id == m.id && Verifies(drive.Describe(o), e, folder)) ==>
                r.Success?
    {
      var patched := drive.Patch(m.id);
      match patched {
        case None =>
          var error: UploadError := *;
          return Failure(error);
        case Some(answer) =>
          r := VerifyRemote(answer, e, folder);
      }
    }

    method OpenSession(e: Expected)
      returns (r: Result<(), UploadError>, ghost tries: nat, ghost u: ServerState, ghost replies: seq<OpenReply>)
      requires drive.Valid()
      modifies drive`session, drive`abandoned, drive`base
      ensures drive.Valid()
      ensures r.Success? ==> drive.session == Some(Session(DeclaredFor(e, folder), [], [], None))
      ensures Reopened(old(drive.State()), DeclaredFor(e, folder), tries, u)
      ensures drive.State() == if r.Success? then OpenedWith(u, DeclaredFor(e, folder)) else u
      ensures 1 <= |replies| <= MAX_RETRIES + 1
      ensures forall i :: 0 <= i < |replies| - 1 ==> IsRetried(replies[i])
      ensures IsRetried(replies[|replies| - 1]) ==> |replies| == MAX_RETRIES + 1
      ensures r.Success? <==> IsOpening(replies[|replies| - 1])
      ensures drive.steady ==> r.Success?
    {
      hide Reopened;
      tries, u, replies := 0, drive.State(), [];
      ReopenedNever(u, DeclaredFor(e, folder));
      for attempt := 0 to MAX_RETRIES + 1
        invariant drive.Valid()
        invariant |replies| == attempt <= MAX_RETRIES && forall i :: 0 <= i < |replies| ==> IsRetried(replies[i])
        invariant u == drive.State() && Reopened(old(drive.State()), DeclaredFor(e, folder), tries, u)
        invariant drive.steady ==> attempt == 0
      {
        ghost var w := drive.State();
        var reply := drive.Open(DeclaredFor(e, folder));
        replies := replies + [reply];
        ghost var known := reply.Opened? && (reply.status == 200 || reply.status == 201) && reply.location == Some(true);
        if !known {
          ReopenedNext(old(drive.State()), DeclaredFor(e, folder), tries, w, drive.State());
          tries, u := tries + 1, drive.State();
        }
        match reply {
          case NoAnswer(killed) =>
            if killed {
              return Failure(UploadError.Killed), tries, u, replies;
            }
            if attempt == MAX_RETRIES {
              return Failure(Http), tries, u, replies;
            }
          case Opened(status, rateLimited, location) =>
            var answer := Response(status, rateLimited, None, None);
            if !Retryable(answer) || attempt == MAX_RETRIES {
              if (status != 200 && status != 201) || location == None {
                return Failure(Drive(if status >= 400 then ResponseError(answer) else "drive_upload_session_invalid")), tries, u, replies;
              }
              if !location.value {
                return Failure(Drive("drive_upload_session_host_invalid")), tries, u, replies;
              }
              return Success(()), tries, u, replies;
            }
        }
      }
      return Failure(Drive("drive_transport_failed")), tries, u, replies;
    }

    lemma ReopenedNever(w: ServerState, declared: Declared)
      ensures Reopened(w, declared, 0, w)
    {
    }

    lemma ReopenedNext(w: ServerState, declared: Declared, tries: nat, u: ServerState, v: ServerState)
      requires Reopened(w, declared, tries, u) && (v == GivenUp(u) || v == OpenedWith(u, declared))
      ensures Reopened(w, declared, tries + 1, v)
    {
      assert Reopened(w, declared, (tries + 1) - 1, u);
    }

    /**
     One upload under the lock. It opens a session only when the folder has no
     copy, so it adds at most one object, and that one is the file. It succeeds
     only when the folder then holds exactly one copy with the expected size,
     hashes and properties, and it leaves a folder with copies as it is. When the
     folder answers, a call whose upload landed succeeds unless the replies said
     otherwise. On a steady server a valid file fails only for too many rate
     limits in a row.
     */
    method UploadLocked(backupId: string, file: Bytes) returns (r: Result<Metadata, UploadError>)
      requires drive.Valid()
      modifies drive
      ensures drive.Valid()
      ensures LandedAtMostOnce(old(drive.objects), drive.objects, ExpectedFor(backupId, file), folder, file)
      ensures r.Success? ==> Confirmed(r.value, ExpectedFor(backupId, file))
      ensures r.Success? ==>
                && r.value.id != ""
                && r.value == Metadata(r.value.id, backupId + ".frcaixinha.tar", "application/x-tar", [folder],
                                       Properties("v1", backupId, sha(file), |file|), true, |file|, drive.md5(file), false)
      ensures inspect(file) == Success(backupId) && 0 < |file| <= 100 * 1024 * 1024 * 1024 && drive.answers ==>
                && (|old(Copies(backupId))| > 1 ==> r == Failure(Drive("drive_duplicate_backup_id")))
                && (|old(Copies(backupId))| == 1 ==> (r.Success? <==> old(CopiesVerify(ExpectedFor(backupId, file)))))
      ensures inspect(file) != Success(backupId) || !(0 < |file| <= 100 * 1024 * 1024 * 1024) ==>
                r.Failure? && drive.State() == old(drive.State())
      ensures old(Copies(backupId)) != [] ==> drive.session == old(drive.session) && drive.log == old(drive.log)
      ensures |old(Copies(backupId))| > 1 ==> r.Failure?
      ensures r.Success? ==> inspect(file) == Success(backupId) && 0 < |file| <= MAX_ENVELOPE_BYTES
      ensures old(drive.log) <= drive.log
      ensures old(Uploadable(backupId, file)) ==> (r.Success? <==> !Overrun(drive.log[|old(drive.log)|..]))
      ensures drive.answers ==> EndsAsReplied(file, drive.log[|old(drive.log)|..], drive.session, r)
      ensures CallSteps(old(drive.State()), ExpectedFor(backupId, file), folder, file, drive.log[|old(drive.log)|..],
                        drive.State())
    {
      NoExchanges(drive.log);
      match inspect(file) {
        case Failure(code) =>
          return Failure(Drive(code));
        case Success(id) =>
          if id != backupId {
            return Failure(Drive("envelope_backup_id_mismatch"));
          }
      }
      if |file| == 0 || |file| > MAX_ENVELOPE_BYTES {
        return Failure(Drive("envelope_size_limit_exceeded"));
      }
      var e := ExpectedFor(backupId, file);
      var existing :- Reconcile(e);
      if existing.Some? {
        r := MarkRemoteVerified(existing.value, e);
        return;
      }
      r := UploadNew(e, file);
    }

    lemma NoExchanges(log: seq<Request>)
      ensures !Overrun(log[|log|..])
    {
    }

    /** Before any exchange no session has ended. */
    lemma NothingReplied(file: Bytes, session: Option<Session>, log: seq<Request>, r: Result<Metadata, UploadError>)
      ensures EndsAsReplied(file, log[|log|..], session, r)
    {
    }

    /** The part of an upload that follows an empty listing. */
    method UploadNew(e: Expected, file: Bytes) returns (r: Result<Metadata, UploadError>)
      requires drive.Valid() && Copies(e.backupId) == [] && file != []
      requires e == ExpectedFor(e.backupId, file)
      modifies drive
      ensures drive.Valid()
      ensures LandedAtMostOnce(old(drive.objects), drive.objects, e, folder, file)
      ensures r.Success? ==> Confirmed(r.value, e)
      ensures old(drive.log) <= drive.log
      ensures drive.steady && drive.answers ==> (r.Success? <==> !Overrun(drive.log[|old(drive.log)|..]))
      ensures drive.answers ==> EndsAsReplied(file, drive.log[|old(drive.log)|..], drive.session, r)
      ensures CallSteps(old(drive.State()), e, folder, file, drive.log[|old(drive.log)|..], drive.State())
    {
      hide Tracked, Drive.Honest, ResponseError, HasBackup, Filter, CopiesVerify, Overrun, Reopened, SessionSteps, Advanced,
           GivenUp, CallSteps, EndsAsReplied, IsLanded, Concludable, Verifies, SessionValid;
      var writable := drive.CheckFolder();
      if !writable {
        NoSteps(drive.State(), e, file, drive.log);
        var error: UploadError := *;
        r := Failure(error);
        NothingReplied(file, drive.session, drive.log, r);
        return;
      }
      ghost var tries: nat, u: ServerState, replies: seq<OpenReply>;
      var started;
      started, tries, u, replies := OpenSession(e);
      if started.Failure? {
        NoSession(old(drive.State()), e, file, drive.log, tries, u);
        r := started.PropagateFailure();
        NothingReplied(file, drive.session, drive.log, r);
        return;
      }
      var result := UploadSession(drive, file);
      TrackedIsCall(old(drive.State()), tries, u, e, file, drive.log, |old(drive.log)|, result, drive.State());
      LandedCopy(old(drive.objects), drive.objects, e, file);
      LandedOrNot(old(drive.objects), e, file, result);
      r := Conclude(e, result);
      if drive.answers {
        OneEnd(drive.log, |old(drive.log)|, file, u, e, result, drive.session, r);
      }
    }

    /** What the session came to: one copy, described by a success, or none. */
    lemma LandedOrNot(before: seq<RemoteObject>, e: Expected, file: Bytes, result: Result<Metadata, UploadError>)
      requires drive.Valid() && drive.session.Some? && drive.base == before && e == ExpectedFor(e.backupId, file)
      requires LandedAtMostOnce(before, drive.objects, e, folder, file) && Matching(before, folder, e.backupId) == []
      requires IsLanded(drive, result)
      ensures drive.session.value.landed.Some? && drive.answers ==> Concludable(e, result)
      ensures drive.session.value.landed.None? ==> Copies(e.backupId) == [] && result.Failure?
    {
      hide HasBackup, Filter, Verifies;
      LandedCopy(before, drive.objects, e, file);
    }

    /** The exchanges determine how the session ended, and so how the call ends. */
    lemma OneEnd(log: seq<Request>, from: nat, file: Bytes, u: ServerState, e: Expected, result: Result<Metadata, UploadError>,
                 session: Option<Session>, r: Result<Metadata, UploadError>)
      requires Tracked(log, from, file, At(START, OpenedWith(u, DeclaredFor(e, folder))), At(Client.Ended(result), drive.State()))
      requires session.Some? && drive.answers
      requires r.Success? <==> session.value.landed.Some? && (result.Success? || Ambiguous(result.error))
      ensures EndsAsReplied(file, log[from..], session, r)
    {
      hide Leads, Chained, FaithfulRequest, OpenedWith, Ambiguous;
      forall res | Leads(file, START, log[from..], Client.Ended(res))
        ensures res == result
      {
        LeadsToOne(file, START, log[from..], Client.Ended(res), Client.Ended(result));
      }
    }

    lemma NoSteps(w: ServerState, e: Expected, file: Bytes, log: seq<Request>)
      ensures CallSteps(w, e, folder, file, log[|log|..], w)
    {
    }

    lemma NoSession(w: ServerState, e: Expected, file: Bytes, log: seq<Request>, tries: nat, u: ServerState)
      requires file != [] && Matching(w.objects, folder, e.backupId) == [] && Reopened(w, DeclaredFor(e, folder), tries, u)
      ensures CallSteps(w, e, folder, file, log[|log|..], u)
    {
      hide Reopened;
      assert SessionSteps(u, e, folder, file, log[|log|..], u);
    }

    lemma TrackedIsCall(w: ServerState, tries: nat, u: ServerState, e: Expected, file: Bytes, log: seq<Request>, from: nat,
                        r: Result<Metadata, UploadError>, v: ServerState)
      requires file != [] && Matching(w.objects, folder, e.backupId) == [] && Reopened(w, DeclaredFor(e, folder), tries, u)
      requires Tracked(log, from, file, At(START, OpenedWith(u, DeclaredFor(e, folder))), At(Client.Ended(r), v))
      ensures CallSteps(w, e, folder, file, log[from..], v)
    {
      hide Leads, Chained, OpenedWith, FaithfulRequest, Reopened;
      assert Exchanged(file, OpenedWith(u, DeclaredFor(e, folder)), log[from..], r, v);
      assert SessionSteps(u, e, folder, file, log[from..], v);
    }

    /** The copy that landed in an empty folder verifies. */
    lemma LandedCopy(before: seq<RemoteObject>, after: seq<RemoteObject>, e: Expected, file: Bytes)
      requires drive.Valid() && after == drive.objects && e == ExpectedFor(e.backupId, file)
      requires LandedAtMostOnce(before, after, e, folder, file) && Matching(before, folder, e.backupId) == []
      ensures |Copies(e.backupId)| <= 1 && CopiesVerify(e)
      ensures after != before ==> Copies(e.backupId) == [after[|before|]]
    {
      LandedCount(before, after, e, folder, file);
    }

    /** The folder answers and holds one true copy, which a session that succeeded has described. */
    ghost predicate Concludable(e: Expected, result: Result<Metadata, UploadError>)
      reads drive
    {
      && drive.answers && CopiesVerify(e) && |Copies(e.backupId)| == 1
      && (result.Success? ==> result.value == drive.Describe(Copies(e.backupId)[0]))
    }

    /** What follows the session: asking the folder again after an ambiguous end, verifying and marking the copy. */
    method Conclude(e: Expected, result: Result<Metadata, UploadError>) returns (r: Result<Metadata, UploadError>)
      requires drive.Valid()
      modifies drive`verified
      ensures drive.Valid()
      ensures r.Success? ==> Confirmed(r.value, e)
      ensures old(Concludable(e, result)) ==>
                (r.Success? <==> || result.Success? || result.error == Http || result.error == Drive("drive_timeout")
                                 || result.error == Drive("drive_transport_failed")
                                 || result.error == Drive("drive_ambiguous_upload_result")
                                 || result.error == Drive("drive_upload_session_expired"))
      ensures result.Failure? && (drive.answers || !Ambiguous(result.error)) && old(Copies(e.backupId)) == [] ==>
                r == Failure(if result.error == Http then Drive("drive_transport_failed") else result.error)
      ensures result.Failure? && !Ambiguous(result.error) ==> r == Failure(result.error)
    {
      hide HasBackup;
      match result {
        case Failure(error) =>
          if Ambiguous(error) {
            var reconciled :- Reconcile(e);
            if reconciled.Some? {
              r := MarkRemoteVerified(reconciled.value, e);
              return;
            }
          }
          return Failure(if error.Http? then Drive("drive_transport_failed") else error);
        case Success(metadata) =>
          var checked :- VerifyRemote(metadata, e, folder);
          var marked := MarkRemoteVerified(checked, e);
          if marked.Failure? {
            return marked;
          }
          var reconciled :- Reconcile(e);
          if reconciled.None? {
            return Failure(Drive("drive_remote_reconciliation_failed"));
          }
          r := MarkRemoteVerified(reconciled.value, e);
      }
    }

    /** A confirmed copy is the file itself, when labels are true and the hash is collision-free. */
    lemma ConfirmedIsTheFile(m: Metadata, backupId: string, file: Bytes)
      requires Confirmed(m, ExpectedFor(backupId, file))
      requires Labelled(drive.objects, folder, backupId, sha) && CollisionFree(sha)
      ensures Copies(backupId)[0].content == file
    {
      var o := Copies(backupId)[0];
      assert o in Copies(backupId);
      assert HasBackup(folder, backupId)(o) && sha(o.content) == sha(file);
    }

    /** A copy confirmed for one file that verifies for another is confirmed for the other. */
    lemma ConfirmedFor(m: Metadata, backupId: string, file: Bytes, other: Bytes)
      requires Confirmed(m, ExpectedFor(backupId, file))
      ensures Verifies(m, ExpectedFor(backupId, other), folder) ==> Confirmed(m, ExpectedFor(backupId, other))
      ensures file == other ==> Verifies(m, ExpectedFor(backupId, other), folder)
    {
    }

    /// ## The package and its receipt

    function RemoteOf(uploaded: Result<Metadata, UploadError>): Option<Metadata> {
      match uploaded
      case Success(metadata) => Some(metadata)
      case Failure(_) => None
    }

    /**
     The receipt that follows an upload. It is final unless making it private
     raises after it took effect: then a complete receipt is replaced by a failed
     one. A failed receipt after a verified upload still names the remote copy.
     */
    method Record(work: WorkDirectory, sha: string, uploaded: Result<Metadata, UploadError>)
      returns (r: Result<Receipt, UploadError>, ghost final: seq<Receipt>, ghost raised: bool)
      modifies work`receipts
      ensures work.receipts == old(work.receipts) + final
      ensures uploaded.Success? ==>
                var complete := Receipt(CompleteOffVm, Some(uploaded.value), sha);
                && (r.Success? <==> final == [complete] && !raised) && (r.Success? ==> r.value == complete)
                && final in {[], [complete], [complete.(status := FailedOffVm)], [complete, complete.(status := FailedOffVm)]}
      ensures uploaded.Failure? ==> r.Failure? && final in {[], [Receipt(FailedOffVm, None, sha)]}
      ensures |final| == 2 ==> raised
      ensures uploaded.Success? && work.steady ==> r.Success?
    {
      final, raised := [], false;
      var error := if uploaded.Failure? then uploaded.error else Drive("receipt_write_failed");
      if uploaded.Success? {
        var complete := Receipt(CompleteOffVm, Some(uploaded.value), sha);
        var outcome := work.Write(complete);
        if outcome.Written? {
          return Success(complete), [complete], false;
        }
        if outcome.Raised? {
          final, raised := [complete], true;
        }
        error := if outcome.Ended? then UploadError.Killed else error;
      }
      if !error.Killed? {
        var failed := Receipt(FailedOffVm, RemoteOf(uploaded), sha);
        var last := work.Write(failed);
        if last.Written? || last.Raised? {
          final := if raised then [final[0], failed] else [failed];
        }
      }
      r := Failure(error);
    }

    /**
     One upload of a packed backup under the lock; `pack` is what building its
     canonical envelope gives. The receipt goes from UPLOADING to at most one
     final status, unless writing COMPLETE_OFF_VM raised after it took effect, and
     to COMPLETE_OFF_VM only over a confirmed copy of the canonical envelope.
     */
    method UploadPackageLocked(work: WorkDirectory, backupId: string, pack: Result<Bytes, string>)
      returns (r: Result<Receipt, UploadError>, ghost written: seq<Receipt>, ghost raised: bool)
      requires drive.Valid()
      modifies drive, work
      ensures drive.Valid()
      ensures work.receipts == old(work.receipts) + written && ReceiptRun(written, raised)
      ensures (exists w :: w in written && w.status.CompleteOffVm?) ==>
                && pack.Success? && written[1].status.CompleteOffVm? && written[1].remote.Some?
                && Confirmed(written[1].remote.value, ExpectedFor(backupId, pack.value))
                && work.envelope.Some? && SameEnvelope(sha, work.envelope.value, pack.value)
                && inspect(work.envelope.value) == Success(backupId)
      ensures r.Success? ==> |written| == 2 && written[1] == r.value && r.value.status.CompleteOffVm?
      ensures pack.Failure? || (old(work.envelope).Some? && !SameEnvelope(sha, old(work.envelope).value, pack.value)) ==>
                r.Failure? && written == [] && drive.objects == old(drive.objects)
      ensures old(drive.log) <= drive.log
      ensures pack.Success? && old(Uploadable(backupId, pack.value)) && work.steady
              && old(work.envelope) in {None, Some(pack.value)}
              ==> (r.Success? <==> !Overrun(drive.log[|old(drive.log)|..]))
      ensures old(Labelled(drive.objects, folder, backupId, sha)) ==> Labelled(drive.objects, folder, backupId, sha)
    {
      hide Drive.Valid, LandedAtMostOnce, Drive.Describe, Filter, Verifies, Matching, Overrun, Labelled, CopiesVerify, CallSteps,
           HasBackup, Confirmed;
      written, raised := [], false;
      if pack.Failure? {
        return Failure(Drive(pack.error)), written, false;
      }
      if work.envelope.Some? {
        if !SameEnvelope(sha, work.envelope.value, pack.value) {
          return Failure(Drive("existing_envelope_mismatch")), written, false;
        }
      } else {
        work.envelope := Some(pack.value);
      }
      var file := work.envelope.value;
      var uploading := Receipt(Uploading, None, sha(pack.value));
      var first := work.Write(uploading);
      if !first.Written? {
        written := if first.Raised? then [uploading] else [];
        return Failure(if first.Ended? then UploadError.Killed else Drive("receipt_write_failed")), written, false;
      }
      ghost var final: seq<Receipt>;
      r, final, raised := UploadAndRecord(work, backupId, file, pack.value);
      written := [uploading] + final;
    }

    /** What follows the first receipt: uploading `file`, which stands for the envelope `built`, and the final receipt. */
    method UploadAndRecord(work: WorkDirectory, backupId: string, file: Bytes, built: Bytes)
      returns (r: Result<Receipt, UploadError>, ghost final: seq<Receipt>, ghost raised: bool)
      requires drive.Valid()
      modifies drive, work`receipts
      ensures drive.Valid()
      ensures work.receipts == old(work.receipts) + final && ReceiptRun([Receipt(Uploading, None, sha(built))] + final, raised)
      ensures (exists w :: w in final && w.status.CompleteOffVm?) ==>
                && final[0].status.CompleteOffVm? && final[0].remote.Some?
                && Confirmed(final[0].remote.value, ExpectedFor(backupId, built)) && inspect(file) == Success(backupId)
      ensures r.Success? ==> final == [r.value] && r.value.status.CompleteOffVm?
      ensures old(drive.log) <= drive.log
      ensures file == built && old(Uploadable(backupId, built)) && work.steady ==>
                (r.Success? <==> !Overrun(drive.log[|old(drive.log)|..]))
      ensures old(Labelled(drive.objects, folder, backupId, sha)) ==> Labelled(drive.objects, folder, backupId, sha)
    {
      hide Drive.Valid, LandedAtMostOnce, Drive.Describe, Filter, Verifies, Matching, Overrun, Labelled, CopiesVerify, CallSteps,
           HasBackup, Confirmed;
      ghost var before := drive.objects;
      var uploaded := UploadLocked(backupId, file);
      AfterUpload(before, drive.objects, backupId, file);
      if uploaded.Success? {
        ConfirmedFor(uploaded.value, backupId, file, built);
        uploaded := VerifyRemote(uploaded.value, ExpectedFor(backupId, built), folder);
      }
      r, final, raised := Record(work, sha(built), uploaded);
    }

    /// ## Many uploads

    /**
     Any number of uploads for one backup id, one at a time, each of which may
     fail anywhere. The folder ends with at most one copy, or one more for every
     given-up session that landed on its own in between.
     */
    method SerialisedUploads(backupId: string, events: seq<Event>)
      requires drive.Valid() && |Copies(backupId)| <= 1
      requires Labelled(drive.objects, folder, backupId, sha)
      modifies drive
      ensures drive.Valid()
      ensures |Copies(backupId)| <= 1 + |Filter(IsLate, events)|
      ensures Filter(IsLate, events) == [] ==> |Copies(backupId)| <= 1 && Labelled(drive.objects, folder, backupId, sha)
      ensures |old(drive.objects)| <= |drive.objects| && drive.objects[..|old(drive.objects)|] == old(drive.objects)
    {
      hide Drive.Valid, Labelled, Filter, HasBackup;
      FilterEmpty(IsLate);
      for i := 0 to |events|
        invariant drive.Valid()
        invariant |Copies(backupId)| <= 1 + |Filter(IsLate, events[..i])|
        invariant Filter(IsLate, events[..i]) == [] ==> Labelled(drive.objects, folder, backupId, sha)
        invariant |old(drive.objects)| <= |drive.objects| && drive.objects[..|old(drive.objects)|] == old(drive.objects)
      {
        ghost var before := drive.objects;
        FilterNext(IsLate, events, i);
        match events[i] {
          case Upload(file) =>
            var _ := UploadLocked(backupId, file);
            AfterUpload(before, drive.objects, backupId, file);
          case LandLate(k) =>
            drive.LandLate(k);
            AfterLanding(before, drive.objects, backupId);
        }
      }
      assert events[..|events|] == events;
    }

    lemma AfterUpload(before: seq<RemoteObject>, after: seq<RemoteObject>, backupId: string, file: Bytes)
      requires LandedAtMostOnce(before, after, ExpectedFor(backupId, file), folder, file)
      ensures |before| <= |after| && after[..|before|] == before
      ensures after == before || |Matching(after, folder, backupId)| == 1
      ensures Labelled(before, folder, backupId, sha) ==> Labelled(after, folder, backupId, sha)
    {
      LandedCount(before, after, ExpectedFor(backupId, file), folder, file);
      if Labelled(before, folder, backupId, sha) {
        LabelledKept(before, after, ExpectedFor(backupId, file), file);
      }
    }

    lemma AfterLanding(before: seq<RemoteObject>, after: seq<RemoteObject>, backupId: string)
      requires after == before || (|after| == |before| + 1 && after[..|before|] == before)
      ensures |before| <= |after| && after[..|before|] == before
      ensures |Matching(after, folder, backupId)| <= |Matching(before, folder, backupId)| + 1
    {
      if after != before {
        assert after == before + [after[|before|]];
        MatchingSnoc(before, after[|before|], folder, backupId);
      }
    }

    lemma LabelledKept(before: seq<RemoteObject>, after: seq<RemoteObject>, e: Expected, file: Bytes)
      requires LandedAtMostOnce(before, after, e, folder, file) && e == ExpectedFor(e.backupId, file)
      requires Labelled(before, folder, e.backupId, sha)
      ensures Labelled(after, folder, e.backupId, sha)
    {
      if after != before {
        assert after == before + [after[|before|]];
      }
    }
  }

  datatype ReceiptStatus = Uploading | CompleteOffVm | FailedOffVm

  datatype Receipt = Receipt(status: ReceiptStatus, remote: Option<Metadata>, localSha: string)

  /** Raised: the receipt took effect, and setting its permissions raised. */
  datatype WriteOutcome = Written | Refused | Ended | Raised

  /** The durable receipts of one call: none, UPLOADING, or UPLOADING and one final status. */
  predicate ReceiptRun(written: seq<Receipt>, raised: bool) {
    && |written| <= (if raised then 3 else 2)
    && (|written| >= 1 ==> written[0].status.Uploading?)
    && (|written| >= 2 ==> written[1].status.CompleteOffVm? || written[1].status.FailedOffVm?)
    && (|written| == 3 ==> written[1].status.CompleteOffVm? && written[2] == written[1].(status := FailedOffVm))
  }

  predicate SameEnvelope(sha: Bytes -> string, found: Bytes, built: Bytes) {
    sha(found) == sha(built) && |found| == |built|
  }

  /** The work directory: the envelope file, and every receipt that was ever durable, in order. */
  class WorkDirectory {
    /** Whether every receipt write succeeds. */
    const steady: bool
    var envelope: Option<Bytes>
    var receipts: seq<Receipt>

    constructor (steady: bool, envelope: Option<Bytes>)
      ensures this.steady == steady && this.envelope == envelope && receipts == []
    {
      this.steady, this.envelope, receipts := steady, envelope, [];
    }

    /** An atomic replacement of the receipt file: done, done with an error after it, not done, or the process ends before it. */
    method Write(r: Receipt) returns (w: WriteOutcome)
      modifies `receipts
      ensures receipts == if w.Written? || w.Raised? then old(receipts) + [r] else old(receipts)
      ensures steady ==> w.Written?
    {
      w := *;
      w := if steady then Written else w;
      if w.Written? || w.Raised? {
        receipts := receipts + [r];
      }
    }
  }

  datatype Event = Upload(file: Bytes) | LandLate(k: nat)

  predicate IsLate(e: Event) {
    e.LandLate?
  }
}
