/**
 The client's side of one resumable session as a machine on values: each reply
 takes it from the request it made to the next one, or ends the upload.
 */
module UploadClient {
  import opened Common
  import opened DriveServer

  const CHUNK_BYTES: nat := 8 * 1024 * 1024
  const MAX_RETRIES: nat := 4

  /** Http: a transport exception; BadJson: a success whose body is not JSON, outside the guarded read. */
  datatype UploadError = Http | BadJson | Killed | Drive(code: string)

  predicate Retryable(a: Response) {
    a.status == 429 || ServerFault(a) || (a.status == 403 && a.rateLimited)
  }

  function ResponseError(a: Response): string {
    if a.status == 401 then "drive_authentication_failed"
    else if a.status == 403 then if a.rateLimited then "drive_rate_limited" else "drive_forbidden"
    else if a.status == 404 then "drive_object_not_found"
    else if a.status == 429 then "drive_rate_limited"
    else if a.status >= 500 then "drive_service_unavailable"
    else "drive_request_failed"
  }

  function ChunkEnd(offset: nat, size: nat): nat {
    if offset + CHUNK_BYTES < size then offset + CHUNK_BYTES else size
  }

  /** The offset a 308 asks to resume from. */
  function ResumeOffset(range: Option<nat>): nat {
    match range
    case None => 0
    case Some(last) => last + 1
  }

  /** Consecutive reports that did not move past `offset`. */
  function NoProgress(count: nat, offset: nat, reported: nat): nat {
    if reported <= offset then count + 1 else 0
  }

  /** Why the client asks for the status: a lost reply to a chunk, a server fault, or a refusal to be repeated later. */
  datatype Cause = AfterSend | AfterFault | AfterLimit

  datatype Client =
    | Sending(offset: nat, attempts: nat, noProgress: nat)
    | Asking(cause: Cause, tries: nat, offset: nat, attempts: nat, noProgress: nat)
    | Ended(result: Result<Metadata, UploadError>)

  const START := Sending(0, 0, 0)

  /** The loop goes on while bytes are left. */
  function Resumed(size: nat, offset: nat, attempts: nat, noProgress: nat): Client {
    if offset < size then Sending(offset, attempts, noProgress) else Ended(Failure(Drive("drive_upload_incomplete")))
  }

  /** A 308 in answer to a chunk. */
  function Reported(size: nat, offset: nat, noProgress: nat, reported: nat): Client {
    var count := NoProgress(noProgress, offset, reported);
    if count > MAX_RETRIES then Ended(Failure(Drive("drive_upload_no_progress")))
    else if reported > size then Ended(Failure(Drive("drive_upload_range_invalid")))
    else Resumed(size, reported, 0, count)
  }

  /** What stands as the answer to the chunk at `offset`. */
  function Responded(size: nat, offset: nat, attempts: nat, noProgress: nat, a: Response): Client {
    if Succeeded(a) then
      Ended(if a.body.Some? then Success(a.body.value) else Failure(Drive("drive_ambiguous_upload_result")))
    else if a.status == 308 then Reported(size, offset, noProgress, ResumeOffset(a.range))
    else if a.status == 404 then Ended(Failure(Drive("drive_upload_session_expired")))
    else if Retryable(a) && attempts < MAX_RETRIES then Asking(AfterLimit, 0, offset, attempts + 1, noProgress)
    else Ended(Failure(Drive(ResponseError(a))))
  }

  /** The answer to the query that follows a refusal; the count of refusals stays. */
  function Limited(size: nat, offset: nat, attempts: nat, noProgress: nat, a: Response): Client {
    if a.status == 308 then
      var reported := ResumeOffset(a.range);
      var count := NoProgress(noProgress, offset, reported);
      if count > MAX_RETRIES then Ended(Failure(Drive("drive_upload_no_progress")))
      else Resumed(size, reported, attempts, count)
    else if Succeeded(a) then Ended(if a.body.Some? then Success(a.body.value) else Failure(BadJson))
    else Resumed(size, offset, attempts, noProgress)
  }

  function Answered(size: nat, cause: Cause, offset: nat, attempts: nat, noProgress: nat, a: Response): Client {
    match cause
    case AfterSend =>
      if ServerFault(a) then Asking(AfterFault, 0, offset, attempts, noProgress)
      else Responded(size, offset, attempts, noProgress, a)
    case AfterFault => Responded(size, offset, attempts, noProgress, a)
    case AfterLimit => Limited(size, offset, attempts, noProgress, a)
  }

  /** The client after a reply to the request it made. */
  function After(size: nat, c: Client, reply: Reply): Client {
    match c
    case Ended(_) => c
    case Sending(offset, attempts, noProgress) =>
      (match reply
       case Killed => Ended(Failure(UploadError.Killed))
       case Answer(a) => Answered(size, AfterSend, offset, attempts, noProgress, a)
       case _ => Asking(AfterSend, 0, offset, attempts, noProgress))
    case Asking(cause, tries, offset, attempts, noProgress) =>
      (match reply
       case Killed => Ended(Failure(UploadError.Killed))
       case Answer(a) =>
         if Retryable(a) && tries < MAX_RETRIES then c.(tries := tries + 1)
         else Answered(size, cause, offset, attempts, noProgress, a)
       case _ =>
         if tries < MAX_RETRIES then c.(tries := tries + 1) else Ended(Failure(Http)))
  }

  /// ## The machine reply by reply

  /** The answers to a chunk that end the upload. */
  lemma ChunkEnds(size: nat, offset: nat, attempts: nat, noProgress: nat, a: Response)
    ensures var c := After(size, Sending(offset, attempts, noProgress), Answer(a));
            && ((a.status == 200 || a.status == 201) && a.body.Some? ==> c == Ended(Success(a.body.value)))
            && ((a.status == 200 || a.status == 201) && a.body.None? ==> c == Ended(Failure(Drive("drive_ambiguous_upload_result"))))
            && (a.status == 404 ==> c == Ended(Failure(Drive("drive_upload_session_expired"))))
            && (a.status == 401 ==> c == Ended(Failure(Drive("drive_authentication_failed"))))
            && (a.status == 403 && !a.rateLimited ==> c == Ended(Failure(Drive("drive_forbidden"))))
            && ((a.status == 429 || (a.status == 403 && a.rateLimited)) && attempts >= 4 ==> c == Ended(Failure(Drive("drive_rate_limited"))))
            && (a.status > 504 || a.status == 501 ==> c == Ended(Failure(Drive("drive_service_unavailable"))))
  {
  }

  /** The answers to a chunk after which the client asks for the status. */
  lemma ChunkAsks(size: nat, offset: nat, attempts: nat, noProgress: nat, a: Response)
    ensures var c := Sending(offset, attempts, noProgress);
            && After(size, c, Timeout) == After(size, c, TransportError) == Asking(AfterSend, 0, offset, attempts, noProgress)
            && (a.status in {500, 502, 503, 504} ==> After(size, c, Answer(a)) == Asking(AfterFault, 0, offset, attempts, noProgress))
            && ((a.status == 429 || (a.status == 403 && a.rateLimited)) && attempts < 4 ==>
                  After(size, c, Answer(a)) == Asking(AfterLimit, 0, offset, attempts + 1, noProgress))
  {
  }

  /** A 308 asks to go on after the last byte it names, or from the start; five in a row without progress are too many. */
  lemma ReportMoves(size: nat, offset: nat, attempts: nat, noProgress: nat, a: Response)
    requires a.status == 308
    ensures var reported := if a.range.Some? then a.range.value + 1 else 0;
            var count := if reported > offset then 0 else noProgress + 1;
            && After(size, Sending(offset, attempts, noProgress), Answer(a)) ==
                 (if count > 4 then Ended(Failure(Drive("drive_upload_no_progress")))
                  else if reported > size then Ended(Failure(Drive("drive_upload_range_invalid")))
                  else if reported == size then Ended(Failure(Drive("drive_upload_incomplete")))
                  else Sending(reported, 0, count))
            && forall tries :: After(size, Asking(AfterLimit, tries, offset, attempts, noProgress), Answer(a)) ==
                 (if count > 4 then Ended(Failure(Drive("drive_upload_no_progress")))
                  else if reported >= size then Ended(Failure(Drive("drive_upload_incomplete")))
                  else Sending(reported, attempts, count))
  {
  }

  /** A status query is repeated up to four times; its answer stands for the chunk's unless the chunk was refused. */
  lemma StatusAnswers(size: nat, cause: Cause, tries: nat, offset: nat, attempts: nat, noProgress: nat, a: Response)
    ensures var c := Asking(cause, tries, offset, attempts, noProgress);
            var retried := a.status in {429, 500, 502, 503, 504} || (a.status == 403 && a.rateLimited);
            && After(size, c, Timeout) == After(size, c, TransportError)
                 == (if tries < 4 then c.(tries := tries + 1) else Ended(Failure(Http)))
            && (retried && tries < 4 ==> After(size, c, Answer(a)) == c.(tries := tries + 1))
            && (!retried && cause != AfterLimit ==> After(size, c, Answer(a)) == After(size, Sending(offset, attempts, noProgress), Answer(a)))
            && (cause == AfterLimit && (a.status == 200 || a.status == 201) ==>
                  After(size, c, Answer(a)) == Ended(if a.body.Some? then Success(a.body.value) else Failure(BadJson)))
            && (cause == AfterLimit && a.status != 308 && a.status != 200 && a.status != 201 && !retried && offset < size ==>
                  After(size, c, Answer(a)) == Sending(offset, attempts, noProgress))
  {
  }

  /** When the process ends, so does the upload. */
  lemma KilledEnds(size: nat, c: Client)
    requires !c.Ended?
    ensures After(size, c, Reply.Killed) == Ended(Failure(UploadError.Killed))
  {
  }

  /** The request the client makes next. */
  predicate IsNext(file: Bytes, c: Client, q: Request) {
    match c
    case Ended(_) => false
    case Sending(offset, _, _) =>
      && offset < |file| && q.ChunkPut? && q.first == offset && q.last + 1 == ChunkEnd(offset, |file|) && q.total == |file|
      && q.chunk == file[offset..ChunkEnd(offset, |file|)]
    case Asking(_, _, _, _, _) => q.StatusQuery? && q.total == |file|
  }

  /** These exchanges take the client from `c` to `d`: each request is the one it makes, each reply the one it goes on from. */
  predicate Leads(file: Bytes, c: Client, log: seq<Request>, d: Client)
    decreases |log|
  {
    if log == [] then c == d
    else IsNext(file, c, log[0]) && Leads(file, After(|file|, c, log[0].reply), log[1..], d)
  }

  /** The client and the server at one moment. */
  datatype Point = At(client: Client, server: ServerState)

  /** These exchanges take the server from `w` to `v`: each one starts where the one before it ended, and is served. */
  ghost predicate Chained(w: ServerState, log: seq<Request>, v: ServerState)
    decreases |log|
  {
    if log == [] then v == w
    else log[0].before == w && Served(log[0]) && Chained(log[0].after, log[1..], v)
  }

  lemma {:induction false} ChainedOn(w: ServerState, first: seq<Request>, v: ServerState, second: seq<Request>, u: ServerState)
    requires Chained(w, first, v) && Chained(v, second, u)
    ensures Chained(w, first + second, u)
    decreases |first|
  {
    hide Served;
    if first == [] {
      assert first + second == second;
    } else {
      assert (first + second)[0] == first[0] && (first + second)[1..] == first[1..] + second;
      ChainedOn(first[0].after, first[1..], v, second, u);
    }
  }

  lemma {:induction false} LeadsOn(file: Bytes, c: Client, first: seq<Request>, d: Client, second: seq<Request>, e: Client)
    requires Leads(file, c, first, d) && Leads(file, d, second, e)
    ensures Leads(file, c, first + second, e)
    decreases |first|
  {
    hide After, IsNext;
    if first == [] {
      assert first + second == second;
    } else {
      assert (first + second)[0] == first[0] && (first + second)[1..] == first[1..] + second;
      LeadsOn(file, After(|file|, c, first[0].reply), first[1..], d, second, e);
    }
  }

  /** The exchanges determine where the client ends up. */
  lemma {:induction false} LeadsToOne(file: Bytes, c: Client, log: seq<Request>, d: Client, e: Client)
    requires Leads(file, c, log, d) && Leads(file, c, log, e)
    ensures d == e
    decreases |log|
  {
    hide After, IsNext;
    if log != [] {
      LeadsToOne(file, After(|file|, c, log[0].reply), log[1..], d, e);
    }
  }

  /// ## Rate limits

  /** Rate limits of chunks since a chunk was last answered 308, and whether there ever were too many in a row. */
  datatype Tally = Tally(limits: nat, over: bool, direct: bool)

  /** After a chunk's reply; `direct` says that the next status answer stands for the answer to the chunk. */
  function ChunkTallied(t: Tally, reply: Reply): Tally {
    if reply.Answer? && RateLimit(reply.response) then
      Tally(t.limits + 1, t.over || t.limits + 1 > MAX_RETRIES, false)
    else if reply.Answer? && reply.response.status == 308 then Tally(0, t.over, true)
    else t.(direct := true)
  }

  function Tallied(t: Tally, q: Request): Tally {
    if q.ChunkPut? then ChunkTallied(t, q.reply)
    else if q.reply.Answer? && q.reply.response.status == 308 && t.direct then t.(limits := 0)
    else t
  }

  /** The tally after these exchanges, from the tally `t` on. */
  function TallyFrom(t: Tally, log: seq<Request>): Tally
    decreases |log|
  {
    if log == [] then t else TallyFrom(Tallied(t, log[0]), log[1..])
  }

  /** More than MAX_RETRIES chunks were rate-limited without a chunk answered 308 between them. */
  predicate Overrun(log: seq<Request>) {
    TallyFrom(Tally(0, false, false), log).over
  }

  lemma {:induction false} TallyOn(t: Tally, first: seq<Request>, second: seq<Request>)
    ensures TallyFrom(t, first + second) == TallyFrom(TallyFrom(t, first), second)
    decreases |first|
  {
    hide Tallied;
    if first == [] {
      assert first + second == second;
    } else {
      assert (first + second)[0] == first[0] && (first + second)[1..] == first[1..] + second;
      TallyOn(Tallied(t, first[0]), first[1..], second);
    }
  }
}
