/**
 A resumable-upload server and the faults it may show. The server keeps a
 contiguous committed prefix, never gives committed bytes up, and reports the
 prefix truthfully; everything else is open: which part of a chunk arrives, when
 arrived bytes are committed, whether a reply is lost, which error it carries,
 and when a complete upload becomes an object of the folder.

 A steady server is a better one: it commits every chunk as it arrives, lands a
 complete upload, and answers status queries and folder requests. It may still
 lose the reply to any chunk, answer it with a server fault, or answer it with a
 rate limit, whether it took the chunk or not.
 */
module DriveServer {
  import opened Common

  datatype Properties = Properties(marker: string, backupId: string, localSha: string, localSize: nat)

  /** The metadata a session is opened with, and the declared length. */
  datatype Declared = Declared(name: string, mimeType: string, parents: seq<string>, props: Properties, size: nat)

  datatype RemoteObject = RemoteObject(id: string, declared: Declared, content: Bytes)

  /** An object as the API describes it. */
  datatype Metadata = Metadata(id: string, name: string, mimeType: string, parents: seq<string>,
                               props: Properties, verified: bool, size: nat, md5: string, trashed: bool)

  /** `received` has arrived contiguously, `committed` is durable, `landed` names the object the upload became. */
  datatype Session = Session(declared: Declared, received: Bytes, committed: Bytes, landed: Option<string>)

  datatype Response = Response(status: nat, rateLimited: bool, range: Option<nat>, body: Option<Metadata>)

  /** Killed: the client process ends while the request is under way. */
  datatype Reply = Timeout | TransportError | Killed | Answer(response: Response)

  /** The server's state: the folder, the session the client addresses and the ones it has given up. */
  datatype ServerState = ServerState(objects: seq<RemoteObject>, session: Option<Session>, abandoned: seq<Session>)

  /** One media request: its Content-Range, the server before and after it, and its reply. */
  datatype Request =
    | ChunkPut(first: nat, last: nat, total: nat, chunk: Bytes, before: ServerState, after: ServerState, reply: Reply)
    | StatusQuery(total: nat, before: ServerState, after: ServerState, reply: Reply)

  function Landed(s: Session, id: string): RemoteObject {
    RemoteObject(id, s.declared, s.committed)
  }

  /** The session `s` may have become `t` while one request was handled. */
  ghost predicate Advanced(s: Session, t: Session) {
    && t.declared == s.declared
    && s.received <= t.received && s.committed <= t.committed
    && (s.landed.Some? ==> t == s)
  }

  lemma AdvancedTwice(s: Session, t: Session, u: Session)
    requires Advanced(s, t) && Advanced(t, u)
    ensures Advanced(s, u)
  {
  }

  /** `has` is `had`, or `had` and the next bytes of a chunk that starts at `first`. */
  ghost predicate Arrived(had: Bytes, has: Bytes, first: nat, chunk: Bytes) {
    || has == had
    || (first <= |had| < |has| <= first + |chunk| && has == had + chunk[|had| - first..|has| - first])
  }

  /** The bytes received once a chunk for bytes `first` onwards has arrived up to `n`. */
  function ReceivedTo(received: Bytes, first: nat, chunk: Bytes, n: nat): (r: Bytes)
    requires first <= |received| <= n <= first + |chunk|
    ensures |r| == n && received <= r
  {
    received + chunk[|received| - first..n - first]
  }

  lemma ReceivedStep(s: Session, first: nat, chunk: Bytes, n: nat)
    requires SessionValid(s) && s.landed == None && first <= |s.received| <= n <= first + |chunk| && n <= s.declared.size
    ensures var t := s.(received := ReceivedTo(s.received, first, chunk, n));
            SessionValid(t) && Advanced(s, t) && Arrived(s.received, t.received, first, chunk)
  {
    var r := ReceivedTo(s.received, first, chunk, n);
    if n == |s.received| {
      assert r == s.received;
    }
  }

  /** What a session may have received after a chunk: all of it when the server is steady. */
  method Take(s: Session, first: nat, chunk: Bytes, steady: bool) returns (t: Session)
    requires SessionValid(s)
    ensures t == s.(received := t.received) && SessionValid(t) && Advanced(s, t) && Arrived(s.received, t.received, first, chunk)
    ensures steady && s.landed == None && first <= |s.received| && first + |chunk| <= s.declared.size ==>
              first + |chunk| <= |t.received|
  {
    hide Advanced, Arrived, SessionValid, ReceivedTo;
    t := s;
    SessionStays(s, first, chunk);
    if s.landed == None && first <= |s.received| < first + |chunk| {
      var n: nat :| |s.received| <= n <= first + |chunk|;
      n := if steady then first + |chunk| else n;
      if n <= s.declared.size {
        ReceivedStep(s, first, chunk, n);
        t := s.(received := ReceivedTo(s.received, first, chunk, n));
      }
    }
  }

  lemma SessionStays(s: Session, first: nat, chunk: Bytes)
    ensures Advanced(s, s) && Arrived(s.received, s.received, first, chunk)
  {
  }

  lemma AskIsPut(w: ServerState, first: nat, chunk: Bytes, v: ServerState)
    requires AskStep(w, v)
    ensures PutStep(w, first, chunk, v)
  {
  }

  lemma PutThenAsk(w: ServerState, first: nat, chunk: Bytes, v: ServerState, u: ServerState)
    requires PutStep(w, first, chunk, v) && v.objects == w.objects && v.session.value.landed == w.session.value.landed
    requires AskStep(v, u)
    ensures PutStep(w, first, chunk, u)
  {
    AdvancedTwice(w.session.value, v.session.value, u.session.value);
  }

  /** A settled session has nothing left to do. */
  lemma SettledStays(w: ServerState, v: ServerState)
    requires AskStep(w, v) && SessionValid(w.session.value)
    requires w.session.value.landed == None ==> Settled(w.session.value)
    ensures v.session == w.session
  {
    var s, t := w.session.value, v.session.value;
    if s.landed == None {
      assert t.committed <= t.received == s.committed;
      assert t.committed == s.committed;
    }
  }

  lemma AskReceived(w: ServerState, v: ServerState)
    requires AskStep(w, v)
    ensures v.session.value.received == w.session.value.received && v.session.value.declared == w.session.value.declared
  {
  }

  lemma PutKeepsDeclared(w: ServerState, first: nat, chunk: Bytes, v: ServerState)
    requires PutStep(w, first, chunk, v)
    ensures v.session.Some? && v.session.value.declared == w.session.value.declared
  {
  }

  ghost predicate SessionValid(s: Session) {
    && s.committed <= s.received && |s.received| <= s.declared.size
    && (s.landed.Some? ==> |s.committed| == s.declared.size)
  }

  /** The answer to opening a session: its status and, for a location, whether its host is trusted. */
  datatype OpenReply = NoAnswer(killed: bool) | Opened(status: nat, rateLimited: bool, location: Option<bool>)

  function HasBackup(folder: string, backupId: string): RemoteObject -> bool {
    (o: RemoteObject) => folder in o.declared.parents && o.declared.props.backupId == backupId
  }

  /** The objects of the folder that carry a backup id. */
  function Matching(objects: seq<RemoteObject>, folder: string, backupId: string): seq<RemoteObject> {
    Filter(HasBackup(folder, backupId), objects)
  }

  predicate ServerFault(a: Response) {
    a.status == 500 || a.status == 502 || a.status == 503 || a.status == 504
  }

  /** A server fault or a rate limit. */
  predicate Refusal(a: Response) {
    ServerFault(a) || RateLimit(a)
  }

  predicate RateLimit(a: Response) {
    a.status == 429 || (a.status == 403 && a.rateLimited)
  }

  predicate Succeeded(a: Response) {
    a.status == 200 || a.status == 201
  }

  /// ## Steps of the server

  /** The folder after the session `s` became `t`: it has one object more when the session has landed meanwhile. */
  ghost predicate LandsAs(before: seq<RemoteObject>, s: Session, t: Session, after: seq<RemoteObject>) {
    if s.landed.None? && t.landed.Some? then
      && (forall i :: 0 <= i < |before| ==> before[i].id != t.landed.value)
      && after == before + [Landed(t, t.landed.value)]
    else after == before
  }

  /** A status request: arrived bytes may be committed, and a complete upload may land. */
  ghost predicate AskStep(w: ServerState, v: ServerState) {
    && w.session.Some? && v.session.Some? && v.abandoned == w.abandoned
    && Advanced(w.session.value, v.session.value) && SessionValid(v.session.value)
    && v.session.value.received == w.session.value.received
    && LandsAs(w.objects, w.session.value, v.session.value, v.objects)
  }

  /** A chunk for bytes `first` onwards: some of it may arrive besides. */
  ghost predicate PutStep(w: ServerState, first: nat, chunk: Bytes, v: ServerState) {
    && w.session.Some? && v.session.Some? && v.abandoned == w.abandoned
    && Advanced(w.session.value, v.session.value) && SessionValid(v.session.value)
    && Arrived(w.session.value.received, v.session.value.received, first, chunk)
    && LandsAs(w.objects, w.session.value, v.session.value, v.objects)
  }

  /** What a truthful answer says of the session: success only once it has landed, 308 with the last committed byte. */
  predicate Truthful(w: ServerState, a: Response) {
    && w.session.Some?
    && (Succeeded(a) ==>
          && w.session.value.landed.Some?
          && (a.body.Some? ==> a.body.value.id == w.session.value.landed.value))
    && (a.status == 308 ==>
          a.range == if w.session.value.committed == [] then None else Some(|w.session.value.committed| - 1))
  }

  /** The request had an effect and a reply that the server may give it. */
  ghost predicate Served(q: Request) {
    && (match q
        case ChunkPut(first, _, _, chunk, before, after, _) => PutStep(before, first, chunk, after)
        case StatusQuery(_, before, after, _) => AskStep(before, after))
    && (q.reply.Answer? ==> Truthful(q.after, q.reply.response))
  }

  /** The session is given up. */
  function GivenUp(w: ServerState): ServerState {
    ServerState(w.objects, None, w.abandoned + if w.session.Some? then [w.session.value] else [])
  }

  function OpenedWith(w: ServerState, declared: Declared): ServerState {
    GivenUp(w).(session := Some(Session(declared, [], [], None)))
  }

  /**
   Requests to open a session of which the client learned nothing: each gives the
   last session up, and may have opened one that is never used.
   */
  ghost predicate Reopened(w: ServerState, declared: Declared, tries: nat, v: ServerState) {
    if tries == 0 then v == w
    else exists u :: Reopened(w, declared, tries - 1, u) && (v == GivenUp(u) || v == OpenedWith(u, declared))
  }

  /** A given-up session becomes an object after all. */
  predicate CanLandLate(w: ServerState, k: nat, id: string) {
    && k < |w.abandoned| && w.abandoned[k].landed == None && |w.abandoned[k].received| == w.abandoned[k].declared.size
    && id != "" && forall i :: 0 <= i < |w.objects| ==> w.objects[i].id != id
  }

  function LandedLate(w: ServerState, k: nat, id: string): ServerState
    requires k < |w.abandoned|
  {
    var s := w.abandoned[k].(committed := w.abandoned[k].received, landed := Some(id));
    ServerState(w.objects + [Landed(s, id)], w.session, w.abandoned[k := s])
  }

  /** A name no object has yet. */
  function FreshId(objects: seq<RemoteObject>): (id: string)
    ensures id != "" && forall i :: 0 <= i < |objects| ==> |objects[i].id| < |id|
  {
    if objects == [] then "x" else objects[0].id + FreshId(objects[1..])
  }

  /** Everything that arrived is committed, and a complete upload has landed. */
  predicate Settled(s: Session) {
    s.committed == s.received && (|s.committed| == s.declared.size ==> s.landed.Some?)
  }

  class Drive {
    const md5: Bytes -> string
    const steady: bool
    /** Whether listing, marking and checking the folder always answer. */
    const answers: bool
    var objects: seq<RemoteObject>
    var verified: set<string>
    /** The session the client addresses, and the ones it has given up. */
    var session: Option<Session>
    var abandoned: seq<Session>
    var log: seq<Request>
    /** The objects that were there when the current session was opened. */
    ghost var base: seq<RemoteObject>

    ghost predicate Valid()
      reads `objects, `session, `abandoned, `base
    {
      && (forall i, j :: 0 <= i < j < |objects| ==> objects[i].id != objects[j].id)
      && (forall i :: 0 <= i < |objects| ==> objects[i].id != "")
      && (forall i :: 0 <= i < |abandoned| ==> SessionValid(abandoned[i]))
      && match session
         case None => objects == base
         case Some(s) =>
           && SessionValid(s)
           && objects == base + if s.landed.Some? then [Landed(s, s.landed.value)] else []
    }

    function State(): ServerState
      reads `objects, `session, `abandoned
    {
      ServerState(objects, session, abandoned)
    }

    constructor (md5: Bytes -> string, steady: bool, answers: bool)
      ensures Valid() && this.md5 == md5 && this.steady == steady && this.answers == (answers || steady)
      ensures objects == [] && session == None && abandoned == []
    {
      this.md5, this.steady, this.answers := md5, steady, answers || steady;
      objects, verified, session, abandoned, log, base := [], {}, None, [], [], [];
    }

    function Describe(o: RemoteObject): Metadata
      reads `verified
    {
      Metadata(o.id, o.declared.name, o.declared.mimeType, o.declared.parents, o.declared.props,
               o.id in verified, |o.content|, md5(o.content), false)
    }

    /**
     A truthful answer on the current session: success only once the upload is
     an object of the folder, and then about that object; a 308 with the last
     committed byte, or without a Range when nothing is committed.
     */
    ghost predicate Honest(a: Response)
      requires session.Some?
      reads `session, `verified
    {
      var s := session.value;
      && (Succeeded(a) ==>
            && s.landed.Some?
            && (a.body.Some? ==> a.body.value == Describe(Landed(s, s.landed.value))))
      && (a.status == 308 ==>
            a.range == if s.committed == [] then None else Some(|s.committed| - 1))
    }

    /** An answer that tells all a steady server knows. */
    ghost predicate Informative(a: Response)
      requires session.Some?
      reads `session, `verified
    {
      && Honest(a)
      && (if session.value.landed.Some? then Succeeded(a) && a.body.Some? else a.status == 308)
    }

    /** Any part of what has arrived may be committed, and a complete upload may land. */
    method Settle()
      requires Valid() && session.Some?
      modifies `session, `objects
      ensures Valid() && session.Some? && AskStep(old(State()), State())
      ensures steady && old(session).value.landed == None ==> Settled(session.value)
    {
      var s := session.value;
      if s.landed == None {
        var n: nat :| |s.committed| <= n <= |s.received|;
        n := if steady then |s.received| else n;
        s := s.(committed := s.received[..n]);
        var lands: bool, id: string := *, *;
        if n == s.declared.size && (lands || steady) {
          if id == "" || exists i :: 0 <= i < |objects| && objects[i].id == id {
            id := FreshId(objects);
          }
          s := s.(landed := Some(id));
          objects := objects + [Landed(s, id)];
        }
        session := Some(s);
      }
    }

    method Respond(query: bool) returns (reply: Reply)
      requires Valid() && session.Some?
      modifies `session, `objects
      ensures Valid() && session.Some? && AskStep(old(State()), State())
      ensures steady && old(session).value.landed == None ==> Settled(session.value)
      ensures reply.Answer? ==> Honest(reply.response)
      ensures steady && query ==> reply.Answer? && Informative(reply.response)
      ensures steady ==> !reply.Killed? && (reply.Answer? ==> Refusal(reply.response) || Informative(reply.response))
    {
      hide AskStep, Drive.Valid;
      Settle();
      var s := session.value;
      var about := if s.landed.Some? then Some(Describe(Landed(s, s.landed.value))) else None;
      var range := if s.committed == [] then None else Some(|s.committed| - 1);
      var telling := Response(if s.landed.Some? then 200 else 308, false, range, about);
      reply := *;
      if reply.Answer? {
        var a := reply.response;
        if Succeeded(a) && s.landed == None {
          reply := Timeout;
        } else if Succeeded(a) {
          reply := Answer(a.(body := if a.body.None? then None else about));
        } else if a.status == 308 {
          reply := Answer(a.(range := range));
        }
      }
      if steady && (query || reply.Killed? || (reply.Answer? && !Refusal(reply.response))) {
        reply := Answer(telling);
      }
    }

    /** Some of a chunk's bytes arrive when it reaches back to what has arrived already; a gap is ignored. */
    method Receive(first: nat, chunk: Bytes)
      requires Valid() && session.Some? && chunk != []
      modifies `session
      ensures Valid() && session.Some? && PutStep(old(State()), first, chunk, State())
      ensures session.value == old(session).value.(received := session.value.received)
      ensures steady && session.value.landed == None
              && first <= |old(session).value.received| && first + |chunk| <= session.value.declared.size ==>
                first + |chunk| <= |session.value.received|
    {
      hide Advanced, Arrived, SessionValid;
      var t := Take(session.value, first, chunk, steady);
      session := Some(t);
    }

    method Note(q: Request)
      requires Valid()
      modifies `log
      ensures Valid() && log == old(log) + [q]
    {
      log := log + [q];
    }

    /** A chunk for bytes `first` onwards; a chunk may be refused without being taken. */
    method Put(first: nat, chunk: Bytes, total: nat) returns (reply: Reply)
      requires Valid() && session.Some? && chunk != []
      modifies this
      ensures Valid() && session.Some? && PutStep(old(State()), first, chunk, State())
      ensures base == old(base) && verified == old(verified)
      ensures log == old(log) + [ChunkPut(first, first + |chunk| - 1, total, chunk, old(State()), State(), reply)]
      ensures Served(log[|old(log)|])
      ensures reply.Answer? ==> Honest(reply.response)
      ensures steady && old(session).value.landed == None ==>
                && Settled(session.value)
                && (first <= |old(session).value.received| && first + |chunk| <= session.value.declared.size ==>
                      || first + |chunk| <= |session.value.committed|
                      || (reply.Answer? && RateLimit(reply.response)))
      ensures steady ==> !reply.Killed? && (reply.Answer? ==> Refusal(reply.response) || Informative(reply.response))
    {
      hide Drive.Valid, Advanced, Drive.Honest, Drive.Informative, Arrived, SessionValid, PutStep, AskStep;
      var w := State();
      var refused: bool := *;
      if refused {
        reply := Respond(false);
        reply := Answer(Response(429, true, None, None));
        RefusalIsHonest(reply.response);
        AskIsPut(w, first, chunk, State());
      } else {
        Receive(first, chunk);
        ghost var v := State();
        reply := Respond(false);
        PutThenAsk(w, first, chunk, v, State());
        AskReceived(v, State());
      }
      if reply.Answer? {
        HonestIsTruthful(reply.response);
      }
      Note(ChunkPut(first, first + |chunk| - 1, total, chunk, w, State(), reply));
    }

    lemma RefusalIsHonest(a: Response)
      requires session.Some? && a.status == 429
      ensures Honest(a)
    {
    }

    method Query(total: nat) returns (reply: Reply)
      requires Valid() && session.Some?
      modifies this
      ensures Valid() && session.Some? && AskStep(old(State()), State())
      ensures base == old(base) && verified == old(verified)
      ensures log == old(log) + [StatusQuery(total, old(State()), State(), reply)]
      ensures Served(log[|old(log)|])
      ensures reply.Answer? ==> Honest(reply.response)
      ensures steady && (old(session).value.landed == None ==> Settled(old(session).value)) ==>
                reply.Answer? && Informative(reply.response)
      ensures steady && (old(session).value.landed == None ==> Settled(old(session).value)) ==> session == old(session)
      ensures steady && old(session).value.landed == None ==> Settled(session.value)
    {
      hide Drive.Valid, Drive.Honest, Drive.Informative;
      var w := State();
      ValidSession();
      reply := Respond(true);
      if reply.Answer? {
        HonestIsTruthful(reply.response);
      }
      Note(StatusQuery(total, w, State(), reply));
      if steady && (w.session.value.landed == None ==> Settled(w.session.value)) {
        SettledStays(w, State());
      }
    }

    lemma InformativeStatus(a: Response)
      requires session.Some? && Informative(a)
      ensures Succeeded(a) || a.status == 308
    {
    }

    lemma ValidSession()
      requires Valid() && session.Some?
      ensures SessionValid(session.value)
    {
    }

    /** What the drive says of the session is truthful. */
    lemma HonestIsTruthful(a: Response)
      requires session.Some? && Honest(a)
      ensures Truthful(State(), a)
    {
    }

    /// ## The folder

    function DescribeAll(os: seq<RemoteObject>): (ms: seq<Metadata>)
      reads this
      ensures |ms| == |os| && forall i :: 0 <= i < |os| ==> ms[i] == Describe(os[i])
    {
      seq(|os|, i requires 0 <= i < |os| reads this => Describe(os[i]))
    }

    /** A consistent listing: every object of the folder with that backup id, or no answer. */
    method List(folder: string, backupId: string) returns (r: Option<seq<Metadata>>)
      ensures r.Some? ==> r.value == DescribeAll(Matching(objects, folder, backupId))
      ensures answers ==> r.Some?
    {
      var answered: bool := *;
      r := if answered || answers then Some(DescribeAll(Matching(objects, folder, backupId))) else None;
    }

    /** Marks an object verified; the change may happen although no answer arrives. */
    method Patch(id: string) returns (r: Option<Metadata>)
      requires Valid()
      modifies `verified
      ensures Valid()
      ensures verified == old(verified) || verified == old(verified) + {id}
      ensures r.Some? ==> id in verified && exists i :: 0 <= i < |objects| && objects[i].id == id && r.value == Describe(objects[i])
      ensures answers && (exists i :: 0 <= i < |objects| && objects[i].id == id) ==> r.Some?
    {
      var done: bool, answered: bool := *, *;
      done, answered := done || answers, answered || answers;
      if done {
        verified := verified + {id};
      }
      r := None;
      if done && answered && exists i :: 0 <= i < |objects| && objects[i].id == id {
        var i :| 0 <= i < |objects| && objects[i].id == id;
        r := Some(Describe(objects[i]));
      }
    }

    /** Whether the folder is found writable. */
    method CheckFolder() returns (writable: bool)
      ensures answers ==> writable
    {
      writable := *;
      writable := writable || answers;
    }

    /** The client gives its session up. */
    method Retire()
      requires Valid()
      modifies `session, `abandoned, `base
      ensures Valid() && State() == GivenUp(old(State()))
    {
      if session.Some? {
        abandoned := abandoned + [session.value];
      }
      session, base := None, objects;
    }

    /** A new session; an answer with a location means that it is open. */
    method Open(declared: Declared) returns (reply: OpenReply)
      requires Valid()
      modifies `session, `abandoned, `base
      ensures Valid() && State() in {GivenUp(old(State())), OpenedWith(old(State()), declared)}
      ensures reply.Opened? && reply.location.Some? && (reply.status == 200 || reply.status == 201) ==> session.Some?
      ensures steady ==> reply == Opened(200, false, Some(true))
    {
      Retire();
      reply := *;
      if steady {
        reply := Opened(200, false, Some(true));
      }
      var opens: bool := *;
      if opens || reply.Opened? {
        session := Some(Session(declared, [], [], None));
      }
    }

    /** A given-up session that is complete becomes an object after all. */
    method LandLate(k: nat)
      requires Valid()
      modifies this
      ensures Valid() && verified == old(verified)
      ensures var w := GivenUp(old(State()));
              State() == w || exists id :: CanLandLate(w, k, id) && State() == LandedLate(w, k, id)
    {
      Retire();
      ghost var w := State();
      if k < |abandoned| && abandoned[k].landed == None && |abandoned[k].received| == abandoned[k].declared.size {
        var id: string := *;
        if id != "" && forall i :: 0 <= i < |objects| ==> objects[i].id != id {
          var s := abandoned[k].(committed := abandoned[k].received, landed := Some(id));
          abandoned := abandoned[k := s];
          objects := objects + [Landed(s, id)];
          base := objects;
          assert CanLandLate(w, k, id) && State() == LandedLate(w, k, id);
        }
      }
    }
  }
}

/** The client's loop over one resumable session. */
module ResumableSession {
  import opened Common
  import opened DriveServer
  import opened UploadClient

  /** What is left of the budgets; each turn of the upload loop spends at least one. */
  function Budget(size: nat, offset: nat, noProgress: nat, attempts: nat): nat
    requires offset <= size && noProgress <= MAX_RETRIES && attempts <= MAX_RETRIES
  {
    25 * (size - offset) + 5 * (MAX_RETRIES - noProgress) + (MAX_RETRIES - attempts)
  }

  /** A turn that ends in one more refused attempt spends some of the budget too. */
  lemma AttemptSpends(size: nat, offset: nat, noProgress: nat, attempts: nat)
    requires offset <= size && noProgress <= MAX_RETRIES && attempts < MAX_RETRIES
    ensures Budget(size, offset, noProgress, attempts + 1) < Budget(size, offset, noProgress, attempts)
  {
  }

  lemma BudgetStart(size: nat)
    ensures 16 * Budget(size, 0, 0, 0) + 16 <= 400 * (size + 1)
  {
  }

  /** A report, with or without progress, spends some of the budget. */
  lemma ReportSpends(size: nat, offset: nat, noProgress: nat, attempts: nat, reported: nat, attemptsThen: nat)
    requires offset <= reported <= size && attempts <= MAX_RETRIES && attemptsThen <= MAX_RETRIES
    requires noProgress <= MAX_RETRIES && NoProgress(noProgress, offset, reported) <= MAX_RETRIES
    ensures Budget(size, reported, NoProgress(noProgress, offset, reported), attemptsThen)
          < Budget(size, offset, noProgress, attempts)
  {
  }

  /** A chunk request carries exactly the file's bytes it names, from within what was committed when it was sent. */
  ghost predicate FaithfulRequest(q: Request, file: Bytes) {
    match q
    case ChunkPut(first, last, total, chunk, before, _, _) =>
      && first <= last < total == |file|
      && last - first < CHUNK_BYTES
      && chunk == file[first..last + 1]
      && before.session.Some? && first <= |before.session.value.committed|
    case StatusQuery(total, _, _, _) => total == |file|
  }

  /**
   The exchanges of the log from `from` on: each request is faithful to the file
   and is the one the client makes, and they take the client from `c.client` to
   `d.client` and the server from `c.server` to `d.server`.
   */
  ghost predicate Tracked(log: seq<Request>, from: nat, file: Bytes, c: Point, d: Point) {
    && from <= |log| && (forall i :: from <= i < |log| ==> FaithfulRequest(log[i], file))
    && Leads(file, c.client, log[from..], d.client) && Chained(c.server, log[from..], d.server)
  }

  lemma TrackedNothing(log: seq<Request>, file: Bytes, c: Point)
    ensures Tracked(log, |log|, file, c, c)
  {
  }

  lemma TrackedOne(log: seq<Request>, q: Request, file: Bytes, c: Client)
    requires FaithfulRequest(q, file) && IsNext(file, c, q) && Served(q)
    ensures Tracked(log + [q], |log|, file, At(c, q.before), At(After(|file|, c, q.reply), q.after))
  {
    hide FaithfulRequest, IsNext, After, Served;
    var all := log + [q];
    assert all[|log|..] == [q] && [q][1..] == [];
    assert Leads(file, After(|file|, c, q.reply), [], After(|file|, c, q.reply));
    assert Chained(q.after, [], q.after);
  }

  /** Two stretches of a tracked log. */
  lemma TrackedOn(first: seq<Request>, second: seq<Request>, from: nat, file: Bytes, c: Point, d: Point, e: Point)
    requires Tracked(first, from, file, c, d) && first <= second && Tracked(second, |first|, file, d, e)
    ensures Tracked(second, from, file, c, e)
  {
    hide FaithfulRequest, Leads, Chained;
    forall i | from <= i < |second|
      ensures FaithfulRequest(second[i], file)
    {
      assert i < |first| ==> second[i] == first[i];
    }
    assert second[from..] == first[from..] + second[|first|..];
    LeadsOn(file, c.client, first[from..], d.client, second[|first|..], e.client);
    ChainedOn(c.server, first[from..], d.server, second[|first|..], e.server);
  }

  /** Two stretches of a log and their tally. */
  lemma TallyStretches(first: seq<Request>, second: seq<Request>, from: nat, t: Tally)
    requires from <= |first| && first <= second
    ensures TallyFrom(t, second[from..]) == TallyFrom(TallyFrom(t, first[from..]), second[|first|..])
  {
    assert second[from..] == first[from..] + second[|first|..];
    TallyOn(t, first[from..], second[|first|..]);
  }

  lemma TallyOne(log: seq<Request>, q: Request, t: Tally)
    ensures TallyFrom(t, (log + [q])[|log|..]) == Tallied(t, q)
  {
    assert (log + [q])[|log|..] == [q] && [q][1..] == [];
    assert TallyFrom(Tallied(t, q), []) == Tallied(t, q);
  }

  /** The current session uploads `file`, from the `base` objects on. */
  twostate predicate StillUploading(drive: Drive, file: Bytes)
    reads drive
  {
    && drive.Valid() && drive.session.Some?
    && drive.base == old(drive.base) && drive.abandoned == old(drive.abandoned) && drive.verified == old(drive.verified)
    && old(drive.session).Some? && drive.session.value.declared == old(drive.session).value.declared
    && drive.session.value.declared.size == |file|
    && drive.session.value.received <= file && SessionValid(drive.session.value)
    && old(drive.session).value.committed <= drive.session.value.committed
  }

  /** The server has nothing left to do for the session. */
  predicate IsSettled(s: Session) {
    s.landed == None ==> Settled(s)
  }

  /** Where an answered or failed query leaves the client. */
  function Asked(size: nat, c: Client, r: Result<Response, UploadError>): Client
    requires c.Asking?
  {
    match r
    case Failure(error) => Ended(Failure(error))
    case Success(a) => Answered(size, c.cause, c.offset, c.attempts, c.noProgress, a)
  }

  /** One status query of a client that asks. */
  method AskOnce(drive: Drive, file: Bytes, ghost c: Client, ghost t: Tally) returns (reply: Reply)
    requires drive.Valid() && drive.session.Some? && drive.session.value.received <= file && c.Asking?
    requires drive.session.value.declared.size == |file| && SessionValid(drive.session.value)
    modifies drive
    ensures StillUploading(drive, file)
    ensures old(drive.log) <= drive.log && |drive.log| == |old(drive.log)| + 1
    ensures Tracked(drive.log, |old(drive.log)|, file, At(c, old(drive.State())), At(After(|file|, c, reply), drive.State()))
    ensures reply.Answer? ==> drive.Honest(reply.response)
    ensures drive.steady && IsSettled(old(drive.session).value) ==>
              && reply.Answer? && drive.Informative(reply.response) && !Retryable(reply.response)
              && drive.session == old(drive.session)
              && TallyFrom(t, drive.log[|old(drive.log)|..])
                 == if reply.response.status == 308 && t.direct then t.(limits := 0) else t
  {
    hide Drive.Valid, Drive.Honest, Drive.Informative, After, Leads, Tracked;
    ghost var w := drive.State();
    reply := drive.Query(|file|);
    ghost var q := StatusQuery(|file|, w, drive.State(), reply);
    TrackedOne(old(drive.log), q, file, c);
    TallyOne(old(drive.log), q, t);
    if drive.steady && IsSettled(w.session.value) {
      drive.InformativeStatus(reply.response);
    }
  }

  /** A status query, repeated after timeouts, transport errors and retryable answers. */
  method RequestWithRetry(drive: Drive, file: Bytes, ghost c: Client, ghost t: Tally) returns (r: Result<Response, UploadError>)
    requires drive.Valid() && drive.session.Some? && drive.session.value.received <= file
    requires drive.session.value.declared.size == |file| && SessionValid(drive.session.value)
    requires c.Asking? && c.tries == 0
    modifies drive
    ensures StillUploading(drive, file)
    ensures old(drive.log) <= drive.log && |drive.log| <= |old(drive.log)| + MAX_RETRIES + 1
    ensures Tracked(drive.log, |old(drive.log)|, file, At(c, old(drive.State())), At(Asked(|file|, c, r), drive.State()))
    ensures r.Success? ==> drive.Honest(r.value)
    ensures drive.steady && IsSettled(old(drive.session).value) ==>
              && r.Success? && drive.Informative(r.value) && drive.session == old(drive.session)
              && TallyFrom(t, drive.log[|old(drive.log)|..]) == if r.value.status == 308 && t.direct then t.(limits := 0) else t
    ensures r.Failure? ==> r.error in {Http, UploadError.Killed}
  {
    hide Drive.Valid, Drive.Honest, Drive.Informative, Leads, Tracked, Answered;
    TrackedNothing(drive.log, file, At(c, drive.State()));
    for attempt := 0 to MAX_RETRIES + 1
      invariant attempt <= MAX_RETRIES
      invariant attempt == 0 ==> drive.session == old(drive.session) && drive.log == old(drive.log)
      invariant StillUploading(drive, file)
      invariant drive.steady && IsSettled(old(drive.session).value) ==> attempt == 0
      invariant old(drive.log) <= drive.log && |drive.log| == |old(drive.log)| + attempt
      invariant Tracked(drive.log, |old(drive.log)|, file, At(c, old(drive.State())), At(c.(tries := attempt), drive.State()))
    {
      ghost var log, w := drive.log, drive.State();
      var reply := AskOnce(drive, file, c.(tries := attempt), t);
      TrackedOn(log, drive.log, |old(drive.log)|, file, At(c, old(drive.State())), At(c.(tries := attempt), w),
                At(After(|file|, c.(tries := attempt), reply), drive.State()));
      if reply.Killed? {
        return Failure(UploadError.Killed);
      }
      if reply.Timeout? || reply.TransportError? {
        if attempt == MAX_RETRIES {
          return Failure(Http);
        }
      } else if !Retryable(reply.response) || attempt == MAX_RETRIES {
        return Success(reply.response);
      }
    }
    assert false;
  }

  /** Bytes of a chunk of `file` that continue a prefix of `file`. */
  lemma PrefixGrows(file: Bytes, had: Bytes, has: Bytes, first: nat, chunk: Bytes)
    requires had <= file && first + |chunk| <= |file| && chunk == file[first..first + |chunk|]
    requires Arrived(had, has, first, chunk)
    ensures has <= file
  {
    forall i | 0 <= i < |has|
      ensures has[i] == file[i]
    {
      assert i >= |had| ==> has[i] == chunk[i - first];
    }
  }

  /** The request for one chunk. */
  method PutChunk(drive: Drive, file: Bytes, offset: nat, ghost c: Client, ghost t: Tally) returns (reply: Reply)
    requires drive.Valid() && drive.session.Some? && drive.session.value.received <= file
    requires drive.session.value.declared.size == |file| && c.Sending? && c.offset == offset
    requires offset < |file| && offset <= |drive.session.value.committed| && SessionValid(drive.session.value)
    modifies drive
    ensures StillUploading(drive, file)
    ensures old(drive.log) <= drive.log && |drive.log| == |old(drive.log)| + 1
    ensures Tracked(drive.log, |old(drive.log)|, file, At(c, old(drive.State())), At(After(|file|, c, reply), drive.State()))
    ensures reply.Answer? ==> drive.Honest(reply.response)
    ensures drive.steady && old(drive.session).value.landed == None ==>
              && Settled(drive.session.value) && !reply.Killed?
              && (reply.Answer? ==> Refusal(reply.response) || drive.Informative(reply.response))
              && (ChunkEnd(offset, |file|) <= |drive.session.value.committed| || (reply.Answer? && RateLimit(reply.response)))
    ensures TallyFrom(t, drive.log[|old(drive.log)|..]) == ChunkTallied(t, reply)
  {
    hide Drive.Valid, Drive.Honest, Drive.Informative, Leads, Tracked, After, ChunkTallied;
    ghost var w := drive.State();
    var size := |file|;
    var chunk := file[offset..ChunkEnd(offset, size)];
    reply := drive.Put(offset, chunk, size);
    PrefixGrows(file, w.session.value.received, drive.session.value.received, offset, chunk);
    ghost var q := ChunkPut(offset, offset + |chunk| - 1, size, chunk, w, drive.State(), reply);
    TrackedOne(old(drive.log), q, file, c);
    TallyOne(old(drive.log), q, t);
  }

  /** Where an answered or failed chunk leaves the client. */
  function SentAs(size: nat, c: Client, r: Result<Response, UploadError>): Client
    requires c.Sending?
  {
    match r
    case Failure(error) => Ended(Failure(error))
    case Success(a) => Responded(size, c.offset, c.attempts, c.noProgress, a)
  }

  /** The tally after a chunk whose answer is `a`. */
  predicate TalliedAs(t: Tally, a: Response, after: Tally) {
    && (RateLimit(a) ==> after == Tally(t.limits + 1, t.over || t.limits + 1 > MAX_RETRIES, false))
    && (!RateLimit(a) ==> after.over == t.over && (a.status == 308 ==> after.limits == 0))
  }

  /** One chunk from `offset`; a lost reply or a server fault is followed by a status query. */
  method SendChunk(drive: Drive, file: Bytes, offset: nat, ghost c: Client, ghost t: Tally) returns (r: Result<Response, UploadError>)
    requires drive.Valid() && drive.session.Some? && drive.session.value.received <= file
    requires drive.session.value.declared.size == |file| && c.Sending? && c.offset == offset
    requires offset < |file| && offset <= |drive.session.value.committed| && SessionValid(drive.session.value)
    modifies drive
    ensures StillUploading(drive, file)
    ensures old(drive.log) <= drive.log && |drive.log| <= |old(drive.log)| + 1 + 2 * (MAX_RETRIES + 1)
    ensures Tracked(drive.log, |old(drive.log)|, file, At(c, old(drive.State())), At(SentAs(|file|, c, r), drive.State()))
    ensures r.Success? ==> drive.Honest(r.value)
    ensures drive.steady && old(drive.session).value.landed == None ==>
              && r.Success? && Settled(drive.session.value)
              && (RateLimit(r.value)
                  || (drive.Informative(r.value) && ChunkEnd(offset, |file|) <= |drive.session.value.committed|))
              && TalliedAs(t, r.value, TallyFrom(t, drive.log[|old(drive.log)|..]))
  {
    hide Drive.Valid, Drive.Honest, Leads, Tracked, Responded, TallyFrom, AskStep, PutStep, Drive.Describe;
    ghost var size := |file|;
    var reply := PutChunk(drive, file, offset, c, t);
    ghost var d, w := After(size, c, reply), drive.State();
    ghost var log := drive.log;
    ghost var u := TallyFrom(t, log[|old(drive.log)|..]);
    if reply.Killed? {
      return Failure(UploadError.Killed);
    }
    if reply.Answer? {
      r := Success(reply.response);
    } else {
      r := RequestWithRetry(drive, file, d, u);
      TrackedOn(log, drive.log, |old(drive.log)|, file, At(c, old(drive.State())), At(d, w),
                At(Asked(size, d, r), drive.State()));
      TallyStretches(log, drive.log, |old(drive.log)|, t);
      d, w, u := Asked(size, d, r), drive.State(), TallyFrom(u, drive.log[|log|..]);
    }
    if r.Success? && ServerFault(r.value) {
      log := drive.log;
      r := RequestWithRetry(drive, file, d, u);
      TrackedOn(log, drive.log, |old(drive.log)|, file, At(c, old(drive.State())), At(d, w),
                At(Asked(size, d, r), drive.State()));
      TallyStretches(log, drive.log, |old(drive.log)|, t);
    }
  }

  /** How one turn of the loop ends: with the next offset and counts, or with the upload's result. */
  datatype Turn = Go(offset: nat, attempts: nat, noProgress: nat) | Stop(result: Result<Metadata, UploadError>)

  function TurnTo(size: nat, turn: Turn): Client {
    match turn
    case Go(offset, attempts, noProgress) => Resumed(size, offset, attempts, noProgress)
    case Stop(result) => Ended(result)
  }

  /** A returned object is the one the session became. */
  ghost predicate IsLanded(drive: Drive, r: Result<Metadata, UploadError>)
    requires drive.session.Some?
    reads drive
  {
    r.Success? ==>
      && drive.session.value.landed.Some?
      && r.value == drive.Describe(Landed(drive.session.value, drive.session.value.landed.value))
  }

  /** The status query after a refused chunk, and what follows from its answer. */
  method AskAfterRefusal(drive: Drive, file: Bytes, offset: nat, attempts: nat, noProgress: nat, ghost t: Tally)
    returns (turn: Turn)
    requires drive.Valid() && drive.session.Some? && drive.session.value.received <= file
    requires drive.session.value.declared.size == |file| && SessionValid(drive.session.value)
    requires offset < |file| && offset <= |drive.session.value.committed|
    requires 0 < attempts <= MAX_RETRIES && noProgress <= MAX_RETRIES
    modifies drive
    ensures StillUploading(drive, file)
    ensures old(drive.log) <= drive.log && |drive.log| <= |old(drive.log)| + MAX_RETRIES + 1
    ensures Tracked(drive.log, |old(drive.log)|, file,
                    At(Asking(AfterLimit, 0, offset, attempts, noProgress), old(drive.State())),
                    At(TurnTo(|file|, turn), drive.State()))
    ensures turn.Stop? ==> IsLanded(drive, turn.result)
    ensures turn.Go? ==>
              && offset <= turn.offset <= |drive.session.value.committed|
              && turn.attempts == attempts && turn.noProgress <= MAX_RETRIES
              && Budget(|file|, turn.offset, turn.noProgress, attempts) < Budget(|file|, offset, noProgress, attempts - 1)
    ensures drive.steady && IsSettled(old(drive.session).value) && !t.direct && noProgress < attempts ==>
              && drive.session == old(drive.session) && TallyFrom(t, drive.log[|old(drive.log)|..]) == t
              && (if drive.session.value.landed.Some? then turn.Stop? && turn.result.Success?
                  else turn.Go? && turn.noProgress <= attempts)
  {
    hide Tracked, Leads, Drive.Valid, Drive.Describe, TallyFrom, Budget;
    var size := |file|;
    ghost var c := Asking(AfterLimit, 0, offset, attempts, noProgress);
    var asked := RequestWithRetry(drive, file, c, t);
    if asked.Failure? {
      return Stop(asked.PropagateFailure());
    }
    var status := asked.value;
    if status.status == 308 {
      var reported := ResumeOffset(status.range);
      var count := NoProgress(noProgress, offset, reported);
      if count > MAX_RETRIES {
        return Stop(Failure(Drive("drive_upload_no_progress")));
      }
      ReportSpends(size, offset, noProgress, attempts - 1, reported, attempts);
      return Go(reported, attempts, count);
    }
    if status.status == 200 || status.status == 201 {
      match status.body {
        case Some(metadata) => return Stop(Success(metadata));
        case None => return Stop(Failure(BadJson));
      }
    }
    AttemptSpends(size, offset, noProgress, attempts - 1);
    return Go(offset, attempts, noProgress);
  }

  /**
   The upload loop. Whatever the server does, the requests are those of the
   client machine and the result is where the replies take it; every chunk sent
   is the file's own bytes from an offset the server has committed, the number of
   requests is bounded by the size of the file, a returned object holds exactly
   the file, and so does an object that landed without the client learning of it.
   On a steady server the upload succeeds exactly when never more than
   MAX_RETRIES chunks in a row are rate-limited.
   */
  method UploadSession(drive: Drive, file: Bytes) returns (r: Result<Metadata, UploadError>)
    requires drive.Valid() && drive.session.Some? && file != []
    requires drive.session.value == Session(drive.session.value.declared, [], [], None)
    requires drive.session.value.declared.size == |file|
    modifies drive
    ensures StillUploading(drive, file)
    ensures drive.session.value.landed.Some? ==> drive.session.value.committed == file
    ensures IsLanded(drive, r)
    ensures old(drive.log) <= drive.log
    ensures Tracked(drive.log, |old(drive.log)|, file, At(START, old(drive.State())), At(Ended(r), drive.State()))
    ensures |drive.log| <= |old(drive.log)| + 400 * (|file| + 1)
    ensures drive.steady ==> (r.Success? <==> !Overrun(drive.log[|old(drive.log)|..]))
    ensures drive.steady && r.Failure? ==> r.error == Drive("drive_rate_limited")
  {
    hide Tracked, Leads, Drive.Valid, Drive.Describe, ResponseError, Budget, TallyFrom, AskStep, PutStep;
    TrackedNothing(drive.log, file, At(START, drive.State()));
    BudgetStart(|file|);
    var size := |file|;
    var offset: nat, attempts: nat, noProgress: nat := 0, 0, 0;
    ghost var t := Tally(0, false, false);
    NoTally(drive.log, t);
    while offset < size
      invariant StillUploading(drive, file)
      invariant old(drive.log) <= drive.log
      invariant Tracked(drive.log, |old(drive.log)|, file, At(START, old(drive.State())),
                        At(Resumed(size, offset, attempts, noProgress), drive.State()))
      invariant t == TallyFrom(Tally(0, false, false), drive.log[|old(drive.log)|..])
      invariant attempts <= MAX_RETRIES && noProgress <= MAX_RETRIES
      invariant offset <= |drive.session.value.committed| <= size
      invariant |drive.log| + 16 * Budget(size, offset, noProgress, attempts)
             <= |old(drive.log)| + 16 * Budget(size, 0, 0, 0)
      invariant drive.steady ==>
                  && noProgress <= attempts == t.limits && !t.over
                  && drive.session.value.landed == None && Settled(drive.session.value)
      decreases Budget(size, offset, noProgress, attempts)
    {
      ghost var log, w := drive.log, drive.State();
      ghost var c := Sending(offset, attempts, noProgress);
      var sent := SendChunk(drive, file, offset, c, t);
      TrackedOn(log, drive.log, |old(drive.log)|, file, At(START, old(drive.State())), At(c, w),
                At(SentAs(size, c, sent), drive.State()));
      TallyStretches(log, drive.log, |old(drive.log)|, Tally(0, false, false));
      t := TallyFrom(t, drive.log[|log|..]);
      if sent.Failure? {
        return sent.PropagateFailure();
      }
      var response := sent.value;
      if response.status == 200 || response.status == 201 {
        match response.body {
          case Some(metadata) => return Success(metadata);
          case None => return Failure(Drive("drive_ambiguous_upload_result"));
        }
      }
      if response.status == 308 {
        var reported := ResumeOffset(response.range);
        ghost var noProgressBefore := noProgress;
        noProgress := NoProgress(noProgress, offset, reported);
        if noProgress > MAX_RETRIES {
          return Failure(Drive("drive_upload_no_progress"));
        }
        ReportSpends(size, offset, noProgressBefore, attempts, reported, 0);
        offset := reported;
        if offset > size {
          return Failure(Drive("drive_upload_range_invalid"));
        }
        attempts := 0;
        continue;
      }
      if response.status == 404 {
        return Failure(Drive("drive_upload_session_expired"));
      }
      if Retryable(response) {
        attempts := attempts + 1;
        if attempts <= MAX_RETRIES {
          log, w := drive.log, drive.State();
          c := Asking(AfterLimit, 0, offset, attempts, noProgress);
          var turn := AskAfterRefusal(drive, file, offset, attempts, noProgress, t);
          TrackedOn(log, drive.log, |old(drive.log)|, file, At(START, old(drive.State())), At(c, w),
                    At(TurnTo(size, turn), drive.State()));
          TallyStretches(log, drive.log, |old(drive.log)|, Tally(0, false, false));
          t := TallyFrom(t, drive.log[|log|..]);
          if turn.Stop? {
            return turn.result;
          }
          offset, noProgress := turn.offset, turn.noProgress;
          continue;
        }
      }
      RateLimitError(response);
      return Failure(Drive(ResponseError(response)));
    }
    return Failure(Drive("drive_upload_incomplete"));
  }

  lemma RateLimitError(a: Response)
    ensures RateLimit(a) ==> ResponseError(a) == "drive_rate_limited"
  {
  }

  lemma NoTally(log: seq<Request>, t: Tally)
    ensures TallyFrom(t, log[|log|..]) == t
  {
  }

  /// ## Why the server must not take committed bytes back

  /** The loop is still running after these consecutive 308 reports. */
  predicate StillLooping(size: nat, offset: nat, noProgress: nat, reports: seq<nat>)
    decreases |reports|
  {
    && offset < size
    && (reports == []
        || var count := NoProgress(noProgress, offset, reports[0]);
           count <= MAX_RETRIES && StillLooping(size, reports[0], count, reports[1..]))
  }

  predicate NeverShrinks(offset: nat, reports: seq<nat>)
    decreases |reports|
  {
    reports == [] || (offset <= reports[0] && NeverShrinks(reports[0], reports[1..]))
  }

  /** Reports that never shrink end the loop within a bound ... */
  lemma {:induction false} GrowingReportsStop(size: nat, offset: nat, noProgress: nat, reports: seq<nat>)
    requires NeverShrinks(offset, reports) && noProgress <= MAX_RETRIES
    requires StillLooping(size, offset, noProgress, reports)
    ensures |reports| < Budget(size, offset, noProgress, 0)
    decreases |reports|
  {
    if reports != [] {
      GrowingReportsStop(size, reports[0], NoProgress(noProgress, offset, reports[0]), reports[1..]);
    }
  }

  /** ... and a server that takes one committed byte back again and again keeps it running for ever. */
  lemma {:induction false} RewindingReportsNeverStop(size: nat, offset: nat, noProgress: nat, turns: nat)
    returns (reports: seq<nat>)
    requires 2 <= size && offset + noProgress <= 1
    ensures |reports| == turns
    ensures StillLooping(size, offset, noProgress, reports)
    ensures forall i :: 0 <= i < turns ==> reports[i] <= 1
    decreases turns
  {
    if turns == 0 {
      reports := [];
    } else {
      var more := RewindingReportsNeverStop(size, 1 - offset, NoProgress(noProgress, offset, 1 - offset), turns - 1);
      reports := [1 - offset] + more;
      assert reports[1..] == more;
    }
  }
}
