/**
 Runs of uploads for one backup id on values: calls one after the other, each
 exchanging requests and replies with a server that may lose any reply, and
 given-up sessions that may still become objects at any moment.
 */
module UploadRuns {
  import opened Common
  import opened DriveServer
  import opened UploadClient
  import opened DriveUpload

  /** The folder and hashes all calls use, and their backup id. */
  datatype Setting = Setting(folder: string, backupId: string, sha: Bytes -> string, md5: Bytes -> string)

  /** Where the calls are: between two of them, before the session of one is open, or in its exchanges. */
  datatype Phase = Out | Opening | InSession(client: Client)

  /** The server, the phase, and the file of the latest call that found no copy. */
  datatype System = System(server: ServerState, phase: Phase, file: Bytes)

  datatype Action =
    | Call(file: Bytes)
    | OpenLost(reached: bool)
    | Open
    | Exchange(reply: Reply)
    | Unasked
    | LandLate(k: nat, id: string)
    | Return
    | GiveUp

  const NOTHING := System(ServerState([], None, []), Out, [])

  function DeclaredOf(at: Setting, file: Bytes): Declared {
    DeclaredFor(Expected(at.backupId, |file|, at.sha(file), at.md5(file)), at.folder)
  }

  function Copies(at: Setting, x: System): seq<RemoteObject> {
    Matching(x.server.objects, at.folder, at.backupId)
  }

  /** What the request of a client that is not done does to the server. */
  ghost predicate Handled(file: Bytes, c: Client, w: ServerState, v: ServerState) {
    match c
    case Ended(_) => false
    case Sending(offset, _, _) =>
      offset < |file| && PutStep(w, offset, file[offset..ChunkEnd(offset, |file|)], v)
    case Asking(_, _, _, _, _) => AskStep(w, v)
  }

  /**
   One step. A call goes on to open a session only when it listed no copy; a
   request to open one may be lost; a media request has any effect and reply of
   the server; a complete upload may land unasked; and a session given up earlier
   may land at any moment, in the middle of a call too. A call that is over has
   given its session up.
   */
  ghost predicate Step(at: Setting, x: System, a: Action, y: System) {
    match a
    case Call(file) =>
      x.phase.Out? && Copies(at, x) == [] && file != [] && y == System(GivenUp(x.server), Opening, file)
    case OpenLost(reached) =>
      && x.phase.Opening?
      && y == x.(server := if reached then OpenedWith(x.server, DeclaredOf(at, x.file)) else GivenUp(x.server))
    case Open =>
      x.phase.Opening? && y == System(OpenedWith(x.server, DeclaredOf(at, x.file)), InSession(START), x.file)
    case Exchange(reply) =>
      && x.phase.InSession? && Handled(x.file, x.phase.client, x.server, y.server)
      && (reply.Answer? ==> Truthful(y.server, reply.response))
      && y.phase == InSession(After(|x.file|, x.phase.client, reply)) && y.file == x.file
    case Unasked =>
      x.phase.InSession? && AskStep(x.server, y.server) && y == x.(server := y.server)
    case LandLate(k, id) =>
      CanLandLate(x.server, k, id) && y == x.(server := LandedLate(x.server, k, id))
    case Return => y == x.(phase := Out)
    case GiveUp => x.phase.Out? && y == x.(server := GivenUp(x.server))
  }

  ghost predicate IsRun(at: Setting, run: seq<System>, steps: seq<Action>) {
    && |run| == |steps| + 1 && run[0] == NOTHING
    && forall i :: 0 <= i < |steps| ==> Step(at, run[i], steps[i], run[i + 1])
  }

  /** An object appears in the folder at this step. */
  predicate LandsAt(run: seq<System>, i: nat)
    requires i + 1 < |run|
  {
    |run[i + 1].server.objects| > |run[i].server.objects|
  }

  /** A given-up session lands, and another object of the id lands before or after it. */
  predicate LateBesideAnother(run: seq<System>, steps: seq<Action>)
    requires |run| == |steps| + 1
  {
    exists i, j :: 0 <= i < |steps| && 0 <= j < |steps| && i != j && steps[i].LandLate? && LandsAt(run, j)
  }

  /// ## What every run keeps

  /** The session uploads `file`: it was opened for it and received a prefix of it. */
  predicate IsUploadOf(at: Setting, s: Session, file: Bytes) {
    s.declared == DeclaredOf(at, file) && s.received <= file
  }

  ghost predicate IsUpload(at: Setting, s: Session) {
    exists file :: IsUploadOf(at, s, file)
  }

  /** Every object is a whole file under that file's own labels, and every session an upload of a file. */
  ghost predicate Inv(at: Setting, x: System) {
    && (forall i :: 0 <= i < |x.server.objects| ==> IsFaithful(at, x.server.objects[i]))
    && (forall i :: 0 <= i < |x.server.abandoned| ==> IsUpload(at, x.server.abandoned[i]))
    && (x.server.session.Some? ==> IsUploadOf(at, x.server.session.value, x.file))
  }

  predicate IsFaithful(at: Setting, o: RemoteObject) {
    o.declared == DeclaredOf(at, o.content)
  }

  lemma AllAreCopies(at: Setting, x: System)
    requires Inv(at, x)
    ensures Copies(at, x) == x.server.objects
  {
    FilterAll(HasBackup(at.folder, at.backupId), x.server.objects);
  }

  lemma SliceOfSlice(s: Bytes, i: nat, j: nat, a: nat, b: nat)
    requires i <= j <= |s| && a <= b <= j - i
    ensures s[i..j][a..b] == s[i + a..i + b]
  {
    var l, r := s[i..j][a..b], s[i + a..i + b];
    forall k | 0 <= k < b - a
      ensures l[k] == r[k]
    {
      assert l[k] == s[i..j][a + k] == s[i + a + k];
    }
    assert l == r;
  }

  /** The chunk of a file at an offset extends a prefix of the file to a longer prefix. */
  lemma ArrivedPrefix(had: Bytes, has: Bytes, first: nat, last: nat, file: Bytes)
    requires had <= file && first <= last <= |file| && Arrived(had, has, first, file[first..last])
    ensures has <= file
  {
    if has != had {
      SliceOfSlice(file, first, last, |had| - first, |has| - first);
      assert file[..|had|] + file[|had|..|has|] == file[..|has|];
    }
  }

  /** A landed upload holds the whole file. */
  lemma LandedIsFaithful(at: Setting, s: Session, file: Bytes, id: string)
    requires IsUploadOf(at, s, file) && s.committed <= s.received && |s.committed| == s.declared.size
    ensures IsFaithful(at, Landed(s, id)) && s.committed == file
  {
    SizeOf(at, file);
    assert |s.committed| == |file| && s.committed <= file;
    assert s.committed == file[..|s.committed|] == file;
  }

  /** The session stays an upload of the file, and what it lands is the file. */
  lemma HandledKeeps(at: Setting, file: Bytes, first: nat, last: nat, w: ServerState, v: ServerState)
    requires first <= last <= |file| && PutStep(w, first, file[first..last], v) && IsUploadOf(at, w.session.value, file)
    ensures IsUploadOf(at, v.session.value, file)
    ensures v.session.value.landed.Some? ==>
              IsFaithful(at, Landed(v.session.value, v.session.value.landed.value))
  {
    hide DeclaredOf, Arrived, IsFaithful, LandsAs;
    var s, t := w.session.value, v.session.value;
    ArrivedPrefix(s.received, t.received, first, last, file);
    if t.landed.Some? {
      LandedIsFaithful(at, t, file, t.landed.value);
    }
  }

  lemma LateKeeps(at: Setting, w: ServerState, k: nat, id: string)
    requires CanLandLate(w, k, id) && IsUpload(at, w.abandoned[k])
    ensures var v := LandedLate(w, k, id);
            IsUpload(at, v.abandoned[k]) && v.objects == w.objects + [v.objects[|w.objects|]]
            && IsFaithful(at, v.objects[|w.objects|])
  {
    hide DeclaredOf;
    var file :| IsUploadOf(at, w.abandoned[k], file);
    var s := LandedLate(w, k, id).abandoned[k];
    SizeOf(at, file);
    assert IsUploadOf(at, s, file);
    LandedIsFaithful(at, s, file, id);
  }

  lemma SizeOf(at: Setting, file: Bytes)
    ensures DeclaredOf(at, file).size == |file|
  {
  }

  /** What handling a request, or settling without one, does to the folder. */
  lemma HandledLands(w: ServerState, first: nat, chunk: Bytes, v: ServerState)
    requires PutStep(w, first, chunk, v)
    ensures w.session.Some? && v.session.Some? && v.abandoned == w.abandoned
    ensures v.session.value.declared == w.session.value.declared
    ensures w.session.value.landed.Some? ==> v.session == w.session && v.objects == w.objects
    ensures v.objects == w.objects || (v.session.value.landed.Some?
                                       && v.objects == w.objects + [Landed(v.session.value, v.session.value.landed.value)])
  {
    hide Arrived, SessionValid;
  }

  /** An exchange or a settling is a chunk, perhaps of no bytes, that arrives. */
  lemma ServerMoves(at: Setting, x: System, a: Action, y: System) returns (first: nat, last: nat)
    requires Step(at, x, a, y) && (a.Exchange? || a.Unasked?)
    ensures first <= last <= |x.file| && PutStep(x.server, first, x.file[first..last], y.server)
  {
    hide AskStep, PutStep, After, Truthful;
    first, last := 0, 0;
    if a.Exchange? && x.phase.client.Sending? {
      first, last := x.phase.client.offset, ChunkEnd(x.phase.client.offset, |x.file|);
    } else {
      AskIsPut(x.server, 0, x.file[0..0], y.server);
    }
  }

  lemma StepKeeps(at: Setting, x: System, a: Action, y: System)
    requires Inv(at, x) && Step(at, x, a, y)
    ensures Inv(at, y) && x.server.objects <= y.server.objects && |y.server.objects| <= |x.server.objects| + 1
    ensures a.LandLate? ==> |y.server.objects| == |x.server.objects| + 1
  {
    hide Handled, After, Truthful, DeclaredOf, IsFaithful, LandedLate, AskStep, PutStep;
    match a
    case Exchange(_) =>
      MoveKeeps(at, x, a, y);
    case Unasked =>
      MoveKeeps(at, x, a, y);
    case LandLate(k, id) =>
      LateKeeps(at, x.server, k, id);
      LateFrame(x.server, k, id);
    case _ =>
      SizeOf(at, x.file);
      assert x.server.session.Some? ==> IsUpload(at, x.server.session.value);
  }

  lemma MoveKeeps(at: Setting, x: System, a: Action, y: System)
    requires Inv(at, x) && Step(at, x, a, y) && (a.Exchange? || a.Unasked?)
    ensures Inv(at, y) && x.server.objects <= y.server.objects && |y.server.objects| <= |x.server.objects| + 1
  {
    hide Handled, After, Truthful, DeclaredOf, IsFaithful, AskStep, PutStep;
    var first, last := ServerMoves(at, x, a, y);
    HandledLands(x.server, first, x.file[first..last], y.server);
    HandledKeeps(at, x.file, first, last, x.server, y.server);
  }

  lemma LateFrame(w: ServerState, k: nat, id: string)
    requires CanLandLate(w, k, id)
    ensures var v := LandedLate(w, k, id);
            && |v.objects| == |w.objects| + 1 && v.session == w.session && |v.abandoned| == |w.abandoned|
            && forall i :: 0 <= i < |w.abandoned| && i != k ==> v.abandoned[i] == w.abandoned[i]
  {
  }

  lemma {:induction false} RunKeeps(at: Setting, run: seq<System>, steps: seq<Action>, k: nat)
    requires IsRun(at, run, steps) && k < |run|
    ensures Inv(at, run[k])
  {
    hide Step, Inv;
    if k == 0 {
      NothingKept(at);
    } else {
      RunKeeps(at, run, steps, k - 1);
      assert Step(at, run[k - 1], steps[k - 1], run[k]);
      StepKeeps(at, run[k - 1], steps[k - 1], run[k]);
    }
  }

  lemma NothingKept(at: Setting)
    ensures Inv(at, NOTHING)
  {
  }

  lemma {:induction false} ObjectsStay(at: Setting, run: seq<System>, steps: seq<Action>, a: nat, b: nat)
    requires IsRun(at, run, steps) && a <= b < |run|
    ensures run[a].server.objects <= run[b].server.objects
    decreases b
  {
    hide Step, Inv;
    if a < b {
      ObjectsStay(at, run, steps, a, b - 1);
      RunKeeps(at, run, steps, b - 1);
      assert Step(at, run[b - 1], steps[b - 1], run[b]);
      StepKeeps(at, run[b - 1], steps[b - 1], run[b]);
    }
  }

  /** No call can land an object any more: there is one, no session is being opened, and the open one has landed. */
  predicate IsClosed(x: System) {
    && x.server.objects != [] && !x.phase.Opening?
    && (x.phase.InSession? ==> x.server.session.Some? && x.server.session.value.landed.Some?)
  }

  /** A landing of a call's own session closes the folder to calls, and it stays closed. */
  lemma StepCloses(at: Setting, x: System, a: Action, y: System)
    requires Inv(at, x) && Step(at, x, a, y)
    ensures y.server.objects != x.server.objects && !a.LandLate? ==> IsClosed(y) && !IsClosed(x)
    ensures IsClosed(x) ==> IsClosed(y)
  {
    hide Handled, After, Truthful, DeclaredOf, IsFaithful, AskStep, PutStep, Inv, Copies;
    match a
    case Exchange(_) =>
      MoveCloses(at, x, a, y);
    case Unasked =>
      MoveCloses(at, x, a, y);
    case Call(_) =>
      AllAreCopies(at, x);
    case _ =>
  }

  lemma MoveCloses(at: Setting, x: System, a: Action, y: System)
    requires Step(at, x, a, y) && (a.Exchange? || a.Unasked?)
    ensures y.server.objects != x.server.objects ==> IsClosed(y) && !IsClosed(x)
    ensures IsClosed(x) ==> IsClosed(y)
  {
    hide Handled, After, Truthful, DeclaredOf, AskStep, PutStep;
    var first, last := ServerMoves(at, x, a, y);
    HandledLands(x.server, first, x.file[first..last], y.server);
  }

  /** Once a call's own session landed, no call lands another object. */
  lemma {:induction false} StaysClosed(at: Setting, run: seq<System>, steps: seq<Action>, m: nat, k: nat)
    requires IsRun(at, run, steps) && m < k < |run| && LandsAt(run, m) && !steps[m].LandLate?
    ensures IsClosed(run[k])
    decreases k
  {
    hide Step, Inv, IsClosed;
    RunKeeps(at, run, steps, k - 1);
    assert Step(at, run[k - 1], steps[k - 1], run[k]);
    StepCloses(at, run[k - 1], steps[k - 1], run[k]);
    if m < k - 1 {
      StaysClosed(at, run, steps, m, k - 1);
    }
  }

  /**
   Whatever was lost, given up or landed late, in every state of every run each
   object of the folder is a whole file under the labels of that file.
   */
  lemma EveryCopyIsFaithful(at: Setting, run: seq<System>, steps: seq<Action>, k: nat)
    requires IsRun(at, run, steps) && k < |run|
    ensures forall o :: o in run[k].server.objects ==> o.declared == DeclaredOf(at, o.content)
    ensures Labelled(run[k].server.objects, at.folder, at.backupId, at.sha)
  {
    hide Step;
    RunKeeps(at, run, steps, k);
    forall o | o in run[k].server.objects
      ensures o.declared == DeclaredOf(at, o.content)
    {
      var i :| 0 <= i < |run[k].server.objects| && run[k].server.objects[i] == o;
      assert IsFaithful(at, run[k].server.objects[i]);
    }
  }

  /** An object that is there landed at some step. */
  lemma {:induction false} LandedBefore(at: Setting, run: seq<System>, steps: seq<Action>, k: nat) returns (m: nat)
    requires IsRun(at, run, steps) && k < |run| && run[k].server.objects != []
    ensures m < k && LandsAt(run, m)
  {
    hide Step;
    if |run[k].server.objects| > |run[k - 1].server.objects| {
      m := k - 1;
    } else {
      m := LandedBefore(at, run, steps, k - 1);
    }
  }

  /** Of two landings one is of a given-up session. */
  lemma OneIsLate(at: Setting, run: seq<System>, steps: seq<Action>, m: nat, k: nat)
    requires IsRun(at, run, steps) && m < k < |steps| && LandsAt(run, m) && LandsAt(run, k)
    ensures steps[m].LandLate? || steps[k].LandLate?
  {
    hide Step, Inv, IsClosed;
    if !steps[m].LandLate? {
      StaysClosed(at, run, steps, m, k);
      RunKeeps(at, run, steps, k);
      assert Step(at, run[k], steps[k], run[k + 1]);
      StepCloses(at, run[k], steps[k], run[k + 1]);
    }
  }

  /** When a second object has appeared, one of two landings was of a given-up session. */
  lemma {:induction false} TwoNeedLate(at: Setting, run: seq<System>, steps: seq<Action>, k: nat)
    requires IsRun(at, run, steps) && k < |run| && |run[k].server.objects| >= 2
    ensures LateBesideAnother(run, steps)
  {
    hide Step, Inv;
    RunKeeps(at, run, steps, k - 1);
    assert Step(at, run[k - 1], steps[k - 1], run[k]);
    StepKeeps(at, run[k - 1], steps[k - 1], run[k]);
    if |run[k - 1].server.objects| >= 2 {
      TwoNeedLate(at, run, steps, k - 1);
    } else {
      assert LandsAt(run, k - 1);
      var m := LandedBefore(at, run, steps, k - 1);
      OneIsLate(at, run, steps, m, k - 1);
    }
  }

  /**
   In every run the folder ends with at most one object of the id exactly when no
   given-up session lands beside another landing, before it or after it.
   */
  lemma OneCopyIff(at: Setting, run: seq<System>, steps: seq<Action>)
    requires IsRun(at, run, steps)
    ensures |Copies(at, run[|steps|])| <= 1 <==> !LateBesideAnother(run, steps)
  {
    hide Step, Inv;
    var n := |steps|;
    RunKeeps(at, run, steps, n);
    AllAreCopies(at, run[n]);
    if |run[n].server.objects| >= 2 {
      TwoNeedLate(at, run, steps, n);
    }
    if LateBesideAnother(run, steps) {
      var i, j :| 0 <= i < |steps| && 0 <= j < |steps| && i != j && steps[i].LandLate? && LandsAt(run, j);
      RunKeeps(at, run, steps, i);
      assert Step(at, run[i], steps[i], run[i + 1]);
      StepKeeps(at, run[i], steps[i], run[i + 1]);
      TwoLandings(at, run, steps, if i < j then i else j, if i < j then j else i);
    }
  }

  lemma TwoLandings(at: Setting, run: seq<System>, steps: seq<Action>, i: nat, j: nat)
    requires IsRun(at, run, steps) && i < j < |steps| && LandsAt(run, i) && LandsAt(run, j)
    ensures |run[|steps|].server.objects| >= 2
  {
    hide Step;
    ObjectsStay(at, run, steps, i + 1, j);
    ObjectsStay(at, run, steps, j + 1, |steps|);
  }

  /// ## What success means

  /**
   A call succeeds after a listing with one copy that carries the file's hash.
   When it lists at moment `l` and returns at moment `s`, that copy is the file,
   byte for byte, and still there; it is the only one exactly when nothing landed
   in between, and all that can have landed is a session given up earlier, or the
   call's own after the copy it listed came from one.
   */
  lemma SuccessMeans(at: Setting, run: seq<System>, steps: seq<Action>, l: nat, s: nat, file: Bytes)
    requires IsRun(at, run, steps) && l <= s < |run| && CollisionFree(at.sha)
    requires |Copies(at, run[l])| == 1 && Copies(at, run[l])[0].declared.props.localSha == at.sha(file)
    ensures var o := Copies(at, run[l])[0]; o.content == file && o in Copies(at, run[s])
    ensures |Copies(at, run[s])| == 1 <==> forall j :: l <= j < s ==> !LandsAt(run, j)
    ensures forall j :: l <= j < s && LandsAt(run, j) && !steps[j].LandLate? ==>
              exists i :: 0 <= i < l && LandsAt(run, i) && steps[i].LandLate?
  {
    hide Step, Inv, IsClosed, IsFaithful;
    RunKeeps(at, run, steps, l);
    RunKeeps(at, run, steps, s);
    AllAreCopies(at, run[l]);
    AllAreCopies(at, run[s]);
    EveryCopyIsFaithful(at, run, steps, l);
    ObjectsStay(at, run, steps, l, s);
    var o := Copies(at, run[l])[0];
    assert o in run[l].server.objects && at.sha(o.content) == at.sha(file);
    assert run[s].server.objects[0] == o;
    forall j | l <= j < s && LandsAt(run, j)
      ensures |Copies(at, run[s])| > 1
      ensures !steps[j].LandLate? ==> exists i :: 0 <= i < l && LandsAt(run, i) && steps[i].LandLate?
    {
      ObjectsStay(at, run, steps, l, j);
      ObjectsStay(at, run, steps, j + 1, s);
      var i := LandedBefore(at, run, steps, l);
      OneIsLate(at, run, steps, i, j);
    }
    NothingLanded(at, run, steps, l, s);
  }

  lemma {:induction false} NothingLanded(at: Setting, run: seq<System>, steps: seq<Action>, l: nat, s: nat)
    requires IsRun(at, run, steps) && l <= s < |run|
    ensures (forall j :: l <= j < s ==> !LandsAt(run, j)) ==> run[s].server.objects == run[l].server.objects
    decreases s
  {
    hide Step;
    if l < s && forall j :: l <= j < s ==> !LandsAt(run, j) {
      NothingLanded(at, run, steps, l, s - 1);
      ObjectsStay(at, run, steps, s - 1, s);
      assert !LandsAt(run, s - 1);
    }
  }

  /// ## The calls of the client are such runs

  lemma RunOnce(at: Setting, run: seq<System>, steps: seq<Action>, a: Action, y: System)
    requires IsRun(at, run, steps) && Step(at, run[|run| - 1], a, y)
    ensures IsRun(at, run + [y], steps + [a])
  {
    hide Step;
    var longer, more := run + [y], steps + [a];
    forall i | 0 <= i < |more|
      ensures Step(at, longer[i], more[i], longer[i + 1])
    {
      assert i < |steps| ==> Step(at, run[i], steps[i], run[i + 1]);
    }
  }

  /** A run that continues another one without a late landing. */
  ghost predicate Continues(at: Setting, run: seq<System>, steps: seq<Action>, longer: seq<System>, more: seq<Action>) {
    && IsRun(at, longer, more) && run <= longer && steps <= more
    && forall i :: |steps| <= i < |more| ==> !more[i].LandLate?
  }

  lemma ContinuesOnce(at: Setting, run: seq<System>, steps: seq<Action>, longer: seq<System>, more: seq<Action>,
                      a: Action, y: System)
    requires Continues(at, run, steps, longer, more) && Step(at, longer[|longer| - 1], a, y) && !a.LandLate?
    ensures Continues(at, run, steps, longer + [y], more + [a])
  {
    hide Step, IsRun;
    RunOnce(at, longer, more, a, y);
  }

  lemma GivenUpTwice(w: ServerState, declared: Declared)
    ensures GivenUp(GivenUp(w)) == GivenUp(w) && OpenedWith(GivenUp(w), declared) == OpenedWith(w, declared)
  {
    assert GivenUp(w).abandoned + [] == GivenUp(w).abandoned;
  }

  /** Requests to open a session give the last one up in any case. */
  lemma {:induction false} ReopenedGivesUp(w: ServerState, declared: Declared, tries: nat, v: ServerState)
    requires Reopened(w, declared, tries, v) && tries > 0
    ensures Reopened(GivenUp(w), declared, tries, v)
  {
    hide GivenUp, OpenedWith;
    var u :| Reopened(w, declared, tries - 1, u) && (v == GivenUp(u) || v == OpenedWith(u, declared));
    if tries == 1 {
      GivenUpTwice(w, declared);
      assert Reopened(GivenUp(w), declared, 0, GivenUp(w));
    } else {
      ReopenedGivesUp(w, declared, tries - 1, u);
    }
  }

  lemma {:induction false} ReopenRun(at: Setting, run: seq<System>, steps: seq<Action>, before: seq<System>, past: seq<Action>,
                                     tries: nat, u: ServerState)
    returns (longer: seq<System>, more: seq<Action>)
    requires Continues(at, before, past, run, steps)
    requires var x := run[|run| - 1]; x.phase.Opening? && Reopened(x.server, DeclaredOf(at, x.file), tries, u)
    ensures Continues(at, before, past, longer, more)
    ensures longer[|longer| - 1] == run[|run| - 1].(server := u)
    decreases tries
  {
    hide IsRun, GivenUp, OpenedWith, DeclaredOf;
    RunLength(at, run, steps);
    var x := run[|run| - 1];
    var d := DeclaredOf(at, x.file);
    if tries == 0 {
      longer, more := run, steps;
    } else {
      var w :| Reopened(x.server, d, tries - 1, w) && (u == GivenUp(w) || u == OpenedWith(w, d));
      longer, more := ReopenRun(at, run, steps, before, past, tries - 1, w);
      var a := OpenLost(u != GivenUp(w));
      ContinuesOnce(at, before, past, longer, more, a, x.(server := u));
      longer, more := longer + [x.(server := u)], more + [a];
    }
  }

  /** One served exchange of the client is a step. */
  lemma ExchangeIsStep(at: Setting, x: System, q: Request)
    requires x.phase.InSession? && q.before == x.server && Served(q) && IsNext(x.file, x.phase.client, q)
    ensures Step(at, x, Exchange(q.reply), System(q.after, InSession(After(|x.file|, x.phase.client, q.reply)), x.file))
  {
    hide After, AskStep, PutStep, Truthful;
  }

  lemma {:induction false} ExchangeRun(at: Setting, run: seq<System>, steps: seq<Action>, before: seq<System>, past: seq<Action>,
                                       log: seq<Request>, d: Client, v: ServerState)
    returns (longer: seq<System>, more: seq<Action>)
    requires Continues(at, before, past, run, steps)
    requires var x := run[|run| - 1];
             x.phase.InSession? && Leads(x.file, x.phase.client, log, d) && Chained(x.server, log, v)
    ensures Continues(at, before, past, longer, more)
    ensures longer[|longer| - 1] == System(v, InSession(d), run[|run| - 1].file)
    decreases |log|
  {
    hide IsRun, Step, After, IsNext, Served;
    RunLength(at, run, steps);
    var x := run[|run| - 1];
    if log == [] {
      longer, more := run, steps;
    } else {
      var y := System(log[0].after, InSession(After(|x.file|, x.phase.client, log[0].reply)), x.file);
      ExchangeIsStep(at, x, log[0]);
      ContinuesOnce(at, before, past, run, steps, Exchange(log[0].reply), y);
      longer, more := ExchangeRun(at, run + [y], steps + [Exchange(log[0].reply)], before, past, log[1..], d, v);
    }
  }

  function ExpectedOf(at: Setting, file: Bytes): Expected {
    Expected(at.backupId, |file|, at.sha(file), at.md5(file))
  }

  /** What one call does to the server, from where a run has got to, continues the run to where the call ends. */
  lemma CallIsRun(at: Setting, run: seq<System>, steps: seq<Action>, file: Bytes, log: seq<Request>, v: ServerState)
    returns (longer: seq<System>, more: seq<Action>)
    requires IsRun(at, run, steps) && run[|run| - 1].phase.Out?
    requires CallSteps(run[|run| - 1].server, ExpectedOf(at, file), at.folder, file, log, v)
    ensures Continues(at, run, steps, longer, more)
    ensures longer[|longer| - 1].phase.Out? && longer[|longer| - 1].server == v
  {
    hide IsRun, GivenUp, OpenedWith, Step, SessionSteps, Reopened;
    RunLength(at, run, steps);
    var x := run[|run| - 1];
    longer, more := run, steps;
    if log != [] || v != x.server {
      var e := ExpectedOf(at, file);
      var tries, u :| Reopened(x.server, DeclaredFor(e, at.folder), tries, u) && SessionSteps(u, e, at.folder, file, log, v);
      assert DeclaredFor(e, at.folder) == DeclaredOf(at, file);
      var y := System(GivenUp(x.server), Opening, file);
      assert Step(at, x, Call(file), y) by {
        CallStep(at, x, file);
      }
      ContinuesOnce(at, run, steps, run, steps, Call(file), y);
      longer, more := run + [y], steps + [Call(file)];
      if tries > 0 {
        ReopenedGivesUp(x.server, DeclaredOf(at, file), tries, u);
        longer, more := ReopenRun(at, longer, more, run, steps, tries, u);
      } else {
        NoTries(x.server, DeclaredOf(at, file), u);
        GivenUpTwice(x.server, DeclaredOf(at, file));
      }
      longer, more := SessionRun(at, longer, more, run, steps, u, log, v);
    }
  }

  lemma CallStep(at: Setting, x: System, file: Bytes)
    requires x.phase.Out? && Copies(at, x) == [] && file != []
    ensures Step(at, x, Call(file), System(GivenUp(x.server), Opening, file))
  {
  }

  lemma NoTries(w: ServerState, declared: Declared, u: ServerState)
    requires Reopened(w, declared, 0, u)
    ensures u == w
  {
  }

  /** The rest of a call: no session, or the one that is opened at last, its exchanges, and the return. */
  lemma SessionRun(at: Setting, run: seq<System>, steps: seq<Action>, before: seq<System>, past: seq<Action>,
                   u: ServerState, log: seq<Request>, v: ServerState)
    returns (longer: seq<System>, more: seq<Action>)
    requires Continues(at, before, past, run, steps)
    requires var x := run[|run| - 1];
             && x.phase.Opening? && SessionSteps(u, ExpectedOf(at, x.file), at.folder, x.file, log, v)
             && OpenedWith(x.server, DeclaredOf(at, x.file)) == OpenedWith(u, DeclaredOf(at, x.file))
             && (log == [] && v == u ==> x.server == u)
    ensures Continues(at, before, past, longer, more)
    ensures longer[|longer| - 1].phase.Out? && longer[|longer| - 1].server == v
  {
    hide IsRun, GivenUp, OpenedWith, Leads, Chained;
    RunLength(at, run, steps);
    var x := run[|run| - 1];
    longer, more := run, steps;
    if log != [] || v != u {
      var r :| Exchanged(x.file, OpenedWith(u, DeclaredOf(at, x.file)), log, r, v);
      var y := System(OpenedWith(x.server, DeclaredOf(at, x.file)), InSession(START), x.file);
      assert Step(at, x, Open, y);
      ContinuesOnce(at, before, past, run, steps, Open, y);
      longer, more := ExchangeRun(at, run + [y], steps + [Open], before, past, log, Client.Ended(r), v);
    }
    RunLength(at, longer, more);
    var z := longer[|longer| - 1];
    assert Step(at, z, Return, z.(phase := Out));
    ContinuesOnce(at, before, past, longer, more, Return, z.(phase := Out));
    longer, more := longer + [z.(phase := Out)], more + [Return];
  }

  /** The destination works in this folder with these hashes. */
  ghost predicate Uses(destination: Destination, at: Setting) {
    destination.folder == at.folder && destination.sha == at.sha && destination.drive.md5 == at.md5
  }

  /**
   Any number of calls for one backup id on an empty folder, with sessions that
   land after they were given up: what happens to the server is a run, so the
   folder has at most one copy exactly when none of these landings is beside
   another, and every copy is a whole file under its own labels.
   */
  method TracedUploads(destination: Destination, at: Setting, events: seq<Event>)
    returns (ghost run: seq<System>, ghost steps: seq<Action>)
    requires destination.drive.Valid() && Uses(destination, at) && destination.drive.State() == NOTHING.server
    modifies destination.drive
    ensures destination.drive.Valid()
    ensures IsRun(at, run, steps) && run[|run| - 1].server == destination.drive.State()
    ensures |destination.Copies(at.backupId)| <= 1 <==> !LateBesideAnother(run, steps)
    ensures Labelled(destination.drive.objects, at.folder, at.backupId, at.sha)
  {
    hide IsRun, Drive.Valid, Labelled, CallSteps, LateBesideAnother, LandedAtMostOnce, Step, GivenUp, LandedLate, CanLandLate;
    run, steps := [NOTHING], [];
    StartIsRun(at);
    for i := 0 to |events|
      invariant destination.drive.Valid()
      invariant IsRun(at, run, steps) && |run| == |steps| + 1
      invariant run[|run| - 1].phase.Out? && run[|run| - 1].server == destination.drive.State()
    {
      ghost var from := |destination.drive.log|;
      match events[i] {
        case Upload(file) =>
          var _ := destination.UploadLocked(at.backupId, file);
          run, steps := CallIsRun(at, run, steps, file, destination.drive.log[from..], destination.drive.State());
        case LandLate(k) =>
          ghost var w := destination.drive.State();
          destination.drive.LandLate(k);
          run, steps := LandingIsRun(at, run, steps, k, destination.drive.State());
      }
      RunLength(at, run, steps);
    }
    OneCopyIff(at, run, steps);
    EveryCopyIsFaithful(at, run, steps, |steps|);
  }

  lemma StartIsRun(at: Setting)
    ensures IsRun(at, [NOTHING], [])
  {
  }

  lemma RunLength(at: Setting, run: seq<System>, steps: seq<Action>)
    requires IsRun(at, run, steps)
    ensures |run| == |steps| + 1
  {
  }

  lemma LandingIsRun(at: Setting, run: seq<System>, steps: seq<Action>, k: nat, v: ServerState)
    returns (longer: seq<System>, more: seq<Action>)
    requires IsRun(at, run, steps) && run[|run| - 1].phase.Out?
    requires var w := GivenUp(run[|run| - 1].server);
             v == w || exists id :: CanLandLate(w, k, id) && v == LandedLate(w, k, id)
    ensures IsRun(at, longer, more) && longer[|longer| - 1].phase.Out? && longer[|longer| - 1].server == v
  {
    hide IsRun, GivenUp, LandedLate;
    RunLength(at, run, steps);
    var x := run[|run| - 1];
    var y := x.(server := GivenUp(x.server));
    assert Step(at, x, GiveUp, y);
    RunOnce(at, run, steps, GiveUp, y);
    longer, more := run + [y], steps + [GiveUp];
    if v != y.server {
      var id :| CanLandLate(y.server, k, id) && v == LandedLate(y.server, k, id);
      assert Step(at, y, Action.LandLate(k, id), y.(server := v));
      RunOnce(at, longer, more, Action.LandLate(k, id), y.(server := v));
      longer, more := longer + [y.(server := v)], more + [Action.LandLate(k, id)];
    }
  }

  /// ## A run that ends with two copies

  const BYTE: Byte := 7

  /** The session of the first call at each moment: nothing received, everything received. */
  function FirstSession(at: Setting, received: Bytes): Session {
    Session(DeclaredOf(at, [BYTE]), received, [], None)
  }

  function SecondSession(at: Setting): Session {
    Session(DeclaredOf(at, [BYTE]), [BYTE], [BYTE], Some("x"))
  }

  function Description(at: Setting): Metadata {
    Metadata("x", RemoteName(at.backupId), TAR, [at.folder], DeclaredOf(at, [BYTE]).props, false, 1, at.md5([BYTE]), false)
  }

  function FreshOpen(at: Setting, abandoned: seq<Session>): ServerState {
    ServerState([], Some(FirstSession(at, [])), abandoned)
  }

  function Took(at: Setting): ServerState {
    ServerState([], Some(FirstSession(at, [BYTE])), [])
  }

  function Holding(at: Setting): ServerState {
    ServerState([Landed(SecondSession(at), "x")], Some(SecondSession(at)), [FirstSession(at, [BYTE])])
  }

  function During(server: ServerState, client: Client): System {
    System(server, InSession(client), [BYTE])
  }

  function LostRun(at: Setting): seq<System> {
    [NOTHING,
     System(NOTHING.server, Opening, [BYTE]),
     During(FreshOpen(at, []), START),
     During(Took(at), Asking(AfterSend, 0, 0, 0, 0)),
     During(Took(at), Asking(AfterSend, 1, 0, 0, 0)),
     During(Took(at), Asking(AfterSend, 2, 0, 0, 0)),
     During(Took(at), Asking(AfterSend, 3, 0, 0, 0)),
     During(Took(at), Asking(AfterSend, 4, 0, 0, 0)),
     During(Took(at), Client.Ended(Failure(Http))),
     System(Took(at), Out, [BYTE]),
     System(ServerState([], None, [FirstSession(at, [BYTE])]), Opening, [BYTE]),
     During(FreshOpen(at, [FirstSession(at, [BYTE])]), START),
     During(Holding(at), Client.Ended(Success(Description(at))))]
  }

  function LostSteps(at: Setting): seq<Action> {
    [Call([BYTE]), Open, Exchange(Timeout), Exchange(Timeout), Exchange(Timeout), Exchange(Timeout), Exchange(Timeout),
     Exchange(Timeout), Return, Call([BYTE]), Open, Exchange(Answer(Response(200, false, None, Some(Description(at)))))]
  }

  lemma NoObjects(at: Setting, x: System)
    requires x.server.objects == []
    ensures Copies(at, x) == []
  {
  }

  lemma WholeChunk()
    ensures [BYTE][0..ChunkEnd(0, |[BYTE]|)] == [BYTE]
  {
    assert ChunkEnd(0, 1) == 1;
  }

  lemma FirstArrives(at: Setting)
    ensures PutStep(FreshOpen(at, []), 0, [BYTE], Took(at)) && AskStep(Took(at), Took(at))
  {
    hide DeclaredOf;
    SizeOf(at, [BYTE]);
    assert [BYTE][0..1] == [BYTE] && [] + [BYTE] == [BYTE];
  }

  lemma SecondLands(at: Setting)
    ensures PutStep(FreshOpen(at, [FirstSession(at, [BYTE])]), 0, [BYTE], Holding(at))
  {
    hide DeclaredOf;
    SizeOf(at, [BYTE]);
    assert [BYTE][0..1] == [BYTE] && [] + [BYTE] == [BYTE];
  }

  lemma LostClient(at: Setting)
    ensures After(1, START, Timeout) == Asking(AfterSend, 0, 0, 0, 0)
    ensures forall n: nat :: n < 4 ==> After(1, Asking(AfterSend, n, 0, 0, 0), Timeout) == Asking(AfterSend, n + 1, 0, 0, 0)
    ensures After(1, Asking(AfterSend, 4, 0, 0, 0), Timeout) == Client.Ended(Failure(Http))
    ensures After(1, START, Answer(Response(200, false, None, Some(Description(at))))) == Client.Ended(Success(Description(at)))
  {
  }

  lemma SecondIsTruthful(at: Setting)
    ensures Truthful(Holding(at), Response(200, false, None, Some(Description(at))))
  {
  }

  lemma SessionsOpened(at: Setting)
    ensures OpenedWith(NOTHING.server, DeclaredOf(at, [BYTE])) == FreshOpen(at, [])
    ensures GivenUp(NOTHING.server) == NOTHING.server && Took(at).objects == []
    ensures GivenUp(Took(at)) == ServerState([], None, [FirstSession(at, [BYTE])])
    ensures OpenedWith(ServerState([], None, [FirstSession(at, [BYTE])]), DeclaredOf(at, [BYTE]))
         == FreshOpen(at, [FirstSession(at, [BYTE])])
  {
    hide DeclaredOf;
  }

  /** The first call: every reply is lost. */
  lemma FirstCall(at: Setting)
    ensures forall i :: 0 <= i < 9 ==> Step(at, LostRun(at)[i], LostSteps(at)[i], LostRun(at)[i + 1])
  {
    hide AskStep, PutStep, After, Copies, Truthful, FirstSession, Description, DeclaredOf, FreshOpen, Took, Holding,
         GivenUp, OpenedWith;
    WholeChunk();
    LostClient(at);
    FirstArrives(at);
    SessionsOpened(at);
    NoObjects(at, NOTHING);
  }

  /** The second call: it finds nothing and uploads. */
  lemma SecondCall(at: Setting)
    ensures forall i :: 9 <= i < 12 ==> Step(at, LostRun(at)[i], LostSteps(at)[i], LostRun(at)[i + 1])
  {
    hide AskStep, PutStep, After, Copies, Truthful, FirstSession, Description, DeclaredOf, FreshOpen, Took, Holding,
         GivenUp, OpenedWith;
    WholeChunk();
    LostClient(at);
    SecondLands(at);
    SessionsOpened(at);
    SecondIsTruthful(at);
    NoObjects(at, LostRun(at)[9]);
  }

  lemma LostIsRun(at: Setting)
    ensures IsRun(at, LostRun(at), LostSteps(at))
  {
    hide Step, FirstSession, Description, DeclaredOf, FreshOpen, Took, Holding;
    FirstCall(at);
    SecondCall(at);
  }

  /** The state in which the first session has landed after all. */
  function Doubled(at: Setting): System {
    LostRun(at)[12].(server := LandedLate(Holding(at), 0, "y"))
  }

  /**
   Two copies are reachable. The first call's only chunk arrives, and its reply
   and all five status queries are lost; the second call finds no copy and
   uploads; and while that call, which has its success, has not returned yet, the
   session the first call gave up lands.
   */
  lemma LateLandingReachable(at: Setting)
    ensures var run, steps := LostRun(at) + [Doubled(at)], LostSteps(at) + [Action.LandLate(0, "y")];
            && IsRun(at, run, steps) && run[8].phase.client == Client.Ended(Failure(Http)) && Copies(at, run[8]) == []
            && run[13].phase.client == Client.Ended(Success(Description(at)))
            && |Copies(at, run[12])| == 1 && |Copies(at, run[13])| == 2
  {
    hide IsRun, DeclaredOf, Description, Copies, Step;
    LostIsRun(at);
    assert Copies(at, LostRun(at)[8]) == [] by {
      NoObjects(at, LostRun(at)[8]);
    }
    SizeOf(at, [BYTE]);
    var x := LostRun(at)[12];
    assert "x" != "y";
    assert CanLandLate(x.server, 0, "y");
    assert Step(at, x, Action.LandLate(0, "y"), Doubled(at)) by {
      LandLateStep(at, x, 0, "y");
    }
    RunOnce(at, LostRun(at), LostSteps(at), Action.LandLate(0, "y"), Doubled(at));
    var run, steps := LostRun(at) + [Doubled(at)], LostSteps(at) + [Action.LandLate(0, "y")];
    RunKeeps(at, run, steps, 12);
    RunKeeps(at, run, steps, 13);
    AllAreCopies(at, run[12]);
    AllAreCopies(at, run[13]);
  }

  lemma LandLateStep(at: Setting, x: System, k: nat, id: string)
    requires CanLandLate(x.server, k, id)
    ensures Step(at, x, Action.LandLate(k, id), x.(server := LandedLate(x.server, k, id)))
  {
  }
}
