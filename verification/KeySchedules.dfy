/** Schedules of agreement requests that share a client id. */
module KeySchedules {
  import opened Bytes
  import opened Messages
  import opened KeyRegistry
  import opened KeyTraffic

  // ----- Parts of schedules -----

  /** A reached state in which all handlers are about the file `p`. */
  ghost predicate OnFile(x: Setting, s: Registry, p: Path) {
    && Reached(x, s) && |s.handlers| <= THREADS
    && forall k :: 0 <= k < |s.handlers| ==> PathOf(s.handlers[k]) == p
  }

  /** Only handler `i` has moved. */
  predicate OnlyMoved(s: Registry, s': Registry, i: nat) {
    && |s'.handlers| == |s.handlers|
    && forall k :: 0 <= k < |s.handlers| ==>
         if k == i then s'.handlers[k].request == s.handlers[k].request else s'.handlers[k] == s.handlers[k]
  }

  function PhaseAt(s: Registry, i: nat): Phase
    requires i < |s.handlers|
  {
    s.handlers[i].phase
  }

  lemma Move(x: Setting, s: Registry, p: Path, i: nat) returns (s': Registry)
    requires OnFile(x, s, p) && i < |s.handlers|
    ensures OnFile(x, s', p) && s' == Handle(x.c, x.serverId, s, i) && OnlyMoved(s, s', i)
  {
    GoOn(x, s, Access(i));
    s' := Handle(x.c, x.serverId, s, i);
  }

  /** A handler opens its stream. */
  lemma Enter(x: Setting, s: Registry, p: Path, i: nat) returns (s': Registry)
    requires OnFile(x, s, p) && i < |s.handlers| && PhaseAt(s, i).Absent?
    ensures OnFile(x, s', p) && OnlyMoved(s, s', i) && PhaseAt(s', i) == Opened(Inode(s'.dir, p)) && Holds(s', p, [])
    ensures p in s.dir.files ==> Inode(s'.dir, p) == Inode(s.dir, p) && s'.dir.created == s.dir.created
    ensures p !in s.dir.files ==> Inode(s'.dir, p) == s.dir.created && s'.dir.created == s.dir.created + 1
  {
    s' := Move(x, s, p, i);
  }

  /** A handler whose file still has its name writes its key. */
  lemma Lay(x: Setting, s: Registry, p: Path, i: nat) returns (s': Registry)
    requires OnFile(x, s, p) && i < |s.handlers| && PhaseAt(s, i) == Opened(Inode(s.dir, p)) && p in s.dir.files
    ensures OnFile(x, s', p) && OnlyMoved(s, s', i) && PhaseAt(s', i).Written?
    ensures Holds(s', p, Overlay(s.dir.files[p], s.handlers[i].request.data)) && Inode(s'.dir, p) == Inode(s.dir, p)
    ensures s'.dir.created == s.dir.created
  {
    s' := Move(x, s, p, i);
  }

  /** A handler verifies and finishes, uninterrupted. */
  lemma Judge(x: Setting, s: Registry, p: Path, i: nat) returns (s': Registry)
    requires OnFile(x, s, p) && i < |s.handlers| && PhaseAt(s, i).Written?
    ensures OnFile(x, s', p) && OnlyMoved(s, s', i)
    ensures
      var accepted := Passes(x.c, s.handlers[i].request, Stored(s.dir.files, p));
      PhaseAt(s', i) == Done(accepted) && s'.dir == if accepted then s.dir else Remove(s.dir, p)
  {
    s' := Move(x, s, p, i);
    s' := Move(x, s', p, i);
    if PhaseAt(s', i).Refusing? {
      s' := Move(x, s', p, i);
    }
  }

  /** A handler that has found no file opens, writes and is judged by its own key, uninterrupted. */
  lemma Uninterrupted(x: Setting, s: Registry, p: Path, i: nat) returns (s': Registry)
    requires OnFile(x, s, p) && i < |s.handlers| && PhaseAt(s, i).Absent?
    ensures OnFile(x, s', p) && OnlyMoved(s, s', i)
    ensures
      var r := s.handlers[i].request;
      if Passes(x.c, r, r.data) then PhaseAt(s', i) == Done(true) && Holds(s', p, r.data)
      else PhaseAt(s', i) == Done(false) && p !in s'.dir.files
    ensures s'.dir.created >= s.dir.created
  {
    s' := Enter(x, s, p, i);
    s' := Lay(x, s', p, i);
    s' := Judge(x, s', p, i);
  }

  function StepsLeft(phase: Phase): nat {
    match phase
    case Arrived => 7
    case Absent => 6
    case Opened(_) => 5
    case Written => 4
    case Refuting => 3
    case Accepting => 2
    case Refusing => 2
    case Done(_) => 0
  }

  predicate NoNewContent(s: Registry, s': Registry, p: Path) {
    p in s'.dir.files ==> Holds(s, p, s'.dir.files[p])
  }

  /** Whatever a handler is about, it can finish. */
  lemma Finish(x: Setting, s: Registry, p: Path, i: nat) returns (s': Registry)
    requires OnFile(x, s, p) && i < |s.handlers|
    ensures OnFile(x, s', p) && OnlyMoved(s, s', i) && PhaseAt(s', i).Done?
    ensures PhaseAt(s, i).Done? ==> s' == s
    ensures Past(PhaseAt(s, i)) ==> NoNewContent(s, s', p)
    decreases StepsLeft(PhaseAt(s, i))
  {
    if PhaseAt(s, i).Done? {
      s' := s;
    } else {
      s' := Move(x, s, p, i);
      s' := Finish(x, s', p, i);
    }
  }

  predicate Cast(s: Registry, qs: seq<RequestInfo>) {
    |s.handlers| == |qs| && forall k :: 0 <= k < |qs| ==> s.handlers[k].request == qs[k]
  }

  /** All of `qs` arrive and look for the key file before any creates it. */
  lemma {:induction false} Gather(x: Setting, clientId: seq<byte>, qs: seq<RequestInfo>) returns (s: Registry)
    requires KeyPath(clientId) !in x.init && |qs| <= THREADS
    requires forall q :: q in qs ==> q in x.rs && q.clientId == clientId
    ensures OnFile(x, s, KeyPath(clientId)) && s.dir == Holding(x.init) && Cast(s, qs)
    ensures forall k :: 0 <= k < |qs| ==> s.handlers[k].phase.Absent?
  {
    var p := KeyPath(clientId);
    if qs == [] {
      s := Registry(Holding(x.init), [], []);
      assert Running(s) == {};
      assert Traffic(x, [s]) && Last([s]) == s;
    } else {
      var n := |qs| - 1;
      assert qs[n] in qs;
      var t := Gather(x, clientId, qs[..n]);
      GoOn(x, t, Arrive(qs[n], []));
      s := Step(x.c, x.serverId, t, Arrive(qs[n], []));
      s := Move(x, s, p, n);
    }
  }

  // ----- Schedules that do damage -----

  /** The first request verifies: it is accepted, then the second overwrites its key, and removes the file if it does
      not verify itself. */
  lemma AcceptedThenOverwritten(x: Setting, r: RequestInfo, other: RequestInfo) returns (s: Registry)
    requires r in x.rs && other in x.rs && other.clientId == r.clientId && KeyPath(r.clientId) !in x.init
    requires Passes(x.c, r, r.data)
    ensures Reached(x, s) && Cast(s, [r, other]) && PhaseAt(s, 0) == Done(true)
    ensures
      var p := KeyPath(r.clientId);
      if Passes(x.c, other, other.data) then PhaseAt(s, 1) == Done(true) && Holds(s, p, other.data)
      else PhaseAt(s, 1) == Done(false) && p !in s.dir.files
  {
    var p := KeyPath(r.clientId);
    s := Gather(x, r.clientId, [r, other]);
    s := Uninterrupted(x, s, p, 0);
    s := Uninterrupted(x, s, p, 1);
  }

  /** The first request has written its key when the second empties the file. */
  lemma EmptiedAgain(x: Setting, r: RequestInfo, other: RequestInfo) returns (s: Registry)
    requires r in x.rs && other in x.rs && other.clientId == r.clientId && KeyPath(r.clientId) !in x.init
    ensures OnFile(x, s, KeyPath(r.clientId)) && Cast(s, [r, other]) && Holds(s, KeyPath(r.clientId), [])
    ensures PhaseAt(s, 0).Written? && PhaseAt(s, 1) == Opened(Inode(s.dir, KeyPath(r.clientId)))
  {
    var p := KeyPath(r.clientId);
    s := Gather(x, r.clientId, [r, other]);
    s := Enter(x, s, p, 0);
    s := Lay(x, s, p, 0);
    s := Enter(x, s, p, 1);
  }

  /** A handler verifies with an empty file, in vain. */
  lemma Condemn(x: Setting, s: Registry, p: Path, i: nat) returns (s': Registry)
    requires OnFile(x, s, p) && i < |s.handlers| && PhaseAt(s, i).Written?
    requires Holds(s, p, []) && !Passes(x.c, s.handlers[i].request, [])
    ensures OnFile(x, s', p) && OnlyMoved(s, s', i) && PhaseAt(s', i).Refuting? && s'.dir == s.dir
  {
    s' := Move(x, s, p, i);
  }

  /** It removes the file, whosever that is by now. */
  lemma Withdraw(x: Setting, s: Registry, p: Path, i: nat) returns (s': Registry)
    requires OnFile(x, s, p) && i < |s.handlers| && PhaseAt(s, i).Refuting?
    ensures OnFile(x, s', p) && OnlyMoved(s, s', i) && PhaseAt(s', i) == Done(false) && p !in s'.dir.files
  {
    s' := Move(x, s, p, i);
    s' := Move(x, s', p, i);
  }

  /** A plain retry loses the key, too: the first request is judged by the file the second has just emptied, and
      removes the second's key when that has been accepted. */
  lemma RetryLosesKey(x: Setting, r: RequestInfo, other: RequestInfo) returns (s: Registry)
    requires r in x.rs && other in x.rs && other.clientId == r.clientId && KeyPath(r.clientId) !in x.init
    requires !Passes(x.c, r, []) && Passes(x.c, other, other.data)
    ensures Reached(x, s) && Cast(s, [r, other]) && PhaseAt(s, 0) == Done(false) && PhaseAt(s, 1) == Done(true)
    ensures KeyPath(r.clientId) !in s.dir.files
  {
    var p := KeyPath(r.clientId);
    s := EmptiedAgain(x, r, other);
    s := Condemn(x, s, p, 0);
    s := Lay(x, s, p, 1);
    s := Judge(x, s, p, 1);
    s := Withdraw(x, s, p, 0);
  }

  lemma {:induction false} Owners(x: Setting, clientId: seq<byte>, ds: seq<seq<byte>>) returns (qs: seq<RequestInfo>)
    requires AllSentFor(x, clientId, ds)
    ensures |qs| == |ds| && forall q :: q in qs ==> q in x.rs && q.clientId == clientId
    ensures forall j :: 0 <= j < |ds| ==> qs[j].data == ds[j]
  {
    if ds == [] {
      qs := [];
    } else {
      var n := |ds| - 1;
      var front := Owners(x, clientId, ds[..n]);
      assert SentFor(x, clientId, ds[n]);
      var q :| q in x.rs && q.clientId == clientId && q.data == ds[n];
      qs := front + [q];
    }
  }

  /** The first `n` handlers have streams open that write to the file of that name. */
  predicate Streaming(s: Registry, p: Path, n: nat)
    requires n <= |s.handlers|
  {
    forall k :: 0 <= k < n ==> s.handlers[k].phase == Opened(Inode(s.dir, p))
  }

  predicate Waiting(s: Registry, a: nat) {
    forall k :: a <= k < |s.handlers| ==> s.handlers[k].phase.Absent?
  }

  /** The first `n` handlers open their streams, all on one file. */
  lemma {:induction false} EnterAll(x: Setting, s: Registry, p: Path, n: nat) returns (s': Registry)
    requires OnFile(x, s, p) && Waiting(s, 0) && n <= |s.handlers|
    ensures OnFile(x, s', p) && |s'.handlers| == |s.handlers| && Streaming(s', p, n) && Waiting(s', n)
    ensures n > 0 ==> Holds(s', p, [])
    ensures forall k :: 0 <= k < |s.handlers| ==> s'.handlers[k].request == s.handlers[k].request
  {
    if n == 0 {
      s' := s;
    } else {
      s' := EnterAll(x, s, p, n - 1);
      s' := Enter(x, s', p, n - 1);
    }
  }

  /** The first `n` handlers write their keys into an emptied file, one after the other. */
  lemma {:induction false} LayAll(x: Setting, s: Registry, p: Path, n: nat, ds: seq<seq<byte>>) returns (s': Registry)
    requires OnFile(x, s, p) && n == |ds| <= |s.handlers| && Streaming(s, p, n) && Holds(s, p, [])
    requires forall k :: 0 <= k < n ==> s.handlers[k].request.data == ds[k]
    ensures OnFile(x, s', p) && |s'.handlers| == |s.handlers| && Holds(s', p, Laid(ds))
    ensures Inode(s'.dir, p) == Inode(s.dir, p)
    ensures forall k :: 0 <= k < n ==> s'.handlers[k].phase.Written?
    ensures forall k :: n <= k < |s.handlers| ==> s'.handlers[k] == s.handlers[k]
    ensures forall k :: 0 <= k < |s.handlers| ==> s'.handlers[k].request == s.handlers[k].request
  {
    if n == 0 {
      s' := s;
    } else {
      s' := LayAll(x, s, p, n - 1, ds[..n - 1]);
      s' := Lay(x, s', p, n - 1);
    }
  }

  /** Nobody is going to write any more. */
  predicate Calm(s: Registry) {
    forall k :: 0 <= k < |s.handlers| ==> Past(s.handlers[k].phase)
  }

  /** A request that passes with an empty file is accepted while another copy of it has just emptied the file. */
  lemma AcceptedUnderEmptyFile(x: Setting, r: RequestInfo) returns (s: Registry)
    requires r in x.rs && KeyPath(r.clientId) !in x.init && Passes(x.c, r, [])
    ensures OnFile(x, s, KeyPath(r.clientId)) && Cast(s, [r, r]) && Holds(s, KeyPath(r.clientId), [])
    ensures PhaseAt(s, 0) == Done(true) && PhaseAt(s, 1) == Opened(Inode(s.dir, KeyPath(r.clientId)))
  {
    s := EmptiedAgain(x, r, r);
    s := Judge(x, s, KeyPath(r.clientId), 0);
  }

  /** The handler of `r` has written when the last of the others empties the file; all others have their streams
      open. */
  lemma OthersEnter(x: Setting, r: RequestInfo, ds: seq<seq<byte>>) returns (s: Registry)
    requires r in x.rs && KeyPath(r.clientId) !in x.init && AllSentFor(x, r.clientId, ds) && 0 < |ds| < THREADS
    ensures OnFile(x, s, KeyPath(r.clientId)) && Holds(s, KeyPath(r.clientId), []) && |s.handlers| == |ds| + 1
    ensures forall k :: 0 <= k < |ds| ==> s.handlers[k].request.data == ds[k]
    ensures Streaming(s, KeyPath(r.clientId), |ds|) && s.handlers[|ds|].request == r && PhaseAt(s, |ds|).Written?
  {
    var p, m := KeyPath(r.clientId), |ds|;
    var qs := Owners(x, r.clientId, ds);
    s := Gather(x, r.clientId, qs + [r]);
    s := EnterAll(x, s, p, m - 1);
    s := Enter(x, s, p, m);
    s := Lay(x, s, p, m);
    s := Enter(x, s, p, m - 1);
  }

  /** The handler of `r` has written; the others have then written `ds` into the emptied file. */
  lemma OthersLay(x: Setting, r: RequestInfo, ds: seq<seq<byte>>) returns (s: Registry)
    requires r in x.rs && KeyPath(r.clientId) !in x.init && AllSentFor(x, r.clientId, ds) && 0 < |ds| < THREADS
    ensures OnFile(x, s, KeyPath(r.clientId)) && Holds(s, KeyPath(r.clientId), Laid(ds)) && |s.handlers| == |ds| + 1
    ensures s.handlers[|ds|].request == r && forall k :: 0 <= k <= |ds| ==> s.handlers[k].phase.Written?
  {
    s := OthersEnter(x, r, ds);
    s := LayAll(x, s, KeyPath(r.clientId), |ds|, ds);
  }

  /** The handler of `r` is one of those that write `ds`. */
  lemma AllLay(x: Setting, r: RequestInfo, ds: seq<seq<byte>>, j: nat) returns (s: Registry)
    requires r in x.rs && KeyPath(r.clientId) !in x.init && AllSentFor(x, r.clientId, ds) && |ds| <= THREADS
    requires j < |ds| && ds[j] == r.data
    ensures OnFile(x, s, KeyPath(r.clientId)) && Holds(s, KeyPath(r.clientId), Laid(ds)) && |s.handlers| == |ds|
    ensures s.handlers[j].request == r && forall k :: 0 <= k < |ds| ==> s.handlers[k].phase.Written?
  {
    var p, m := KeyPath(r.clientId), |ds|;
    var qs := Owners(x, r.clientId, ds);
    s := Gather(x, r.clientId, qs[j := r]);
    s := EnterAll(x, s, p, m);
    s := LayAll(x, s, p, m, ds);
  }

  /** A request that passes with keys laid over one another is accepted, as handler `k`, with a file that holds just
      that: all streams are opened before the keys are written. */
  lemma AcceptedUnderLaidKeys(x: Setting, r: RequestInfo, ds: seq<seq<byte>>) returns (s: Registry, k: nat)
    requires CanPass(x, r, ds) && ds != []
    ensures OnFile(x, s, KeyPath(r.clientId)) && Holds(s, KeyPath(r.clientId), Laid(ds)) && Calm(s)
    ensures k < |s.handlers| && s.handlers[k].request == r && PhaseAt(s, k) == Done(true)
  {
    if |ds| < THREADS {
      s := OthersLay(x, r, ds);
      k := |ds|;
    } else {
      k :| 0 <= k < |ds| && ds[k] == r.data;
      s := AllLay(x, r, ds, k);
    }
    s := Judge(x, s, KeyPath(r.clientId), k);
  }

  // ----- What streams leave behind -----

  /** Two streams are open at once: the shorter key, written last, leaves the tail of the longer one. */
  lemma TwoKeysMix(x: Setting, r0: RequestInfo, r1: RequestInfo) returns (s: Registry)
    requires r0 in x.rs && r1 in x.rs && r1.clientId == r0.clientId && KeyPath(r0.clientId) !in x.init
    requires |r1.data| < |r0.data|
    ensures Reached(x, s) && Cast(s, [r0, r1]) && PhaseAt(s, 0).Written? && PhaseAt(s, 1).Written?
    ensures Holds(s, KeyPath(r0.clientId), r1.data + r0.data[|r1.data|..])
  {
    var p := KeyPath(r0.clientId);
    s := Gather(x, r0.clientId, [r0, r1]);
    s := EnterAll(x, s, p, 2);
    s := Lay(x, s, p, 0);
    s := Lay(x, s, p, 1);
    OverlayParts(r0.data, r1.data);
  }

  /** A handler whose file has lost its name writes, and the file of that name stays. */
  lemma MissName(x: Setting, s: Registry, p: Path, i: nat, inode: nat) returns (s': Registry)
    requires OnFile(x, s, p) && i < |s.handlers| && PhaseAt(s, i) == Opened(inode) && inode != Inode(s.dir, p)
    ensures OnFile(x, s', p) && OnlyMoved(s, s', i) && PhaseAt(s', i).Written? && s'.dir == s.dir
  {
    s' := Move(x, s, p, i);
  }

  /** A refused request removes the file another one has open: what that one writes later is lost, and a file made
      under the name since is not touched by it. */
  lemma OrphanWritesNothing(x: Setting, r0: RequestInfo, r1: RequestInfo, r2: RequestInfo) returns (s: Registry)
    requires r0 in x.rs && r1 in x.rs && r2 in x.rs && r1.clientId == r0.clientId && r2.clientId == r0.clientId
    requires KeyPath(r0.clientId) !in x.init && !Passes(x.c, r1, r1.data)
    ensures Reached(x, s) && Cast(s, [r0, r1, r2]) && PhaseAt(s, 1) == Done(false)
    ensures PhaseAt(s, 0).Written? && PhaseAt(s, 2).Written? && Holds(s, KeyPath(r0.clientId), r2.data)
  {
    var p := KeyPath(r0.clientId);
    s := Gather(x, r0.clientId, [r0, r1, r2]);
    s := Enter(x, s, p, 0);
    var inode := Inode(s.dir, p);
    s := Uninterrupted(x, s, p, 1);
    s := Enter(x, s, p, 2);
    s := Lay(x, s, p, 2);
    s := MissName(x, s, p, 0, inode);
  }
}
