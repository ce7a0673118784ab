/** The keyed lock: a dictionary of asyncio locks, each with a count of its users, that
    is emptied of a key when its last user leaves. Code between two awaits is one step,
    and the steps of any number of uses interleave; a use may be cancelled while it
    waits. */
module KeyedLock {
  import opened Common

  type Key = string
  type LockId = nat

  /** One `async with OperationLock(...)`: a task and its nesting depth. */
  datatype Use = Use(task: nat, depth: nat)

  /** A waiter's future in asyncio.Lock. A cancelled future has not yet been taken out
      of the queue by its task; Interrupted is one that was woken and then cancelled. */
  datatype Future = Pending | Woken | Cancelled | Interrupted

  datatype Waiter = Waiter(use: Use, future: Future)

  datatype Lock = Lock(key: Key, locked: bool, waiters: seq<Waiter>, refCount: int)

  datatype Position = Waiting(lock: LockId) | Inside(lock: LockId)

  /** `index` is the shared dictionary; `locks` are all lock objects ever made, also
      those no longer in the dictionary; `leaked` counts the cancelled waiters whose
      reference was never given back. */
  datatype State = State(index: map<Key, LockId>, locks: map<LockId, Lock>, uses: map<Use, Position>,
                         next: LockId, leaked: map<LockId, nat>)

  const EMPTY := State(map[], map[], map[], 0, map[])

  datatype Step =
    | Enter(use: Use, key: Key, wait: bool)
    | Resume(use: Use)
    | Exit(use: Use)
    | Cancel(use: Use)          // task.cancel() on a waiting use
    | Unwind(use: Use)          // the cancelled task runs

  // ----- asyncio.Lock -----

  predicate AllCancelled(waiters: seq<Waiter>) {
    forall i :: 0 <= i < |waiters| ==> waiters[i].future == Cancelled
  }

  /** _wake_up_first: only the head of the queue, and only if nothing happened to its
      future yet. */
  function WakeFirst(l: Lock): Lock {
    if l.waiters != [] && l.waiters[0].future == Pending
    then l.(waiters := [l.waiters[0].(future := Woken)] + l.waiters[1..])
    else l
  }

  function Remove(waiters: seq<Waiter>, use: Use): seq<Waiter> {
    if waiters == [] then []
    else if waiters[0].use == use then waiters[1..]
    else [waiters[0]] + Remove(waiters[1..], use)
  }

  function SetFuture(waiters: seq<Waiter>, use: Use, future: Future): seq<Waiter> {
    if waiters == [] then []
    else if waiters[0].use == use then [waiters[0].(future := future)] + waiters[1..]
    else [waiters[0]] + SetFuture(waiters[1..], use, future)
  }

  ghost predicate HasFuture(waiters: seq<Waiter>, use: Use, future: Future) {
    Waiter(use, future) in waiters
  }

  // ----- the steps -----

  /** The lock object that the key leads to, made on first use. */
  function Lookup(s: State, key: Key): (r: (State, LockId)) {
    if key in s.index then (s, s.index[key])
    else (s.(index := s.index[key := s.next], locks := s.locks[s.next := Lock(key, false, [], 0)],
             next := s.next + 1, leaked := s.leaked[s.next := 0]), s.next)
  }

  /** LockShouldWaitError. */
  predicate Refused(s: State, key: Key, wait: bool) {
    !wait && key in s.index && s.index[key] in s.locks && s.locks[s.index[key]].locked
  }

  /** __aenter__ up to its await: taken at once, or queued. */
  function EnterLock(s: State, use: Use, key: Key): State
    requires key in s.index ==> s.index[key] in s.locks
  {
    var (found, id) := Lookup(s, key);
    var l := found.locks[id].(refCount := found.locks[id].refCount + 1);
    if !l.locked && AllCancelled(l.waiters) then
      found.(locks := found.locks[id := l.(locked := true)], uses := found.uses[use := Inside(id)])
    else
      found.(locks := found.locks[id := l.(waiters := l.waiters + [Waiter(use, Pending)])],
             uses := found.uses[use := Waiting(id)])
  }

  /** The rest of acquire, when the future has been set. */
  function ResumeLock(s: State, use: Use): State
    requires use in s.uses && s.uses[use].lock in s.locks
  {
    var id := s.uses[use].lock;
    var l := s.locks[id];
    s.(locks := s.locks[id := l.(locked := true, waiters := Remove(l.waiters, use))],
       uses := s.uses[use := Inside(id)])
  }

  /** __aexit__; with no user left the key goes. */
  function ExitLock(s: State, use: Use): State
    requires use in s.uses && s.uses[use].lock in s.locks
  {
    var id := s.uses[use].lock;
    var l := WakeFirst(s.locks[id].(locked := false));
    var released := l.(refCount := l.refCount - 1);
    s.(locks := s.locks[id := released], uses := s.uses - {use},
       index := if released.refCount == 0 then s.index - {released.key} else s.index)
  }

  function CancelWait(s: State, use: Use, woken: bool): State
    requires use in s.uses && s.uses[use].lock in s.locks
  {
    var id := s.uses[use].lock;
    var l := s.locks[id];
    s.(locks := s.locks[id := l.(waiters := SetFuture(l.waiters, use, if woken then Interrupted else Cancelled))])
  }

  /** The cancelled task leaves the queue and hands a free lock on; __aenter__ raises,
      so __aexit__ never runs and the reference stays counted. */
  function UnwindWait(s: State, use: Use): State
    requires use in s.uses && s.uses[use].lock in s.locks && s.uses[use].lock in s.leaked
  {
    var id := s.uses[use].lock;
    var l := s.locks[id].(waiters := Remove(s.locks[id].waiters, use));
    s.(locks := s.locks[id := if l.locked then l else WakeFirst(l)], uses := s.uses - {use},
       leaked := s.leaked[id := s.leaked[id] + 1])
  }

  ghost predicate Queued(s: State, use: Use, future: Future) {
    && use in s.uses && s.uses[use].Waiting? && s.uses[use].lock in s.locks
    && HasFuture(s.locks[s.uses[use].lock].waiters, use, future)
  }

  ghost predicate Enabled(s: State, step: Step) {
    match step
    case Enter(use, key, wait) => use !in s.uses && (key in s.index ==> s.index[key] in s.locks)
    case Resume(use) => Queued(s, use, Woken)
    case Exit(use) => use in s.uses && s.uses[use].Inside? && s.uses[use].lock in s.locks
    case Cancel(use) => Queued(s, use, Pending) || Queued(s, use, Woken)
    case Unwind(use) => (Queued(s, use, Cancelled) || Queued(s, use, Interrupted)) && s.uses[use].lock in s.leaked
  }

  ghost function Next(s: State, step: Step): State
    requires Enabled(s, step)
  {
    match step
    case Enter(use, key, wait) => if Refused(s, key, wait) then s else EnterLock(s, use, key)
    case Resume(use) => ResumeLock(s, use)
    case Exit(use) => ExitLock(s, use)
    case Cancel(use) => CancelWait(s, use, Queued(s, use, Woken))
    case Unwind(use) => UnwindWait(s, use)
  }

  // ----- one lock -----

  ghost function QueueUses(waiters: seq<Waiter>): set<Use> {
    set w | w in waiters :: w.use
  }

  ghost predicate NoneTwice(waiters: seq<Waiter>) {
    forall i, j :: 0 <= i < j < |waiters| ==> waiters[i].use != waiters[j].use
  }

  /** Only the head of the queue can have been woken. */
  ghost predicate OnlyHeadWoken(waiters: seq<Waiter>) {
    forall i :: 0 < i < |waiters| ==> waiters[i].future == Pending || waiters[i].future == Cancelled
  }

  predicate HeadIs(waiters: seq<Waiter>, futures: set<Future>) {
    waiters != [] && waiters[0].future in futures
  }

  /** A lock against the uses that wait for it, those inside, and its leaked references:
      it is locked exactly while one use is inside, no free lock forgets its queue, and
      the count is what it should be. */
  ghost predicate LockOk(l: Lock, waiting: set<Use>, inside: set<Use>, leaked: nat) {
    && NoneTwice(l.waiters) && OnlyHeadWoken(l.waiters)
    && QueueUses(l.waiters) == waiting
    && |inside| == (if l.locked then 1 else 0)
    && (l.locked ==> !HeadIs(l.waiters, {Woken, Interrupted}))
    && (!l.locked ==> !HeadIs(l.waiters, {Pending}))
    && l.refCount == |waiting| + |inside| + leaked
  }

  lemma PrependQueue(head: Waiter, r: seq<Waiter>)
    requires NoneTwice(r) && head.use !in QueueUses(r)
    requires forall w :: w in r ==> w.future == Pending || w.future == Cancelled
    ensures NoneTwice([head] + r) && OnlyHeadWoken([head] + r)
    ensures QueueUses([head] + r) == QueueUses(r) + {head.use}
  {
    forall i | 0 < i < |[head] + r| ensures ([head] + r)[i] in r && ([head] + r)[i].use in QueueUses(r) {
      assert ([head] + r)[i] == r[i - 1];
    }
  }

  lemma {:induction false} RemoveFromQueue(waiters: seq<Waiter>, use: Use)
    requires NoneTwice(waiters) && OnlyHeadWoken(waiters) && use in QueueUses(waiters)
    ensures var r := Remove(waiters, use);
            && NoneTwice(r) && OnlyHeadWoken(r)
            && QueueUses(r) == QueueUses(waiters) - {use}
            && (forall w :: w in r ==> w in waiters)
            && (waiters[0].use == use ==> r == waiters[1..])
            && (waiters[0].use != use ==> r != [] && r[0] == waiters[0])
  {
    var head, tail := waiters[0], waiters[1..];
    assert waiters == [head] + tail;
    assert QueueUses(waiters) == QueueUses(tail) + {head.use};
    assert head.use !in QueueUses(tail);
    if head.use == use {
    } else {
      RemoveFromQueue(tail, use);
      PrependQueue(head, Remove(tail, use));
    }
  }

  lemma SameUses(a: seq<Waiter>, b: seq<Waiter>)
    requires |a| == |b| && forall i :: 0 <= i < |a| ==> a[i].use == b[i].use
    ensures QueueUses(a) == QueueUses(b)
  {
    forall i | 0 <= i < |a| ensures a[i].use in QueueUses(b) && b[i].use in QueueUses(a) {
      assert a[i] in a && b[i] in b;
    }
  }

  lemma {:induction false} SetInQueue(waiters: seq<Waiter>, use: Use, future: Future)
    requires NoneTwice(waiters) && use in QueueUses(waiters)
    ensures var r := SetFuture(waiters, use, future);
            && |r| == |waiters|
            && (forall i :: 0 <= i < |r| ==> r[i] == if waiters[i].use == use then Waiter(use, future) else waiters[i])
            && QueueUses(r) == QueueUses(waiters)
  {
    var tail := waiters[1..];
    assert waiters == [waiters[0]] + tail;
    if waiters[0].use == use {
    } else {
      assert QueueUses(waiters) == QueueUses(tail) + {waiters[0].use};
      SetInQueue(tail, use, future);
    }
    var r := SetFuture(waiters, use, future);
    SameUses(waiters, r);
  }

  lemma WakeKeepsQueue(l: Lock)
    requires NoneTwice(l.waiters) && OnlyHeadWoken(l.waiters)
    ensures var r := WakeFirst(l).waiters;
            NoneTwice(r) && OnlyHeadWoken(r) && QueueUses(r) == QueueUses(l.waiters) && !HeadIs(r, {Pending})
  {
    SameUses(l.waiters, WakeFirst(l).waiters);
  }

  lemma FreshOk(key: Key, use: Use)
    ensures LockOk(Lock(key, true, [], 1), {}, {use}, 0)
  {
    assert QueueUses([]) == {};
  }

  lemma EnterFree(l: Lock, waiting: set<Use>, inside: set<Use>, leaked: nat, use: Use)
    requires LockOk(l, waiting, inside, leaked) && !l.locked && AllCancelled(l.waiters)
    ensures LockOk(l.(refCount := l.refCount + 1, locked := true), waiting, inside + {use}, leaked)
    ensures inside == {}
  {
  }

  lemma AppendQueue(waiters: seq<Waiter>, use: Use)
    requires NoneTwice(waiters) && OnlyHeadWoken(waiters) && use !in QueueUses(waiters)
    ensures var r := waiters + [Waiter(use, Pending)];
            NoneTwice(r) && OnlyHeadWoken(r) && QueueUses(r) == QueueUses(waiters) + {use}
  {
    var r := waiters + [Waiter(use, Pending)];
    forall i | 0 <= i < |waiters| ensures r[i].use != use {
      assert waiters[i] in waiters;
    }
    assert forall w :: w in r <==> w in waiters || w == Waiter(use, Pending);
  }

  lemma EnterQueue(l: Lock, waiting: set<Use>, inside: set<Use>, leaked: nat, use: Use)
    requires LockOk(l, waiting, inside, leaked) && use !in waiting && (l.locked || !AllCancelled(l.waiters))
    ensures LockOk(l.(refCount := l.refCount + 1, waiters := l.waiters + [Waiter(use, Pending)]),
                   waiting + {use}, inside, leaked)
  {
    AppendQueue(l.waiters, use);
    assert !l.locked ==> l.waiters != [];
  }

  /** A woken use is the head of the queue of a free lock. */
  lemma WokenIsHead(l: Lock, waiting: set<Use>, inside: set<Use>, leaked: nat, use: Use, future: Future)
    requires LockOk(l, waiting, inside, leaked) && HasFuture(l.waiters, use, future)
    requires future == Woken || future == Interrupted
    ensures !l.locked && l.waiters[0] == Waiter(use, future) && use in waiting
  {
    assert Waiter(use, future).use in QueueUses(l.waiters);
  }

  lemma ResumeOk(l: Lock, waiting: set<Use>, inside: set<Use>, leaked: nat, use: Use)
    requires LockOk(l, waiting, inside, leaked) && HasFuture(l.waiters, use, Woken) && use !in inside
    ensures LockOk(l.(locked := true, waiters := Remove(l.waiters, use)), waiting - {use}, inside + {use}, leaked)
    ensures inside == {}
  {
    WokenIsHead(l, waiting, inside, leaked, use, Woken);
    RemoveFromQueue(l.waiters, use);
  }

  lemma ExitOk(l: Lock, waiting: set<Use>, inside: set<Use>, leaked: nat, use: Use)
    requires LockOk(l, waiting, inside, leaked) && use in inside
    ensures inside == {use} && l.locked && l.refCount >= 1
    ensures var w := WakeFirst(l.(locked := false));
            LockOk(w.(refCount := w.refCount - 1), waiting, inside - {use}, leaked)
  {
    assert |inside - {use}| == |inside| - 1;
    WakeKeepsQueue(l.(locked := false));
  }

  lemma CancelOk(l: Lock, waiting: set<Use>, inside: set<Use>, leaked: nat, use: Use, woken: bool)
    requires LockOk(l, waiting, inside, leaked) && HasFuture(l.waiters, use, if woken then Woken else Pending)
    ensures var future := if woken then Interrupted else Cancelled;
            LockOk(l.(waiters := SetFuture(l.waiters, use, future)), waiting, inside, leaked)
  {
    assert Waiter(use, if woken then Woken else Pending).use in QueueUses(l.waiters);
    SetInQueue(l.waiters, use, if woken then Interrupted else Cancelled);
    if woken {
      WokenIsHead(l, waiting, inside, leaked, use, Woken);
    } else {
      var i :| 0 <= i < |l.waiters| && l.waiters[i] == Waiter(use, Pending);
    }
  }

  lemma UnwindOk(l: Lock, waiting: set<Use>, inside: set<Use>, leaked: nat, use: Use)
    requires LockOk(l, waiting, inside, leaked)
    requires HasFuture(l.waiters, use, Cancelled) || HasFuture(l.waiters, use, Interrupted)
    ensures use in waiting
    ensures var r := l.(waiters := Remove(l.waiters, use));
            && LockOk(if l.locked then r else WakeFirst(r), waiting - {use}, inside, leaked + 1)
            && WakeFirst(r).key == l.key && WakeFirst(r).refCount == l.refCount
  {
    assert Waiter(use, Cancelled).use == use && Waiter(use, Interrupted).use == use;
    RemoveFromQueue(l.waiters, use);
    WakeKeepsQueue(l.(waiters := Remove(l.waiters, use)));
    assert |waiting - {use}| == |waiting| - 1;
  }

  // ----- the dictionary -----

  ghost function At(uses: map<Use, Position>, p: Position): set<Use> {
    set u | u in uses && uses[u] == p
  }

  lemma AtMove(uses: map<Use, Position>, use: Use, p: Position, q: Position)
    ensures At(uses[use := p], q) == if q == p then At(uses, q) + {use} else At(uses, q) - {use}
    ensures use !in uses && q != p ==> At(uses[use := p], q) == At(uses, q)
  {
  }

  lemma AtLeave(uses: map<Use, Position>, use: Use, q: Position)
    ensures At(uses - {use}, q) == At(uses, q) - {use}
    ensures use in uses && uses[use] != q ==> At(uses - {use}, q) == At(uses, q)
  {
  }

  lemma AtHolds(uses: map<Use, Position>, use: Use, q: Position)
    ensures use in At(uses, q) <==> use in uses && uses[use] == q
  {
  }

  ghost predicate LockOkIn(s: State, id: LockId)
    requires id in s.locks
  {
    && id in s.leaked
    && LockOk(s.locks[id], At(s.uses, Waiting(id)), At(s.uses, Inside(id)), s.leaked[id])
    // the key leads to this lock exactly while the lock is counted
    && (s.locks[id].refCount > 0 <==> s.locks[id].key in s.index && s.index[s.locks[id].key] == id)
  }

  ghost predicate Inv(s: State) {
    && (forall k :: k in s.index ==> s.index[k] in s.locks && s.locks[s.index[k]].key == k)
    && (forall u :: u in s.uses ==> s.uses[u].lock in s.locks)
    && (forall id :: id in s.locks ==> id < s.next && LockOkIn(s, id))
  }

  lemma OtherUses(uses: map<Use, Position>, uses': map<Use, Position>, use: Use, id: LockId, q: LockId)
    requires q != id && (use in uses ==> uses[use].lock == id)
    requires uses' == uses || uses' == uses - {use}
          || (use in uses' && uses' == uses[use := uses'[use]] && uses'[use].lock == id)
    ensures At(uses', Waiting(q)) == At(uses, Waiting(q)) && At(uses', Inside(q)) == At(uses, Inside(q))
  {
  }

  /** A step that touches one lock object and one use keeps the others. */
  lemma OneLock(s: State, s': State, id: LockId, use: Use)
    requires Inv(s) && id in s.locks
    requires s'.next == s.next && s'.locks.Keys == s.locks.Keys && s'.locks[id].key == s.locks[id].key
    requires forall q :: q in s.locks && q != id ==> s'.locks[q] == s.locks[q]
    requires forall q :: q in s.locks && q != id ==> q in s'.leaked && s'.leaked[q] == s.leaked[q]
    requires use in s.uses ==> s.uses[use].lock == id
    requires s'.uses == s.uses || s'.uses == s.uses - {use}
          || (use in s'.uses && s'.uses == s.uses[use := s'.uses[use]] && s'.uses[use].lock == id)
    requires s'.index == s.index
          || (s.locks[id].key in s.index && s.index[s.locks[id].key] == id && s'.index == s.index - {s.locks[id].key})
    requires LockOkIn(s', id)
    ensures Inv(s')
  {
    hide LockOk, At;
    forall q | q in s'.locks ensures LockOkIn(s', q) {
      if q != id {
        assert LockOkIn(s, q);
        OtherUses(s.uses, s'.uses, use, id, q);
      }
    }
  }

  lemma NewUses(s: State, use: Use)
    requires Inv(s) && use !in s.uses
    ensures At(s.uses, Waiting(s.next)) == {} && At(s.uses, Inside(s.next)) == {}
  {
  }

  lemma EnterNewKeeps(s: State, use: Use, key: Key)
    requires Inv(s) && use !in s.uses && key !in s.index
    ensures Inv(EnterLock(s, use, key))
    ensures EnterLock(s, use, key).uses[use] == Inside(s.next)
  {
    hide LockOk, At;
    var s' := EnterLock(s, use, key);
    NewUses(s, use);
    AtMove(s.uses, use, Inside(s.next), Waiting(s.next));
    AtMove(s.uses, use, Inside(s.next), Inside(s.next));
    FreshOk(key, use);
    assert s'.locks[s.next] == Lock(key, true, [], 1);
    forall q | q in s'.locks ensures LockOkIn(s', q) {
      if q != s.next {
        assert LockOkIn(s, q);
        OtherUses(s.uses, s'.uses, use, s.next, q);
      }
    }
  }

  lemma IndexKnown(s: State, key: Key)
    requires Inv(s) && key in s.index
    ensures s.index[key] in s.locks
  {
  }

  lemma EnterFreeKeeps(s: State, use: Use, key: Key)
    requires Inv(s) && use !in s.uses && key in s.index
    requires !s.locks[s.index[key]].locked && AllCancelled(s.locks[s.index[key]].waiters)
    ensures Inv(EnterLock(s, use, key))
  {
    hide LockOk, At, AllCancelled;
    var id := s.index[key];
    assert LockOkIn(s, id);
    EnterFree(s.locks[id], At(s.uses, Waiting(id)), At(s.uses, Inside(id)), s.leaked[id], use);
    AtMove(s.uses, use, Inside(id), Waiting(id));
    AtMove(s.uses, use, Inside(id), Inside(id));
    AtHolds(s.uses, use, Waiting(id));
    OneLock(s, EnterLock(s, use, key), id, use);
  }

  lemma EnterQueueKeeps(s: State, use: Use, key: Key)
    requires Inv(s) && use !in s.uses && key in s.index
    requires s.locks[s.index[key]].locked || !AllCancelled(s.locks[s.index[key]].waiters)
    ensures Inv(EnterLock(s, use, key))
  {
    hide LockOk, At, AllCancelled;
    var id := s.index[key];
    assert LockOkIn(s, id);
    AtHolds(s.uses, use, Waiting(id));
    AtHolds(s.uses, use, Inside(id));
    EnterQueue(s.locks[id], At(s.uses, Waiting(id)), At(s.uses, Inside(id)), s.leaked[id], use);
    AtMove(s.uses, use, Waiting(id), Waiting(id));
    AtMove(s.uses, use, Waiting(id), Inside(id));
    OneLock(s, EnterLock(s, use, key), id, use);
  }

  lemma EnterOldKeeps(s: State, use: Use, key: Key)
    requires Inv(s) && use !in s.uses && key in s.index
    ensures Inv(EnterLock(s, use, key))
  {
    hide Inv, EnterLock, AllCancelled;
    IndexKnown(s, key);
    if !s.locks[s.index[key]].locked && AllCancelled(s.locks[s.index[key]].waiters) {
      EnterFreeKeeps(s, use, key);
    } else {
      EnterQueueKeeps(s, use, key);
    }
  }

  lemma ResumeKeeps(s: State, use: Use)
    requires Inv(s) && Queued(s, use, Woken)
    ensures Inv(ResumeLock(s, use))
  {
    hide LockOk, At;
    var id := s.uses[use].lock;
    var s' := ResumeLock(s, use);
    assert LockOkIn(s, id);
    AtMove(s.uses, use, Inside(id), Waiting(id));
    AtMove(s.uses, use, Inside(id), Inside(id));
    AtHolds(s.uses, use, Inside(id));
    ResumeOk(s.locks[id], At(s.uses, Waiting(id)), At(s.uses, Inside(id)), s.leaked[id], use);
    OneLock(s, s', id, use);
  }

  lemma ExitKeeps(s: State, use: Use)
    requires Inv(s) && Enabled(s, Exit(use))
    ensures Inv(ExitLock(s, use))
    // del lock_index[key] finds the key, and it is this lock's
    ensures var l := s.locks[s.uses[use].lock]; l.key in s.index && s.index[l.key] == s.uses[use].lock
  {
    hide LockOk, At;
    var id := s.uses[use].lock;
    var s' := ExitLock(s, use);
    assert LockOkIn(s, id);
    AtHolds(s.uses, use, Inside(id));
    AtHolds(s.uses, use, Waiting(id));
    AtLeave(s.uses, use, Waiting(id));
    AtLeave(s.uses, use, Inside(id));
    ExitOk(s.locks[id], At(s.uses, Waiting(id)), At(s.uses, Inside(id)), s.leaked[id], use);
    OneLock(s, s', id, use);
  }

  lemma CancelKeeps(s: State, use: Use)
    requires Inv(s) && Enabled(s, Cancel(use))
    ensures Inv(Next(s, Cancel(use)))
  {
    hide LockOk, At;
    var id := s.uses[use].lock;
    assert LockOkIn(s, id);
    CancelOk(s.locks[id], At(s.uses, Waiting(id)), At(s.uses, Inside(id)), s.leaked[id], use, Queued(s, use, Woken));
    OneLock(s, Next(s, Cancel(use)), id, use);
  }

  lemma UnwindKeeps(s: State, use: Use)
    requires Inv(s) && Enabled(s, Unwind(use))
    ensures Inv(UnwindWait(s, use))
  {
    hide LockOk, At, Remove, WakeFirst;
    var id := s.uses[use].lock;
    assert LockOkIn(s, id);
    AtLeave(s.uses, use, Waiting(id));
    AtLeave(s.uses, use, Inside(id));
    UnwindOk(s.locks[id], At(s.uses, Waiting(id)), At(s.uses, Inside(id)), s.leaked[id], use);
    OneLock(s, UnwindWait(s, use), id, use);
  }

  /** Every step of every use keeps the invariant, cancelled uses included. */
  lemma StepKeeps(s: State, step: Step)
    requires Inv(s) && Enabled(s, step)
    ensures Inv(Next(s, step))
  {
    match step
    case Enter(use, key, wait) =>
      if key in s.index {
        EnterOldKeeps(s, use, key);
      } else {
        EnterNewKeeps(s, use, key);
      }
    case Resume(use) => ResumeKeeps(s, use);
    case Exit(use) => ExitKeeps(s, use);
    case Cancel(use) => CancelKeeps(s, use);
    case Unwind(use) => UnwindKeeps(s, use);
  }

  // ----- runs -----

  ghost predicate Run(states: seq<State>, steps: seq<Step>) {
    && |states| == |steps| + 1
    && states[0] == EMPTY
    && (forall k :: 0 <= k < |steps| ==> Enabled(states[k], steps[k]) && states[k + 1] == Next(states[k], steps[k]))
  }

  lemma {:induction false} RunInv(states: seq<State>, steps: seq<Step>, k: nat)
    requires Run(states, steps) && k < |states|
    ensures Inv(states[k])
  {
    if k == 0 {
    } else {
      RunInv(states, steps, k - 1);
      StepKeeps(states[k - 1], steps[k - 1]);
    }
  }

  ghost predicate InsideKey(s: State, use: Use, key: Key) {
    use in s.uses && s.uses[use].Inside? && s.uses[use].lock in s.locks && s.locks[s.uses[use].lock].key == key
  }

  lemma UsedIsIndexed(s: State, use: Use)
    requires Inv(s) && use in s.uses
    ensures s.uses[use].lock in s.locks
    ensures var key := s.locks[s.uses[use].lock].key; key in s.index && s.index[key] == s.uses[use].lock
  {
    var id := s.uses[use].lock;
    assert LockOkIn(s, id);
    assert use in At(s.uses, Waiting(id)) + At(s.uses, Inside(id));
  }

  lemma OneInside(s: State, key: Key, u: Use, v: Use)
    requires Inv(s) && InsideKey(s, u, key) && InsideKey(s, v, key)
    ensures u == v
  {
    UsedIsIndexed(s, u);
    UsedIsIndexed(s, v);
    var id := s.uses[u].lock;
    assert LockOkIn(s, id);
    SubsetSize({u, v}, At(s.uses, Inside(id)));
  }

  /** At most one use is inside per key, whatever was deleted, made again or
      cancelled before. */
  lemma MutualExclusion(states: seq<State>, steps: seq<Step>, k: nat, key: Key, u: Use, v: Use)
    requires Run(states, steps) && k < |states|
    requires InsideKey(states[k], u, key) && InsideKey(states[k], v, key)
    ensures u == v
  {
    RunInv(states, steps, k);
    OneInside(states[k], key, u, v);
  }

  /** A lock object that is held or waited for is the one its key leads to. */
  lemma UsedLockIsIndexed(states: seq<State>, steps: seq<Step>, k: nat, use: Use)
    requires Run(states, steps) && k < |states| && use in states[k].uses
    ensures var s := states[k];
            && s.uses[use].lock in s.locks
            && var key := s.locks[s.uses[use].lock].key; key in s.index && s.index[key] == s.uses[use].lock
  {
    RunInv(states, steps, k);
    UsedIsIndexed(states[k], use);
  }

  ghost function Users(s: State, id: LockId): set<Use> {
    set u | u in s.uses && s.uses[u].lock == id
  }

  lemma UsersSplit(s: State, id: LockId)
    ensures |Users(s, id)| == |At(s.uses, Waiting(id))| + |At(s.uses, Inside(id))|
  {
    assert Users(s, id) == At(s.uses, Waiting(id)) + At(s.uses, Inside(id));
    assert At(s.uses, Waiting(id)) !! At(s.uses, Inside(id));
  }

  lemma CountOk(s: State, id: LockId)
    requires Inv(s) && id in s.locks
    ensures id in s.leaked && s.locks[id].refCount == |Users(s, id)| + s.leaked[id]
    ensures s.locks[id].key in s.index && s.index[s.locks[id].key] == id <==> s.locks[id].refCount > 0
  {
    assert LockOkIn(s, id);
    UsersSplit(s, id);
  }

  /** The count of a lock is its holders, its waiters and the references that cancelled
      waiters never gave back; its key is in the dictionary exactly when that is
      positive. */
  lemma CountIsExact(states: seq<State>, steps: seq<Step>, k: nat, id: LockId)
    requires Run(states, steps) && k < |states| && id in states[k].locks
    ensures var s := states[k];
            && id in s.leaked
            && s.locks[id].refCount == |Users(s, id)| + s.leaked[id]
            && (s.locks[id].key in s.index && s.index[s.locks[id].key] == id <==> s.locks[id].refCount > 0)
  {
    RunInv(states, steps, k);
    CountOk(states[k], id);
  }

  /** Without cancelled waiters nothing leaks, so a key stays only while it is used. */
  lemma {:induction false} NothingLeaks(states: seq<State>, steps: seq<Step>, k: nat)
    requires Run(states, steps) && k < |states|
    requires forall i :: 0 <= i < k ==> !steps[i].Unwind?
    ensures forall id :: id in states[k].leaked ==> states[k].leaked[id] == 0
  {
    if k == 0 {
    } else {
      NothingLeaks(states, steps, k - 1);
      assert Enabled(states[k - 1], steps[k - 1]);
    }
  }

  lemma KnownBelow(s: State, id: LockId)
    requires Inv(s) && id in s.locks
    ensures id < s.next
  {
  }

  lemma LeakStep(s: State, step: Step, id: LockId)
    requires Enabled(s, step) && id in s.locks && id in s.leaked && id != s.next
    ensures var s' := Next(s, step); id in s'.locks && id in s'.leaked && s'.leaked[id] >= s.leaked[id]
  {
  }

  /** One cancelled waiter is enough for its lock to stay in the dictionary for the rest
      of the run. */
  lemma {:induction false} LeakIsForEver(states: seq<State>, steps: seq<Step>, j: nat, k: nat, id: LockId)
    requires Run(states, steps) && j <= k < |states|
    requires id in states[j].locks && id in states[j].leaked && states[j].leaked[id] > 0
    ensures id in states[k].locks && id in states[k].leaked && states[k].leaked[id] >= states[j].leaked[id]
    ensures states[k].locks[id].key in states[k].index && states[k].index[states[k].locks[id].key] == id
  {
    hide Next, Enabled, Inv;
    if j == k {
    } else {
      LeakIsForEver(states, steps, j, k - 1, id);
      RunInv(states, steps, k - 1);
      KnownBelow(states[k - 1], id);
      LeakStep(states[k - 1], steps[k - 1], id);
    }
    CountIsExact(states, steps, k, id);
  }

  /** How many waiters of the lock have been cancelled and have unwound. */
  ghost function Unwound(states: seq<State>, steps: seq<Step>, k: nat, id: LockId): nat
    requires k <= |steps| && |states| == |steps| + 1
  {
    if k == 0 then 0
    else
      var s, step := states[k - 1], steps[k - 1];
      Unwound(states, steps, k - 1, id)
      + (if step.Unwind? && step.use in s.uses && s.uses[step.use].lock == id then 1 else 0)
  }

  lemma LeakedStep(s: State, step: Step, id: LockId)
    requires Enabled(s, step) && forall q :: q in s.leaked ==> q < s.next
    ensures var s' := Next(s, step);
            && (forall q :: q in s'.leaked ==> q < s'.next)
            && (var more := if step.Unwind? && step.use in s.uses && s.uses[step.use].lock == id then 1 else 0;
                if id in s.leaked then id in s'.leaked && s'.leaked[id] == s.leaked[id] + more
                else more == 0 && (id in s'.leaked ==> s'.leaked[id] == 0))
  {
  }

  /** What a lock has leaked is the number of its waiters that were cancelled. */
  lemma {:induction false} LeakIsUnwound(states: seq<State>, steps: seq<Step>, k: nat, id: LockId)
    requires Run(states, steps) && k < |states|
    ensures if id in states[k].leaked then states[k].leaked[id] == Unwound(states, steps, k, id)
            else Unwound(states, steps, k, id) == 0
    ensures forall q :: q in states[k].leaked ==> q < states[k].next
  {
    hide Next, Enabled;
    if k == 0 {
    } else {
      LeakIsUnwound(states, steps, k - 1, id);
      assert Enabled(states[k - 1], steps[k - 1]) && states[k] == Next(states[k - 1], steps[k - 1]);
      LeakedStep(states[k - 1], steps[k - 1], id);
    }
  }

  lemma LeakEnters(key: Key, u: Use, v: Use, s1: State, s2: State)
    requires u != v
    requires s1 == State(map[key := 0], map[0 := Lock(key, true, [], 1)], map[u := Inside(0)], 1, map[0 := 0])
    requires s2 == s1.(locks := map[0 := Lock(key, true, [Waiter(v, Pending)], 2)],
                       uses := map[u := Inside(0), v := Waiting(0)])
    ensures Enabled(EMPTY, Enter(u, key, true)) && Next(EMPTY, Enter(u, key, true)) == s1
    ensures Enabled(s1, Enter(v, key, true)) && Next(s1, Enter(v, key, true)) == s2
  {
    assert EnterLock(EMPTY, u, key) == s1;
    assert [] + [Waiter(v, Pending)] == [Waiter(v, Pending)];
    assert s1.locks[0 := Lock(key, true, [Waiter(v, Pending)], 2)] == s2.locks;
    assert s1.uses[v := Waiting(0)] == s2.uses;
    assert EnterLock(s1, v, key) == s2;
  }

  lemma LeakUnwinds(key: Key, u: Use, v: Use, s2: State, s3: State, s4: State, s5: State)
    requires u != v
    requires s2 == State(map[key := 0], map[0 := Lock(key, true, [Waiter(v, Pending)], 2)],
                         map[u := Inside(0), v := Waiting(0)], 1, map[0 := 0])
    requires s3 == s2.(locks := map[0 := Lock(key, true, [Waiter(v, Cancelled)], 2)])
    requires s4 == s2.(locks := map[0 := Lock(key, true, [], 2)], uses := map[u := Inside(0)], leaked := map[0 := 1])
    requires s5 == s4.(locks := map[0 := Lock(key, false, [], 1)], uses := map[])
    ensures Enabled(s2, Cancel(v)) && Next(s2, Cancel(v)) == s3
    ensures Enabled(s3, Unwind(v)) && Next(s3, Unwind(v)) == s4
    ensures Enabled(s4, Exit(u)) && Next(s4, Exit(u)) == s5
  {
    assert [Waiter(v, Pending)][0] == Waiter(v, Pending) && [Waiter(v, Cancelled)][0] == Waiter(v, Cancelled);
    assert SetFuture([Waiter(v, Pending)], v, Cancelled) == [Waiter(v, Cancelled)];
    assert CancelWait(s2, v, false) == s3;
    assert Remove([Waiter(v, Cancelled)], v) == [];
    assert UnwindWait(s3, v) == s4;
    assert ExitLock(s4, u) == s5;
  }

  /** A run that leaks: one use is inside, another waits and is cancelled, and when the
      first has left nobody uses the key, but its lock is still there. */
  lemma LeakHappens(key: Key, u: Use, v: Use) returns (states: seq<State>, steps: seq<Step>)
    requires u != v
    ensures Run(states, steps) && |steps| == 5
    ensures states[5].uses == map[] && states[5].leaked == map[0 := 1]
    ensures states[5].index == map[key := 0] && states[5].locks == map[0 := Lock(key, false, [], 1)]
  {
    var index := map[key := 0];
    var s1 := State(index, map[0 := Lock(key, true, [], 1)], map[u := Inside(0)], 1, map[0 := 0]);
    var both := map[u := Inside(0), v := Waiting(0)];
    var s2 := State(index, map[0 := Lock(key, true, [Waiter(v, Pending)], 2)], both, 1, map[0 := 0]);
    var s3 := State(index, map[0 := Lock(key, true, [Waiter(v, Cancelled)], 2)], both, 1, map[0 := 0]);
    var s4 := State(index, map[0 := Lock(key, true, [], 2)], map[u := Inside(0)], 1, map[0 := 1]);
    var s5 := State(index, map[0 := Lock(key, false, [], 1)], map[], 1, map[0 := 1]);
    states := [EMPTY, s1, s2, s3, s4, s5];
    steps := [Enter(u, key, true), Enter(v, key, true), Cancel(v), Unwind(v), Exit(u)];
    LeakEnters(key, u, v, s1, s2);
    LeakUnwinds(key, u, v, s2, s3, s4, s5);
  }

  /** No wake-up is lost: when a use waits for a free lock, the head of the queue has
      been woken, or is a cancelled task that hands the lock on when it unwinds. */
  lemma FreeLockWakes(states: seq<State>, steps: seq<Step>, k: nat, use: Use)
    requires Run(states, steps) && k < |states|
    requires use in states[k].uses && states[k].uses[use].Waiting?
    ensures var s := states[k];
            && s.uses[use].lock in s.locks
            && var l := s.locks[s.uses[use].lock];
               l.waiters != [] && (!l.locked ==> l.waiters[0].future != Pending)
  {
    RunInv(states, steps, k);
    var s := states[k];
    var id := s.uses[use].lock;
    assert LockOkIn(s, id);
    assert use in At(s.uses, Waiting(id));
  }

  /** Keys that are only ever entered with wait=False never suspend a caller. */
  ghost predicate NeverWaits(steps: seq<Step>, key: Key) {
    forall i :: 0 <= i < |steps| && steps[i].Enter? && steps[i].key == key ==> !steps[i].wait
  }

  ghost predicate NoneWaits(s: State, key: Key) {
    forall u :: u in s.uses && s.uses[u].lock in s.locks && s.uses[u].Waiting? ==> s.locks[s.uses[u].lock].key != key
  }

  lemma OtherMove(s: State, s': State, key: Key)
    requires NoneWaits(s, key)
    requires forall id :: id in s.locks ==> id in s'.locks && s'.locks[id].key == s.locks[id].key
    requires forall u :: u in s'.uses && s'.uses[u].Waiting? ==>
               u in s.uses && s.uses[u] == s'.uses[u] && s.uses[u].lock in s.locks
    ensures NoneWaits(s', key)
  {
  }

  lemma OtherEnter(s: State, use: Use, other: Key, key: Key)
    requires Inv(s) && NoneWaits(s, key) && other != key
    ensures NoneWaits(EnterLock(s, use, other), key)
  {
    hide LockOkIn;
  }

  lemma NoUsesNoQueue(waiters: seq<Waiter>)
    requires QueueUses(waiters) == {}
    ensures waiters == []
  {
    assert waiters != [] ==> waiters[0].use in QueueUses(waiters);
  }

  lemma QueueEmpty(s: State, key: Key)
    requires Inv(s) && NoneWaits(s, key) && key in s.index
    ensures s.locks[s.index[key]].waiters == []
  {
    var id := s.index[key];
    assert LockOkIn(s, id);
    assert At(s.uses, Waiting(id)) == {};
    NoUsesNoQueue(s.locks[id].waiters);
  }

  lemma TryEnter(s: State, use: Use, key: Key)
    requires Inv(s) && NoneWaits(s, key) && use !in s.uses
    ensures Refused(s, key, false) || NoneWaits(EnterLock(s, use, key), key)
  {
    hide LockOkIn;
    if key in s.index {
      QueueEmpty(s, key);
    }
  }

  lemma TryStep(states: seq<State>, steps: seq<Step>, k: nat, key: Key)
    requires Run(states, steps) && k < |steps| && NeverWaits(steps, key) && NoneWaits(states[k], key)
    ensures NoneWaits(states[k + 1], key)
  {
    hide Inv;
    var s, step := states[k], steps[k];
    RunInv(states, steps, k);
    assert Enabled(s, step);
    match step
    case Enter(use, other, wait) =>
      if other == key {
        TryEnter(s, use, key);
      } else if !Refused(s, other, wait) {
        OtherEnter(s, use, other, key);
      }
    case Resume(use) => OtherMove(s, ResumeLock(s, use), key);
    case Exit(use) => OtherMove(s, ExitLock(s, use), key);
    case Cancel(use) => OtherMove(s, Next(s, step), key);
    case Unwind(use) => OtherMove(s, UnwindWait(s, use), key);
  }

  lemma {:induction false} TryKeyNeverSuspends(states: seq<State>, steps: seq<Step>, k: nat, key: Key)
    requires Run(states, steps) && k < |states| && NeverWaits(steps, key)
    ensures NoneWaits(states[k], key)
  {
    if k == 0 {
    } else {
      TryKeyNeverSuspends(states, steps, k - 1, key);
      TryStep(states, steps, k - 1, key);
    }
  }

  // ----- who gets in -----

  ghost predicate Held(s: State, key: Key) {
    exists u :: InsideKey(s, u, key)
  }

  ghost predicate WaitsFor(s: State, use: Use, key: Key) {
    use in s.uses && s.uses[use].Waiting? && s.uses[use].lock in s.locks && s.locks[s.uses[use].lock].key == key
  }

  /** A use waits for the key and has not been cancelled. */
  ghost predicate Wanted(s: State, key: Key) {
    exists u :: WaitsFor(s, u, key) && !Queued(s, u, Cancelled)
  }

  lemma LockedIsHeld(s: State, key: Key)
    requires Inv(s)
    ensures Held(s, key) <==> key in s.index && s.locks[s.index[key]].locked
  {
    if Held(s, key) {
      var u :| InsideKey(s, u, key);
      UsedIsIndexed(s, u);
      assert LockOkIn(s, s.index[key]);
      assert u in At(s.uses, Inside(s.index[key]));
    }
    if key in s.index && s.locks[s.index[key]].locked {
      var id := s.index[key];
      assert LockOkIn(s, id);
      assert At(s.uses, Inside(id)) != {};
      var u :| u in At(s.uses, Inside(id));
      assert InsideKey(s, u, key);
    }
  }

  lemma OneFuture(waiters: seq<Waiter>, i: nat, future: Future)
    requires NoneTwice(waiters) && i < |waiters| && waiters[i].future != future
    ensures !HasFuture(waiters, waiters[i].use, future)
  {
  }

  lemma QueueIsWanted(s: State, key: Key)
    requires Inv(s)
    ensures Wanted(s, key) <==> key in s.index && !AllCancelled(s.locks[s.index[key]].waiters)
  {
    if Wanted(s, key) {
      var u :| WaitsFor(s, u, key) && !Queued(s, u, Cancelled);
      UsedIsIndexed(s, u);
      var id := s.index[key];
      assert LockOkIn(s, id);
      assert u in At(s.uses, Waiting(id));
      var w :| w in s.locks[id].waiters && w.use == u;
      assert w == Waiter(u, w.future);
    }
    if key in s.index && !AllCancelled(s.locks[s.index[key]].waiters) {
      var id := s.index[key];
      var waiters := s.locks[id].waiters;
      assert LockOkIn(s, id);
      var i :| 0 <= i < |waiters| && waiters[i].future != Cancelled;
      var u := waiters[i].use;
      assert waiters[i] in waiters && u in QueueUses(waiters);
      OneFuture(waiters, i, Cancelled);
      assert WaitsFor(s, u, key) && !Queued(s, u, Cancelled);
    }
  }

  /** A try is refused exactly while another use is inside the same key, whatever other
      keys are in use; an entry is never refused. */
  lemma TryIsRefused(s: State, use: Use, key: Key, wait: bool)
    requires Inv(s) && use !in s.uses
    ensures Enabled(s, Enter(use, key, wait))
    ensures use !in Next(s, Enter(use, key, wait)).uses <==> !wait && Held(s, key)
    ensures !wait && Held(s, key) ==> Next(s, Enter(use, key, wait)) == s
  {
    LockedIsHeld(s, key);
    if key in s.index {
      IndexKnown(s, key);
    }
  }

  /** An entry that is not refused is inside at once if nobody is inside or waits, but for
      those cancelled, and has to wait otherwise. */
  lemma EntryIsFree(s: State, use: Use, key: Key, wait: bool)
    requires Inv(s) && use !in s.uses && (wait || !Held(s, key))
    ensures Enabled(s, Enter(use, key, wait))
    ensures var s' := Next(s, Enter(use, key, wait));
            if Held(s, key) || Wanted(s, key) then WaitsFor(s', use, key) else InsideKey(s', use, key)
  {
    LockedIsHeld(s, key);
    QueueIsWanted(s, key);
    if key in s.index {
      IndexKnown(s, key);
    }
  }

  /** Where an entry leaves its use. */
  lemma EntryOutcome(s: State, use: Use, key: Key, wait: bool)
    requires Inv(s) && use !in s.uses && Enabled(s, Enter(use, key, wait))
    ensures var s' := Next(s, Enter(use, key, wait));
            && (use !in s'.uses <==> !wait && Held(s, key))
            && (use in s'.uses && s'.uses[use].Waiting? <==> if Held(s, key) then wait else Wanted(s, key))
            && (use in s'.uses ==> if s'.uses[use].Waiting? then WaitsFor(s', use, key) else InsideKey(s', use, key))
  {
    hide Inv, Held, Wanted, Next, Enabled;
    TryIsRefused(s, use, key, wait);
    if wait || !Held(s, key) {
      EntryIsFree(s, use, key, wait);
    }
  }

  // ----- first come, first served -----

  /** Both wait, and u came first. */
  ghost predicate Ahead(waiters: seq<Waiter>, u: Use, v: Use) {
    exists i, j :: 0 <= i < j < |waiters| && waiters[i].use == u && waiters[j].use == v
  }

  lemma AheadSame(a: seq<Waiter>, b: seq<Waiter>, u: Use, v: Use)
    requires |a| <= |b| && forall i :: 0 <= i < |a| ==> a[i].use == b[i].use
    ensures Ahead(a, u, v) ==> Ahead(b, u, v)
  {
    if Ahead(a, u, v) {
      var i, j :| 0 <= i < j < |a| && a[i].use == u && a[j].use == v;
      assert b[i].use == u && b[j].use == v;
    }
  }

  lemma AheadAppend(waiters: seq<Waiter>, u: Use, w: Waiter)
    requires u in QueueUses(waiters)
    ensures Ahead(waiters + [w], u, w.use)
  {
    var x :| x in waiters && x.use == u;
    var i :| 0 <= i < |waiters| && waiters[i] == x;
    var r := waiters + [w];
    assert r[i].use == u && r[|waiters|].use == w.use;
  }

  ghost predicate Occurs(waiters: seq<Waiter>, x: Use) {
    exists j :: 0 <= j < |waiters| && waiters[j].use == x
  }

  lemma OccursBehind(waiters: seq<Waiter>, x: Use, i: nat)
    requires 0 < i <= |waiters| && waiters[0].use != x
    ensures Occurs(waiters[..i], x) <==> Occurs(waiters[1..][..i - 1], x)
  {
    var a, b := waiters[..i], waiters[1..][..i - 1];
    assert forall j :: 0 <= j < |b| ==> b[j] == a[j + 1];
    if Occurs(a, x) {
      var j :| 0 <= j < |a| && a[j].use == x;
      assert b[j - 1].use == x;
    }
  }

  /** Where a waiter is after another one has left: one place on, if that one was ahead. */
  lemma {:induction false} RemoveAt(waiters: seq<Waiter>, x: Use, i: nat) returns (k: nat)
    requires i < |waiters| && waiters[i].use != x
    ensures k < |Remove(waiters, x)| && Remove(waiters, x)[k] == waiters[i]
    ensures k == if Occurs(waiters[..i], x) then i - 1 else i
  {
    if waiters[0].use == x {
      k := i - 1;
      assert waiters[..i][0] == waiters[0];
    } else if i == 0 {
      k := 0;
    } else {
      k := RemoveAt(waiters[1..], x, i - 1);
      OccursBehind(waiters, x, i);
      k := k + 1;
    }
  }

  lemma OccursMore(waiters: seq<Waiter>, x: Use, i: nat, j: nat)
    requires i < j <= |waiters| && waiters[i].use != x
    ensures Occurs(waiters[..i], x) ==> Occurs(waiters[..j], x)
    ensures j == i + 1 && Occurs(waiters[..j], x) ==> Occurs(waiters[..i], x)
  {
    var a, b := waiters[..i], waiters[..j];
    assert forall q :: 0 <= q < |a| ==> b[q] == a[q];
    if Occurs(a, x) {
      var q :| 0 <= q < |a| && a[q].use == x;
      assert b[q].use == x;
    }
    if j == i + 1 && Occurs(b, x) {
      var q :| 0 <= q < |b| && b[q].use == x;
      assert q != i;
      assert a[q].use == x;
    }
  }

  lemma AheadRemove(waiters: seq<Waiter>, x: Use, u: Use, v: Use)
    requires Ahead(waiters, u, v) && x != u && x != v
    ensures Ahead(Remove(waiters, x), u, v)
  {
    var i, j :| 0 <= i < j < |waiters| && waiters[i].use == u && waiters[j].use == v;
    var k := RemoveAt(waiters, x, i);
    var m := RemoveAt(waiters, x, j);
    var r := Remove(waiters, x);
    OccursMore(waiters, x, i, j);
    assert r[k].use == u && r[m].use == v;
  }

  /** Whoever has an uncancelled place in the queue of a lock. */
  ghost predicate InLine(s: State, id: LockId, u: Use) {
    && id in s.locks && u in s.uses && s.uses[u] == Waiting(id)
    && (Queued(s, u, Pending) || Queued(s, u, Woken))
  }

  /** v has not got past u. */
  ghost predicate Behind(s: State, id: LockId, u: Use, v: Use)
    requires id in s.locks
  {
    v in s.uses && s.uses[v].lock == id ==> s.uses[v].Waiting? && Ahead(s.locks[id].waiters, u, v)
  }

  lemma OneFuture2(waiters: seq<Waiter>, i: nat, g: Future)
    requires NoneTwice(waiters) && i < |waiters| && HasFuture(waiters, waiters[i].use, g)
    ensures waiters[i].future == g
  {
    if waiters[i].future != g {
      OneFuture(waiters, i, g);
    }
  }

  /** The one future of a waiter. */
  lemma FutureIsOne(s: State, u: Use, f: Future, g: Future)
    requires Inv(s) && Queued(s, u, f) && Queued(s, u, g)
    ensures f == g
  {
    var waiters := s.locks[s.uses[u].lock].waiters;
    assert LockOkIn(s, s.uses[u].lock);
    var i :| 0 <= i < |waiters| && waiters[i] == Waiter(u, f);
    OneFuture2(waiters, i, g);
  }

  lemma InLineQueue(s: State, id: LockId, u: Use)
    requires Inv(s) && InLine(s, id, u)
    ensures u in QueueUses(s.locks[id].waiters) && !AllCancelled(s.locks[id].waiters)
  {
    var waiters := s.locks[id].waiters;
    assert LockOkIn(s, id);
    assert u in At(s.uses, Waiting(id));
    var f := if Queued(s, u, Pending) then Pending else Woken;
    var i :| 0 <= i < |waiters| && waiters[i] == Waiter(u, f);
  }

  lemma PassEnter(s: State, use: Use, key: Key, id: LockId, u: Use, v: Use)
    requires Inv(s) && use !in s.uses && InLine(s, id, u) && Behind(s, id, u, v) && u != v
    ensures var s' := EnterLock(s, use, key); InLine(s', id, u) && Behind(s', id, u, v)
  {
    hide LockOkIn, AllCancelled, Ahead;
    if key in s.index {
      IndexKnown(s, key);
    }
    KnownBelow(s, id);
    InLineQueue(s, id, u);
    var waiters, w := s.locks[id].waiters, Waiter(use, Pending);
    AheadSame(waiters, waiters + [w], u, v);
    AheadAppend(waiters, u, w);
  }

  lemma HeadOnly(s: State, use: Use, future: Future, id: LockId)
    requires Inv(s) && Queued(s, use, future) && s.uses[use].lock == id && future == Woken
    ensures s.locks[id].waiters != [] && s.locks[id].waiters[0].use == use
  {
    assert LockOkIn(s, id);
    WokenIsHead(s.locks[id], At(s.uses, Waiting(id)), At(s.uses, Inside(id)), s.leaked[id], use, future);
  }

  /** The head of the queue has nobody ahead. */
  lemma NobodyAhead(waiters: seq<Waiter>, u: Use, v: Use)
    requires NoneTwice(waiters) && waiters != [] && waiters[0].use == v
    ensures !Ahead(waiters, u, v)
  {
  }

  lemma RemoveOther(waiters: seq<Waiter>, x: Use, u: Use, f: Future)
    requires HasFuture(waiters, u, f) && x != u
    ensures HasFuture(Remove(waiters, x), u, f)
  {
    var i :| 0 <= i < |waiters| && waiters[i] == Waiter(u, f);
    var k := RemoveAt(waiters, x, i);
  }

  lemma WakeOther(l: Lock, u: Use)
    ensures var r := WakeFirst(l).waiters;
            && |r| == |l.waiters| && (forall i :: 0 <= i < |r| ==> r[i].use == l.waiters[i].use)
            && (HasFuture(l.waiters, u, Woken) ==> HasFuture(r, u, Woken))
            && (HasFuture(l.waiters, u, Pending) ==> HasFuture(r, u, Pending) || HasFuture(r, u, Woken))
  {
    var r := WakeFirst(l).waiters;
    if HasFuture(l.waiters, u, Woken) {
      var i :| 0 <= i < |l.waiters| && l.waiters[i] == Waiter(u, Woken);
      assert r[i] == Waiter(u, Woken);
    }
    if HasFuture(l.waiters, u, Pending) {
      var i :| 0 <= i < |l.waiters| && l.waiters[i] == Waiter(u, Pending);
      assert r[i] == Waiter(u, Pending) || r[i] == Waiter(u, Woken);
    }
  }

  /** Taking one use out of the queue of a lock, and perhaps waking the next. */
  lemma PassRemove(s: State, s': State, x: Use, id: LockId, u: Use, v: Use)
    requires Inv(s) && InLine(s, id, u) && Behind(s, id, u, v) && u != v && x != u
    requires id in s'.locks && u in s'.uses && s'.uses[u] == s.uses[u]
    requires v in s'.uses && s'.uses[v].lock == id ==> v != x && v in s.uses && s'.uses[v] == s.uses[v]
    requires var r := s.locks[id].(waiters := Remove(s.locks[id].waiters, x));
             s'.locks[id].waiters == r.waiters || s'.locks[id].waiters == WakeFirst(r).waiters
    ensures InLine(s', id, u) && Behind(s', id, u, v)
  {
    hide Inv, Ahead;
    var waiters := s.locks[id].waiters;
    var r := Remove(waiters, x);
    var f := if Queued(s, u, Pending) then Pending else Woken;
    RemoveOther(waiters, x, u, f);
    WakeOther(s.locks[id].(waiters := r), u);
    if v in s'.uses && s'.uses[v].lock == id {
      AheadRemove(waiters, x, u, v);
      AheadSame(r, s'.locks[id].waiters, u, v);
    }
  }

  lemma QueueIsOk(s: State, id: LockId)
    requires Inv(s) && id in s.locks
    ensures NoneTwice(s.locks[id].waiters)
  {
    assert LockOkIn(s, id);
  }

  lemma PassResume(s: State, x: Use, id: LockId, u: Use, v: Use)
    requires Inv(s) && Queued(s, x, Woken) && InLine(s, id, u) && Behind(s, id, u, v) && u != v && x != u
    ensures var s' := ResumeLock(s, x); InLine(s', id, u) && Behind(s', id, u, v)
  {
    hide LockOkIn, Remove, Ahead;
    if s.uses[x].lock == id {
      HeadOnly(s, x, Woken, id);
      assert NoneTwice(s.locks[id].waiters) by { QueueIsOk(s, id); }
      NobodyAhead(s.locks[id].waiters, u, x);
      PassRemove(s, ResumeLock(s, x), x, id, u, v);
    }
  }

  lemma PassUnwind(s: State, x: Use, id: LockId, u: Use, v: Use)
    requires Inv(s) && Enabled(s, Unwind(x)) && InLine(s, id, u) && Behind(s, id, u, v) && u != v
    ensures var s' := UnwindWait(s, x); InLine(s', id, u) && Behind(s', id, u, v)
  {
    hide LockOkIn, Remove, Ahead;
    if x == u {
      FutureIsOne(s, u, if Queued(s, u, Pending) then Pending else Woken,
                  if Queued(s, x, Cancelled) then Cancelled else Interrupted);
    }
    if s.uses[x].lock == id {
      PassRemove(s, UnwindWait(s, x), x, id, u, v);
    }
  }

  lemma PassExit(s: State, x: Use, id: LockId, u: Use, v: Use)
    requires Inv(s) && Enabled(s, Exit(x)) && InLine(s, id, u) && Behind(s, id, u, v) && u != v
    ensures var s' := ExitLock(s, x); InLine(s', id, u) && Behind(s', id, u, v)
  {
    hide LockOkIn, Ahead;
    if s.uses[x].lock == id {
      var l := s.locks[id].(locked := false);
      WakeOther(l, u);
      AheadSame(l.waiters, WakeFirst(l).waiters, u, v);
    }
  }

  lemma SetOther(waiters: seq<Waiter>, x: Use, g: Future, u: Use)
    requires NoneTwice(waiters) && x in QueueUses(waiters) && x != u
    ensures forall f :: HasFuture(waiters, u, f) ==> HasFuture(SetFuture(waiters, x, g), u, f)
  {
    SetInQueue(waiters, x, g);
    var r := SetFuture(waiters, x, g);
    forall f | HasFuture(waiters, u, f) ensures HasFuture(r, u, f) {
      var i :| 0 <= i < |waiters| && waiters[i] == Waiter(u, f);
      assert r[i] == waiters[i];
    }
  }

  lemma PassCancel(s: State, x: Use, id: LockId, u: Use, v: Use)
    requires Inv(s) && Enabled(s, Cancel(x)) && InLine(s, id, u) && Behind(s, id, u, v) && u != v && x != u
    ensures var s' := Next(s, Cancel(x)); InLine(s', id, u) && Behind(s', id, u, v)
  {
    hide LockOkIn, Ahead, SetFuture;
    if s.uses[x].lock == id {
      var waiters := s.locks[id].waiters;
      var g := if Queued(s, x, Woken) then Interrupted else Cancelled;
      QueueIsOk(s, id);
      assert x in QueueUses(waiters);
      SetOther(waiters, x, g, u);
      SetInQueue(waiters, x, g);
      AheadSame(waiters, SetFuture(waiters, x, g), u, v);
    }
  }

  lemma PassStep(s: State, step: Step, id: LockId, u: Use, v: Use)
    requires Inv(s) && Enabled(s, step) && InLine(s, id, u) && Behind(s, id, u, v) && u != v
    requires step != Cancel(u) && step != Resume(u)
    ensures InLine(Next(s, step), id, u) && Behind(Next(s, step), id, u, v)
  {
    hide Inv, InLine, Behind;
    match step
    case Enter(use, key, wait) =>
      if !Refused(s, key, wait) {
        PassEnter(s, use, key, id, u, v);
      }
    case Resume(x) => PassResume(s, x, id, u, v);
    case Exit(x) => PassExit(s, x, id, u, v);
    case Cancel(x) => PassCancel(s, x, id, u, v);
    case Unwind(x) => PassUnwind(s, x, id, u, v);
  }

  /** First come, first served: a use that comes while another one waits for the lock is
      not inside before that one has been, unless it is cancelled. */
  lemma {:induction false} NoOvertaking(states: seq<State>, steps: seq<Step>, j: nat, k: nat,
                                        id: LockId, u: Use, v: Use)
    requires Run(states, steps) && j <= k < |states| && InLine(states[j], id, u) && v !in states[j].uses
    requires forall i :: j <= i < k ==> steps[i] != Cancel(u) && steps[i] != Resume(u)
    ensures InLine(states[k], id, u) && Behind(states[k], id, u, v)
    ensures v in states[k].uses && states[k].uses[v].lock == id ==> states[k].uses[v].Waiting?
  {
    if j == k {
    } else {
      hide Next, Enabled, Inv;
      NoOvertaking(states, steps, j, k - 1, id, u, v);
      RunInv(states, steps, k - 1);
      PassStep(states[k - 1], steps[k - 1], id, u, v);
    }
  }

  /** An entry is the lookup and then the acquire. */
  lemma EnterIsAcquire(s: State, use: Use, key: Key, found: State, id: LockId, taken: bool)
    requires key in s.index ==> s.index[key] in s.locks
    requires (found, id) == Lookup(s, key)
    requires taken <==> !found.locks[id].locked && AllCancelled(found.locks[id].waiters)
    ensures var l := found.locks[id].(refCount := found.locks[id].refCount + 1);
            var l' := if taken then l.(locked := true) else l.(waiters := l.waiters + [Waiter(use, Pending)]);
            var p := if taken then Inside(id) else Waiting(id);
            EnterLock(s, use, key) == found.(locks := found.locks[id := l'], uses := found.uses[use := p])
  {
    hide AllCancelled;
  }

  // ----- the code -----

  datatype Outcome = Entered | Suspended | ShouldWaitError

  /** The shared dictionary with its lock objects, and where every use of them is. */
  class OperationLocks {
    var index: map<Key, LockId>
    var locks: map<LockId, Lock>
    var uses: map<Use, Position>
    var next: LockId
    ghost var leaked: map<LockId, nat>

    ghost function Model(): State
      reads this
    {
      State(index, locks, uses, next, leaked)
    }

    constructor ()
      ensures Model() == EMPTY && Inv(Model())
    {
      index, locks, uses, next, leaked := map[], map[], map[], 0, map[];
    }

    /** The lock of the key, made on first use. */
    method Find(key: Key) returns (id: LockId)
      requires Inv(Model())
      modifies this
      ensures (Model(), id) == Lookup(old(Model()), key) && uses == old(uses) && id in locks
    {
      hide LockOkIn;
      if key in index {
        id := index[key];
      } else {
        id := next;
        locks := locks[id := Lock(key, false, [], 0)];
        index := index[key := id];
        leaked := leaked[id := 0];
        next := next + 1;
      }
    }

    /** One user more, and Lock.acquire up to its await. */
    method Acquire(use: Use, id: LockId) returns (taken: bool)
      requires id in locks
      modifies this`locks, this`uses
      ensures taken <==> !old(locks)[id].locked && AllCancelled(old(locks)[id].waiters)
      ensures uses == old(uses)[use := if taken then Inside(id) else Waiting(id)]
      ensures var l := old(locks)[id].(refCount := old(locks)[id].refCount + 1);
              locks == old(locks)[id := if taken then l.(locked := true)
                                        else l.(waiters := l.waiters + [Waiter(use, Pending)])]
    {
      var lock := locks[id].(refCount := locks[id].refCount + 1);
      taken := !lock.locked && AllCancelled(lock.waiters);
      if taken {
        locks := locks[id := lock.(locked := true)];
        uses := uses[use := Inside(id)];
      } else {
        locks := locks[id := lock.(waiters := lock.waiters + [Waiter(use, Pending)])];
        uses := uses[use := Waiting(id)];
      }
    }

    /** The lock of the key, one user more, and the acquire; or nothing, if the lock is
        there, is locked and must not be waited for. */
    method FindAndAcquire(use: Use, key: Key, wait: bool) returns (outcome: Outcome)
      requires Inv(Model()) && use !in uses
      modifies this
      ensures Model() == Next(old(Model()), Step.Enter(use, key, wait))
      ensures outcome == if use !in uses then ShouldWaitError else if uses[use].Waiting? then Suspended else Entered
    {
      ghost var s := Model();
      if key in index {
        IndexKnown(s, key);
      }
      hide Inv, AllCancelled, EnterLock, Lookup;
      if !wait && key in index && locks[index[key]].locked {
        return ShouldWaitError;
      }
      var id := Find(key);
      ghost var found := Model();
      var taken := Acquire(use, id);
      EnterIsAcquire(s, use, key, found, id, taken);
      outcome := if taken then Entered else Suspended;
    }

    /** __aenter__ up to its await. */
    method Enter(use: Use, key: Key, wait: bool) returns (outcome: Outcome)
      requires Inv(Model()) && use !in uses
      modifies this
      ensures Inv(Model()) && Model() == Next(old(Model()), Step.Enter(use, key, wait))
      ensures outcome.ShouldWaitError? <==> !wait && old(Held(Model(), key))
      ensures outcome.Suspended? <==> if old(Held(Model(), key)) then wait else old(Wanted(Model(), key))
      ensures outcome.Entered? ==> InsideKey(Model(), use, key)
      ensures outcome.Suspended? ==> WaitsFor(Model(), use, key)
    {
      ghost var s := Model();
      if key in index {
        IndexKnown(s, key);
      }
      StepKeeps(s, Step.Enter(use, key, wait));
      EntryOutcome(s, use, key, wait);
      hide Inv, Held, Wanted, WaitsFor, InsideKey, Next, Enabled;
      outcome := FindAndAcquire(use, key, wait);
    }

    /** The rest of __aenter__ once the waiter's future is set. */
    method Resume(use: Use)
      requires Inv(Model()) && Queued(Model(), use, Woken)
      modifies this`locks, this`uses
      ensures Inv(Model()) && Model() == Next(old(Model()), Step.Resume(use))
    {
      hide Inv;
      StepKeeps(Model(), Step.Resume(use));
      var id := uses[use].lock;
      var lock := locks[id].(waiters := Remove(locks[id].waiters, use));
      locks := locks[id := lock.(locked := true)];
      uses := uses[use := Inside(id)];
    }

    /** __aexit__; the key is there to be deleted. */
    method Exit(use: Use)
      requires Inv(Model()) && use in uses && uses[use].Inside? && uses[use].lock in locks
      modifies this`locks, this`uses, this`index
      ensures Inv(Model()) && Model() == Next(old(Model()), Step.Exit(use))
    {
      hide Inv;
      ExitKeeps(Model(), use);
      var id := uses[use].lock;
      var lock := WakeFirst(locks[id].(locked := false));
      lock := lock.(refCount := lock.refCount - 1);
      locks := locks[id := lock];
      if lock.refCount == 0 {
        assert lock.key in index;
        index := index - {lock.key};
      }
      uses := uses - {use};
    }

    /** Cancelling the task of a waiting use: its future is cancelled if it still can
        be. */
    method Cancel(use: Use)
      requires Inv(Model()) && Enabled(Model(), Step.Cancel(use))
      modifies this`locks
      ensures Inv(Model()) && Model() == Next(old(Model()), Step.Cancel(use))
    {
      hide Inv;
      StepKeeps(Model(), Step.Cancel(use));
      var id := uses[use].lock;
      var future := if Waiter(use, Woken) in locks[id].waiters then Interrupted else Cancelled;
      locks := locks[id := locks[id].(waiters := SetFuture(locks[id].waiters, use, future))];
    }

    /** The cancelled task: acquire cleans up and raises. */
    method Unwind(use: Use)
      requires Inv(Model()) && Enabled(Model(), Step.Unwind(use))
      modifies this`locks, this`uses, this`leaked
      ensures Inv(Model()) && Model() == Next(old(Model()), Step.Unwind(use))
    {
      hide Inv;
      StepKeeps(Model(), Step.Unwind(use));
      var id := uses[use].lock;
      var lock := locks[id].(waiters := Remove(locks[id].waiters, use));
      locks := locks[id := if lock.locked then lock else WakeFirst(lock)];
      uses := uses - {use};
      leaked := leaked[id := leaked[id] + 1];
    }
  }
}
