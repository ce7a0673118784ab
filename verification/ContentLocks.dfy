/** How the content manager uses the keyed lock: create_content, confirm_content and
    new_nft_create_content, any number of them at once on one dictionary. */
module ContentLocks {
  import opened KeyedLock

  function PinKey(address: string): Key { "nft:" + address + ":pin" }
  function AddKey(address: string): Key { "nft:" + address + ":add" }
  function CidKey(cid: string): Key { "cid:" + cid + ":pin" }
  function OwnerKey(owner: string): Key { "owner:" + owner + ":new" }

  lemma Inner(prefix: string, x: string, suffix: string)
    ensures (prefix + x + suffix)[|prefix|..|prefix| + |x|] == x
    ensures |suffix| > 0 ==> (prefix + x + suffix)[|prefix + x + suffix| - 1] == suffix[|suffix| - 1]
    ensures |prefix| > 0 ==> (prefix + x + suffix)[0] == prefix[0]
  {
  }

  /** Keys of different kinds never meet, whatever the strings in them, and keys of one
      kind meet only for one subject. */
  lemma KeysDiffer(x: string, y: string)
    ensures PinKey(x) == PinKey(y) ==> x == y
    ensures CidKey(x) == CidKey(y) ==> x == y
    ensures CidKey(x) != PinKey(y) && CidKey(x) != AddKey(y) && CidKey(x) != OwnerKey(y)
    ensures PinKey(x) != AddKey(y) && PinKey(x) != OwnerKey(y) && AddKey(x) != OwnerKey(y)
  {
    Inner("nft:", x, ":pin");
    Inner("nft:", y, ":pin");
    Inner("nft:", y, ":add");
    Inner("nft:", x, ":add");
    Inner("cid:", x, ":pin");
    Inner("cid:", y, ":pin");
    Inner("owner:", y, ":new");
  }

  // ----- calls -----

  /** Where a confirmation is: Polling holds the pin lock of its NFT, Waiting wants the
      pin lock of the new CID too, Pinning has both, Leaving the first one again. */
  datatype ConfirmPhase = Asked | Polling | Waiting | Pinning | Leaving | Finished

  datatype AddPhase = Requested | Adding | Closed

  datatype Call =
    | Confirm(address: string, cid: string, phase: ConfirmPhase)
    | Create(address: string, stage: AddPhase)
    | NewNft(owner: string, stage: AddPhase)

  type CallId = nat

  datatype World = World(locks: State, calls: map<CallId, Call>)

  /** A call that is cancelled while it awaits anything but a lock goes on as if that had
      raised; `CancelCall` and `Unwinds` are for one that awaits a lock. */
  datatype Act =
    | Arrive(c: CallId, call: Call)
    | Drop(c: CallId)                                   // raises or is cancelled before its lock
    | Start(c: CallId)
    | PollFails(c: CallId)                              // get_nft_cid raises
    | PollEnds(c: CallId)                               // confirmed or timed out
    | Granted(c: CallId)                                // the awaited CID lock is free
    | CancelCall(c: CallId)                             // task.cancel()
    | Unwinds(c: CallId)                                // the cancelled task runs
    | PinEnds(c: CallId)                                // pinned, unpinned, timed out or failed
    | Leave(c: CallId)
    | AddEnds(c: CallId, spawned: CallId, cid: string)  // create_content starts a confirmation
    | AddCloses(c: CallId)                              // or does not

  function Outer(c: CallId): Use { Use(c, 0) }
  function Nested(c: CallId): Use { Use(c, 1) }

  predicate Fresh(call: Call) {
    match call
    case Confirm(_, _, phase) => phase == Asked
    case Create(_, stage) => stage == Requested
    case NewNft(_, stage) => stage == Requested
  }

  predicate Done(call: Call) {
    match call
    case Confirm(_, _, phase) => phase == Finished
    case Create(_, stage) => stage == Closed
    case NewNft(_, stage) => stage == Closed
  }

  /** The key of the outer lock, which is entered with wait=False. */
  function OuterKey(call: Call): Key {
    match call
    case Confirm(address, _, _) => PinKey(address)
    case Create(address, _) => AddKey(address)
    case NewNft(owner, _) => OwnerKey(owner)
  }

  ghost predicate Able(w: World, c: CallId)
    requires c in w.calls
  {
    match w.calls[c]
    case Confirm(_, _, phase) =>
      phase != Finished && (phase == ConfirmPhase.Waiting ==> !Queued(w.locks, Nested(c), Pending))
    case Create(_, stage) => stage != Closed
    case NewNft(_, stage) => stage != Closed
  }

  predicate AwaitsLock(w: World, c: CallId) {
    c in w.calls && w.calls[c].Confirm? && w.calls[c].phase == ConfirmPhase.Waiting
  }

  predicate Possible(w: World, act: Act) {
    match act
    case Arrive(c, call) => c !in w.calls && Fresh(call)
    case Drop(c) => c in w.calls && Fresh(w.calls[c])
    case Start(c) => c in w.calls && Fresh(w.calls[c])
    case PollFails(c) => c in w.calls && w.calls[c].Confirm? && w.calls[c].phase == Polling
    case PollEnds(c) => c in w.calls && w.calls[c].Confirm? && w.calls[c].phase == Polling
    case Granted(c) => AwaitsLock(w, c)
    case CancelCall(c) => AwaitsLock(w, c)
    case Unwinds(c) => AwaitsLock(w, c)
    case PinEnds(c) => c in w.calls && w.calls[c].Confirm? && w.calls[c].phase == Pinning
    case Leave(c) => c in w.calls && w.calls[c].Confirm? && w.calls[c].phase == Leaving
    case AddEnds(c, spawned, cid) =>
      c in w.calls && w.calls[c].Create? && w.calls[c].stage == Adding && spawned !in w.calls
    case AddCloses(c) => c in w.calls && !w.calls[c].Confirm? && w.calls[c].stage == Adding
  }

  function Finish(call: Call): Call {
    match call
    case Confirm(address, cid, _) => Confirm(address, cid, Finished)
    case Create(address, _) => Create(address, Closed)
    case NewNft(owner, _) => NewNft(owner, Closed)
  }

  function Begin(call: Call): Call {
    match call
    case Confirm(address, cid, _) => Confirm(address, cid, Polling)
    case Create(address, _) => Create(address, Adding)
    case NewNft(owner, _) => NewNft(owner, Adding)
  }

  function Into(call: Call, phase: ConfirmPhase): Call
    requires call.Confirm?
  {
    Confirm(call.address, call.cid, phase)
  }

  predicate UsesLock(act: Act) {
    !act.Arrive? && !act.Drop?
  }

  /** What an act does to the lock. */
  function LockStep(w: World, act: Act): Step
    requires Possible(w, act) && UsesLock(act)
  {
    match act
    case Start(c) => Enter(Outer(c), OuterKey(w.calls[c]), false)
    case PollEnds(c) => Enter(Nested(c), CidKey(w.calls[c].cid), true)
    case Granted(c) => Resume(Nested(c))
    case CancelCall(c) => Cancel(Nested(c))
    case Unwinds(c) => Unwind(Nested(c))
    case PinEnds(c) => Exit(Nested(c))
    case _ => Exit(Outer(act.c))
  }

  /** And to the call, once the lock has moved to s. */
  function CallAfter(w: World, act: Act, s: State): Call
    requires Possible(w, act) && UsesLock(act)
  {
    var call := w.calls[act.c];
    match act
    case Start(c) => if Outer(c) in s.uses then Begin(call) else Finish(call)
    case PollEnds(c) =>
      Into(call, if Nested(c) in s.uses && s.uses[Nested(c)].Inside? then Pinning else ConfirmPhase.Waiting)
    case Granted(c) => Into(call, Pinning)
    case CancelCall(c) => call
    case Unwinds(c) => Into(call, Leaving)
    case PinEnds(c) => Into(call, Leaving)
    case _ => Finish(call)
  }

  ghost predicate Allowed(w: World, act: Act) {
    Possible(w, act) && (UsesLock(act) ==> Enabled(w.locks, LockStep(w, act)))
  }

  ghost function Perform(w: World, act: Act): World
    requires Allowed(w, act)
  {
    if act.Arrive? then w.(calls := w.calls[act.c := act.call])
    else if act.Drop? then w.(calls := w.calls[act.c := Finish(w.calls[act.c])])
    else
      var s := Next(w.locks, LockStep(w, act));
      var calls := w.calls[act.c := CallAfter(w, act, s)];
      World(s, if act.AddEnds? then calls[act.spawned := Confirm(w.calls[act.c].address, act.cid, Asked)] else calls)
  }

  // ----- the invariant -----

  ghost predicate Has(s: State, use: Use, key: Key) {
    InsideKey(s, use, key)
  }

  /** The uses of the lock that a call in this phase has. */
  ghost predicate CallOk(s: State, c: CallId, call: Call) {
    match call
    case Confirm(address, cid, phase) =>
      && (phase == Asked || phase == Finished ==> Outer(c) !in s.uses && Nested(c) !in s.uses)
      && (phase == Polling || phase == Leaving ==> Has(s, Outer(c), PinKey(address)) && Nested(c) !in s.uses)
      && (phase == ConfirmPhase.Waiting ==> Has(s, Outer(c), PinKey(address)) && WaitsFor(s, Nested(c), CidKey(cid)))
      && (phase == Pinning ==> Has(s, Outer(c), PinKey(address)) && Has(s, Nested(c), CidKey(cid)))
    case _ =>
      && Nested(c) !in s.uses
      && (if call.stage == Adding then Has(s, Outer(c), OuterKey(call)) else Outer(c) !in s.uses)
  }

  ghost predicate WorldOk(w: World) {
    && Inv(w.locks)
    && (forall c :: c in w.calls ==> CallOk(w.locks, c, w.calls[c]))
    && (forall u :: u in w.locks.uses ==> u.task in w.calls && u.depth <= 1)
  }

  // ----- what each act keeps -----

  /** A step of one use leaves every other use where it is, and every lock its key. */
  lemma OthersStay(s: State, step: Step, u: Use)
    requires Enabled(s, step) && u != step.use
    requires u in s.uses ==> s.uses[u].lock in s.locks && s.uses[u].lock != s.next
    ensures var s' := Next(s, step);
            && (u in s'.uses <==> u in s.uses)
            && (u in s.uses ==> s'.uses[u] == s.uses[u] && s.uses[u].lock in s'.locks)
            && (u in s.uses ==> s'.locks[s.uses[u].lock].key == s.locks[s.uses[u].lock].key)
  {
  }

  lemma Known(s: State, u: Use)
    requires Inv(s)
    ensures u in s.uses ==> s.uses[u].lock in s.locks && s.uses[u].lock != s.next
  {
  }

  lemma CallStays(s: State, step: Step, c: CallId, call: Call)
    requires Inv(s) && Enabled(s, step) && step.use.task != c && CallOk(s, c, call)
    ensures CallOk(Next(s, step), c, call)
  {
    hide Inv, Enabled, Next;
    Known(s, Outer(c));
    Known(s, Nested(c));
    OthersStay(s, step, Outer(c));
    OthersStay(s, step, Nested(c));
  }

  /** Where a step takes its own use. */
  lemma OwnUse(s: State, step: Step)
    requires Inv(s) && Enabled(s, step)
    ensures var s', u := Next(s, step), step.use;
            && (step.Enter? && !Refused(s, step.key, step.wait) ==> Has(s', u, step.key) || WaitsFor(s', u, step.key))
            && (step.Enter? && Refused(s, step.key, step.wait) ==> s' == s)
            && (step.Resume? ==> Has(s', u, s.locks[s.uses[u].lock].key))
            && (step.Exit? || step.Unwind? ==> u !in s'.uses)
            && (step.Cancel? ==> WaitsFor(s', u, s.locks[s.uses[u].lock].key))
  {
  }

  /** A call that wants nothing but a free key gets it or is refused, and never waits. */
  lemma TryNeverWaits(s: State, u: Use, key: Key)
    requires Inv(s) && Enabled(s, Enter(u, key, false)) && NoneWaits(s, key)
    ensures var s' := Next(s, Enter(u, key, false)); u in s'.uses ==> Has(s', u, key)
  {
    OwnUse(s, Enter(u, key, false));
    TryEnter(s, u, key);
  }

  /** Only CID locks are ever waited for. */
  lemma OnlyCidWaits(w: World, x: string)
    requires WorldOk(w)
    ensures NoneWaits(w.locks, PinKey(x)) && NoneWaits(w.locks, AddKey(x)) && NoneWaits(w.locks, OwnerKey(x))
  {
    hide Inv;
    var s := w.locks;
    forall u | u in s.uses && s.uses[u].lock in s.locks && s.uses[u].Waiting?
      ensures var key := s.locks[s.uses[u].lock].key; key != PinKey(x) && key != AddKey(x) && key != OwnerKey(x)
    {
      var call := w.calls[u.task];
      assert CallOk(s, u.task, call);
      assert u == Outer(u.task) || u == Nested(u.task);
      KeysDiffer(call.cid, x);
    }
  }

  lemma ArriveKeeps(w: World, act: Act)
    requires WorldOk(w) && Allowed(w, act) && !UsesLock(act)
    ensures WorldOk(Perform(w, act))
  {
    hide Inv;
    assert act.Arrive? ==> forall u :: u in w.locks.uses ==> u.task != act.c;
  }

  /** The call itself, after its own act. */
  lemma OwnCall(w: World, act: Act)
    requires WorldOk(w) && Allowed(w, act) && UsesLock(act)
    ensures var s' := Next(w.locks, LockStep(w, act)); CallOk(s', act.c, CallAfter(w, act, s'))
  {
    hide Inv, Enabled, Next;
    var s, step, c := w.locks, LockStep(w, act), act.c;
    var call := w.calls[c];
    assert CallOk(s, c, call);
    Known(s, Outer(c));
    Known(s, Nested(c));
    OwnUse(s, step);
    OthersStay(s, step, if step.use == Outer(c) then Nested(c) else Outer(c));
    if act.Start? {
      OnlyCidWaits(w, match call case Confirm(a, _, _) => a case Create(a, _) => a case NewNft(o, _) => o);
      TryNeverWaits(s, Outer(c), OuterKey(call));
    }
  }

  lemma NewCallOk(w: World, act: Act)
    requires WorldOk(w) && Allowed(w, act) && act.AddEnds?
    ensures CallOk(Next(w.locks, LockStep(w, act)), act.spawned, Confirm(w.calls[act.c].address, act.cid, Asked))
  {
    hide Inv, Enabled, Next;
    var s, step := w.locks, LockStep(w, act);
    OthersStay(s, step, Outer(act.spawned));
    OthersStay(s, step, Nested(act.spawned));
  }

  /** Every act of every call keeps the world in order. */
  lemma ActKeeps(w: World, act: Act)
    requires WorldOk(w) && Allowed(w, act)
    ensures WorldOk(Perform(w, act))
  {
    hide Inv, Enabled, Next, CallOk;
    if !UsesLock(act) {
      ArriveKeeps(w, act);
    } else {
      var s, step := w.locks, LockStep(w, act);
      var w' := Perform(w, act);
      StepKeeps(s, step);
      OwnCall(w, act);
      forall c | c in w.calls && c != act.c ensures CallOk(w'.locks, c, w.calls[c]) {
        CallStays(s, step, c, w.calls[c]);
      }
      if act.AddEnds? {
        NewCallOk(w, act);
      }
      forall u | u in w'.locks.uses ensures u.task in w'.calls && u.depth <= 1 {
        if u != step.use {
          Known(s, u);
          OthersStay(s, step, u);
        }
      }
    }
  }

  // ----- runs -----

  ghost predicate Running(worlds: seq<World>, acts: seq<Act>) {
    && |worlds| == |acts| + 1
    && worlds[0] == World(EMPTY, map[])
    && (forall k :: 0 <= k < |acts| ==> Allowed(worlds[k], acts[k]) && worlds[k + 1] == Perform(worlds[k], acts[k]))
  }

  lemma {:induction false} RunningOk(worlds: seq<World>, acts: seq<Act>, k: nat)
    requires Running(worlds, acts) && k < |worlds|
    ensures WorldOk(worlds[k])
  {
    if k == 0 {
    } else {
      RunningOk(worlds, acts, k - 1);
      ActKeeps(worlds[k - 1], acts[k - 1]);
    }
  }

  /** At most one confirmation of an NFT is in flight. */
  lemma OneConfirmation(worlds: seq<World>, acts: seq<Act>, k: nat, c: CallId, d: CallId)
    requires Running(worlds, acts) && k < |worlds|
    requires c in worlds[k].calls && d in worlds[k].calls
    requires worlds[k].calls[c].Confirm? && worlds[k].calls[d].Confirm?
    requires worlds[k].calls[c].address == worlds[k].calls[d].address
    requires worlds[k].calls[c].phase !in {Asked, Finished} && worlds[k].calls[d].phase !in {Asked, Finished}
    ensures c == d
  {
    hide Inv;
    RunningOk(worlds, acts, k);
    var w := worlds[k];
    assert CallOk(w.locks, c, w.calls[c]) && CallOk(w.locks, d, w.calls[d]);
    OneInside(w.locks, PinKey(w.calls[c].address), Outer(c), Outer(d));
  }

  /** A call that cannot go on. */
  ghost predicate Blocked(w: World, c: CallId) {
    c in w.calls && !Done(w.calls[c]) && !Able(w, c)
  }

  lemma HolderIsPinning(w: World, u: Use, cid: string)
    requires WorldOk(w) && (Has(w.locks, u, CidKey(cid)) || WaitsFor(w.locks, u, CidKey(cid)))
    ensures u == Nested(u.task) && u.task in w.calls
    ensures var call := w.calls[u.task];
            && call.Confirm? && call.cid == cid
            && call.phase == if Has(w.locks, u, CidKey(cid)) then Pinning else ConfirmPhase.Waiting
  {
    hide Inv;
    var call := w.calls[u.task];
    assert CallOk(w.locks, u.task, call);
    assert u == Outer(u.task) || u == Nested(u.task);
    match call
    case Confirm(address, other, _) => KeysDiffer(cid, address); KeysDiffer(cid, other);
    case Create(address, _) => KeysDiffer(cid, address);
    case NewNft(owner, _) => KeysDiffer(cid, owner);
  }

  /** Whoever a waiting use waits for: the one inside, or the head of a free lock's queue,
      which has been woken or cancelled. */
  lemma NextInLine(s: State, use: Use) returns (u: Use)
    requires Inv(s) && use in s.uses && s.uses[use].Waiting? && s.uses[use].lock in s.locks
    ensures u in s.uses && s.uses[u].lock == s.uses[use].lock
    ensures s.uses[u].Inside? || !Queued(s, u, Pending)
  {
    var id := s.uses[use].lock;
    var l := s.locks[id];
    assert LockOkIn(s, id);
    if l.locked {
      u :| u in KeyedLock.At(s.uses, Inside(id));
    } else {
      assert use in KeyedLock.At(s.uses, KeyedLock.Waiting(id));
      assert l.waiters != [];
      u := l.waiters[0].use;
      assert l.waiters[0] in l.waiters;
      assert u in QueueUses(l.waiters);
    }
  }

  lemma Blocker(w: World, c: CallId) returns (d: CallId)
    requires WorldOk(w) && Blocked(w, c)
    ensures w.calls[c].Confirm? && w.calls[c].phase == ConfirmPhase.Waiting
    ensures d in w.calls && d != c && Able(w, d)
    ensures w.calls[d].Confirm? && w.calls[d].cid == w.calls[c].cid
    ensures w.calls[d].phase == Pinning || w.calls[d].phase == ConfirmPhase.Waiting
  {
    hide Inv;
    var s := w.locks;
    var cid := w.calls[c].cid;
    assert CallOk(s, c, w.calls[c]);
    var u := NextInLine(s, Nested(c));
    HolderIsPinning(w, u, cid);
    d := u.task;
  }

  /** Only a confirmation that already holds its NFT's lock is ever blocked, on the lock
      of its CID. The holder of that lock, or the one it was handed to, or the cancelled
      one that will hand it on, is another confirmation that can go on. */
  lemma BlockedByAble(worlds: seq<World>, acts: seq<Act>, k: nat, c: CallId) returns (d: CallId)
    requires Running(worlds, acts) && k < |worlds| && Blocked(worlds[k], c)
    ensures var w := worlds[k];
            && w.calls[c].Confirm? && w.calls[c].phase == ConfirmPhase.Waiting
            && d in w.calls && d != c && Able(w, d)
            && w.calls[d].Confirm? && w.calls[d].cid == w.calls[c].cid
            && (w.calls[d].phase == Pinning || w.calls[d].phase == ConfirmPhase.Waiting)
  {
    RunningOk(worlds, acts, k);
    d := Blocker(worlds[k], c);
  }

  /** A waiting use is in the queue, with some future. */
  lemma FutureOf(s: State, use: Use) returns (future: Future)
    requires Inv(s) && use in s.uses && s.uses[use].Waiting?
    ensures Queued(s, use, future) && s.uses[use].lock in s.leaked
  {
    var id := s.uses[use].lock;
    assert LockOkIn(s, id);
    assert use in KeyedLock.At(s.uses, KeyedLock.Waiting(id));
    var w :| w in s.locks[id].waiters && w.use == use;
    future := w.future;
    assert w == Waiter(use, future);
  }

  /** The acts that are not a call's own: a new call, and a cancellation from outside. */
  predicate External(act: Act) {
    act.Arrive? || act.CancelCall?
  }

  /** An able call has an act of its own that is allowed. */
  lemma AbleActs(w: World, c: CallId, free: CallId) returns (act: Act)
    requires WorldOk(w) && c in w.calls && Able(w, c) && free !in w.calls
    ensures !External(act) && act.c == c && Allowed(w, act)
  {
    hide Inv;
    var call := w.calls[c];
    assert CallOk(w.locks, c, call);
    if AwaitsLock(w, c) {
      var future := FutureOf(w.locks, Nested(c));
      return if future == Woken then Granted(c) else Unwinds(c);
    }
    act := if Fresh(call) then Start(c) else match call
             case Confirm(_, _, phase) =>
               if phase == Polling then PollEnds(c) else if phase == Pinning then PinEnds(c) else Leave(c)
             case Create(_, _) => AddEnds(c, free, "")
             case NewNft(_, _) => AddCloses(c);
    var step := LockStep(w, act);
    if step.Enter? && step.key in w.locks.index {
      IndexKnown(w.locks, step.key);
    }
  }

  /** The outer locks, entered with wait=False, never suspend their caller. */
  lemma TryKeysNeverSuspend(worlds: seq<World>, acts: seq<Act>, k: nat, c: CallId)
    requires Running(worlds, acts) && k < |worlds| && c in worlds[k].calls
    ensures Outer(c) in worlds[k].locks.uses ==> worlds[k].locks.uses[Outer(c)].Inside?
  {
    hide Inv;
    RunningOk(worlds, acts, k);
    assert CallOk(worlds[k].locks, c, worlds[k].calls[c]);
  }

  /** No deadlock: as long as some call is not done, some call can act by itself, whichever
      calls have been cancelled. */
  lemma NoDeadlock(worlds: seq<World>, acts: seq<Act>, k: nat, c: CallId, free: CallId) returns (act: Act)
    requires Running(worlds, acts) && k < |worlds| && free !in worlds[k].calls
    requires c in worlds[k].calls && !Done(worlds[k].calls[c])
    ensures !External(act) && Allowed(worlds[k], act)
  {
    RunningOk(worlds, acts, k);
    var d := c;
    if Blocked(worlds[k], c) {
      d := BlockedByAble(worlds, acts, k, c);
    }
    act := AbleActs(worlds[k], d, free);
  }

  // ----- who gets on -----

  /** The call is between entering its outer lock and leaving it. */
  predicate InFlight(call: Call) {
    match call
    case Confirm(_, _, phase) => phase != Asked && phase != Finished
    case Create(_, stage) => stage == Adding
    case NewNft(_, stage) => stage == Adding
  }

  ghost predicate Taken(w: World, key: Key) {
    exists d :: d in w.calls && InFlight(w.calls[d]) && OuterKey(w.calls[d]) == key
  }

  lemma OuterKeysDiffer(call: Call, cid: string)
    ensures OuterKey(call) != CidKey(cid)
  {
    match call
    case Confirm(address, _, _) => KeysDiffer(cid, address);
    case Create(address, _) => KeysDiffer(cid, address);
    case NewNft(owner, _) => KeysDiffer(cid, owner);
  }

  lemma HolderIsInFlight(w: World, call: Call, u: Use)
    requires WorldOk(w) && InsideKey(w.locks, u, OuterKey(call))
    ensures u == Outer(u.task) && u.task in w.calls
    ensures InFlight(w.calls[u.task]) && OuterKey(w.calls[u.task]) == OuterKey(call)
  {
    hide Inv, PinKey, AddKey, OwnerKey, CidKey;
    var holder := w.calls[u.task];
    assert CallOk(w.locks, u.task, holder);
    assert u == Outer(u.task) || u == Nested(u.task);
    if holder.Confirm? {
      OuterKeysDiffer(call, holder.cid);
    }
  }

  lemma InFlightHolds(w: World, d: CallId)
    requires WorldOk(w) && d in w.calls && InFlight(w.calls[d])
    ensures InsideKey(w.locks, Outer(d), OuterKey(w.calls[d]))
  {
    hide Inv;
    assert CallOk(w.locks, d, w.calls[d]);
  }

  lemma TakenIsHeld(w: World, call: Call)
    requires WorldOk(w)
    ensures Held(w.locks, OuterKey(call)) <==> Taken(w, OuterKey(call))
  {
    hide WorldOk, InsideKey, OuterKey;
    if Held(w.locks, OuterKey(call)) {
      var u :| InsideKey(w.locks, u, OuterKey(call));
      HolderIsInFlight(w, call, u);
    }
    if Taken(w, OuterKey(call)) {
      var d :| d in w.calls && InFlight(w.calls[d]) && OuterKey(w.calls[d]) == OuterKey(call);
      InFlightHolds(w, d);
    }
  }

  lemma LocksOk(w: World)
    requires WorldOk(w)
    ensures Inv(w.locks)
  {
  }

  /** A call that starts goes to work unless a call for the same subject is in flight, and
      then it is turned away: other NFTs and other owners never get in its way. */
  lemma StartsUnlessTaken(worlds: seq<World>, acts: seq<Act>, k: nat)
    requires Running(worlds, acts) && k < |acts| && acts[k].Start?
    ensures acts[k].c in worlds[k].calls && acts[k].c in worlds[k + 1].calls
    ensures var call := worlds[k].calls[acts[k].c];
            worlds[k + 1].calls[acts[k].c] == if Taken(worlds[k], OuterKey(call)) then Finish(call) else Begin(call)
    ensures var call := worlds[k].calls[acts[k].c];
            InFlight(worlds[k + 1].calls[acts[k].c]) <==> !Taken(worlds[k], OuterKey(call))
  {
    RunningOk(worlds, acts, k);
    var w, c := worlds[k], acts[k].c;
    var call := w.calls[c];
    assert CallOk(w.locks, c, call);
    hide WorldOk, OuterKey, Held, Taken;
    TakenIsHeld(w, call);
    assert Inv(w.locks) by { LocksOk(w); }
    TryIsRefused(w.locks, Outer(c), OuterKey(call), false);
  }

  /** A confirmation whose polling has ended wants the lock of its CID: it has it at once
      if nobody holds it or waits for it, but for those cancelled. */
  lemma PollingEnds(worlds: seq<World>, acts: seq<Act>, k: nat)
    requires Running(worlds, acts) && k < |acts| && acts[k].PollEnds?
    ensures acts[k].c in worlds[k].calls && acts[k].c in worlds[k + 1].calls && worlds[k].calls[acts[k].c].Confirm?
    ensures var w, key := worlds[k], CidKey(worlds[k].calls[acts[k].c].cid);
            worlds[k + 1].calls[acts[k].c] ==
              worlds[k].calls[acts[k].c].(phase := if Held(w.locks, key) || Wanted(w.locks, key)
                                                   then ConfirmPhase.Waiting else Pinning)
  {
    RunningOk(worlds, acts, k);
    var w, c := worlds[k], acts[k].c;
    var call := w.calls[c];
    assert CallOk(w.locks, c, call);
    hide WorldOk, CidKey, Held, Wanted;
    LocksOk(w);
    EntryIsFree(w.locks, Nested(c), CidKey(call.cid), true);
  }

  /** A creation that ends with a new CID leaves a confirmation of it behind. */
  lemma AddSpawns(worlds: seq<World>, acts: seq<Act>, k: nat)
    requires Running(worlds, acts) && k < |acts| && acts[k].AddEnds?
    ensures acts[k].c in worlds[k].calls && worlds[k].calls[acts[k].c].Create?
    ensures var w' := worlds[k + 1];
            && acts[k].spawned in w'.calls && acts[k].spawned !in worlds[k].calls
            && w'.calls[acts[k].spawned] == Confirm(worlds[k].calls[acts[k].c].address, acts[k].cid, Asked)
  {
  }

  // ----- progress -----

  /** An upper bound on the acts a call has left, with those of the confirmation that
      it may start. */
  function Work(call: Call): nat {
    match call
    case Confirm(_, _, phase) =>
      (match phase
       case Asked => 5 case Polling => 4 case Waiting => 3 case Pinning => 2 case Leaving => 1 case Finished => 0)
    case Create(_, stage) => (match stage case Requested => 7 case Adding => 6 case Closed => 0)
    case NewNft(_, stage) => (match stage case Requested => 2 case Adding => 1 case Closed => 0)
  }

  ghost function Total(calls: map<CallId, Call>): nat
    decreases |calls|
  {
    if calls.Keys == {} then 0
    else
      var c :| c in calls.Keys;
      assert (calls - {c}).Keys == calls.Keys - {c};
      Work(calls[c]) + Total(calls - {c})
  }

  lemma {:induction false} TotalWithout(calls: map<CallId, Call>, c: CallId)
    requires c in calls
    ensures Total(calls) == Work(calls[c]) + Total(calls - {c})
    decreases |calls|
  {
    var d :| d in calls.Keys && Total(calls) == Work(calls[d]) + Total(calls - {d});
    if d == c {
    } else {
      assert (calls - {d}).Keys == calls.Keys - {d};
      assert (calls - {c}).Keys == calls.Keys - {c};
      TotalWithout(calls - {d}, c);
      TotalWithout(calls - {c}, d);
      assert calls - {d} - {c} == calls - {c} - {d};
    }
  }

  lemma TotalUpdate(calls: map<CallId, Call>, c: CallId, call: Call)
    ensures Total(calls[c := call]) == Work(call) + Total(calls - {c})
    ensures c !in calls ==> Total(calls - {c}) == Total(calls)
  {
    TotalWithout(calls[c := call], c);
    assert calls[c := call] - {c} == calls - {c};
    assert c !in calls ==> calls - {c} == calls;
  }

  /** Every act of a call uses up work, so a run without arrivals and cancellations ends,
      and by the absence of deadlock it ends with every call done. */
  lemma ActsUseWork(w: World, act: Act)
    requires WorldOk(w) && Allowed(w, act) && !External(act)
    ensures Total(Perform(w, act).calls) < Total(w.calls)
  {
    hide Inv, Enabled, Next;
    var call := if act.Drop? then Finish(w.calls[act.c]) else CallAfter(w, act, Next(w.locks, LockStep(w, act)));
    TotalWithout(w.calls, act.c);
    TotalUpdate(w.calls, act.c, call);
    if act.AddEnds? {
      TotalUpdate(w.calls[act.c := call], act.spawned, Confirm(w.calls[act.c].address, act.cid, Asked));
    }
  }

  lemma {:induction false} RunsEnd(worlds: seq<World>, acts: seq<Act>, j: nat, k: nat)
    requires Running(worlds, acts) && j <= k < |worlds|
    requires forall i :: j <= i < k ==> !External(acts[i])
    ensures k - j <= Total(worlds[j].calls) - Total(worlds[k].calls)
  {
    hide WorldOk, Allowed, Perform, Total;
    if j == k {
    } else {
      RunsEnd(worlds, acts, j, k - 1);
      RunningOk(worlds, acts, k - 1);
      ActsUseWork(worlds[k - 1], acts[k - 1]);
    }
  }
}
