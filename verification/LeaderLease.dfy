/** The leased leader loop: any number of nodes compete for one etcd lock, the winner
    runs the bot's polling next to a loop that refreshes the lease, and gives the lock
    back when either ends. Time is real, etcd and the network are free to delay, lose
    or repeat, and nodes may crash at any moment. */
module LeaderLease {

  type NodeId = nat
  type LeaseId = nat

  /** `rpc` bounds one etcd call with the wake-up after it, `ttl` is what a lease is
      granted for. */
  datatype Params = Params(rpc: real, ttl: real)

  /** Calls take time and a lease is granted for some. */
  ghost predicate Sensible(p: Params) {
    p.rpc >= 0.0 && p.ttl > 0.0
  }

  /** The granted TTL covers ten calls. */
  ghost predicate LongLease(p: Params) {
    Sensible(p) && 10.0 * p.rpc <= p.ttl
  }

  /** The TTL in an answer that etcd has given and the node has not yet read. */
  datatype Reply = NoReply | Ttl(ttl: real, servedAt: real)

  datatype Phase =
    | Idle                        // not holding: before, between and after cycles
    | Acquiring(sent: real)
    | Querying(sent: real)        // both children run; the refresh loop asks for the TTL
    | Sleeping(wake: real)
    | Refreshing(sent: real)
    | Ending                      // a child ended: both are cancelled and awaited
    | Releasing

  datatype Node = Node(phase: Phase, lease: LeaseId, polling: bool, reply: Reply)

  datatype Binding = Unbound | Bound(lease: LeaseId, expiry: real)

  /** `acquires` and `releases` are requests that may still reach etcd, however late;
      `granted` are the acquires it has answered with success. */
  datatype Etcd = Etcd(bound: Binding, acquires: map<LeaseId, real>, granted: set<LeaseId>, releases: set<LeaseId>)

  datatype State = State(now: real, nodes: map<NodeId, Node>, etcd: Etcd, nextLease: LeaseId)

  datatype Step =
    | Elapse(d: real)
    | SendAcquire(i: NodeId)
    | ServeAcquire(lease: LeaseId, expiry: real)
    | AcquireReply(i: NodeId)
    | AcquireFail(i: NodeId)
    | ServeQuery(i: NodeId, ttl: real)
    | QueryReply(i: NodeId)
    | SendRefresh(i: NodeId)
    | ServeRefresh(i: NodeId, expiry: real)
    | RefreshReply(i: NodeId)
    | RpcFail(i: NodeId)
    | PollEnds(i: NodeId)
    | Cancel(i: NodeId)
    | StopChildren(i: NodeId)
    | ServeRelease(lease: LeaseId)
    | ReleaseDone(i: NodeId)
    | Expire
    | Extend(expiry: real)        // a refresh that etcd serves after its caller gave up
    | Crash(i: NodeId)

  const IDLE := Node(Idle, 0, false, NoReply)

  predicate Holding(n: Node) {
    n.phase.Querying? || n.phase.Sleeping? || n.phase.Refreshing?
  }

  /** How long a node may let time pass: calls end in time, a sleep ends when it is
      due, and cancelled children stop promptly. Acquiring takes two calls, one for the
      lease and one for the lock. */
  predicate MayReach(p: Params, n: Node, t: real) {
    match n.phase
    case Acquiring(sent) => t <= sent + 2.0 * p.rpc
    case Querying(sent) => t <= sent + p.rpc
    case Sleeping(wake) => t <= wake
    case Refreshing(sent) => t <= sent + p.rpc
    case Ending => !n.polling
    case Idle => true
    case Releasing => true
  }

  predicate BoundTo(e: Etcd, lease: LeaseId) {
    e.bound.Bound? && e.bound.lease == lease
  }

  ghost predicate Enabled(p: Params, s: State, step: Step) {
    match step
    case Elapse(d) =>
      d > 0.0 && forall i :: i in s.nodes ==> MayReach(p, s.nodes[i], s.now + d)
    case SendAcquire(i) => i in s.nodes && s.nodes[i].phase.Idle?
    case ServeAcquire(lease, expiry) =>
      lease in s.etcd.acquires && s.etcd.bound.Unbound? && expiry >= s.etcd.acquires[lease] + p.ttl
    case AcquireReply(i) => i in s.nodes && s.nodes[i].phase.Acquiring? && s.nodes[i].lease in s.etcd.granted
    case AcquireFail(i) => i in s.nodes && s.nodes[i].phase.Acquiring?
    case ServeQuery(i, ttl) =>
      && i in s.nodes && s.nodes[i].phase.Querying? && s.nodes[i].reply.NoReply?
      && (if BoundTo(s.etcd, s.nodes[i].lease)
          then s.etcd.bound.expiry - s.now - 1.0 < ttl <= s.etcd.bound.expiry - s.now
          else ttl == -1.0)
    case QueryReply(i) => i in s.nodes && s.nodes[i].phase.Querying? && s.nodes[i].reply.Ttl?
    case SendRefresh(i) => i in s.nodes && s.nodes[i].phase.Sleeping? && s.now >= s.nodes[i].phase.wake
    case ServeRefresh(i, expiry) =>
      && i in s.nodes && s.nodes[i].phase.Refreshing? && s.nodes[i].reply.NoReply?
      && (BoundTo(s.etcd, s.nodes[i].lease) ==> expiry >= s.now + p.ttl && expiry >= s.etcd.bound.expiry)
    case RefreshReply(i) => i in s.nodes && s.nodes[i].phase.Refreshing? && s.nodes[i].reply.Ttl?
    case RpcFail(i) => i in s.nodes && (s.nodes[i].phase.Querying? || s.nodes[i].phase.Refreshing?)
    case PollEnds(i) => i in s.nodes && Holding(s.nodes[i])
    case Cancel(i) => i in s.nodes && Holding(s.nodes[i])
    case StopChildren(i) => i in s.nodes && s.nodes[i].phase.Ending?
    case ServeRelease(lease) => lease in s.etcd.releases
    case ReleaseDone(i) => i in s.nodes && s.nodes[i].phase.Releasing?
    case Expire => s.etcd.bound.Bound? && s.now > s.etcd.bound.expiry
    case Extend(expiry) => s.etcd.bound.Bound? && expiry >= s.etcd.bound.expiry
    case Crash(i) => i in s.nodes
  }

  function Put(s: State, i: NodeId, n: Node): State {
    s.(nodes := s.nodes[i := n])
  }

  /** refresh_loop: sleep for three quarters of the TTL it was told. */
  function SleepOn(n: Node, now: real, ttl: real): Node {
    n.(phase := Sleeping(now + 0.75 * ttl), reply := NoReply)
  }

  function End(n: Node): Node {
    n.(phase := Ending, reply := NoReply)
  }

  ghost function Next(p: Params, s: State, step: Step): State
    requires Enabled(p, s, step)
  {
    var e := s.etcd;
    match step
    case Elapse(d) => s.(now := s.now + d)
    case SendAcquire(i) =>
      Put(s, i, Node(Acquiring(s.now), s.nextLease, false, NoReply))
        .(etcd := e.(acquires := e.acquires[s.nextLease := s.now]), nextLease := s.nextLease + 1)
    case ServeAcquire(lease, expiry) =>
      s.(etcd := e.(bound := Bound(lease, expiry), acquires := e.acquires - {lease}, granted := e.granted + {lease}))
    case AcquireReply(i) => Put(s, i, Node(Querying(s.now), s.nodes[i].lease, true, NoReply))
    case AcquireFail(i) => Put(s, i, IDLE)
    case ServeQuery(i, ttl) => Put(s, i, s.nodes[i].(reply := Ttl(ttl, s.now)))
    case QueryReply(i) => Put(s, i, SleepOn(s.nodes[i], s.now, s.nodes[i].reply.ttl))
    case SendRefresh(i) => Put(s, i, s.nodes[i].(phase := Refreshing(s.now), reply := NoReply))
    case ServeRefresh(i, expiry) =>
      if BoundTo(e, s.nodes[i].lease) then
        Put(s, i, s.nodes[i].(reply := Ttl(p.ttl, s.now))).(etcd := e.(bound := e.bound.(expiry := expiry)))
      else
        Put(s, i, s.nodes[i].(reply := Ttl(0.0, s.now)))
    case RefreshReply(i) =>
      Put(s, i, if s.nodes[i].reply.ttl <= 0.0 then End(s.nodes[i])
                else SleepOn(s.nodes[i], s.now, s.nodes[i].reply.ttl))
    case RpcFail(i) => Put(s, i, End(s.nodes[i]))
    case PollEnds(i) => Put(s, i, End(s.nodes[i]).(polling := false))
    case Cancel(i) => Put(s, i, End(s.nodes[i]))
    case StopChildren(i) =>
      Put(s, i, s.nodes[i].(phase := Releasing, polling := false))
        .(etcd := e.(releases := e.releases + {s.nodes[i].lease}))
    case ServeRelease(lease) =>
      if BoundTo(e, lease) then s.(etcd := e.(bound := Unbound)) else s
    case ReleaseDone(i) => Put(s, i, IDLE)
    case Expire => s.(etcd := e.(bound := Unbound))
    case Extend(expiry) => s.(etcd := e.(bound := e.bound.(expiry := expiry)))
    case Crash(i) => Put(s, i, IDLE)
  }

  ghost predicate Initial(s: State) {
    && (forall i :: i in s.nodes ==> s.nodes[i] == IDLE)
    && s.etcd == Etcd(Unbound, map[], {}, {})
  }

  // ----- the invariant -----

  /** etcd keeps the lock bound to the lease at least until the given time. */
  ghost predicate HeldUntil(e: Etcd, lease: LeaseId, until: real) {
    BoundTo(e, lease) && until <= e.bound.expiry && lease !in e.releases
  }

  ghost predicate NodeOk(p: Params, now: real, e: Etcd, n: Node) {
    && n.polling == (Holding(n) || (n.phase.Ending? && n.polling))
    && match n.phase
       case Idle => true
       case Acquiring(sent) =>
         && sent <= now <= sent + 2.0 * p.rpc
         && n.lease !in e.releases
         && (n.lease in e.acquires ==> e.acquires[n.lease] == sent && n.lease !in e.granted)
         && (n.lease in e.granted ==> HeldUntil(e, n.lease, sent + p.ttl))
       case Querying(sent) =>
         && sent <= now <= sent + p.rpc
         && HeldUntil(e, n.lease, sent + p.ttl - 2.0 * p.rpc)
         && (n.reply.Ttl? ==>
              && sent <= n.reply.servedAt <= now
              && n.reply.ttl > p.ttl - 3.0 * p.rpc - 1.0
              && HeldUntil(e, n.lease, n.reply.servedAt + n.reply.ttl))
       case Sleeping(wake) =>
         n.reply.NoReply? && HeldUntil(e, n.lease, now + p.rpc) && HeldUntil(e, n.lease, wake + p.rpc)
       case Refreshing(sent) =>
         && sent <= now <= sent + p.rpc
         && HeldUntil(e, n.lease, sent + p.rpc)
         && (n.reply.Ttl? ==>
              && sent <= n.reply.servedAt <= now
              && n.reply.ttl == p.ttl
              && HeldUntil(e, n.lease, n.reply.servedAt + p.ttl))
       case Ending => n.reply.NoReply? && (n.polling ==> HeldUntil(e, n.lease, now))
       case Releasing => true
  }

  ghost predicate LeasesBelow(e: Etcd, next: LeaseId) {
    && (forall l :: l in e.acquires ==> l < next)
    && (forall l :: l in e.granted ==> l < next)
    && (forall l :: l in e.releases ==> l < next)
    && (e.bound.Bound? ==> e.bound.lease < next)
  }

  ghost predicate Inv(p: Params, s: State) {
    && (forall i :: i in s.nodes ==> NodeOk(p, s.now, s.etcd, s.nodes[i]))
    && (forall i :: i in s.nodes && !s.nodes[i].phase.Idle? ==> s.nodes[i].lease < s.nextLease)
    && (forall i, j | i in s.nodes && j in s.nodes && i != j ::
         s.nodes[i].phase.Idle? || s.nodes[j].phase.Idle? || s.nodes[i].lease != s.nodes[j].lease)
    && LeasesBelow(s.etcd, s.nextLease)
  }

  // ----- what each step keeps -----

  /** What a node takes for granted about etcd, when another party moves etcd on. */
  ghost predicate Undisturbed(e: Etcd, e': Etcd, lease: LeaseId) {
    && (BoundTo(e, lease) ==> BoundTo(e', lease) && e'.bound.expiry >= e.bound.expiry)
    && (lease in e'.releases ==> lease in e.releases)
    && (lease in e'.acquires ==> lease in e.acquires && e'.acquires[lease] == e.acquires[lease])
    && (lease in e'.granted ==> lease in e.granted)
  }

  lemma OthersKeep(p: Params, now: real, e: Etcd, e': Etcd, n: Node)
    requires NodeOk(p, now, e, n) && (n.phase.Idle? || Undisturbed(e, e', n.lease))
    ensures NodeOk(p, now, e', n)
  {
  }

  lemma TimePasses(p: Params, now: real, d: real, e: Etcd, n: Node)
    requires NodeOk(p, now, e, n) && d > 0.0 && MayReach(p, n, now + d)
    ensures NodeOk(p, now + d, e, n)
  {
  }

  /** etcd serving an acquire: the lock was free, so no node relied on it. */
  lemma ServeAcquireKeeps(p: Params, now: real, e: Etcd, lease: LeaseId, expiry: real, n: Node)
    requires NodeOk(p, now, e, n) && lease in e.acquires && e.bound.Unbound?
    requires expiry >= e.acquires[lease] + p.ttl
    ensures NodeOk(p, now, e.(bound := Bound(lease, expiry), acquires := e.acquires - {lease},
                              granted := e.granted + {lease}), n)
  {
  }

  /** A lease that a node counts on has not run out. */
  lemma NotYetExpired(p: Params, now: real, e: Etcd, n: Node)
    requires LongLease(p) && NodeOk(p, now, e, n) && e.bound.Bound? && now > e.bound.expiry
    ensures n.phase.Idle? || !BoundTo(e, n.lease) || n.phase.Releasing? || !n.polling
    ensures n.phase.Acquiring? && BoundTo(e, n.lease) ==> n.lease !in e.granted
  {
  }

  lemma ExpireKeeps(p: Params, now: real, e: Etcd, n: Node)
    requires LongLease(p) && NodeOk(p, now, e, n) && e.bound.Bound? && now > e.bound.expiry
    ensures NodeOk(p, now, e.(bound := Unbound), n)
  {
    NotYetExpired(p, now, e, n);
  }

  lemma ServeReleaseKeeps(p: Params, now: real, e: Etcd, lease: LeaseId, n: Node)
    requires NodeOk(p, now, e, n) && lease in e.releases && BoundTo(e, lease)
    ensures NodeOk(p, now, e.(bound := Unbound), n)
  {
  }

  lemma ServeQueryKeeps(p: Params, now: real, e: Etcd, n: Node, ttl: real)
    requires LongLease(p) && NodeOk(p, now, e, n) && n.phase.Querying? && n.reply.NoReply?
    requires e.bound.Bound? ==> e.bound.expiry - now - 1.0 < ttl <= e.bound.expiry - now
    ensures NodeOk(p, now, e, n.(reply := Ttl(ttl, now)))
  {
  }

  /** Sleeping for three quarters of a reported TTL leaves time for two calls: the one
      that reported it and the refresh to come. A sleep of no length is over at once. */
  lemma SleepKeeps(p: Params, now: real, e: Etcd, n: Node)
    requires LongLease(p) && NodeOk(p, now, e, n) && n.reply.Ttl?
    requires n.phase.Querying? || n.phase.Refreshing?
    ensures NodeOk(p, now, e, SleepOn(n, now, n.reply.ttl))
  {
  }

  lemma EndKeeps(p: Params, now: real, e: Etcd, n: Node)
    requires p.rpc >= 0.0 && 3.0 * p.rpc <= p.ttl && NodeOk(p, now, e, n) && Holding(n)
    ensures NodeOk(p, now, e, End(n)) && NodeOk(p, now, e, End(n).(polling := false))
  {
  }

  lemma PutKeeps(p: Params, s: State, i: NodeId, n: Node)
    requires Inv(p, s) && i in s.nodes && NodeOk(p, s.now, s.etcd, n)
    requires n.phase.Idle? || (n.lease == s.nodes[i].lease && !s.nodes[i].phase.Idle?)
    ensures Inv(p, Put(s, i, n))
  {
  }

  lemma EtcdKeeps(p: Params, s: State, e': Etcd)
    requires Inv(p, s) && LeasesBelow(e', s.nextLease)
    requires forall i :: i in s.nodes ==> NodeOk(p, s.now, e', s.nodes[i])
    ensures Inv(p, s.(etcd := e'))
  {
  }

  lemma SendAcquireKeeps(p: Params, s: State, i: NodeId)
    requires LongLease(p) && Inv(p, s) && i in s.nodes && s.nodes[i].phase.Idle?
    ensures Inv(p, Next(p, s, SendAcquire(i)))
  {
    var e' := s.etcd.(acquires := s.etcd.acquires[s.nextLease := s.now]);
    forall j | j in s.nodes ensures NodeOk(p, s.now, e', s.nodes[j]) {
      OthersKeep(p, s.now, s.etcd, e', s.nodes[j]);
    }
    assert NodeOk(p, s.now, e', Node(Acquiring(s.now), s.nextLease, false, NoReply));
  }

  lemma StopChildrenKeeps(p: Params, s: State, i: NodeId)
    requires Inv(p, s) && i in s.nodes && s.nodes[i].phase.Ending?
    ensures Inv(p, Next(p, s, StopChildren(i)))
  {
    var n := s.nodes[i];
    var stopped := Put(s, i, n.(phase := Releasing, polling := false));
    var e' := s.etcd.(releases := s.etcd.releases + {n.lease});
    PutKeeps(p, s, i, stopped.nodes[i]);
    forall j | j in stopped.nodes ensures NodeOk(p, s.now, e', stopped.nodes[j]) {
      if j != i {
        OthersKeep(p, s.now, s.etcd, e', s.nodes[j]);
      }
    }
    EtcdKeeps(p, stopped, e');
  }

  lemma ServeRefreshKeeps(p: Params, s: State, i: NodeId, expiry: real)
    requires LongLease(p) && Inv(p, s) && Enabled(p, s, ServeRefresh(i, expiry))
    ensures Inv(p, Next(p, s, ServeRefresh(i, expiry)))
  {
    var n := s.nodes[i];
    assert BoundTo(s.etcd, n.lease);
    var e' := s.etcd.(bound := s.etcd.bound.(expiry := expiry));
    forall j | j in s.nodes ensures NodeOk(p, s.now, e', s.nodes[j]) {
      OthersKeep(p, s.now, s.etcd, e', s.nodes[j]);
    }
    EtcdKeeps(p, s, e');
    PutKeeps(p, s.(etcd := e'), i, n.(reply := Ttl(p.ttl, s.now)));
  }

  lemma EtcdStepKeeps(p: Params, s: State, step: Step)
    requires LongLease(p) && Inv(p, s) && Enabled(p, s, step)
    requires step.ServeAcquire? || step.ServeRelease? || step.Expire? || step.Extend?
    ensures Inv(p, Next(p, s, step))
  {
    var e, e' := s.etcd, Next(p, s, step).etcd;
    assert step.ServeAcquire? ==> step.lease < s.nextLease;
    assert LeasesBelow(e', s.nextLease);
    forall j | j in s.nodes ensures NodeOk(p, s.now, e', s.nodes[j]) {
      match step
      case ServeAcquire(lease, expiry) => ServeAcquireKeeps(p, s.now, e, lease, expiry, s.nodes[j]);
      case ServeRelease(lease) => if BoundTo(e, lease) { ServeReleaseKeeps(p, s.now, e, lease, s.nodes[j]); }
      case Expire => ExpireKeeps(p, s.now, e, s.nodes[j]);
      case Extend(expiry) => OthersKeep(p, s.now, e, e', s.nodes[j]);
    }
    EtcdKeeps(p, s, e');
  }

  lemma QueryReplyKeeps(p: Params, s: State, i: NodeId)
    requires LongLease(p) && Inv(p, s) && Enabled(p, s, QueryReply(i))
    ensures Inv(p, Next(p, s, QueryReply(i)))
  {
    var n := s.nodes[i];
    SleepKeeps(p, s.now, s.etcd, n);
    PutKeeps(p, s, i, SleepOn(n, s.now, n.reply.ttl));
  }

  /** The steps of a node that is getting or keeping the lock. */
  lemma NodeStepKeeps(p: Params, s: State, step: Step)
    requires LongLease(p) && Inv(p, s) && Enabled(p, s, step)
    requires step.AcquireReply? || step.ServeQuery? || step.QueryReply? || step.SendRefresh? || step.RefreshReply?
    ensures Inv(p, Next(p, s, step))
  {
    var n := s.nodes[step.i];
    match step
    case AcquireReply(i) => PutKeeps(p, s, i, Node(Querying(s.now), n.lease, true, NoReply));
    case ServeQuery(i, ttl) =>
      ServeQueryKeeps(p, s.now, s.etcd, n, ttl);
      PutKeeps(p, s, i, n.(reply := Ttl(ttl, s.now)));
    case QueryReply(i) => QueryReplyKeeps(p, s, i);
    case SendRefresh(i) => PutKeeps(p, s, i, n.(phase := Refreshing(s.now), reply := NoReply));
    case RefreshReply(i) =>
      SleepKeeps(p, s.now, s.etcd, n);
      PutKeeps(p, s, i, SleepOn(n, s.now, n.reply.ttl));
  }

  /** And of one that has failed or is giving it up. */
  lemma NodeEndKeeps(p: Params, s: State, step: Step)
    requires LongLease(p) && Inv(p, s) && Enabled(p, s, step)
    requires step.AcquireFail? || step.RpcFail? || step.PollEnds? || step.Cancel? || step.ReleaseDone? || step.Crash?
    ensures Inv(p, Next(p, s, step))
  {
    var n := s.nodes[step.i];
    match step
    case AcquireFail(i) => PutKeeps(p, s, i, IDLE);
    case RpcFail(i) => EndKeeps(p, s.now, s.etcd, n); PutKeeps(p, s, i, End(n));
    case PollEnds(i) => EndKeeps(p, s.now, s.etcd, n); PutKeeps(p, s, i, End(n).(polling := false));
    case Cancel(i) => EndKeeps(p, s.now, s.etcd, n); PutKeeps(p, s, i, End(n));
    case ReleaseDone(i) => PutKeeps(p, s, i, IDLE);
    case Crash(i) => PutKeeps(p, s, i, IDLE);
  }

  /** Every step of every party keeps the invariant. */
  lemma StepKeeps(p: Params, s: State, step: Step)
    requires LongLease(p) && Inv(p, s) && Enabled(p, s, step)
    ensures Inv(p, Next(p, s, step))
  {
    match step
    case Elapse(d) =>
      forall i | i in s.nodes ensures NodeOk(p, s.now + d, s.etcd, s.nodes[i]) {
        TimePasses(p, s.now, d, s.etcd, s.nodes[i]);
      }
    case SendAcquire(i) => SendAcquireKeeps(p, s, i);
    case ServeRefresh(i, expiry) => ServeRefreshKeeps(p, s, i, expiry);
    case StopChildren(i) => StopChildrenKeeps(p, s, i);
    case ServeAcquire(_, _) => EtcdStepKeeps(p, s, step);
    case ServeRelease(_) => EtcdStepKeeps(p, s, step);
    case Expire => EtcdStepKeeps(p, s, step);
    case Extend(_) => EtcdStepKeeps(p, s, step);
    case AcquireReply(_) => NodeStepKeeps(p, s, step);
    case ServeQuery(_, _) => NodeStepKeeps(p, s, step);
    case QueryReply(_) => NodeStepKeeps(p, s, step);
    case SendRefresh(_) => NodeStepKeeps(p, s, step);
    case RefreshReply(_) => NodeStepKeeps(p, s, step);
    case _ => NodeEndKeeps(p, s, step);
  }

  lemma Keeps(p: Params, s: State, step: Step)
    requires Enabled(p, s, step)
    ensures LongLease(p) && Inv(p, s) ==> Inv(p, Next(p, s, step))
  {
    if LongLease(p) && Inv(p, s) {
      StepKeeps(p, s, step);
    }
  }

  // ----- runs -----

  ghost predicate Run(p: Params, states: seq<State>, steps: seq<Step>) {
    && |states| == |steps| + 1
    && Initial(states[0])
    && (forall k :: 0 <= k < |steps| ==>
         Enabled(p, states[k], steps[k]) && states[k + 1] == Next(p, states[k], steps[k]))
  }

  lemma {:induction false} RunInv(p: Params, states: seq<State>, steps: seq<Step>, k: nat)
    requires LongLease(p) && Run(p, states, steps) && k < |states|
    ensures Inv(p, states[k])
  {
    if k == 0 {
    } else {
      RunInv(p, states, steps, k - 1);
      StepKeeps(p, states[k - 1], steps[k - 1]);
    }
  }

  /** At most one node is polling, at every moment of every run. */
  lemma AtMostOnePolls(p: Params, states: seq<State>, steps: seq<Step>, k: nat, i: NodeId, j: NodeId)
    requires LongLease(p) && Run(p, states, steps) && k < |states|
    requires i in states[k].nodes && states[k].nodes[i].polling
    requires j in states[k].nodes && states[k].nodes[j].polling
    ensures i == j
  {
    RunInv(p, states, steps, k);
    assert NodeOk(p, states[k].now, states[k].etcd, states[k].nodes[i]);
    assert NodeOk(p, states[k].now, states[k].etcd, states[k].nodes[j]);
  }

  /** A node that polls holds an unexpired lease on the lock, and has not asked for its
      release: the loop has renewed it or stops the child in time. */
  lemma PollingIsLeased(p: Params, states: seq<State>, steps: seq<Step>, k: nat, i: NodeId)
    requires LongLease(p) && Run(p, states, steps) && k < |states|
    requires i in states[k].nodes && states[k].nodes[i].polling
    ensures HeldUntil(states[k].etcd, states[k].nodes[i].lease, states[k].now)
  {
    RunInv(p, states, steps, k);
    assert NodeOk(p, states[k].now, states[k].etcd, states[k].nodes[i]);
  }

  /** Every TTL that etcd reports to a polling node is the granted one, but for three
      calls and the second lost in rounding. Of a lease of eleven calls and a second,
      the quarter that the loop does not sleep then covers two calls. */
  lemma ReportedTtlIsLong(p: Params, states: seq<State>, steps: seq<Step>, k: nat, i: NodeId)
    requires LongLease(p) && Run(p, states, steps) && k < |states|
    requires i in states[k].nodes && states[k].nodes[i].polling && states[k].nodes[i].reply.Ttl?
    ensures states[k].nodes[i].reply.ttl > p.ttl - 3.0 * p.rpc - 1.0
    ensures 11.0 * p.rpc + 1.0 <= p.ttl ==> 0.25 * states[k].nodes[i].reply.ttl >= 2.0 * p.rpc
  {
    RunInv(p, states, steps, k);
    assert NodeOk(p, states[k].now, states[k].etcd, states[k].nodes[i]);
  }

  /** The configured 60 second lease is long enough for the configured 5 second calls. */
  lemma ConfiguredLeaseIsLong()
    ensures var p := Params(5.0, 60.0); LongLease(p) && 11.0 * p.rpc + 1.0 <= p.ttl
  {
  }

  // ----- a lease that is too short -----

  function Two(now: real, a: Node, b: Node, e: Etcd, next: LeaseId): State {
    State(now, map[0 := a, 1 := b], e, next)
  }

  lemma PutTwo(now: real, a: Node, b: Node, e: Etcd, next: LeaseId, n: Node)
    ensures Put(Two(now, a, b, e, next), 0, n) == Two(now, n, b, e, next)
    ensures Put(Two(now, a, b, e, next), 1, n) == Two(now, a, n, e, next)
  {
  }

  /** A run that ends in s. */
  ghost predicate Reaches(p: Params, s: State) {
    exists states: seq<State>, steps: seq<Step> :: Run(p, states, steps) && states[|steps|] == s
  }

  lemma RunOn(p: Params, states: seq<State>, steps: seq<Step>, step: Step)
    requires Run(p, states, steps) && Enabled(p, states[|steps|], step)
    ensures Run(p, states + [Next(p, states[|steps|], step)], steps + [step])
  {
  }

  lemma GoOn(p: Params, s: State, step: Step)
    requires Reaches(p, s) && Enabled(p, s, step)
    ensures Reaches(p, Next(p, s, step))
  {
    hide Next, Enabled;
    var states: seq<State>, steps: seq<Step> :| Run(p, states, steps) && states[|steps|] == s;
    RunOn(p, states, steps, step);
    var longer := states + [Next(p, s, step)];
    assert longer[|steps + [step]|] == Next(p, s, step);
  }

  lemma RunStarts(p: Params, s: State)
    requires Initial(s)
    ensures Reaches(p, s)
  {
    var states: seq<State>, steps: seq<Step> := [s], [];
    assert Run(p, states, steps) && states[|steps|] == s;
  }

  const FREE := Etcd(Unbound, map[], {0}, {})
  const SECOND := Etcd(Unbound, map[], {0, 1}, {})

  /** The winner's acquire is served at once, */
  lemma FirstAsks(p: Params)
    requires p.rpc > 0.0 && p.ttl > 0.0
    ensures Reaches(p, Two(0.0, Node(Acquiring(0.0), 0, false, NoReply), IDLE, FREE.(bound := Bound(0, p.ttl)), 1))
  {
    hide Reaches;
    var s0 := Two(0.0, IDLE, IDLE, Etcd(Unbound, map[], {}, {}), 0);
    RunStarts(p, s0);
    var asking := Node(Acquiring(0.0), 0, false, NoReply);
    PutTwo(0.0, IDLE, IDLE, s0.etcd, 0, asking);
    GoOn(p, s0, SendAcquire(0));
    assert map[0 := 0.0] - {0} == map[];
    var s1 := Two(0.0, asking, IDLE, Etcd(Unbound, map[0 := 0.0], {}, {}), 1);
    GoOn(p, s1, ServeAcquire(0, p.ttl));
    assert Next(p, s1, ServeAcquire(0, p.ttl)) == Two(0.0, asking, IDLE, FREE.(bound := Bound(0, p.ttl)), 1);
  }

  /** and its answer takes its two calls. */
  lemma FirstWins(p: Params)
    requires p.rpc > 0.0 && p.ttl > 0.0
    ensures Reaches(p, Two(2.0 * p.rpc, Node(Querying(2.0 * p.rpc), 0, true, NoReply), IDLE,
                           FREE.(bound := Bound(0, p.ttl)), 1))
  {
    hide Reaches;
    FirstAsks(p);
    var asking, e := Node(Acquiring(0.0), 0, false, NoReply), FREE.(bound := Bound(0, p.ttl));
    GoOn(p, Two(0.0, asking, IDLE, e, 1), Elapse(2.0 * p.rpc));
    PutTwo(2.0 * p.rpc, asking, IDLE, e, 1, Node(Querying(2.0 * p.rpc), 0, true, NoReply));
    GoOn(p, Two(2.0 * p.rpc, asking, IDLE, e, 1), AcquireReply(0));
  }

  /** A lease of less than three calls runs out during the first query. */
  lemma LostInQuery(p: Params)
    requires p.rpc > 0.0 && 0.0 < p.ttl < 3.0 * p.rpc
    ensures Reaches(p, Two(3.0 * p.rpc, Node(Querying(2.0 * p.rpc), 0, true, NoReply), IDLE, FREE, 1))
  {
    hide Reaches;
    FirstWins(p);
    var n, e := Node(Querying(2.0 * p.rpc), 0, true, NoReply), FREE.(bound := Bound(0, p.ttl));
    GoOn(p, Two(2.0 * p.rpc, n, IDLE, e, 1), Elapse(p.rpc));
    GoOn(p, Two(3.0 * p.rpc, n, IDLE, e, 1), Expire);
  }

  lemma LostAsleep(p: Params, wake: real, e: Etcd)
    requires p.rpc > 0.0 && 3.0 * p.rpc <= p.ttl < 10.0 * p.rpc
    requires wake == 1.5 * p.rpc + 0.75 * p.ttl && e == FREE.(bound := Bound(0, p.ttl))
    requires Reaches(p, Two(3.0 * p.rpc, Node(Sleeping(wake), 0, true, NoReply), IDLE, e, 1))
    ensures Reaches(p, Two(wake + p.rpc, Node(Refreshing(wake), 0, true, NoReply), IDLE, FREE, 1))
  {
    hide Reaches;
    var asleep, n := Node(Sleeping(wake), 0, true, NoReply), Node(Refreshing(wake), 0, true, NoReply);
    GoOn(p, Two(3.0 * p.rpc, asleep, IDLE, e, 1), Elapse(wake - 3.0 * p.rpc));
    PutTwo(wake, asleep, IDLE, e, 1, n);
    GoOn(p, Two(wake, asleep, IDLE, e, 1), SendRefresh(0));
    GoOn(p, Two(wake, n, IDLE, e, 1), Elapse(p.rpc));
    GoOn(p, Two(wake + p.rpc, n, IDLE, e, 1), Expire);
  }

  /** One of less than ten runs out during the first refresh: the query is served as
      early as it can be, and both answers are read as late as they can be. */
  lemma LostInRefresh(p: Params)
    requires p.rpc > 0.0 && 3.0 * p.rpc <= p.ttl < 10.0 * p.rpc
    ensures var wake := 1.5 * p.rpc + 0.75 * p.ttl;
            Reaches(p, Two(wake + p.rpc, Node(Refreshing(wake), 0, true, NoReply), IDLE, FREE, 1))
  {
    hide Reaches;
    FirstWins(p);
    var two, told := 2.0 * p.rpc, p.ttl - 2.0 * p.rpc;
    var wake := 1.5 * p.rpc + 0.75 * p.ttl;
    var n, e := Node(Querying(two), 0, true, NoReply), FREE.(bound := Bound(0, p.ttl));
    var answered := n.(reply := Ttl(told, two));
    PutTwo(two, n, IDLE, e, 1, answered);
    GoOn(p, Two(two, n, IDLE, e, 1), ServeQuery(0, told));
    GoOn(p, Two(two, answered, IDLE, e, 1), Elapse(p.rpc));
    var asleep := Node(Sleeping(wake), 0, true, NoReply);
    assert SleepOn(answered, 3.0 * p.rpc, told) == asleep;
    PutTwo(two + p.rpc, answered, IDLE, e, 1, asleep);
    GoOn(p, Two(two + p.rpc, answered, IDLE, e, 1), QueryReply(0));
    LostAsleep(p, wake, e);
  }

  /** Once the lock is free a second node wins it, and polls. */
  lemma SecondWins(p: Params, now: real, first: Node)
    requires Reaches(p, Two(now, first, IDLE, FREE, 1))
    ensures var second := Node(Querying(now), 1, true, NoReply);
            Reaches(p, Two(now, first, second, SECOND.(bound := Bound(1, now + p.ttl)), 2))
  {
    hide Reaches;
    var asking := Node(Acquiring(now), 1, false, NoReply);
    PutTwo(now, first, IDLE, FREE, 1, asking);
    GoOn(p, Two(now, first, IDLE, FREE, 1), SendAcquire(1));
    var e := SECOND.(bound := Bound(1, now + p.ttl));
    assert map[1 := now] - {1} == map[];
    assert FREE.granted + {1} == {0, 1};
    GoOn(p, Two(now, first, asking, FREE.(acquires := map[1 := now]), 2), ServeAcquire(1, now + p.ttl));
    PutTwo(now, first, asking, e, 2, Node(Querying(now), 1, true, NoReply));
    GoOn(p, Two(now, first, asking, e, 2), AcquireReply(1));
  }

  /** Two nodes poll at once. */
  ghost predicate TwoPoll(s: State) {
    exists i, j | i in s.nodes && j in s.nodes :: i != j && s.nodes[i].polling && s.nodes[j].polling
  }

  /** Any lease of less than ten calls fails: there is a run in which a second node wins
      the lock and polls beside the first, which has not heard of its loss. */
  lemma ShortLeaseFails(p: Params) returns (s: State)
    requires Sensible(p) && p.ttl < 10.0 * p.rpc
    ensures Reaches(p, s) && TwoPoll(s)
  {
    var now, first;
    if p.ttl < 3.0 * p.rpc {
      LostInQuery(p);
      now, first := 3.0 * p.rpc, Node(Querying(2.0 * p.rpc), 0, true, NoReply);
    } else {
      LostInRefresh(p);
      var wake := 1.5 * p.rpc + 0.75 * p.ttl;
      now, first := wake + p.rpc, Node(Refreshing(wake), 0, true, NoReply);
    }
    SecondWins(p, now, first);
    s := Two(now, first, Node(Querying(now), 1, true, NoReply), SECOND.(bound := Bound(1, now + p.ttl)), 2);
    assert s.nodes[0].polling && s.nodes[1].polling;
  }

  lemma NeverTwo(p: Params, s: State)
    requires LongLease(p) && Reaches(p, s)
    ensures !TwoPoll(s)
  {
    hide Next, Enabled, Initial;
    var states: seq<State>, steps: seq<Step> :| Run(p, states, steps) && states[|steps|] == s;
    if TwoPoll(s) {
      var i, j :| i in s.nodes && j in s.nodes && i != j && s.nodes[i].polling && s.nodes[j].polling;
      AtMostOnePolls(p, states, steps, |steps|, i, j);
    }
  }

  /** The exact threshold: two nodes can come to poll at once if and only if the lease is
      shorter than ten calls. */
  lemma LeaseIsSafe(p: Params)
    requires Sensible(p)
    ensures (forall s :: Reaches(p, s) ==> !TwoPoll(s)) <==> 10.0 * p.rpc <= p.ttl
  {
    if 10.0 * p.rpc <= p.ttl {
      forall s | Reaches(p, s) ensures !TwoPoll(s) {
        NeverTwo(p, s);
      }
    } else {
      var s := ShortLeaseFails(p);
      assert Reaches(p, s) && TwoPoll(s);
    }
  }

  // ----- when a refresh fails, and when nothing answers -----

  /** An etcd error, or a refresh that reports no time left. */
  predicate Failure(s: State, step: Step) {
    || step.RpcFail?
    || (step.RefreshReply? && step.i in s.nodes && s.nodes[step.i].reply.Ttl? && s.nodes[step.i].reply.ttl <= 0.0)
  }

  /** A failed refresh ends the cycle: the node no longer holds on to the lock, and no time
      passes before its polling has been stopped, which then asks for the release. */
  lemma FailureStops(p: Params, s: State, step: Step, d: real)
    requires Enabled(p, s, step) && Failure(s, step)
    ensures var s' := Next(p, s, step); var n := s'.nodes[step.i];
            && !Holding(n) && n.lease == s.nodes[step.i].lease
            && (n.polling ==> !Enabled(p, s', Elapse(d)))
            && Enabled(p, s', StopChildren(step.i))
            && (var s'' := Next(p, s', StopChildren(step.i));
                !s''.nodes[step.i].polling && n.lease in s''.etcd.releases)
  {
    var s' := Next(p, s, step);
    assert s'.nodes[step.i].polling ==> !MayReach(p, s'.nodes[step.i], s'.now + d);
  }

  /** Once the release is served the lock is free for the next node that asks. */
  lemma ReleaseFrees(p: Params, s: State, lease: LeaseId, next: LeaseId, expiry: real)
    requires Enabled(p, s, ServeRelease(lease)) && BoundTo(s.etcd, lease)
    requires next in s.etcd.acquires && expiry >= s.etcd.acquires[next] + p.ttl
    ensures var s' := Next(p, s, ServeRelease(lease));
            s'.etcd.bound.Unbound? && Enabled(p, s', ServeAcquire(next, expiry))
  {
  }

  /** Steps of the nodes and the clock while etcd answers nothing and nobody is cancelled. */
  predicate Unanswered(step: Step) {
    step.Elapse? || step.AcquireFail? || step.SendRefresh? || step.RpcFail? || step.StopChildren?
  }

  ghost predicate Leads(p: Params, s: State, steps: seq<Step>, s': State)
    decreases |steps|
  {
    if steps == [] then s == s'
    else Unanswered(steps[0]) && Enabled(p, s, steps[0]) && Leads(p, Next(p, s, steps[0]), steps[1..], s')
  }

  lemma LeadsFirst(p: Params, s: State, step: Step, steps: seq<Step>, s': State)
    requires Unanswered(step) && Enabled(p, s, step) && Leads(p, Next(p, s, step), steps, s')
    ensures Leads(p, s, [step] + steps, s')
  {
    assert ([step] + steps)[1..] == steps;
  }

  lemma LeadsOne(p: Params, s: State, step: Step)
    requires Unanswered(step) && Enabled(p, s, step)
    ensures Leads(p, s, [step], Next(p, s, step))
  {
    LeadsFirst(p, s, step, [], Next(p, s, step));
    assert [step] + [] == [step];
  }

  lemma {:induction false} LeadsJoin(p: Params, s: State, a: seq<Step>, s1: State, b: seq<Step>, s2: State)
    requires Leads(p, s, a, s1) && Leads(p, s1, b, s2)
    ensures Leads(p, s, a + b, s2)
    decreases |a|
  {
    hide Next, Enabled;
    if a == [] {
      assert a + b == b;
    } else {
      LeadsJoin(p, Next(p, s, a[0]), a[1..], s1, b, s2);
      LeadsFirst(p, s, a[0], a[1..] + b, s2);
      assert a + b == [a[0]] + (a[1..] + b);
    }
  }

  /** The nodes that do not let time pass until then. */
  ghost function Blocking(p: Params, s: State, time: real): set<NodeId> {
    set i | i in s.nodes && !MayReach(p, s.nodes[i], time)
  }

  /** How long such a node lets it pass. */
  function Limit(p: Params, n: Node, now: real): real {
    var t := match n.phase
             case Acquiring(sent) => sent + 2.0 * p.rpc
             case Querying(sent) => sent + p.rpc
             case Refreshing(sent) => sent + p.rpc
             case Sleeping(wake) => wake
             case _ => now;
    if t > now then t else now
  }

  lemma FirstLimit(p: Params, s: State, ids: set<NodeId>) returns (i: NodeId)
    requires ids != {} && ids <= s.nodes.Keys
    ensures i in ids && forall j :: j in ids ==> Limit(p, s.nodes[i], s.now) <= Limit(p, s.nodes[j], s.now)
  {
    var k :| k in ids;
    var rest := ids - {k};
    assert ids == rest + {k};
    if rest == {} {
      i := k;
    } else {
      i := FirstLimit(p, s, rest);
      if Limit(p, s.nodes[k], s.now) < Limit(p, s.nodes[i], s.now) {
        i := k;
      }
    }
  }

  lemma PassTo(p: Params, s: State, time: real) returns (steps: seq<Step>, s': State)
    requires LongLease(p) && Inv(p, s) && time >= s.now
    requires time > s.now ==> forall j :: j in s.nodes ==> MayReach(p, s.nodes[j], time)
    ensures Leads(p, s, steps, s') && Inv(p, s') && s' == s.(now := time)
  {
    if time == s.now {
      return [], s;
    }
    var step := Elapse(time - s.now);
    StepKeeps(p, s, step);
    LeadsOne(p, s, step);
    steps, s' := [step], Next(p, s, step);
  }

  lemma StopStep(p: Params, s: State, i: NodeId)
    requires LongLease(p) && Inv(p, s) && i in s.nodes && s.nodes[i].phase.Ending?
    ensures Leads(p, s, [StopChildren(i)], Next(p, s, StopChildren(i)))
    ensures Inv(p, Next(p, s, StopChildren(i)))
    ensures var s' := Next(p, s, StopChildren(i));
            && s'.now == s.now && s'.nodes == s.nodes[i := s'.nodes[i]]
            && s'.nodes[i].phase.Releasing? && !s'.nodes[i].polling
  {
    StepKeeps(p, s, StopChildren(i));
    LeadsOne(p, s, StopChildren(i));
  }

  lemma FailStop(p: Params, s: State, i: NodeId) returns (steps: seq<Step>, s': State)
    requires LongLease(p) && Inv(p, s) && i in s.nodes
    requires s.nodes[i].phase.Querying? || s.nodes[i].phase.Refreshing?
    ensures Leads(p, s, steps, s') && Inv(p, s') && s'.now == s.now
    ensures i in s'.nodes && s'.nodes == s.nodes[i := s'.nodes[i]]
    ensures s'.nodes[i].phase.Releasing? && !s'.nodes[i].polling
  {
    StepKeeps(p, s, RpcFail(i));
    LeadsOne(p, s, RpcFail(i));
    var s1 := Next(p, s, RpcFail(i));
    StopStep(p, s1, i);
    s' := Next(p, s1, StopChildren(i));
    hide Next, Enabled, Inv;
    LeadsJoin(p, s, [RpcFail(i)], s1, [StopChildren(i)], s');
    steps := [RpcFail(i)] + [StopChildren(i)];
  }

  /** A node at its limit goes on without an answer, and lets time pass then. */
  lemma GiveUp(p: Params, s: State, i: NodeId) returns (steps: seq<Step>, s': State)
    requires LongLease(p) && Inv(p, s) && i in s.nodes && !s.nodes[i].phase.Idle? && !s.nodes[i].phase.Releasing?
    requires s.nodes[i].phase.Sleeping? ==> s.now >= s.nodes[i].phase.wake
    ensures Leads(p, s, steps, s') && Inv(p, s') && s'.now == s.now
    ensures i in s'.nodes && s'.nodes == s.nodes[i := s'.nodes[i]] && !s'.nodes[i].polling
    ensures s'.nodes[i].phase.Idle? || s'.nodes[i].phase.Releasing?
  {
    match s.nodes[i].phase
    case Acquiring(_) =>
      StepKeeps(p, s, AcquireFail(i));
      LeadsOne(p, s, AcquireFail(i));
      steps, s' := [AcquireFail(i)], Next(p, s, AcquireFail(i));
    case Querying(_) => steps, s' := FailStop(p, s, i);
    case Refreshing(_) => steps, s' := FailStop(p, s, i);
    case Sleeping(_) =>
      StepKeeps(p, s, SendRefresh(i));
      LeadsOne(p, s, SendRefresh(i));
      var s1 := Next(p, s, SendRefresh(i));
      assert s1.nodes == s.nodes[i := s1.nodes[i]] && s1.nodes[i].phase.Refreshing?;
      hide Next, Enabled, Inv;
      var rest;
      rest, s' := FailStop(p, s1, i);
      LeadsJoin(p, s, [SendRefresh(i)], s1, rest, s');
      steps := [SendRefresh(i)] + rest;
    case Ending =>
      StopStep(p, s, i);
      steps, s' := [StopChildren(i)], Next(p, s, StopChildren(i));
  }

  lemma BlockedHasLimit(p: Params, s: State, i: NodeId, time: real)
    requires time >= s.now && i in Blocking(p, s, time)
    ensures s.now <= Limit(p, s.nodes[i], s.now) <= time
    ensures !s.nodes[i].phase.Idle? && !s.nodes[i].phase.Releasing?
  {
  }

  lemma UnblockedPasses(p: Params, s: State, j: NodeId, time: real, limit: real)
    requires j in s.nodes && s.now < limit <= time
    requires j in Blocking(p, s, time) ==> limit <= Limit(p, s.nodes[j], s.now)
    ensures MayReach(p, s.nodes[j], limit)
  {
  }

  lemma LimitWakes(p: Params, n: Node, now: real)
    ensures n.phase.Sleeping? ==> Limit(p, n, now) >= n.phase.wake
  {
  }

  /** Time can go on to any later moment even when etcd never answers again, and every
      node that then has not gone on without it has stopped polling. */
  lemma {:induction false} TimeGoesOn(p: Params, s: State, time: real) returns (steps: seq<Step>, s': State)
    requires LongLease(p) && Inv(p, s) && time >= s.now
    ensures Leads(p, s, steps, s') && Inv(p, s') && s'.now == time
    ensures s'.nodes.Keys == s.nodes.Keys
    ensures forall i :: i in Blocking(p, s, time) ==> !s'.nodes[i].polling
    ensures forall i :: i in s.nodes && i !in Blocking(p, s, time) ==> s'.nodes[i] == s.nodes[i]
    decreases |Blocking(p, s, time)|
  {
    hide Inv, Leads, Limit;
    if Blocking(p, s, time) == {} {
      forall j | j in s.nodes ensures MayReach(p, s.nodes[j], time) {
        assert j !in Blocking(p, s, time);
      }
      steps, s' := PassTo(p, s, time);
    } else {
      var i := FirstLimit(p, s, Blocking(p, s, time));
      var limit := Limit(p, s.nodes[i], s.now);
      BlockedHasLimit(p, s, i, time);
      forall j | j in s.nodes && limit > s.now ensures MayReach(p, s.nodes[j], limit) {
        UnblockedPasses(p, s, j, time, limit);
      }
      var steps1, s1 := PassTo(p, s, limit);
      LimitWakes(p, s.nodes[i], s.now);
      var steps2, s2 := GiveUp(p, s1, i);
      assert Blocking(p, s2, time) == Blocking(p, s, time) - {i};
      var steps3;
      steps3, s' := TimeGoesOn(p, s2, time);
      LeadsJoin(p, s, steps1, s1, steps2, s2);
      LeadsJoin(p, s, steps1 + steps2, s2, steps3, s');
      steps := steps1 + steps2 + steps3;
    }
  }

  lemma FreshLease(p: Params, s: State)
    requires Inv(p, s)
    ensures s.nextLease !in s.etcd.acquires && s.nextLease !in s.etcd.granted
  {
  }

  lemma PollingHolds(p: Params, s: State, i: NodeId)
    requires LongLease(p) && Inv(p, s) && i in s.nodes
    ensures s.nodes[i].polling ==> HeldUntil(s.etcd, s.nodes[i].lease, s.now)
  {
    assert NodeOk(p, s.now, s.etcd, s.nodes[i]);
  }

  lemma SleeperHolds(p: Params, s: State, i: NodeId)
    requires Inv(p, s) && i in s.nodes && s.nodes[i].phase.Sleeping?
    ensures HeldUntil(s.etcd, s.nodes[i].lease, s.nodes[i].phase.wake + p.rpc)
  {
    assert NodeOk(p, s.now, s.etcd, s.nodes[i]);
  }

  lemma RefreshRenews(p: Params, s: State, i: NodeId)
    requires LongLease(p) && Inv(p, s) && Enabled(p, s, RefreshReply(i))
    ensures s.nodes[i].reply.ttl > 0.0
    ensures var s' := Next(p, s, RefreshReply(i));
            Inv(p, s') && HeldUntil(s'.etcd, s'.nodes[i].lease, s'.nodes[i].phase.wake + p.rpc)
  {
    assert NodeOk(p, s.now, s.etcd, s.nodes[i]);
    StepKeeps(p, s, RefreshReply(i));
    SleeperHolds(p, Next(p, s, RefreshReply(i)), i);
  }

  // ----- the loop in place -----

  /** The nodes' side of the machine: bot_polling with its lock and its two children,
      cut at the awaits. etcd and the clock move between the calls. The methods take any
      lease; what they say about a long one is what the invariant gives. */
  class BotPolling {
    const p: Params
    var now: real
    var nodes: map<NodeId, Node>
    var etcd: Etcd
    var nextLease: LeaseId

    ghost function Model(): State
      reads this
    {
      State(now, nodes, etcd, nextLease)
    }

    constructor (p: Params, ids: set<NodeId>)
      ensures this.p == p && Initial(Model()) && Inv(p, Model())
    {
      this.p := p;
      now, nodes, etcd, nextLease := 0.0, map i | i in ids :: IDLE, Etcd(Unbound, map[], {}, {}), 0;
    }

    /** __enter__ on one client: a lock object of its own, and the request for it. */
    method SendAcquire(i: NodeId)
      requires i in nodes && nodes[i].phase.Idle?
      modifies this`nodes, this`etcd, this`nextLease
      ensures Model() == Next(p, old(Model()), Step.SendAcquire(i))
      ensures LongLease(p) && old(Inv(p, Model())) ==> Inv(p, Model())
      ensures old(Inv(p, Model())) ==> nodes[i].lease !in old(etcd).acquires && nodes[i].lease !in old(etcd).granted
    {
      ghost var s := Model();
      nodes := nodes[i := Node(Acquiring(now), nextLease, false, NoReply)];
      etcd := etcd.(acquires := etcd.acquires[nextLease := now]);
      nextLease := nextLease + 1;
      Keeps(p, s, Step.SendAcquire(i));
      if Inv(p, s) {
        FreshLease(p, s);
      }
    }

    /** The answer: with the lock, both children start. */
    method Entered(i: NodeId) returns (acquired: bool)
      requires i in nodes && nodes[i].phase.Acquiring?
      modifies this`nodes
      ensures acquired <==> old(nodes)[i].lease in etcd.granted
      ensures i in nodes && (nodes[i].polling <==> acquired)
      ensures Model() == Next(p, old(Model()), if acquired then AcquireReply(i) else AcquireFail(i))
      ensures LongLease(p) && old(Inv(p, Model())) ==>
                Inv(p, Model()) && (acquired ==> HeldUntil(etcd, nodes[i].lease, now))
    {
      ghost var s := Model();
      acquired := nodes[i].lease in etcd.granted;
      nodes := nodes[i := if acquired then Node(Querying(now), nodes[i].lease, true, NoReply) else IDLE];
      Keeps(p, s, if acquired then AcquireReply(i) else AcquireFail(i));
      if LongLease(p) && Inv(p, s) {
        PollingHolds(p, Model(), i);
      }
    }

    /** refresh_loop from its first answer to its sleep. */
    method LeaseInfo(i: NodeId)
      requires Enabled(p, Model(), QueryReply(i))
      modifies this`nodes
      ensures Model() == Next(p, old(Model()), QueryReply(i))
      ensures nodes[i].phase == Sleeping(now + 0.75 * old(nodes)[i].reply.ttl)
      ensures LongLease(p) && old(Inv(p, Model())) ==>
                Inv(p, Model()) && HeldUntil(etcd, nodes[i].lease, nodes[i].phase.wake + p.rpc)
    {
      ghost var s := Model();
      nodes := nodes[i := SleepOn(nodes[i], now, nodes[i].reply.ttl)];
      Keeps(p, s, QueryReply(i));
      if LongLease(p) && Inv(p, s) {
        SleeperHolds(p, Model(), i);
      }
    }

    /** From the end of its sleep to the request. */
    method Wake(i: NodeId)
      requires Enabled(p, Model(), SendRefresh(i))
      modifies this`nodes
      ensures Model() == Next(p, old(Model()), SendRefresh(i))
      ensures LongLease(p) && old(Inv(p, Model())) ==> Inv(p, Model())
    {
      ghost var s := Model();
      nodes := nodes[i := nodes[i].(phase := Refreshing(now), reply := NoReply)];
      Keeps(p, s, SendRefresh(i));
    }

    /** refresh: an answer without time left raises, any other one is slept on. With a
        long lease it never raises here, and the lease outlives the sleep by one call. */
    method Refresh(i: NodeId) returns (renewed: bool)
      requires Enabled(p, Model(), RefreshReply(i))
      modifies this`nodes
      ensures Model() == Next(p, old(Model()), RefreshReply(i))
      ensures renewed <==> old(nodes)[i].reply.ttl > 0.0
      ensures nodes[i].phase == if renewed then Sleeping(now + 0.75 * old(nodes)[i].reply.ttl) else Ending
      ensures LongLease(p) && old(Inv(p, Model())) ==>
                renewed && Inv(p, Model()) && HeldUntil(etcd, nodes[i].lease, nodes[i].phase.wake + p.rpc)
    {
      ghost var s := Model();
      renewed := nodes[i].reply.ttl > 0.0;
      nodes := nodes[i := if renewed then SleepOn(nodes[i], now, nodes[i].reply.ttl) else End(nodes[i])];
      if LongLease(p) && Inv(p, s) {
        RefreshRenews(p, s, i);
      }
    }

    /** A child has ended: polling, or the refresh loop on an error of etcd. */
    method ChildEnded(i: NodeId, polling: bool)
      requires Enabled(p, Model(), if polling then PollEnds(i) else RpcFail(i))
      modifies this`nodes
      ensures Model() == Next(p, old(Model()), if polling then PollEnds(i) else RpcFail(i))
      ensures LongLease(p) && old(Inv(p, Model())) ==> Inv(p, Model())
    {
      ghost var s := Model();
      nodes := nodes[i := if polling then End(nodes[i]).(polling := false) else End(nodes[i])];
      Keeps(p, s, if polling then PollEnds(i) else RpcFail(i));
    }

    /** The finally block, and __aexit__ after it: the release is sent when neither child
        runs any more, and a long lease had not run out until then. */
    method StopChildren(i: NodeId)
      requires Enabled(p, Model(), Step.StopChildren(i))
      modifies this`nodes, this`etcd
      ensures Model() == Next(p, old(Model()), Step.StopChildren(i))
      ensures !nodes[i].polling && nodes[i].lease in etcd.releases
      ensures LongLease(p) && old(Inv(p, Model())) ==>
                Inv(p, Model()) && (old(nodes)[i].polling ==> HeldUntil(old(etcd), nodes[i].lease, now))
    {
      ghost var s := Model();
      nodes := nodes[i := nodes[i].(phase := Releasing, polling := false)];
      etcd := etcd.(releases := etcd.releases + {nodes[i].lease});
      Keeps(p, s, Step.StopChildren(i));
      if LongLease(p) && Inv(p, s) {
        PollingHolds(p, s, i);
      }
    }
  }
}
