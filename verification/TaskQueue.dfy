/** The task queue of the indexer nodes: a table that every node claims due rows from.
    A claim selects rows with a row lock that skips rows locked by others, clears their
    time and commits; a batch that is done is deleted together with its results. Nodes
    interleave between statements and may crash or roll back at any of them. */
module TaskQueue {
  import opened Common

  type TaskId = nat
  type NodeId = nat

  /** Where a node is: it holds row locks while Selecting, and works on a committed
      claim while Working. */
  datatype Node = Idle | Selecting(ids: set<TaskId>) | Working(ids: set<TaskId>)

  datatype Claim = Claim(node: NodeId, ids: set<TaskId>)

  /** `rows` holds the task_time column, `locks` the row locks. The last three remember
      every claim committed, and the rows deleted. */
  datatype State = State(now: real, rows: map<TaskId, Option<real>>, locks: map<TaskId, NodeId>,
                         nodes: map<NodeId, Node>, next: TaskId, claims: seq<Claim>, deleted: set<TaskId>)

  datatype Step =
    | Elapse(d: real)
    | Enqueue(times: seq<real>)                            // the indexer or the sync path commits tasks
    | Select(n: NodeId, ids: set<TaskId>, maxsize: nat)    // SELECT ... FOR UPDATE SKIP LOCKED LIMIT
    | Commit(n: NodeId)                                    // UPDATE ... SET task_time = NULL; COMMIT
    | Rollback(n: NodeId)                                  // or the transaction fails
    | Complete(n: NodeId, times: seq<real>)                // delete the batch, add new tasks; COMMIT
    | Abandon(n: NodeId)                                   // the batch raises, or the node crashes

  predicate Due(s: State, id: TaskId) {
    id in s.rows && s.rows[id].Some? && s.rows[id].value <= s.now && id !in s.locks
  }

  ghost predicate Enabled(s: State, step: Step) {
    match step
    case Elapse(d) => d >= 0.0
    case Enqueue(_) => true
    case Select(n, ids, maxsize) =>
      && n in s.nodes && s.nodes[n].Idle? && ids != {} && |ids| <= maxsize
      && (forall id :: id in ids ==> Due(s, id))
      && (|ids| < maxsize ==> forall id :: Due(s, id) ==> id in ids)
    case Commit(n) => n in s.nodes && s.nodes[n].Selecting?
    case Rollback(n) => n in s.nodes && s.nodes[n].Selecting?
    case Complete(n, _) => n in s.nodes && s.nodes[n].Working?
    case Abandon(n) => n in s.nodes && s.nodes[n].Working?
  }

  /** New rows get the next ids, in order. */
  function Added(rows: map<TaskId, Option<real>>, next: TaskId, times: seq<real>): (r: map<TaskId, Option<real>>)
    ensures forall id: TaskId :: id in r <==> id in rows || next <= id < next + |times|
    ensures forall id: TaskId :: id in rows && id < next ==> r[id] == rows[id]
    ensures forall id: TaskId :: id in r && id >= next && id < next + |times| ==> r[id] == Some(times[id - next])
    decreases |times|
  {
    if times == [] then rows
    else
      var last := |times| - 1;
      Added(rows, next, times[..last])[next + last := Some(times[last])]
  }

  function Locked(locks: map<TaskId, NodeId>, ids: set<TaskId>, n: NodeId): map<TaskId, NodeId> {
    locks + map id | id in ids :: n
  }

  /** The rows of the update: those of the ids that still exist. */
  function Cleared(rows: map<TaskId, Option<real>>, ids: set<TaskId>): map<TaskId, Option<real>> {
    map id | id in rows :: if id in ids then None else rows[id]
  }

  /** The rows of the delete: those of the ids whose time is NULL. */
  function Completed(rows: map<TaskId, Option<real>>, ids: set<TaskId>): set<TaskId> {
    set id | id in ids && id in rows && rows[id].None?
  }

  ghost function Next(s: State, step: Step): State
    requires Enabled(s, step)
  {
    match step
    case Elapse(d) => s.(now := s.now + d)
    case Enqueue(times) => s.(rows := Added(s.rows, s.next, times), next := s.next + |times|)
    case Select(n, ids, _) => s.(locks := Locked(s.locks, ids, n), nodes := s.nodes[n := Selecting(ids)])
    case Commit(n) =>
      var ids := s.nodes[n].ids;
      s.(rows := Cleared(s.rows, ids), locks := s.locks - ids, nodes := s.nodes[n := Working(ids)],
         claims := s.claims + [Claim(n, ids)])
    case Rollback(n) => s.(locks := s.locks - s.nodes[n].ids, nodes := s.nodes[n := Idle])
    case Complete(n, times) =>
      var gone := Completed(s.rows, s.nodes[n].ids);
      s.(rows := Added(s.rows - gone, s.next, times), next := s.next + |times|,
         nodes := s.nodes[n := Idle], deleted := s.deleted + gone)
    case Abandon(n) => s.(nodes := s.nodes[n := Idle])
  }

  ghost predicate Initial(s: State) {
    && s.rows == map[] && s.locks == map[] && s.next == 0 && s.claims == [] && s.deleted == {}
    && forall n :: n in s.nodes ==> s.nodes[n] == Idle
  }

  // ----- the invariant -----

  ghost predicate HandedOut(s: State, id: TaskId) {
    exists k :: 0 <= k < |s.claims| && id in s.claims[k].ids
  }

  /** Each row was enqueued once, and is pending, claimed or deleted. */
  ghost predicate RowsOk(s: State) {
    && (forall id: TaskId :: id in s.rows || id in s.deleted <==> id < s.next)
    && (forall id :: id in s.rows ==> id !in s.deleted && (s.rows[id].None? <==> HandedOut(s, id)))
    && (forall id :: id in s.deleted ==> HandedOut(s, id))
    && (forall id: TaskId :: HandedOut(s, id) ==> id < s.next)
  }

  /** A lock is on a pending row and belongs to a node that has selected it. */
  ghost predicate LocksOk(s: State) {
    && (forall id :: id in s.locks ==>
         && id in s.rows && s.rows[id].Some?
         && s.locks[id] in s.nodes && s.nodes[s.locks[id]].Selecting? && id in s.nodes[s.locks[id]].ids)
    && (forall n, id :: n in s.nodes && s.nodes[n].Selecting? && id in s.nodes[n].ids ==>
         id in s.locks && s.locks[id] == n)
  }

  ghost predicate ClaimsOk(s: State) {
    && (forall i, j :: 0 <= i < j < |s.claims| ==> s.claims[i].ids !! s.claims[j].ids)
    && (forall n :: n in s.nodes && s.nodes[n].Working? ==> Claim(n, s.nodes[n].ids) in s.claims)
  }

  ghost predicate Inv(s: State) {
    RowsOk(s) && LocksOk(s) && ClaimsOk(s)
  }

  lemma SameClaims(s: State, s': State)
    requires s'.claims == s.claims
    ensures forall id: TaskId :: HandedOut(s', id) <==> HandedOut(s, id)
  {
  }

  lemma EnqueueKeeps(s: State, times: seq<real>)
    requires Inv(s)
    ensures Inv(Next(s, Enqueue(times)))
  {
    SameClaims(s, Next(s, Enqueue(times)));
  }

  lemma SelectKeeps(s: State, n: NodeId, ids: set<TaskId>, maxsize: nat)
    requires Inv(s) && Enabled(s, Select(n, ids, maxsize))
    ensures Inv(Next(s, Select(n, ids, maxsize)))
  {
    SameClaims(s, Next(s, Select(n, ids, maxsize)));
  }

  lemma CommitRows(s: State, n: NodeId)
    requires RowsOk(s) && LocksOk(s) && Enabled(s, Commit(n))
    ensures RowsOk(Next(s, Commit(n)))
  {
    var s', ids := Next(s, Commit(n)), s.nodes[n].ids;
    forall id: TaskId ensures HandedOut(s', id) <==> HandedOut(s, id) || id in ids {
      if HandedOut(s, id) {
        var k :| 0 <= k < |s.claims| && id in s.claims[k].ids;
        assert s'.claims[k] == s.claims[k];
      }
      if id in ids {
        assert s'.claims[|s.claims|] == Claim(n, ids);
      }
    }
  }

  lemma SelectingDisjoint(s: State, n: NodeId, m: NodeId)
    requires LocksOk(s) && n in s.nodes && m in s.nodes && n != m
    requires s.nodes[n].Selecting? && s.nodes[m].Selecting?
    ensures s.nodes[n].ids !! s.nodes[m].ids
  {
    forall id | id in s.nodes[n].ids ensures id !in s.nodes[m].ids {
      assert s.locks[id] == n;
    }
  }

  lemma CommitLocks(s: State, n: NodeId)
    requires LocksOk(s) && Enabled(s, Commit(n))
    ensures LocksOk(Next(s, Commit(n)))
  {
    forall m | m in s.nodes && m != n && s.nodes[m].Selecting? ensures s.nodes[n].ids !! s.nodes[m].ids {
      SelectingDisjoint(s, n, m);
    }
  }

  lemma CommitClaims(s: State, s': State, n: NodeId, ids: set<TaskId>)
    requires ClaimsOk(s) && s'.claims == s.claims + [Claim(n, ids)] && n in s.nodes
    requires forall k, id :: 0 <= k < |s.claims| && id in ids ==> id !in s.claims[k].ids
    requires s'.nodes == s.nodes[n := Working(ids)]
    ensures ClaimsOk(s')
  {
    forall m | m in s'.nodes && s'.nodes[m].Working? ensures Claim(m, s'.nodes[m].ids) in s'.claims {
      if m == n {
        assert s'.claims[|s.claims|] == Claim(n, ids);
      } else {
        var k :| 0 <= k < |s.claims| && s.claims[k] == Claim(m, s.nodes[m].ids);
        assert s'.claims[k] == s.claims[k];
      }
    }
  }

  /** Committing a claim: its rows were locked, so no node had them before. */
  lemma CommitKeeps(s: State, n: NodeId)
    requires Inv(s) && Enabled(s, Commit(n))
    ensures Inv(Next(s, Commit(n)))
  {
    CommitRows(s, n);
    CommitLocks(s, n);
    var s', ids := Next(s, Commit(n)), s.nodes[n].ids;
    forall k, id | 0 <= k < |s.claims| && id in ids ensures id !in s.claims[k].ids {
      assert id in s.locks && s.rows[id].Some?;
      assert !HandedOut(s, id);
    }
    CommitClaims(s, s', n, ids);
  }

  lemma RollbackKeeps(s: State, n: NodeId)
    requires Inv(s) && Enabled(s, Rollback(n))
    ensures Inv(Next(s, Rollback(n)))
  {
    SameClaims(s, Next(s, Rollback(n)));
    forall m | m in s.nodes && m != n && s.nodes[m].Selecting? ensures s.nodes[n].ids !! s.nodes[m].ids {
      SelectingDisjoint(s, n, m);
    }
  }

  /** Every row of a batch is still there to be deleted, with its time cleared. */
  lemma BatchIsCleared(s: State, n: NodeId, id: TaskId)
    requires Inv(s) && n in s.nodes && s.nodes[n].Working? && id in s.nodes[n].ids
    ensures HandedOut(s, id)
    ensures id in s.rows ==> s.rows[id].None?
  {
    var k :| 0 <= k < |s.claims| && s.claims[k] == Claim(n, s.nodes[n].ids);
  }

  lemma DeletedRows(s: State, s': State, gone: set<TaskId>, times: seq<real>)
    requires RowsOk(s) && s'.claims == s.claims && gone <= s.rows.Keys
    requires forall id :: id in gone ==> HandedOut(s, id)
    requires s'.rows == Added(s.rows - gone, s.next, times) && s'.next == s.next + |times|
    requires s'.deleted == s.deleted + gone
    ensures RowsOk(s')
  {
    SameClaims(s, s');
  }

  lemma CompleteKeeps(s: State, n: NodeId, times: seq<real>)
    requires Inv(s) && Enabled(s, Complete(n, times))
    ensures Inv(Next(s, Complete(n, times)))
  {
    var s' := Next(s, Complete(n, times));
    SameClaims(s, s');
    var gone := Completed(s.rows, s.nodes[n].ids);
    forall id | id in gone ensures id < s.next && HandedOut(s, id) && id !in s.locks {
      BatchIsCleared(s, n, id);
    }
    DeletedRows(s, s', gone, times);
  }

  lemma StepKeeps(s: State, step: Step)
    requires Inv(s) && Enabled(s, step)
    ensures Inv(Next(s, step))
  {
    match step
    case Elapse(_) => SameClaims(s, Next(s, step));
    case Enqueue(times) => EnqueueKeeps(s, times);
    case Select(n, ids, maxsize) => SelectKeeps(s, n, ids, maxsize);
    case Commit(n) => CommitKeeps(s, n);
    case Rollback(n) => RollbackKeeps(s, n);
    case Complete(n, times) => CompleteKeeps(s, n, times);
    case Abandon(n) => SameClaims(s, Next(s, step));
  }

  // ----- runs -----

  ghost predicate Run(states: seq<State>, steps: seq<Step>) {
    && |states| == |steps| + 1
    && Initial(states[0])
    && (forall k :: 0 <= k < |steps| ==> Enabled(states[k], steps[k]) && states[k + 1] == Next(states[k], steps[k]))
  }

  lemma {:induction false} RunInv(states: seq<State>, steps: seq<Step>, k: nat)
    requires Run(states, steps) && k < |states|
    ensures Inv(states[k])
  {
    if k == 0 {
    } else {
      RunInv(states, steps, k - 1);
      StepKeeps(states[k - 1], steps[k - 1]);
    }
  }

  /** No row is handed out twice, by whatever nodes and however they interleave. */
  lemma HandedOutOnce(states: seq<State>, steps: seq<Step>, k: nat, i: nat, j: nat, id: TaskId)
    requires Run(states, steps) && k < |states|
    requires i < |states[k].claims| && id in states[k].claims[i].ids
    requires j < |states[k].claims| && id in states[k].claims[j].ids
    ensures i == j
  {
    RunInv(states, steps, k);
  }

  /** Selections of two nodes at the same time have no row in common. */
  lemma SelectionsDisjoint(states: seq<State>, steps: seq<Step>, k: nat, n: NodeId, m: NodeId)
    requires Run(states, steps) && k < |states| && n != m
    requires n in states[k].nodes && m in states[k].nodes
    requires states[k].nodes[n].Selecting? && states[k].nodes[m].Selecting?
    ensures states[k].nodes[n].ids !! states[k].nodes[m].ids
  {
    RunInv(states, steps, k);
    SelectingDisjoint(states[k], n, m);
  }

  /** A row goes only when the node that it was handed to completes its batch, and then
      the whole batch goes. */
  lemma OnlyClaimedRowsGo(states: seq<State>, steps: seq<Step>, k: nat)
    requires Run(states, steps) && k < |steps|
    ensures var s, s' := states[k], states[k + 1];
            if steps[k].Complete? then
              && steps[k].n in s.nodes && s.nodes[steps[k].n].Working?
              && var batch := s.nodes[steps[k].n].ids;
                 Claim(steps[k].n, batch) in s.claims && s'.deleted == s.deleted + (batch * s.rows.Keys)
            else s'.deleted == s.deleted && s.rows.Keys <= s'.rows.Keys
  {
    RunInv(states, steps, k);
    var s := states[k];
    assert Enabled(s, steps[k]);
    if steps[k].Complete? {
      var n := steps[k].n;
      forall id | id in s.nodes[n].ids ensures id in s.rows ==> s.rows[id].None? {
        BatchIsCleared(s, n, id);
      }
      assert Completed(s.rows, s.nodes[n].ids) == s.nodes[n].ids * s.rows.Keys;
    }
  }

  /** A select that does not use up its limit takes every row whose time has come and that
      no other node has locked; it never takes another one. */
  lemma SelectTakesDue(states: seq<State>, steps: seq<Step>, k: nat, id: TaskId)
    requires Run(states, steps) && k < |steps| && steps[k].Select?
    requires id in states[k].rows && id !in states[k].locks
    ensures 0 < |steps[k].ids| <= steps[k].maxsize
    ensures id in steps[k].ids ==> states[k].rows[id].Some? && states[k].rows[id].value <= states[k].now
    ensures |steps[k].ids| < steps[k].maxsize ==>
              states[k].rows[id].Some? && states[k].rows[id].value <= states[k].now ==> id in steps[k].ids
  {
    assert Enabled(states[k], steps[k]);
  }

  /** The time of every selected row has come. */
  ghost predicate SelectedDue(s: State) {
    forall n, id :: n in s.nodes && s.nodes[n].Selecting? && id in s.nodes[n].ids ==>
      id in s.rows && s.rows[id].Some? && s.rows[id].value <= s.now
  }

  lemma TimeStep(s: State, step: Step, id: TaskId)
    requires RowsOk(s) && Enabled(s, step) && id in s.rows && s.rows[id].Some?
    ensures var s' := Next(s, step);
            id in s'.rows && (s'.rows[id].None? || s'.rows[id] == s.rows[id])
    ensures !step.Commit? ==> Next(s, step).rows[id] == s.rows[id]
  {
    hide HandedOut;
  }

  lemma SelectedStep(s: State, step: Step)
    requires RowsOk(s) && LocksOk(s) && Enabled(s, step) && SelectedDue(s)
    ensures SelectedDue(Next(s, step))
  {
    var s' := Next(s, step);
    forall n, id | n in s'.nodes && s'.nodes[n].Selecting? && id in s'.nodes[n].ids
      ensures id in s'.rows && s'.rows[id].Some? && s'.rows[id].value <= s'.now
    {
      assert id in s.rows && s.rows[id].Some? && s.rows[id].value <= s.now by {
        if step.Select? && step.n == n {
          assert Due(s, id);
        }
      }
      TimeStep(s, step, id);
      if step.Commit? {
        SelectingDisjoint(s, n, step.n);
      }
    }
  }

  lemma {:induction false} SelectedAreDue(states: seq<State>, steps: seq<Step>, k: nat)
    requires Run(states, steps) && k < |states|
    ensures SelectedDue(states[k])
  {
    if k == 0 {
    } else {
      SelectedAreDue(states, steps, k - 1);
      RunInv(states, steps, k - 1);
      hide RowsOk, LocksOk, SelectedDue, Next, Enabled;
      SelectedStep(states[k - 1], steps[k - 1]);
    }
  }

  lemma PendingBefore(s: State, step: Step, id: TaskId)
    requires Inv(s) && Enabled(s, step) && id < s.next
    requires id in Next(s, step).rows && Next(s, step).rows[id].Some?
    ensures id in s.rows && s.rows[id] == Next(s, step).rows[id]
  {
    hide HandedOut;
  }

  lemma NextGrows(s: State, step: Step)
    requires Enabled(s, step)
    ensures s.next <= Next(s, step).next
  {
  }

  lemma {:induction false} KnownSince(states: seq<State>, steps: seq<Step>, j: nat, k: nat, id: TaskId)
    requires Run(states, steps) && j <= k < |states| && id in states[j].rows
    ensures id < states[k].next
  {
    hide Next, Enabled;
    if j == k {
      RunInv(states, steps, j);
    } else {
      KnownSince(states, steps, j, k - 1, id);
      NextGrows(states[k - 1], steps[k - 1]);
    }
  }

  /** The time of a row stays the one it was enqueued with, until the row is claimed. */
  lemma {:induction false} TimeIsKept(states: seq<State>, steps: seq<Step>, j: nat, k: nat, id: TaskId)
    requires Run(states, steps) && j <= k < |states| && id in states[k].rows && states[k].rows[id].Some?
    requires id in states[j].rows
    ensures states[j].rows[id] == states[k].rows[id]
  {
    hide Inv, Next, Enabled;
    if j == k {
    } else {
      var s, step := states[k - 1], steps[k - 1];
      RunInv(states, steps, k - 1);
      KnownSince(states, steps, j, k - 1, id);
      assert Enabled(s, step) && states[k] == Next(s, step);
      hide Run;
      PendingBefore(s, step, id);
      TimeIsKept(states, steps, j, k - 1, id);
    }
  }

  lemma HandedOutStep(s: State, step: Step, id: TaskId)
    requires Enabled(s, step) && HandedOut(Next(s, step), id) && !HandedOut(s, id)
    ensures step.Commit? && id in s.nodes[step.n].ids
  {
    var s' := Next(s, step);
    var k :| 0 <= k < |s'.claims| && id in s'.claims[k].ids;
    assert k < |s.claims| ==> s.claims[k] == s'.claims[k];
  }

  /** No row is handed out before its task time. */
  lemma {:induction false} HandedOutWhenDue(states: seq<State>, steps: seq<Step>, k: nat, id: TaskId) returns (j: nat)
    requires Run(states, steps) && k < |states| && HandedOut(states[k], id)
    ensures j < k && steps[j].Commit? && HandedOut(states[j + 1], id) && !HandedOut(states[j], id)
    ensures id in states[j].rows && states[j].rows[id].Some? && states[j].rows[id].value <= states[j].now
  {
    hide Inv;
    assert k > 0;
    if HandedOut(states[k - 1], id) {
      j := HandedOutWhenDue(states, steps, k - 1, id);
    } else {
      j := k - 1;
      HandedOutStep(states[j], steps[j], id);
      SelectedAreDue(states, steps, j);
    }
  }

  ghost function PendingRows(s: State): set<TaskId> { set id | id in s.rows && s.rows[id].Some? }

  ghost function ClaimedRows(s: State): set<TaskId> { set id | id in s.rows && s.rows[id].None? }

  lemma {:induction false} CountBelow(ids: set<TaskId>, n: nat)
    requires forall id: TaskId :: id in ids <==> id < n
    ensures |ids| == n
  {
    if n == 0 {
      assert ids == {};
    } else {
      CountBelow(ids - {n - 1}, n - 1);
    }
  }

  /** Conservation: whatever was enqueued is pending, claimed or deleted. */
  lemma TasksConserved(states: seq<State>, steps: seq<Step>, k: nat)
    requires Run(states, steps) && k < |states|
    ensures states[k].next == |PendingRows(states[k])| + |ClaimedRows(states[k])| + |states[k].deleted|
  {
    RunInv(states, steps, k);
    var s := states[k];
    CountBelow(s.rows.Keys + s.deleted, s.next);
    assert s.rows.Keys == PendingRows(s) + ClaimedRows(s);
    assert s.rows.Keys !! s.deleted;
  }

  // ----- the code -----

  /** The table with its locks, and the nodes that use it. */
  class Database {
    var now: real
    var rows: map<TaskId, Option<real>>
    var locks: map<TaskId, NodeId>
    var nodes: map<NodeId, Node>
    var next: TaskId
    ghost var claims: seq<Claim>
    ghost var deleted: set<TaskId>

    ghost function Model(): State
      reads this
    {
      State(now, rows, locks, nodes, next, claims, deleted)
    }

    constructor (nodes: set<NodeId>)
      ensures Initial(Model()) && Inv(Model())
    {
      now, rows, locks, next := 0.0, map[], map[], 0;
      this.nodes := map n | n in nodes :: Idle;
      claims, deleted := [], {};
    }

    /** The select of sync_nft_task_get. Without a due row it ends there. */
    method SelectForUpdate(n: NodeId, maxsize: nat) returns (ids: set<TaskId>)
      requires Inv(Model()) && n in nodes && nodes[n].Idle?
      modifies this`locks, this`nodes
      ensures Inv(Model())
      ensures if ids == {} then Model() == old(Model())
              else
                var step := Select(n, ids, maxsize);
                Enabled(old(Model()), step) && Model() == Next(old(Model()), step)
      ensures ids == {} && maxsize > 0 ==>
                forall id :: id in rows && id !in locks ==> rows[id].None? || rows[id].value > now
    {
      ids := {};
      var rest := rows.Keys;
      while rest != {} && |ids| < maxsize
        invariant forall id :: id in ids ==> Due(Model(), id)
        invariant rest <= rows.Keys && rest !! ids && |ids| <= maxsize
        invariant forall id :: id in rows && id !in rest && Due(Model(), id) ==> id in ids
        invariant locks == old(locks) && nodes == old(nodes)
      {
        var id :| id in rest;
        if rows[id].Some? && rows[id].value <= now && id !in locks {
          ids := ids + {id};
        }
        rest := rest - {id};
      }
      if ids != {} {
        SelectKeeps(Model(), n, ids, maxsize);
        locks := Locked(locks, ids, n);
        nodes := nodes[n := Selecting(ids)];
      }
    }

    /** The update of sync_nft_task_get and its commit: the rows are handed out. */
    method CommitClaim(n: NodeId) returns (tasks: set<TaskId>)
      requires Inv(Model()) && n in nodes && nodes[n].Selecting?
      modifies this`rows, this`locks, this`nodes, this`claims
      ensures Inv(Model()) && Model() == Next(old(Model()), Commit(n))
      ensures tasks == old(nodes)[n].ids
      ensures forall id :: id in tasks ==> !HandedOut(old(Model()), id) && HandedOut(Model(), id)
    {
      CommitKeeps(Model(), n);
      tasks := nodes[n].ids;
      rows := Cleared(rows, tasks);
      locks := locks - tasks;
      nodes := nodes[n := Working(tasks)];
      claims := claims + [Claim(n, tasks)];
      assert claims[|claims| - 1].ids == tasks;
    }

    /** sync_collection_nft_bulk_update after a batch. */
    method BulkUpdate(n: NodeId, times: seq<real>)
      requires Inv(Model()) && n in nodes && nodes[n].Working?
      modifies this`rows, this`nodes, this`next, this`deleted
      ensures Inv(Model()) && Model() == Next(old(Model()), Complete(n, times))
    {
      CompleteKeeps(Model(), n, times);
      hide Inv, Added, Completed;
      var gone := Completed(rows, nodes[n].ids);
      rows := rows - gone;
      deleted := deleted + gone;
      rows := Added(rows, next, times);
      next := next + |times|;
      nodes := nodes[n := Idle];
    }
  }
}
