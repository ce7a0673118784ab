/** Liteserver supervision, the consensus part: once a second the manager votes on the
    newest block that enough liteservers have, and marks the workers that have it. */
module Consensus {
  import opened Common

  type WorkerId = int

  /** The fields of a WorkerControl that this machine reads and writes. */
  datatype Worker = Worker(isAlive: bool, isSync: bool, isArchival: bool, lastBlock: int)

  const NO_BLOCK := -1

  /** `order` is the dictionary order of `workers`. */
  datatype State = State(order: seq<WorkerId>, workers: map<WorkerId, Worker>, consensus: int)

  ghost predicate Known(order: seq<WorkerId>, workers: map<WorkerId, Worker>) {
    forall i :: 0 <= i < |order| ==> order[i] in workers
  }

  ghost predicate Listed(s: State) {
    && (forall i, j :: 0 <= i < j < |s.order| ==> s.order[i] != s.order[j])
    && Known(s.order, s.workers)
    && (forall id :: id in s.workers ==> id in s.order)
  }

  // ----- the vote -----

  /** The blocks of the workers that have reported one, in dictionary order. */
  function LastBlocks(order: seq<WorkerId>, workers: map<WorkerId, Worker>): seq<int>
    requires Known(order, workers)
  {
    if order == [] then []
    else
      var rest := LastBlocks(order[..|order| - 1], workers);
      var block := workers[order[|order| - 1]].lastBlock;
      if block != NO_BLOCK then rest + [block] else rest
  }

  /** How many of the blocks are between two. */
  function Between(blocks: seq<int>, low: int, high: int): nat {
    if blocks == [] then 0
    else
      var last := |blocks| - 1;
      Between(blocks[..last], low, high) + (if low <= blocks[last] <= high then 1 else 0)
  }

  ghost predicate IsBest(blocks: seq<int>, best: int) {
    best in blocks && forall b :: b in blocks ==> b <= best
  }

  /** At least 60% of the reporters within 3 of the best have reached v. */
  ghost predicate Quorum(blocks: seq<int>, best: int, v: int) {
    10 * Between(blocks, v, best) >= 6 * Between(blocks, best - 3, best)
  }

  ghost predicate IsVoteFor(blocks: seq<int>, best: int, v: int) {
    && best - 3 <= v <= best
    && Quorum(blocks, best, v)
    && (forall u :: v < u <= best ==> !Quorum(blocks, best, u))
  }

  /** The newest block with a quorum. */
  ghost predicate IsVote(blocks: seq<int>, v: int) {
    exists best :: IsBest(blocks, best) && IsVoteFor(blocks, best, v)
  }

  lemma {:induction false} BetweenSplit(blocks: seq<int>, low: int, mid: int, high: int)
    requires low <= mid <= high + 1
    ensures Between(blocks, low, high) == Between(blocks, low, mid - 1) + Between(blocks, mid, high)
  {
    if blocks == [] {
    } else {
      BetweenSplit(blocks[..|blocks| - 1], low, mid, high);
    }
  }

  lemma {:induction false} BetweenMember(blocks: seq<int>, low: int, high: int)
    ensures Between(blocks, low, high) > 0 <==> exists b :: b in blocks && low <= b <= high
  {
    if blocks == [] {
    } else {
      var rest, last := blocks[..|blocks| - 1], blocks[|blocks| - 1];
      assert blocks == rest + [last];
      BetweenMember(rest, low, high);
      if b :| b in blocks && low <= b <= high {
        assert b in rest || b == last;
      }
      if b :| b in rest && low <= b <= high {
        assert b in blocks;
      }
      assert last in blocks;
    }
  }

  lemma BestIsUnique(blocks: seq<int>, a: int, b: int)
    requires IsBest(blocks, a) && IsBest(blocks, b)
    ensures a == b
  {
  }

  /** There is at most one vote. */
  lemma VoteIsUnique(blocks: seq<int>, v: int, u: int)
    requires IsVote(blocks, v) && IsVote(blocks, u)
    ensures v == u
  {
    var a :| IsBest(blocks, a) && IsVoteFor(blocks, a, v);
    var b :| IsBest(blocks, b) && IsVoteFor(blocks, b, u);
    BestIsUnique(blocks, a, b);
  }

  /** The vote is the block of some reporter, within 3 of the best. */
  lemma VoteIsReported(blocks: seq<int>, v: int)
    requires IsVote(blocks, v)
    ensures v in blocks
    ensures forall b :: b in blocks ==> b <= v + 3
  {
    var best :| IsBest(blocks, best) && IsVoteFor(blocks, best, v);
    if v < best {
      assert !Quorum(blocks, best, v + 1);
      BetweenSplit(blocks, v, v + 1, best);
      BetweenMember(blocks, v, v);
    }
  }

  // ----- the machine -----

  ghost predicate InSync(s: State) {
    forall id :: id in s.workers && s.workers[id].isSync ==> s.workers[id].lastBlock >= s.consensus
  }

  ghost predicate Inv(s: State) {
    Listed(s) && InSync(s)
  }

  function MarkAll(workers: map<WorkerId, Worker>, consensus: int): map<WorkerId, Worker> {
    map id | id in workers :: workers[id].(isSync := workers[id].lastBlock >= consensus)
  }

  /** One pass of check_working: nothing without reporters; otherwise the vote is taken
      over if it is newer, and every worker, dead or alive, is marked against it. */
  ghost predicate Ticked(s: State, s': State)
    requires Listed(s)
  {
    var blocks := LastBlocks(s.order, s.workers);
    if blocks == [] then s' == s
    else
      && (exists v :: IsVote(blocks, v) && s'.consensus == if v > s.consensus then v else s.consensus)
      && s'.order == s.order
      && s'.workers == MarkAll(s.workers, s'.consensus)
  }

  datatype Step =
    | Tick(next: State)
    | Report(id: WorkerId, block: int)           // a LAST_BLOCK_UPDATE message
    | Archival(id: WorkerId, isArchival: bool)   // an ARCHIVAL_UPDATE message
    | Alive(id: WorkerId, alive: bool)           // check_children_alive looks at the process
    | Terminate(id: WorkerId)
    | Respawn(id: WorkerId, alive: bool)
    | Spawn(id: WorkerId, alive: bool)           // the first start

  /** Each incarnation of a worker reports blocks that do not go back. */
  ghost predicate Enabled(s: State, step: Step) {
    match step
    case Tick(next) => Listed(s) && Ticked(s, next)
    case Report(id, block) => id in s.workers && block >= s.workers[id].lastBlock
    case Archival(id, _) => id in s.workers
    case Alive(id, _) => id in s.workers
    case Terminate(id) => id in s.workers
    case Respawn(id, _) => id in s.workers
    case Spawn(id, _) => id !in s.workers
  }

  function Terminated(w: Worker): Worker {
    w.(isAlive := false, isSync := false)
  }

  function Spawned(w: Worker, alive: bool): Worker {
    w.(isAlive := alive, isSync := false, lastBlock := NO_BLOCK)
  }

  ghost function Next(s: State, step: Step): State
    requires Enabled(s, step)
  {
    match step
    case Tick(next) => next
    case Report(id, block) => s.(workers := s.workers[id := s.workers[id].(lastBlock := block)])
    case Archival(id, archival) => s.(workers := s.workers[id := s.workers[id].(isArchival := archival)])
    case Alive(id, alive) => s.(workers := s.workers[id := s.workers[id].(isAlive := alive)])
    case Terminate(id) => s.(workers := s.workers[id := Terminated(s.workers[id])])
    case Respawn(id, alive) => s.(workers := s.workers[id := Spawned(Terminated(s.workers[id]), alive)])
    case Spawn(id, alive) =>
      s.(workers := s.workers[id := Spawned(Worker(false, false, false, NO_BLOCK), alive)], order := s.order + [id])
  }

  const START := State([], map[], NO_BLOCK)

  ghost predicate Run(states: seq<State>, steps: seq<Step>) {
    && |states| == |steps| + 1
    && states[0] == START
    && (forall k :: 0 <= k < |steps| ==> Enabled(states[k], steps[k]) && states[k + 1] == Next(states[k], steps[k]))
  }

  lemma StepKeeps(s: State, step: Step)
    requires Inv(s) && Enabled(s, step)
    ensures Inv(Next(s, step))
    ensures Next(s, step).consensus >= s.consensus
  {
  }

  lemma {:induction false} RunInv(states: seq<State>, steps: seq<Step>, k: nat)
    requires Run(states, steps) && k < |states|
    ensures Inv(states[k])
  {
    if k == 0 {
    } else {
      RunInv(states, steps, k - 1);
      StepKeeps(states[k - 1], steps[k - 1]);
    }
  }

  /** At every await point, a worker marked in sync has reached the consensus block. */
  lemma SyncMeansReached(states: seq<State>, steps: seq<Step>, k: nat, id: WorkerId)
    requires Run(states, steps) && k < |states|
    requires id in states[k].workers && states[k].workers[id].isSync
    ensures states[k].workers[id].lastBlock >= states[k].consensus
  {
    RunInv(states, steps, k);
  }

  /** The consensus block never goes back. */
  lemma {:induction false} ConsensusGrows(states: seq<State>, steps: seq<Step>, i: nat, j: nat)
    requires Run(states, steps) && i <= j < |states|
    ensures states[i].consensus <= states[j].consensus
  {
    if i == j {
    } else {
      ConsensusGrows(states, steps, i, j - 1);
      RunInv(states, steps, j - 1);
      StepKeeps(states[j - 1], steps[j - 1]);
    }
  }

  lemma {:induction false} BlocksAreReports(order: seq<WorkerId>, workers: map<WorkerId, Worker>, b: int)
    requires Known(order, workers)
    ensures b in LastBlocks(order, workers) <==>
            b != NO_BLOCK && exists i :: 0 <= i < |order| && workers[order[i]].lastBlock == b
  {
    if order == [] {
    } else {
      var last := order[|order| - 1];
      assert order == order[..|order| - 1] + [last];
      BlocksAreReports(order[..|order| - 1], workers, b);
    }
  }

  /** It moves only in a tick, to the block that some worker reports at that moment: the
      newest one that 60% of the reporters within 3 of the best have. */
  lemma ConsensusIsReported(states: seq<State>, steps: seq<Step>, k: nat) returns (reporter: WorkerId)
    requires Run(states, steps) && k < |steps| && states[k + 1].consensus != states[k].consensus
    ensures steps[k].Tick? && Listed(states[k])
    ensures reporter in states[k].workers && states[k].workers[reporter].lastBlock == states[k + 1].consensus
    ensures IsVote(LastBlocks(states[k].order, states[k].workers), states[k + 1].consensus)
  {
    RunInv(states, steps, k);
    var s := states[k];
    assert Enabled(s, steps[k]);
    var blocks := LastBlocks(s.order, s.workers);
    var v := states[k + 1].consensus;
    assert IsVote(blocks, v);
    VoteIsReported(blocks, v);
    BlocksAreReports(s.order, s.workers, v);
    var i :| 0 <= i < |s.order| && s.workers[s.order[i]].lastBlock == v;
    reporter := s.order[i];
  }

  /** A report that goes back is the one event that could break the mark: it keeps it
      exactly when the worker is not marked or still has the consensus block. */
  lemma BackwardReport(s: State, id: WorkerId, block: int)
    requires Inv(s) && id in s.workers
    ensures Inv(s.(workers := s.workers[id := s.workers[id].(lastBlock := block)]))
            <==> !s.workers[id].isSync || block >= s.consensus
  {
    var s' := s.(workers := s.workers[id := s.workers[id].(lastBlock := block)]);
    assert s'.workers[id].isSync == s.workers[id].isSync;
  }

  /** The workers whose reported block is between two. */
  ghost function At(workers: map<WorkerId, Worker>, low: int, high: int): set<WorkerId> {
    set id | id in workers && workers[id].lastBlock != NO_BLOCK && low <= workers[id].lastBlock <= high
  }

  ghost function AtOf(order: seq<WorkerId>, workers: map<WorkerId, Worker>, low: int, high: int): set<WorkerId> {
    set id | id in order && id in workers && workers[id].lastBlock != NO_BLOCK && low <= workers[id].lastBlock <= high
  }

  lemma AtOfNext(order: seq<WorkerId>, workers: map<WorkerId, Worker>, low: int, high: int)
    requires Known(order, workers) && Distinct(order) && order != []
    ensures var last := order[|order| - 1];
            var block := workers[last].lastBlock;
            |AtOf(order, workers, low, high)| == |AtOf(order[..|order| - 1], workers, low, high)|
              + (if block != NO_BLOCK && low <= block <= high then 1 else 0)
  {
    var init, last := order[..|order| - 1], order[|order| - 1];
    assert order == init + [last];
    assert last !in AtOf(init, workers, low, high);
    var block := workers[last].lastBlock;
    if block != NO_BLOCK && low <= block <= high {
      assert AtOf(order, workers, low, high) == AtOf(init, workers, low, high) + {last};
    } else {
      assert AtOf(order, workers, low, high) == AtOf(init, workers, low, high);
    }
  }

  lemma BetweenSnoc(blocks: seq<int>, block: int, low: int, high: int)
    ensures Between(blocks + [block], low, high) == Between(blocks, low, high) + (if low <= block <= high then 1 else 0)
  {
    assert (blocks + [block])[..|blocks|] == blocks;
  }

  lemma {:induction false} CountOfOrder(order: seq<WorkerId>, workers: map<WorkerId, Worker>, low: int, high: int)
    requires Known(order, workers) && Distinct(order)
    ensures Between(LastBlocks(order, workers), low, high) == |AtOf(order, workers, low, high)|
  {
    if order == [] {
      assert AtOf(order, workers, low, high) == {};
    } else {
      hide AtOf, Between;
      var init, last := order[..|order| - 1], order[|order| - 1];
      CountOfOrder(init, workers, low, high);
      AtOfNext(order, workers, low, high);
      BetweenSnoc(LastBlocks(init, workers), workers[last].lastBlock, low, high);
    }
  }

  /** Every worker counts once. */
  lemma CountsWorkers(s: State, low: int, high: int)
    requires Listed(s)
    ensures Between(LastBlocks(s.order, s.workers), low, high) == |At(s.workers, low, high)|
  {
    CountOfOrder(s.order, s.workers, low, high);
    forall id ensures id in AtOf(s.order, s.workers, low, high) <==> id in At(s.workers, low, high) {
      assert id in s.workers ==> id in s.order;
    }
    assert AtOf(s.order, s.workers, low, high) == At(s.workers, low, high);
  }

  /** The newest reported block. */
  ghost predicate Newest(workers: map<WorkerId, Worker>, best: int) {
    && (exists id :: id in workers && workers[id].lastBlock == best && best != NO_BLOCK)
    && (forall id :: id in workers && workers[id].lastBlock != NO_BLOCK ==> workers[id].lastBlock <= best)
  }

  lemma NewestIsBest(s: State, best: int)
    requires Listed(s) && Newest(s.workers, best)
    ensures IsBest(LastBlocks(s.order, s.workers), best)
  {
    var id :| id in s.workers && s.workers[id].lastBlock == best;
    assert id in s.order;
    BlocksAreReports(s.order, s.workers, best);
    forall b | b in LastBlocks(s.order, s.workers) ensures b <= best {
      BlocksAreReports(s.order, s.workers, b);
    }
  }

  /** Six tenths of the workers within 3 blocks of the newest have reached v. */
  ghost predicate Reached(workers: map<WorkerId, Worker>, best: int, v: int) {
    |At(workers, v, best)| * 10 >= |At(workers, best - 3, best)| * 6
  }

  lemma VoteIsFor(blocks: seq<int>, best: int, v: int)
    requires IsVote(blocks, v) && IsBest(blocks, best)
    ensures IsVoteFor(blocks, best, v)
  {
    var b :| IsBest(blocks, b) && IsVoteFor(blocks, b, v);
    BestIsUnique(blocks, b, best);
  }

  /** A tick takes over the newest block that six tenths of the workers within 3 blocks of
      the newest have reached, if it is newer than the consensus block. */
  lemma TickTakesVote(states: seq<State>, steps: seq<Step>, k: nat, best: int) returns (v: int)
    requires Run(states, steps) && k < |steps| && steps[k].Tick? && Newest(states[k].workers, best)
    ensures best - 3 <= v <= best && Reached(states[k].workers, best, v)
    ensures forall u :: v < u <= best ==> !Reached(states[k].workers, best, u)
    ensures states[k + 1].consensus == if v > states[k].consensus then v else states[k].consensus
  {
    RunInv(states, steps, k);
    var s := states[k];
    assert Enabled(s, steps[k]);
    var blocks := LastBlocks(s.order, s.workers);
    NewestIsBest(s, best);
    v :| IsVote(blocks, v) && states[k + 1].consensus == if v > s.consensus then v else s.consensus;
    hide At, LastBlocks, Between, IsBest;
    VoteIsFor(blocks, best, v);
    CountsWorkers(s, best - 3, best);
    forall u | v <= u <= best ensures Reached(s.workers, best, u) <==> Quorum(blocks, best, u) {
      CountsWorkers(s, u, best);
    }
  }

  lemma BetweenOf(blocks: seq<int>, low: int, high: int, n: nat)
    requires |blocks| <= 5
    requires n == (if |blocks| > 0 && low <= blocks[0] <= high then 1 else 0)
                  + (if |blocks| > 1 && low <= blocks[1] <= high then 1 else 0)
                  + (if |blocks| > 2 && low <= blocks[2] <= high then 1 else 0)
                  + (if |blocks| > 3 && low <= blocks[3] <= high then 1 else 0)
                  + (if |blocks| > 4 && low <= blocks[4] <= high then 1 else 0)
    ensures Between(blocks, low, high) == n
  {
    if |blocks| > 0 {
      var last := |blocks| - 1;
      BetweenOf(blocks[..last], low, high, n - (if low <= blocks[last] <= high then 1 else 0));
    }
  }

  lemma ThreeOfFive()
    ensures IsVote([10, 10, 10, 9, 9], 10)
  {
    var b := [10, 10, 10, 9, 9];
    BetweenOf(b, 10, 10, 3);
    BetweenOf(b, 7, 10, 5);
    assert IsBest(b, 10) && IsVoteFor(b, 10, 10);
  }

  lemma OneOfTwo()
    ensures IsVote([10, 9], 9)
  {
    var b := [10, 9];
    BetweenOf(b, 10, 10, 1);
    BetweenOf(b, 9, 10, 2);
    BetweenOf(b, 7, 10, 2);
    assert !Quorum(b, 10, 10);
    assert IsBest(b, 10) && IsVoteFor(b, 10, 9);
  }

  lemma Laggards()
    ensures IsVote([10, 6, 6, 6], 10)
  {
    var b := [10, 6, 6, 6];
    BetweenOf(b, 10, 10, 1);
    BetweenOf(b, 7, 10, 1);
    assert IsBest(b, 10) && IsVoteFor(b, 10, 10);
  }

  /** Three of five are six tenths, one of two is not, and who is more than 3 blocks
      behind does not count. */
  lemma VoteExamples()
    ensures IsVote([10, 10, 10, 9, 9], 10)
    ensures IsVote([10, 9], 9)
    ensures IsVote([10, 6, 6, 6], 10)
  {
    ThreeOfFive();
    OneOfTwo();
    Laggards();
  }

  /** After a tick with reporters every worker is marked by its block. */
  lemma TickMarks(states: seq<State>, steps: seq<Step>, k: nat, id: WorkerId, reporter: WorkerId)
    requires Run(states, steps) && k < |steps| && steps[k].Tick? && id in states[k].workers
    requires reporter in states[k].workers && states[k].workers[reporter].lastBlock != NO_BLOCK
    ensures id in states[k + 1].workers
    ensures states[k + 1].workers[id].isSync <==> states[k].workers[id].lastBlock >= states[k + 1].consensus
    ensures states[k + 1].workers[id].lastBlock == states[k].workers[id].lastBlock
  {
    RunInv(states, steps, k);
    var s := states[k];
    assert Enabled(s, steps[k]);
    assert reporter in s.order;
    BlocksAreReports(s.order, s.workers, s.workers[reporter].lastBlock);
  }

  /** What the worker's present incarnation has reported last. */
  ghost function LastReport(steps: seq<Step>, k: nat, id: WorkerId): int
    requires k <= |steps|
  {
    if k == 0 then NO_BLOCK
    else
      match steps[k - 1]
      case Report(w, block) => if w == id then block else LastReport(steps, k - 1, id)
      case Spawn(w, _) => if w == id then NO_BLOCK else LastReport(steps, k - 1, id)
      case Respawn(w, _) => if w == id then NO_BLOCK else LastReport(steps, k - 1, id)
      case _ => LastReport(steps, k - 1, id)
  }

  lemma LastBlockStep(s: State, step: Step, id: WorkerId)
    requires Inv(s) && Enabled(s, step) && id in Next(s, step).workers
    ensures var after := Next(s, step).workers[id].lastBlock;
            match step
            case Report(w, block) =>
              if w == id then after == block else id in s.workers && after == s.workers[id].lastBlock
            case Spawn(w, _) =>
              if w == id then after == NO_BLOCK else id in s.workers && after == s.workers[id].lastBlock
            case Respawn(w, _) =>
              if w == id then after == NO_BLOCK else id in s.workers && after == s.workers[id].lastBlock
            case _ => id in s.workers && after == s.workers[id].lastBlock
  {
  }

  /** A worker's block is the last one reported since it was last started, if any. */
  lemma {:induction false} LastBlockIsReport(states: seq<State>, steps: seq<Step>, k: nat, id: WorkerId)
    requires Run(states, steps) && k < |states| && id in states[k].workers
    ensures states[k].workers[id].lastBlock == LastReport(steps, k, id)
  {
    if k == 0 {
    } else {
      RunInv(states, steps, k - 1);
      LastBlockStep(states[k - 1], steps[k - 1], id);
      hide Next, Enabled, Inv;
      if id in states[k - 1].workers {
        LastBlockIsReport(states, steps, k - 1, id);
      }
    }
  }

  // ----- the code -----

  ghost predicate Marked(before: map<WorkerId, Worker>, after: map<WorkerId, Worker>, id: WorkerId, consensus: int) {
    id in before && id in after && after[id] == before[id].(isSync := before[id].lastBlock >= consensus)
  }

  lemma MarkedAll(before: map<WorkerId, Worker>, after: map<WorkerId, Worker>, consensus: int)
    requires before.Keys == after.Keys && forall id :: id in before ==> Marked(before, after, id, consensus)
    ensures after == MarkAll(before, consensus)
  {
    forall id | id in before ensures after[id] == MarkAll(before, consensus)[id] {
      assert Marked(before, after, id, consensus);
    }
  }

  datatype Selection = Selected(ids: seq<WorkerId>) | SelectWorkerError | KeyError

  ghost predicate Suitable(w: Worker, archival: Option<bool>) {
    w.isAlive && w.isSync && (archival == None || w.isArchival == archival.value)
  }

  lemma NextInOrder(order: seq<WorkerId>, i: nat)
    requires Distinct(order) && i < |order|
    ensures order[i] !in order[..i] && order[..i + 1] == order[..i] + [order[i]]
  {
  }

  lemma DistinctSnoc(ids: seq<WorkerId>, id: WorkerId)
    requires Distinct(ids) && id !in ids
    ensures Distinct(ids + [id])
  {
  }

  class TonlibManager {
    var order: seq<WorkerId>
    var workers: map<WorkerId, Worker>
    var consensusBlock: int

    ghost function Model(): State
      reads this
    {
      State(order, workers, consensusBlock)
    }

    constructor ()
      ensures Model() == START && Inv(Model())
    {
      order, workers, consensusBlock := [], map[], NO_BLOCK;
    }

    method CollectBlocks() returns (blocks: seq<int>)
      requires Listed(Model())
      ensures blocks == LastBlocks(order, workers)
    {
      blocks := [];
      for i := 0 to |order|
        invariant blocks == LastBlocks(order[..i], workers)
      {
        assert order[..i + 1][..i] == order[..i];
        var block := workers[order[i]].lastBlock;
        if block != NO_BLOCK {
          blocks := blocks + [block];
        }
      }
      assert order[..|order|] == order;
    }

    method Best(blocks: seq<int>) returns (best: int)
      requires blocks != []
      ensures IsBest(blocks, best)
    {
      best := blocks[0];
      for i := 1 to |blocks|
        invariant best in blocks && forall k :: 0 <= k < i ==> blocks[k] <= best
      {
        if blocks[i] > best {
          best := blocks[i];
        }
      }
    }

    /** sum([1 if ls == block else 0 for ls in last_blocks]) */
    method CountOf(blocks: seq<int>, block: int) returns (n: nat)
      ensures n == Between(blocks, block, block)
    {
      n := 0;
      for i := 0 to |blocks|
        invariant n == Between(blocks[..i], block, block)
      {
        assert blocks[..i + 1][..i] == blocks[..i];
        n := n + (if blocks[i] == block then 1 else 0);
      }
      assert blocks[..|blocks|] == blocks;
    }

    /** The vote: count the reporters at each of the four newest blocks, then go down
        until 60% of them are at or above. */
    method Vote(blocks: seq<int>) returns (seqno: int)
      requires blocks != []
      ensures IsVote(blocks, seqno)
    {
      var best := Best(blocks);
      var strats: seq<nat> := [];
      var total := 0;
      BetweenMember(blocks, best + 1, best);
      for i := 0 to 4
        invariant |strats| == i && forall k :: 0 <= k < i ==> strats[k] == Between(blocks, best - k, best - k)
        invariant total == Between(blocks, best - i + 1, best)
      {
        BetweenSplit(blocks, best - i, best - i + 1, best);
        var n := CountOf(blocks, best - i);
        strats, total := strats + [n], total + n;
      }
      seqno := 0;
      var sm, i := 0, 0;
      BetweenMember(blocks, best - 3, best);
      while i < 4
        invariant 0 <= i < 4 && sm == Between(blocks, best - i + 1, best)
        invariant forall u :: best - i < u <= best ==> !Quorum(blocks, best, u)
      {
        BetweenSplit(blocks, best - i, best - i + 1, best);
        sm := sm + strats[i];
        if 10 * sm >= 6 * total {
          seqno := best - i;
          assert IsVoteFor(blocks, best, seqno);
          break;
        }
        assert !Quorum(blocks, best, best - i);
        i := i + 1;
      }
    }

    /** Marks every worker against the consensus block. */
    method MarkSync()
      requires Listed(Model())
      modifies this`workers
      ensures workers == MarkAll(old(workers), consensusBlock)
    {
      for i := 0 to |order|
        invariant workers.Keys == old(workers).Keys
        invariant forall k :: 0 <= k < i ==> Marked(old(workers), workers, order[k], consensusBlock)
        invariant forall k :: i <= k < |order| ==> workers[order[k]] == old(workers)[order[k]]
      {
        var w := workers[order[i]];
        var isSync := w.lastBlock >= consensusBlock;
        if isSync != w.isSync {
          workers := workers[order[i] := w.(isSync := isSync)];
        }
      }
      forall id | id in old(workers) ensures Marked(old(workers), workers, id, consensusBlock) {
        var k :| 0 <= k < |order| && order[k] == id;
      }
      MarkedAll(old(workers), workers, consensusBlock);
    }

    /** One pass of check_working. */
    method CheckWorking()
      requires Inv(Model())
      modifies this`workers, this`consensusBlock
      ensures Ticked(old(Model()), Model()) && Inv(Model())
      ensures consensusBlock >= old(consensusBlock)
    {
      var blocks := CollectBlocks();
      if blocks == [] {
        return;
      }
      var seqno := Vote(blocks);
      if seqno > consensusBlock {
        consensusBlock := seqno;
      }
      MarkSync();
    }

    /** read_results on a LAST_BLOCK_UPDATE. */
    method BlockUpdate(id: WorkerId, block: int)
      requires Inv(Model()) && Enabled(Model(), Step.Report(id, block))
      modifies this`workers
      ensures Inv(Model()) && Model() == Next(old(Model()), Step.Report(id, block))
    {
      StepKeeps(Model(), Step.Report(id, block));
      if workers[id].lastBlock != block {
        workers := workers[id := workers[id].(lastBlock := block)];
      }
    }

    /** terminate_worker, as far as the marks go. */
    method TerminateWorker(id: WorkerId)
      requires Inv(Model()) && id in workers
      modifies this`workers
      ensures Inv(Model()) && Model() == Next(old(Model()), Step.Terminate(id))
    {
      StepKeeps(Model(), Step.Terminate(id));
      workers := workers[id := workers[id].(isAlive := false)];
      workers := workers[id := workers[id].(isSync := false)];
    }

    /** spawn_worker; an existing worker is terminated first. */
    method SpawnWorker(id: WorkerId, alive: bool)
      requires Inv(Model())
      modifies this`workers, this`order
      ensures Inv(Model())
      ensures var step := if id in old(workers) then Step.Respawn(id, alive) else Step.Spawn(id, alive);
              Model() == Next(old(Model()), step)
    {
      StepKeeps(Model(), if id in workers then Step.Respawn(id, alive) else Step.Spawn(id, alive));
      if id in workers {
        TerminateWorker(id);
      } else {
        workers := workers[id := Worker(false, false, false, NO_BLOCK)];
        order := order + [id];
      }
      workers := workers[id := workers[id].(isAlive := alive, isSync := false, lastBlock := NO_BLOCK)];
    }

    method AllSuitable(archival: Option<bool>) returns (suitable: seq<WorkerId>)
      requires Listed(Model())
      ensures Distinct(suitable)
      ensures forall k :: 0 <= k < |suitable| ==> suitable[k] in workers && Suitable(workers[suitable[k]], archival)
      ensures forall id :: id in workers && Suitable(workers[id], archival) ==> id in suitable
    {
      suitable := [];
      assert Distinct(order) && Distinct(suitable);
      hide Distinct;
      for i := 0 to |order|
        invariant Distinct(suitable)
        invariant forall k :: 0 <= k < |suitable| ==> suitable[k] in order[..i] && suitable[k] in workers
        invariant forall k :: 0 <= k < |suitable| ==> Suitable(workers[suitable[k]], archival)
        invariant forall k :: 0 <= k < i && Suitable(workers[order[k]], archival) ==> order[k] in suitable
      {
        var w := workers[order[i]];
        NextInOrder(order, i);
        if w.isAlive && w.isSync && (archival == None || w.isArchival == archival.value) {
          DistinctSnoc(suitable, order[i]);
          suitable := suitable + [order[i]];
        }
      }
    }

    /** select_worker: the asked one if it is in sync, else some of the suitable ones.
        Every worker returned has reached the consensus block. */
    method SelectWorker(index: Option<WorkerId>, archival: Option<bool>, count: int) returns (r: Selection)
      requires Inv(Model())
      ensures r.KeyError? <==> count == 1 && index.Some? && index.value !in workers
      ensures count == 1 && index.Some? && index.value in workers && workers[index.value].isSync ==>
                r == Selected([index.value])
      ensures r.SelectWorkerError? <==>
                && !(count == 1 && index.Some? && (index.value !in workers || workers[index.value].isSync))
                && (forall id :: id in workers ==> !Suitable(workers[id], archival))
      ensures r.Selected? ==> Distinct(r.ids) && (if count > 1 then 1 <= |r.ids| <= count else |r.ids| == 1)
      ensures r.Selected? ==> forall id :: id in r.ids ==>
                id in workers && workers[id].isSync && workers[id].lastBlock >= consensusBlock
      ensures r.Selected? && !(count == 1 && index.Some? && r.ids == [index.value]) ==>
                forall id :: id in r.ids ==>
                  Suitable(workers[id], archival) && workers[id].isAlive
                  && (archival.Some? ==> workers[id].isArchival == archival.value)
      ensures r.Selected? && count > 1 && |r.ids| < count ==>
                forall id :: id in workers && Suitable(workers[id], archival) ==> id in r.ids
    {
      if count == 1 && index.Some? {
        if index.value !in workers {
          return KeyError;
        }
        if workers[index.value].isSync {
          return Selected([index.value]);
        }
      }
      var suitable := AllSuitable(archival);
      ghost var all := suitable;
      suitable := Shuffle(suitable);
      Reordered(all, suitable);
      forall k | 0 <= k < |suitable| ensures suitable[k] in workers && Suitable(workers[suitable[k]], archival) {
        assert suitable[k] in suitable;
        assert suitable[k] in all;
      }
      if suitable == [] {
        forall id | id in workers ensures !Suitable(workers[id], archival) {
          assert id !in all;
        }
        return SelectWorkerError;
      }
      ghost var first := suitable[0];
      assert first in workers && Suitable(workers[first], archival);
      if count > 1 {
        var n := if count < |suitable| then count else |suitable|;
        assert forall id :: id in suitable[..n] ==> id in suitable;
        assert |suitable| <= n ==> suitable[..n] == suitable;
        r := Selected(suitable[..n]);
      } else {
        r := Selected([suitable[0]]);
      }
    }
  }
}
