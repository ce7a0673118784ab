/** Liteserver supervision, the restart part: a worker process that dies is started
    again, but only so often in each retry window. */
module RestartBudget {
  import opened Common

  const RETRY_TIMEOUT := 600.0     // restart_retry_timeout
  const RETRY_COUNT := 3           // restart_retry_count

  /** The fields of a WorkerControl that this machine reads and writes. */
  datatype Worker = Worker(isAlive: bool, isEnabled: bool, startMt: real, restartCount: nat,
                           retryMt: Option<real>, retryCount: Option<int>)

  /** One look at a worker: the clock, whether the process is alive, and, when a new
      process is due, the clock when it has been started and whether it is alive then. */
  datatype Look = Look(time: real, alive: bool, startedAt: real, startedAlive: bool)

  /** TypeError: None compared or subtracted; what was assigned before stays so. */
  datatype Outcome = Checked(worker: Worker) | TypeError(worker: Worker)

  predicate Enabled(w: Worker, t: real)
    requires w.retryMt.Some? && t <= w.retryMt.value ==> w.retryCount.Some?
  {
    w.retryMt.None? || t > w.retryMt.value || w.retryCount.value > 0
  }

  /** A death seen for the first time opens a window, unless one is open. */
  function Observed(w: Worker, look: Look): Worker {
    if w.isAlive && !look.alive && w.retryMt.None? then
      w.(isAlive := false, retryMt := Some(look.time + RETRY_TIMEOUT), retryCount := Some(RETRY_COUNT))
    else
      w.(isAlive := look.alive)
  }

  /** The restart; the last one of a window is past its deadline and closes it. */
  function Restarted(w: Worker, look: Look): Outcome {
    if w.retryCount.None? then TypeError(w)
    else if w.retryMt.None? then TypeError(w.(retryCount := Some(w.retryCount.value - 1)))
    else
      var open := look.time <= w.retryMt.value;
      Checked(w.(isAlive := look.startedAlive, startMt := look.startedAt, restartCount := w.restartCount + 1,
                 retryMt := if open then w.retryMt else None,
                 retryCount := if open then Some(w.retryCount.value - 1) else None))
  }

  /** The body of the loop over the workers. */
  function Check(w: Worker, look: Look, restartTimeout: real): Outcome {
    if w.retryMt.Some? && look.time <= w.retryMt.value && w.retryCount.None? then TypeError(w)
    else
      var enabled := Enabled(w, look.time);
      var seen := Observed(w, look).(isEnabled := enabled);
      if !seen.isAlive && enabled && look.time >= seen.startMt + restartTimeout
      then Restarted(seen, look)
      else Checked(seen)
  }

  // ----- what the looks add up to -----

  /** `closed` counts the windows that are over. */
  datatype History = History(firstDeath: Option<real>, closed: nat, restarts: seq<real>, now: real)

  function Noted(h: History, w: Worker, w': Worker, look: Look): History {
    History(if h.firstDeath.None? && w.isAlive && !look.alive then Some(look.time) else h.firstDeath,
            if w.retryMt.Some? && w'.retryMt.None? then h.closed + 1 else h.closed,
            if w'.restartCount > w.restartCount then h.restarts + [look.startedAt] else h.restarts,
            look.startedAt)
  }

  ghost predicate Apart(times: seq<real>, distance: real) {
    forall i :: 0 < i < |times| ==> times[i - 1] + distance <= times[i]
  }

  /** The deadline and the counter come and go together, the counter stays within 0..3. */
  ghost predicate WindowOk(w: Worker) {
    && (w.retryMt.Some? <==> w.retryCount.Some?)
    && (w.retryCount.Some? ==> 0 <= w.retryCount.value <= RETRY_COUNT)
  }

  /** Recorded dead without a window: its restart can only fail. */
  predicate Lost(w: Worker) {
    !w.isAlive && w.retryMt.None?
  }

  ghost predicate LogOk(w: Worker, h: History, restartTimeout: real) {
    && |h.restarts| == w.restartCount
    && Apart(h.restarts, restartTimeout)
    && (h.restarts != [] ==> w.startMt == h.restarts[|h.restarts| - 1])
    && w.startMt <= h.now
  }

  /** Each closed window has used up four restarts at most and 600 seconds at least. */
  ghost predicate BudgetOk(w: Worker, h: History) {
    && (h.firstDeath.None? ==> h.closed == 0 && w.retryMt.None? && h.restarts == [])
    && (w.retryMt.Some? && w.retryCount.Some? && h.firstDeath.Some? ==>
         && |h.restarts| <= 4 * h.closed + RETRY_COUNT - w.retryCount.value
         && h.firstDeath.value + RETRY_TIMEOUT * h.closed as real <= w.retryMt.value - RETRY_TIMEOUT <= h.now)
    && (w.retryMt.None? && h.firstDeath.Some? ==>
         && |h.restarts| <= 4 * h.closed
         && h.firstDeath.value + RETRY_TIMEOUT * h.closed as real <= h.now)
  }

  ghost predicate Inv(w: Worker, h: History, restartTimeout: real) {
    WindowOk(w) && LogOk(w, h, restartTimeout) && BudgetOk(w, h)
  }

  ghost predicate InOrder(h: History, look: Look) {
    h.now <= look.time <= look.startedAt
  }

  lemma WindowKeeps(w: Worker, look: Look, restartTimeout: real)
    requires WindowOk(w)
    ensures WindowOk(Check(w, look, restartTimeout).worker)
  {
  }

  lemma ApartSnoc(times: seq<real>, t: real, distance: real)
    requires Apart(times, distance) && (times != [] ==> times[|times| - 1] + distance <= t)
    ensures Apart(times + [t], distance)
  {
  }

  lemma LogKeeps(w: Worker, h: History, look: Look, restartTimeout: real)
    requires LogOk(w, h, restartTimeout) && InOrder(h, look)
    ensures var w' := Check(w, look, restartTimeout).worker; LogOk(w', Noted(h, w, w', look), restartTimeout)
  {
    hide Apart;
    if look.time >= w.startMt + restartTimeout {
      ApartSnoc(h.restarts, look.startedAt, restartTimeout);
    }
  }

  lemma BudgetKeeps(w: Worker, h: History, look: Look, restartTimeout: real)
    requires WindowOk(w) && BudgetOk(w, h) && LogOk(w, h, restartTimeout) && InOrder(h, look)
    ensures var w' := Check(w, look, restartTimeout).worker; BudgetOk(w', Noted(h, w, w', look))
  {
    hide Apart;
    assert RETRY_TIMEOUT * (h.closed + 1) as real == RETRY_TIMEOUT * h.closed as real + RETRY_TIMEOUT;
  }

  /** A check in order keeps everything, whether or not it fails. */
  lemma CheckKeeps(w: Worker, h: History, look: Look, restartTimeout: real)
    requires Inv(w, h, restartTimeout) && InOrder(h, look)
    ensures var w' := Check(w, look, restartTimeout).worker; Inv(w', Noted(h, w, w', look), restartTimeout)
  {
    hide Noted, WindowOk, LogOk, BudgetOk;
    WindowKeeps(w, look, restartTimeout);
    LogKeeps(w, h, look, restartTimeout);
    BudgetKeeps(w, h, look, restartTimeout);
  }

  ghost predicate Started(w: Worker, h: History) {
    && w.restartCount == 0 && w.retryMt.None? && w.retryCount.None?
    && h == History(None, 0, [], w.startMt)
  }

  ghost predicate LookStep(w: Worker, h: History, look: Look, w': Worker, h': History, restartTimeout: real) {
    && InOrder(h, look)
    && w' == Check(w, look, restartTimeout).worker    // an error is caught, and the loop goes on
    && h' == Noted(h, w, w', look)
  }

  ghost predicate Run(workers: seq<Worker>, logs: seq<History>, looks: seq<Look>, restartTimeout: real) {
    && |workers| == |logs| == |looks| + 1
    && Started(workers[0], logs[0])
    && (forall k :: 0 <= k < |looks| ==>
         LookStep(workers[k], logs[k], looks[k], workers[k + 1], logs[k + 1], restartTimeout))
  }

  lemma {:induction false} RunInv(workers: seq<Worker>, logs: seq<History>, looks: seq<Look>, restartTimeout: real,
      k: nat)
    requires Run(workers, logs, looks, restartTimeout) && k < |workers|
    ensures Inv(workers[k], logs[k], restartTimeout)
  {
    if k == 0 {
    } else {
      RunInv(workers, logs, looks, restartTimeout, k - 1);
      assert LookStep(workers[k - 1], logs[k - 1], looks[k - 1], workers[k], logs[k], restartTimeout);
      CheckKeeps(workers[k - 1], logs[k - 1], looks[k - 1], restartTimeout);
    }
  }

  /** At every moment of every run, the restarts so far are at most 3 and 4 more for
      every 600 seconds since the first death, and there are none before it. */
  lemma RestartsAreBounded(workers: seq<Worker>, logs: seq<History>, looks: seq<Look>, restartTimeout: real,
      k: nat)
    requires Run(workers, logs, looks, restartTimeout) && k < |workers|
    ensures logs[k].firstDeath.None? ==> workers[k].restartCount == 0
    ensures logs[k].firstDeath.Some? ==>
              workers[k].restartCount <= 3 + 4 * ((logs[k].now - logs[k].firstDeath.value) / RETRY_TIMEOUT).Floor
  {
    RunInv(workers, logs, looks, restartTimeout, k);
    var h := logs[k];
    if h.firstDeath.Some? {
      assert h.closed as real <= (h.now - h.firstDeath.value) / RETRY_TIMEOUT;
    }
  }

  /** Restarts of one worker are at least restart_timeout apart. */
  lemma RestartsAreApart(workers: seq<Worker>, logs: seq<History>, looks: seq<Look>, restartTimeout: real,
      k: nat)
    requires Run(workers, logs, looks, restartTimeout) && k < |workers|
    ensures |logs[k].restarts| == workers[k].restartCount && Apart(logs[k].restarts, restartTimeout)
  {
    RunInv(workers, logs, looks, restartTimeout, k);
  }

  // ----- what a check does -----

  /** The restarts that are left in the window of a worker seen dead now. */
  function Left(w: Worker): int {
    if w.retryCount.Some? then w.retryCount.value else RETRY_COUNT
  }

  /** The restart of a dead worker is due: its last start is long enough ago, it is not
      lost, and its window has a restart left or is past its deadline. */
  predicate RestartDue(w: Worker, look: Look, restartTimeout: real) {
    && !look.alive && !Lost(w)
    && look.time >= w.startMt + restartTimeout
    && (w.retryMt.None? || look.time > w.retryMt.value || Left(w) > 0)
  }

  /** What the restart is to the worker: a new process, and one restart less in its window;
      past the deadline the window is closed. */
  ghost predicate IsRestarted(w: Worker, look: Look, w': Worker) {
    && w'.restartCount == w.restartCount + 1
    && w'.startMt == look.startedAt && w'.isAlive == look.startedAlive
    && (if w.retryMt.Some? && look.time > w.retryMt.value then w'.retryMt.None? && w'.retryCount.None?
        else w'.retryCount == Some(Left(w) - 1)
             && w'.retryMt == Some(if w.retryMt.Some? then w.retryMt.value else look.time + 600.0))
  }

  /** Without one the start is the same, and the window too, but that a death opens one
      of three restarts in 600 seconds. */
  ghost predicate IsKept(w: Worker, look: Look, w': Worker) {
    && w'.restartCount == w.restartCount && w'.startMt == w.startMt && w'.isAlive == look.alive
    && (if w.isAlive && !look.alive && w.retryMt.None?
        then w'.retryMt == Some(look.time + 600.0) && w'.retryCount == Some(3)
        else w'.retryMt == w.retryMt && w'.retryCount == w.retryCount)
  }

  /** A check restarts exactly the workers whose restart is due, and changes nothing else
      than to open a window for a death it sees first. */
  lemma CheckMeans(w: Worker, look: Look, restartTimeout: real)
    requires WindowOk(w)
    ensures var r := Check(w, look, restartTimeout);
            && (RestartDue(w, look, restartTimeout) ==> r.Checked? && IsRestarted(w, look, r.worker))
            && (!RestartDue(w, look, restartTimeout) ==> IsKept(w, look, r.worker))
            && (r.Checked? <==> !Lost(w) || look.alive || look.time < w.startMt + restartTimeout)
  {
  }

  /** So over any run a dead worker that is not lost is restarted by the first check that
      is due, as long as its window has restarts left, and after its deadline always. */
  lemma DeadIsRestarted(workers: seq<Worker>, logs: seq<History>, looks: seq<Look>, restartTimeout: real, k: nat)
    requires Run(workers, logs, looks, restartTimeout) && k < |looks|
    ensures if RestartDue(workers[k], looks[k], restartTimeout) then IsRestarted(workers[k], looks[k], workers[k + 1])
            else IsKept(workers[k], looks[k], workers[k + 1])
  {
    RunInv(workers, logs, looks, restartTimeout, k);
    assert LookStep(workers[k], logs[k], looks[k], workers[k + 1], logs[k + 1], restartTimeout);
    CheckMeans(workers[k], looks[k], restartTimeout);
  }

  // ----- when a check fails -----

  /** With the two fields set and cleared together, a check fails exactly when a worker
      already recorded dead has no window when its restart is due. */
  lemma FailsWhen(w: Worker, look: Look, restartTimeout: real)
    requires w.retryMt.Some? <==> w.retryCount.Some?
    ensures Check(w, look, restartTimeout).TypeError? <==>
              Lost(w) && !look.alive && look.time >= w.startMt + restartTimeout
  {
  }

  /** This look restarted the worker, closed its window, and the new process was not
      alive when it had just been started. */
  ghost predicate ClosedDead(w: Worker, look: Look, w': Worker) {
    && !look.startedAlive
    && w'.restartCount == w.restartCount + 1
    && w.retryMt.Some? && look.time > w.retryMt.value && w'.retryMt.None?
  }

  lemma LostBefore(w: Worker, look: Look, restartTimeout: real)
    requires WindowOk(w) && Lost(Check(w, look, restartTimeout).worker)
    ensures Lost(w) || ClosedDead(w, look, Check(w, look, restartTimeout).worker)
  {
  }

  lemma FirstWorker(workers: seq<Worker>, logs: seq<History>, looks: seq<Look>, restartTimeout: real)
    requires Run(workers, logs, looks, restartTimeout)
    ensures workers[0].retryMt.None?
  {
  }

  /** A worker can be lost only since a restart that closed its window with a process that
      was not alive, or since a first process that was not. The result -1 is the latter. */
  lemma {:induction false} LostSince(workers: seq<Worker>, logs: seq<History>, looks: seq<Look>, restartTimeout: real,
      k: nat) returns (j: int)
    requires Run(workers, logs, looks, restartTimeout) && k < |workers| && Lost(workers[k])
    ensures -1 <= j < k
    ensures if j == -1 then !workers[0].isAlive else ClosedDead(workers[j], looks[j], workers[j + 1])
    ensures forall i :: j < i <= k ==> Lost(workers[i])
  {
    hide Check, Started;
    if k == 0 {
      FirstWorker(workers, logs, looks, restartTimeout);
      j := -1;
    } else {
      RunInv(workers, logs, looks, restartTimeout, k - 1);
      assert LookStep(workers[k - 1], logs[k - 1], looks[k - 1], workers[k], logs[k], restartTimeout);
      LostBefore(workers[k - 1], looks[k - 1], restartTimeout);
      if Lost(workers[k - 1]) {
        j := LostSince(workers, logs, looks, restartTimeout, k - 1);
      } else {
        j := k - 1;
      }
    }
  }

  /** Over any run, a check fails only after such a start, the worker being lost ever
      since, and the process still not alive when the next restart is due. */
  lemma FailsOnlyAfterDeadStart(workers: seq<Worker>, logs: seq<History>, looks: seq<Look>, restartTimeout: real,
      k: nat) returns (j: int)
    requires Run(workers, logs, looks, restartTimeout) && k < |looks|
    requires Check(workers[k], looks[k], restartTimeout).TypeError?
    ensures -1 <= j < k && !looks[k].alive && looks[k].time >= workers[k].startMt + restartTimeout
    ensures if j == -1 then !workers[0].isAlive else ClosedDead(workers[j], looks[j], workers[j + 1])
    ensures forall i :: j < i <= k ==> Lost(workers[i])
  {
    RunInv(workers, logs, looks, restartTimeout, k);
    FailsWhen(workers[k], looks[k], restartTimeout);
    j := LostSince(workers, logs, looks, restartTimeout, k);
  }

  lemma LostStays(w: Worker, look: Look, restartTimeout: real)
    requires WindowOk(w) && Lost(w) && !look.alive
    ensures Check(w, look, restartTimeout).worker == w.(isEnabled := true)
  {
  }

  /** And once a worker is lost, every check that is due fails and none restarts it, for
      as long as the process does not come back by itself. */
  lemma {:induction false} LostForEver(workers: seq<Worker>, logs: seq<History>, looks: seq<Look>, restartTimeout: real,
      j: nat, k: nat)
    requires Run(workers, logs, looks, restartTimeout) && j <= k < |looks| && Lost(workers[j])
    requires forall i :: j <= i <= k ==> !looks[i].alive
    ensures Lost(workers[k]) && workers[k].restartCount == workers[j].restartCount
    ensures workers[k].startMt == workers[j].startMt
    ensures looks[k].time >= workers[j].startMt + restartTimeout ==>
              Check(workers[k], looks[k], restartTimeout).TypeError?
  {
    RunInv(workers, logs, looks, restartTimeout, k);
    FailsWhen(workers[k], looks[k], restartTimeout);
    if j == k {
    } else {
      LostForEver(workers, logs, looks, restartTimeout, j, k - 1);
      assert LookStep(workers[k - 1], logs[k - 1], looks[k - 1], workers[k], logs[k], restartTimeout);
      RunInv(workers, logs, looks, restartTimeout, k - 1);
      LostStays(workers[k - 1], looks[k - 1], restartTimeout);
    }
  }

  /** Where every process that is started is alive then, every worker recorded dead has an
      open window, and no check fails. */
  lemma WindowsAreOk(workers: seq<Worker>, logs: seq<History>, looks: seq<Look>, restartTimeout: real,
      k: nat)
    requires Run(workers, logs, looks, restartTimeout) && k < |workers|
    requires workers[0].isAlive && forall i :: 0 <= i < k ==> looks[i].startedAlive
    ensures WindowOk(workers[k]) && (!workers[k].isAlive ==> workers[k].retryMt.Some?)
    ensures k < |looks| ==> Check(workers[k], looks[k], restartTimeout).Checked?
  {
    RunInv(workers, logs, looks, restartTimeout, k);
    if Lost(workers[k]) {
      var j := LostSince(workers, logs, looks, restartTimeout, k);
      assert false;
    }
    if k < |looks| {
      FailsWhen(workers[k], looks[k], restartTimeout);
    }
  }

  /** Such a start does make a check fail: a process dies, is restarted, dies again after
      the deadline, and the process of that restart is not alive. */
  lemma DeadStartFails(restartTimeout: real) returns (workers: seq<Worker>, logs: seq<History>, looks: seq<Look>)
    requires 0.0 <= restartTimeout <= 10.0
    ensures Run(workers, logs, looks, restartTimeout) && |looks| == 3 && workers[0].isAlive
    ensures ClosedDead(workers[1], looks[1], workers[2])
    ensures Check(workers[2], looks[2], restartTimeout).TypeError?
  {
    var w0, h0 := Worker(true, true, 0.0, 0, None, None), History(None, 0, [], 0.0);
    var look0, look1 := Look(10.0, false, 10.0, true), Look(700.0, false, 700.0, false);
    var look2 := Look(710.0, false, 710.0, true);
    var w1 := Check(w0, look0, restartTimeout).worker;
    var h1 := Noted(h0, w0, w1, look0);
    assert w1 == Worker(true, true, 10.0, 1, Some(610.0), Some(2));
    var w2 := Check(w1, look1, restartTimeout).worker;
    var h2 := Noted(h1, w1, w2, look1);
    assert w2 == Worker(false, true, 700.0, 2, None, None);
    var w3 := Check(w2, look2, restartTimeout).worker;
    workers, logs, looks := [w0, w1, w2, w3], [h0, h1, h2, Noted(h2, w2, w3, look2)], [look0, look1, look2];
  }

  // ----- the code -----

  class Supervisor {
    const restartTimeout: real
    const order: seq<int>
    var workers: map<int, Worker>

    ghost predicate Valid()
      reads this
    {
      && (forall i, j :: 0 <= i < j < |order| ==> order[i] != order[j])
      && (forall i :: 0 <= i < |order| ==> order[i] in workers)
    }

    constructor (restartTimeout: real, order: seq<int>, startMt: real, alive: int -> bool)
      requires forall i, j :: 0 <= i < j < |order| ==> order[i] != order[j]
      ensures Valid() && this.restartTimeout == restartTimeout && this.order == order
      ensures forall i :: 0 <= i < |order| ==> Started(workers[order[i]], History(None, 0, [], startMt))
    {
      this.restartTimeout := restartTimeout;
      this.order := order;
      workers := map id | id in order :: Worker(alive(id), true, startMt, 0, None, None);
    }

    /** The body of the pass, assignment by assignment. */
    method CheckOne(id: int, look: Look) returns (done: bool)
      requires id in workers
      modifies this`workers
      ensures workers.Keys == old(workers).Keys
      ensures forall other :: other in workers && other != id ==> workers[other] == old(workers)[other]
      ensures Check(old(workers)[id], look, restartTimeout)
              == if done then Checked(workers[id]) else TypeError(workers[id])
      ensures WindowOk(old(workers)[id]) ==>
                var w := old(workers)[id];
                if RestartDue(w, look, restartTimeout) then IsRestarted(w, look, workers[id])
                else IsKept(w, look, workers[id])
    {
      if WindowOk(workers[id]) {
        CheckMeans(workers[id], look, restartTimeout);
      }
      hide WindowOk, RestartDue, IsRestarted, IsKept;
      var w := workers[id];
      var t := look.time;
      if w.retryMt.Some? && t <= w.retryMt.value && w.retryCount.None? {
        return false;
      }
      w := w.(isEnabled := w.retryMt.None? || t > w.retryMt.value || w.retryCount.value > 0);
      if w.isAlive && !look.alive {
        if w.retryMt.None? {
          w := w.(retryMt := Some(t + RETRY_TIMEOUT));
          w := w.(retryCount := Some(RETRY_COUNT));
        }
      }
      w := w.(isAlive := look.alive);
      workers := workers[id := w];
      if !w.isAlive && w.isEnabled && t >= w.startMt + restartTimeout {
        if w.retryCount.None? {
          return false;
        }
        w := w.(retryCount := Some(w.retryCount.value - 1));
        workers := workers[id := w];
        if w.retryMt.None? {
          return false;
        }
        if t > w.retryMt.value {
          w := w.(retryCount := None, retryMt := None);
        }
        w := w.(restartCount := w.restartCount + 1, startMt := look.startedAt, isAlive := look.startedAlive);
        workers := workers[id := w];
      }
      done := true;
    }

    /** One pass of check_children_alive. An exception ends the pass; the workers after
        it are not looked at. */
    method CheckChildrenAlive(looks: seq<Look>) returns (checked: nat)
      requires Valid() && |looks| == |order|
      modifies this`workers
      ensures Valid() && workers.Keys == old(workers).Keys && checked <= |order|
      ensures forall i :: 0 <= i < checked ==>
                Check(old(workers)[order[i]], looks[i], restartTimeout) == Checked(workers[order[i]])
      ensures forall i :: checked < i < |order| ==> workers[order[i]] == old(workers)[order[i]]
      ensures checked < |order| ==>
                var id := order[checked];
                Check(old(workers)[id], looks[checked], restartTimeout) == TypeError(workers[id])
    {
      for i := 0 to |order|
        invariant workers.Keys == old(workers).Keys
        invariant forall k :: 0 <= k < i ==>
                    Check(old(workers)[order[k]], looks[k], restartTimeout) == Checked(workers[order[k]])
        invariant forall k :: i <= k < |order| ==> workers[order[k]] == old(workers)[order[k]]
      {
        var id, look := order[i], looks[i];
        var done := CheckOne(id, look);
        if !done {
          return i;
        }
      }
      checked := |order|;
    }
  }
}
