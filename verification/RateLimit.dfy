/** The two rate limiters: a token bucket, proved equal to the sliding-window rule it
    stands for, and a uniform spacer, whose grants keep their distance in every
    interleaving with releases. */
module RateLimit {

  /** time.monotonic and asyncio.sleep: readings never go back, a sleep is never cut
      short. */
  class Clock {
    var now: real

    constructor () {
      now := 0.0;
    }

    method Monotonic() returns (t: real)
      modifies this
      ensures t == now >= old(now)
    {
      var passed: real :| passed >= 0.0;
      now := now + passed;
      t := now;
    }

    method Sleep(d: real)
      modifies this
      ensures now >= old(now) && now >= old(now) + d
    {
      var extra: real :| extra >= 0.0;
      now := now + (if d > 0.0 then d else 0.0) + extra;
    }

    /** A sleep that is cancelled, at any moment of it. */
    method SleepCutShort()
      modifies this
      ensures now >= old(now)
    {
      var passed: real :| passed >= 0.0;
      now := now + passed;
    }
  }

  // ----- grants in a window of time -----

  function CountIn(grants: seq<real>, from: real, to: real): nat {
    if grants == [] then 0
    else
      var last := |grants| - 1;
      CountIn(grants[..last], from, to) + (if from <= grants[last] <= to then 1 else 0)
  }

  ghost predicate NotAfter(grants: seq<real>, t: real) {
    forall i :: 0 <= i < |grants| ==> grants[i] <= t
  }

  lemma CountAppend(grants: seq<real>, t: real, from: real, to: real)
    ensures CountIn(grants + [t], from, to) == CountIn(grants, from, to) + (if from <= t <= to then 1 else 0)
  {
    assert (grants + [t])[..|grants|] == grants;
  }

  lemma {:induction false} CountBeyond(grants: seq<real>, t: real, from: real, to: real)
    requires NotAfter(grants, t)
    ensures from > t ==> CountIn(grants, from, to) == 0
    ensures to >= t ==> CountIn(grants, from, to) == CountIn(grants, from, t)
  {
    if grants == [] {
    } else {
      CountBeyond(grants[..|grants| - 1], t, from, to);
    }
  }

  // ----- the token bucket -----

  /** What the rate allows in the window [from, to]. */
  ghost function Share(rate: real, from: real, to: real): real { rate * (to - from) }

  /** What the window [from, t] still allows: its share of the rate and one burst,
      less the grants in it. */
  ghost function Room(burst: real, rate: real, grants: seq<real>, from: real, t: real): real {
    burst + Share(rate, from, t) - CountIn(grants, from, t) as real
  }

  /** The counter is the least room of all the windows that end now. */
  ghost predicate Exact(tokens: real, burst: real, rate: real, grants: seq<real>, t: real) {
    && (forall from: real :: from <= t ==> tokens <= Room(burst, rate, grants, from, t))
    && (exists from: real :: from <= t && tokens == Room(burst, rate, grants, from, t))
  }

  /** Every window ending now has room for one more grant. */
  ghost predicate HasRoom(burst: real, rate: real, grants: seq<real>, t: real) {
    forall from: real :: from <= t ==> Room(burst, rate, grants, from, t) >= 1.0
  }

  /** The sliding-window limit, for every window of the whole history. */
  ghost predicate Conforms(burst: real, rate: real, grants: seq<real>) {
    forall from: real, to: real :: from <= to ==> CountIn(grants, from, to) as real <= burst + Share(rate, from, to)
  }

  function Refilled(tokens: real, burst: real, rate: real, elapsed: real): real {
    if burst <= tokens + elapsed * rate then burst else tokens + elapsed * rate
  }

  lemma Nonneg(a: real, b: real)
    requires a >= 0.0 && b >= 0.0
    ensures a * b >= 0.0
  {
  }

  lemma ShareNonneg(rate: real, from: real, to: real)
    requires rate >= 0.0 && from <= to
    ensures Share(rate, from, to) >= 0.0
  {
    Nonneg(rate, to - from);
  }

  lemma ShareSplit(rate: real, from: real, t: real, to: real)
    ensures Share(rate, from, to) == Share(rate, from, t) + Share(rate, t, to)
    ensures Share(rate, t, to) == (to - t) * rate
  {
  }

  lemma RoomLater(burst: real, rate: real, grants: seq<real>, from: real, t: real, t': real)
    requires NotAfter(grants, t) && from <= t <= t'
    ensures Room(burst, rate, grants, from, t') == Room(burst, rate, grants, from, t) + (t' - t) * rate
  {
    CountBeyond(grants, t, from, t');
    ShareSplit(rate, from, t, t');
  }

  lemma RoomOfEmpty(burst: real, rate: real, grants: seq<real>, t: real, from: real, t': real)
    requires NotAfter(grants, t) && t < from <= t' && rate >= 0.0
    ensures Room(burst, rate, grants, from, t') >= burst
    ensures from == t' ==> Room(burst, rate, grants, from, t') == burst
  {
    CountBeyond(grants, t, from, t');
    ShareNonneg(rate, from, t');
  }

  /** Refilling keeps the counter exact. */
  lemma RefillExact(tokens: real, burst: real, rate: real, grants: seq<real>, t: real, t': real)
    requires Exact(tokens, burst, rate, grants, t) && NotAfter(grants, t)
    requires t <= t' && rate >= 0.0
    ensures Exact(Refilled(tokens, burst, rate, t' - t), burst, rate, grants, t')
  {
    var refilled := Refilled(tokens, burst, rate, t' - t);
    forall from: real | from <= t' ensures refilled <= Room(burst, rate, grants, from, t') {
      if from <= t {
        RoomLater(burst, rate, grants, from, t, t');
      } else {
        RoomOfEmpty(burst, rate, grants, t, from, t');
      }
    }
    if t < t' && refilled == burst {
      RoomOfEmpty(burst, rate, grants, t, t', t');
    } else {
      var from: real :| from <= t && tokens == Room(burst, rate, grants, from, t);
      RoomLater(burst, rate, grants, from, t, t');
      assert tokens <= Room(burst, rate, grants, t, t) <= burst;
    }
  }

  /** Taking a token for a grant keeps the counter exact. */
  lemma GrantExact(tokens: real, burst: real, rate: real, grants: seq<real>, t: real)
    requires Exact(tokens, burst, rate, grants, t)
    ensures Exact(tokens - 1.0, burst, rate, grants + [t], t)
  {
    forall from: real | from <= t
      ensures Room(burst, rate, grants + [t], from, t) == Room(burst, rate, grants, from, t) - 1.0
    {
      CountAppend(grants, t, from, t);
    }
    var from: real :| from <= t && tokens == Room(burst, rate, grants, from, t);
    assert tokens - 1.0 == Room(burst, rate, grants + [t], from, t);
  }

  /** A token is there exactly when every sliding window ending now has room. */
  lemma TokenMeansRoom(tokens: real, burst: real, rate: real, grants: seq<real>, t: real)
    requires Exact(tokens, burst, rate, grants, t)
    ensures tokens >= 1.0 <==> HasRoom(burst, rate, grants, t)
  {
    var from: real :| from <= t && tokens == Room(burst, rate, grants, from, t);
  }

  lemma GrantConformsAt(burst: real, rate: real, grants: seq<real>, t: real, from: real, to: real)
    requires CountIn(grants, from, to) as real <= burst + Share(rate, from, to)
    requires from <= t ==> Room(burst, rate, grants, from, t) >= 1.0
    requires NotAfter(grants, t) && rate >= 0.0
    ensures CountIn(grants + [t], from, to) as real <= burst + Share(rate, from, to)
  {
    CountAppend(grants, t, from, to);
    if from <= t <= to {
      CountBeyond(grants, t, from, to);
      ShareSplit(rate, from, t, to);
      ShareNonneg(rate, t, to);
    }
  }

  lemma GrantConforms(burst: real, rate: real, grants: seq<real>, t: real)
    requires Conforms(burst, rate, grants) && HasRoom(burst, rate, grants, t)
    requires NotAfter(grants, t) && rate >= 0.0 && burst >= 0.0
    ensures Conforms(burst, rate, grants + [t])
  {
    forall from: real, to: real | from <= to
      ensures CountIn(grants + [t], from, to) as real <= burst + Share(rate, from, to)
    {
      GrantConformsAt(burst, rate, grants, t, from, to);
    }
  }

  /** All that the limiter keeps between its steps. */
  ghost predicate Sound(tokens: real, burst: real, rate: real, grants: seq<real>, t: real) {
    && tokens >= 0.0 && burst >= 1.0 && rate >= 0.0
    && NotAfter(grants, t)
    && Exact(tokens, burst, rate, grants, t)
    && Conforms(burst, rate, grants)
  }

  lemma FreshSound(burst: real, rate: real, t: real)
    requires burst >= 1.0 && rate >= 0.0
    ensures Sound(burst, burst, rate, [], t)
  {
    forall from: real | from <= t ensures burst <= Room(burst, rate, [], from, t) {
      assert CountIn([], from, t) == 0;
      ShareNonneg(rate, from, t);
    }
    assert burst == Room(burst, rate, [], t, t);
    forall from: real, to: real {:trigger CountIn([], from, to)} | from <= to
      ensures CountIn([], from, to) as real <= burst + Share(rate, from, to)
    {
      ShareNonneg(rate, from, to);
    }
  }

  lemma RefillSound(tokens: real, burst: real, rate: real, grants: seq<real>, t: real, t': real)
    requires Sound(tokens, burst, rate, grants, t) && t <= t'
    ensures Sound(Refilled(tokens, burst, rate, t' - t), burst, rate, grants, t')
  {
    RefillExact(tokens, burst, rate, grants, t, t');
    Nonneg(t' - t, rate);
  }

  lemma GrantSound(tokens: real, burst: real, rate: real, grants: seq<real>, t: real)
    requires Sound(tokens, burst, rate, grants, t) && tokens >= 1.0
    ensures Sound(tokens - 1.0, burst, rate, grants + [t], t)
  {
    TokenMeansRoom(tokens, burst, rate, grants, t);
    GrantExact(tokens, burst, rate, grants, t);
    GrantConforms(burst, rate, grants, t);
  }

  /** Waiting (1 - tokens) / rate is enough for one token. */
  lemma OneSleepIsEnough(tokens: real, burst: real, rate: real, elapsed: real)
    requires rate > 0.0 && burst >= 1.0 && tokens < 1.0
    requires elapsed >= (1.0 - tokens) / rate
    ensures Refilled(tokens, burst, rate, elapsed) >= 1.0
  {
    assert elapsed * rate >= ((1.0 - tokens) / rate) * rate;
  }

  lemma ShortOfOne(tokens: real, rate: real, elapsed: real)
    requires rate > 0.0 && 0.0 <= elapsed < (1.0 - tokens) / rate
    ensures tokens + elapsed * rate < 1.0
  {
    var wait := (1.0 - tokens) / rate;
    assert wait * rate == 1.0 - tokens;
    assert (wait - elapsed) * rate > 0.0;
  }

  /** And no more than that is waited: no earlier moment has room. */
  lemma NoRoomBefore(tokens: real, burst: real, rate: real, grants: seq<real>, t: real, t': real)
    requires Sound(tokens, burst, rate, grants, t) && tokens < 1.0 && rate > 0.0
    requires t <= t' < t + (1.0 - tokens) / rate
    ensures !HasRoom(burst, rate, grants, t')
  {
    hide Exact, HasRoom;
    RefillExact(tokens, burst, rate, grants, t, t');
    ShortOfOne(tokens, rate, t' - t);
    TokenMeansRoom(Refilled(tokens, burst, rate, t' - t), burst, rate, grants, t');
  }

  class TokenBucketRateLimit {
    const rateLimit: nat
    const burstSize: nat
    var pending: int          // permits left in the semaphore
    var tokens: real
    var lastRefill: real
    ghost var grants: seq<real>

    ghost function Burst(): real { burstSize as real }

    ghost function Rate(): real { rateLimit as real }

    ghost predicate Valid()
      reads this
    {
      Sound(tokens, Burst(), Rate(), grants, lastRefill)
    }

    /** A burst size or a bound of 0 counts as not given. */
    constructor (rateLimit: nat, burstSize: nat, maxPending: nat, clock: Clock)
      modifies clock
      ensures Valid() && grants == []
      ensures this.rateLimit == rateLimit
      ensures this.burstSize == if burstSize > 0 then burstSize else if rateLimit > 1 then rateLimit else 1
      ensures pending == if maxPending > 0 then maxPending else this.burstSize
      ensures lastRefill == clock.now >= old(clock.now)
    {
      var size := if burstSize > 0 then burstSize else if rateLimit > 1 then rateLimit else 1;
      var t := clock.Monotonic();
      this.rateLimit := rateLimit;
      this.burstSize := size;
      pending := if maxPending > 0 then maxPending else size;
      tokens := size as real;
      lastRefill := t;
      grants := [];
      new;
      FreshSound(Burst(), Rate(), t);
    }

    method Refill(clock: Clock)
      requires Valid() && lastRefill <= clock.now
      modifies clock, this`tokens, this`lastRefill
      ensures Valid() && lastRefill == clock.now >= old(clock.now)
      ensures tokens == Refilled(old(tokens), Burst(), Rate(), lastRefill - old(lastRefill))
    {
      hide Sound;
      var now := clock.Monotonic();
      var elapsed := now - lastRefill;
      RefillSound(tokens, Burst(), Rate(), grants, lastRefill, now);
      tokens := Refilled(tokens, burstSize as real, rateLimit as real, elapsed);
      lastRefill := now;
    }

    /** The part of acquire after the semaphore has given its permit, which the lock
        keeps to one task. It is granted at `lastRefill`, at once exactly when every
        window ending at the first reading has room, and after one sleep otherwise;
        with a rate of 0 the wait divides by zero. `cancelled` says whether the task is
        cancelled when it sleeps. Either way the permit is lost, and nothing else. */
    method Acquire(clock: Clock, cancelled: bool)
        returns (granted: bool, ghost asked: real, ghost sleeps: nat, ghost wait: real)
      requires Valid() && lastRefill <= clock.now && pending > 0
      modifies clock, this`pending, this`tokens, this`lastRefill, this`grants
      ensures Valid() && lastRefill <= clock.now && (granted ==> lastRefill == clock.now)
      ensures pending == old(pending) - 1
      ensures old(clock.now) <= asked <= lastRefill
      ensures sleeps <= 1 && (sleeps == 0 ==> asked == lastRefill)
      // it sleeps just until the first moment that has room
      ensures sleeps == 1 ==> wait > 0.0 && lastRefill >= asked + wait
      ensures sleeps == 1 ==> forall t :: asked <= t < asked + wait ==> !HasRoom(Burst(), Rate(), old(grants), t)
      ensures granted && sleeps == 0 <==> HasRoom(Burst(), Rate(), old(grants), asked)
      ensures granted ==> HasRoom(Burst(), Rate(), old(grants), lastRefill)
      ensures !granted <==> !HasRoom(Burst(), Rate(), old(grants), asked) && (rateLimit == 0 || cancelled)
      ensures grants == if granted then old(grants) + [lastRefill] else old(grants)
    {
      hide Exact, Conforms, NotAfter, HasRoom;
      pending := pending - 1;
      Refill(clock);
      asked, sleeps, wait := lastRefill, 0, 0.0;
      TokenMeansRoom(tokens, Burst(), Rate(), grants, lastRefill);
      while tokens < 1.0
        invariant Valid() && lastRefill == clock.now
        invariant old(clock.now) <= asked <= lastRefill && sleeps <= 1
        invariant sleeps == 0 ==> asked == lastRefill && (tokens >= 1.0 <==> HasRoom(Burst(), Rate(), grants, asked))
        invariant sleeps == 1 ==> tokens >= 1.0 && !HasRoom(Burst(), Rate(), grants, asked)
        invariant sleeps == 1 ==> rateLimit != 0 && !cancelled
        invariant sleeps == 1 ==> wait > 0.0 && lastRefill >= asked + wait
        invariant sleeps == 1 ==> forall t :: asked <= t < asked + wait ==> !HasRoom(Burst(), Rate(), old(grants), t)
        invariant grants == old(grants) && pending == old(pending) - 1
        decreases 1 - sleeps
      {
        if rateLimit == 0 {
          return false, asked, sleeps, wait;
        }
        ghost var before := lastRefill;
        ghost var had := tokens;
        var pause := (1.0 - tokens) / (rateLimit as real);
        wait := pause;
        forall t | asked <= t < asked + wait ensures !HasRoom(Burst(), Rate(), grants, t) {
          NoRoomBefore(tokens, Burst(), Rate(), grants, asked, t);
        }
        if cancelled {
          clock.SleepCutShort();
          return false, asked, sleeps, wait;
        }
        clock.Sleep(pause);
        Refill(clock);
        OneSleepIsEnough(had, Burst(), Rate(), lastRefill - before);
        sleeps := sleeps + 1;
      }
      TokenMeansRoom(tokens, Burst(), Rate(), grants, lastRefill);
      GrantSound(tokens, Burst(), Rate(), grants, lastRefill);
      tokens := tokens - 1.0;
      grants := grants + [lastRefill];
      granted := true;
    }

    method Release()
      modifies this`pending
      ensures pending == old(pending) + 1
    {
      pending := pending + 1;
    }
  }

  // ----- the uniform spacer -----

  /** The holder of the lock is between the two halves of acquire, asleep, or there is
      none. */
  datatype Holder = Nobody | Sleeping(until: real)

  /** `permits` are those left in the semaphore; the last two count the releases, and the
      acquires that were cancelled after they had taken a permit. */
  datatype Spacer = Spacer(interval: real, now: real, delayUntil: real, holder: Holder, grants: seq<real>,
                           permits: int, released: nat, cancelled: nat)

  datatype Event = Elapse(d: real) | Begin | Wake | Cancel | CancelQueued | Release

  function Grant(s: Spacer): Spacer {
    s.(delayUntil := s.now + s.interval, holder := Nobody, grants := s.grants + [s.now])
  }

  /** acquire up to its first await: a task that has the lock reads the clock. */
  function BeginAcquire(s: Spacer): Spacer {
    var taken := s.(permits := s.permits - 1);
    if s.delayUntil - s.now > 0.0 then taken.(holder := Sleeping(s.delayUntil)) else Grant(taken)
  }

  function ReleaseAt(s: Spacer): Spacer {
    s.(delayUntil := s.now + s.interval, permits := s.permits + 1, released := s.released + 1)
  }

  /** The sleeping task is cancelled: the lock is free again, the permit is not given
      back. */
  function CancelAcquire(s: Spacer): Spacer {
    s.(holder := Nobody, cancelled := s.cancelled + 1)
  }

  /** A task that has its permit and waits for the lock is cancelled. */
  function CancelBeforeLock(s: Spacer): Spacer {
    s.(permits := s.permits - 1, cancelled := s.cancelled + 1)
  }

  predicate Enabled(s: Spacer, e: Event) {
    match e
    case Elapse(d) => d >= 0.0
    case Begin => s.holder == Nobody && s.permits > 0
    case Wake => s.holder.Sleeping? && s.now >= s.holder.until
    case Cancel => s.holder.Sleeping?
    case CancelQueued => s.permits > 0
    case Release => true
  }

  function Next(s: Spacer, e: Event): Spacer
    requires Enabled(s, e)
  {
    match e
    case Elapse(d) => s.(now := s.now + d)
    case Begin => BeginAcquire(s)
    case Wake => Grant(s)
    case Cancel => CancelAcquire(s)
    case CancelQueued => CancelBeforeLock(s)
    case Release => ReleaseAt(s)
  }

  ghost predicate Initial(s: Spacer) {
    s.interval > 0.0 && s.delayUntil == s.now && s.holder == Nobody && s.grants == []
    && s.permits > 0 && s.released == s.cancelled == 0
  }

  ghost predicate Spaced(grants: seq<real>, interval: real) {
    forall i :: 0 < i < |grants| ==> grants[i - 1] + interval <= grants[i]
  }

  ghost predicate Inv(s: Spacer) {
    && s.interval > 0.0
    && s.delayUntil <= s.now + s.interval
    && Spaced(s.grants, s.interval)
    && (s.grants != [] ==>
         var last := s.grants[|s.grants| - 1];
         && last <= s.now
         && last + s.interval <= s.delayUntil
         && (s.holder.Sleeping? ==> last + s.interval <= s.holder.until))
  }

  /** The interleaving of any number of tasks: each event happens in the state the
      one before left. */
  ghost predicate Run(states: seq<Spacer>, events: seq<Event>) {
    && |states| == |events| + 1
    && Initial(states[0])
    && (forall i :: 0 <= i < |events| ==> Enabled(states[i], events[i]) && states[i + 1] == Next(states[i], events[i]))
  }

  lemma {:induction false} RunInv(states: seq<Spacer>, events: seq<Event>, k: nat)
    requires Run(states, events) && k < |states|
    ensures Inv(states[k])
    ensures states[k].interval == states[0].interval
  {
    if k == 0 {
    } else {
      RunInv(states, events, k - 1);
      assert Enabled(states[k - 1], events[k - 1]);
    }
  }

  /** The earliest next grant never moves back. */
  lemma {:induction false} DelayNeverDecreases(states: seq<Spacer>, events: seq<Event>, i: nat, j: nat)
    requires Run(states, events) && i <= j < |states|
    ensures states[i].delayUntil <= states[j].delayUntil
  {
    if i == j {
    } else {
      DelayNeverDecreases(states, events, i, j - 1);
      RunInv(states, events, j - 1);
      assert Enabled(states[j - 1], events[j - 1]);
    }
  }

  /** The moment up to which an event holds the next grant back. */
  ghost predicate HoldsBack(s: Spacer, e: Event, s': Spacer) {
    e.Release? || |s'.grants| > |s.grants|
  }

  lemma DelayStep(s: Spacer, e: Event)
    requires Enabled(s, e)
    ensures var s' := Next(s, e);
            s'.delayUntil == if HoldsBack(s, e, s') then s.now + s.interval else s.delayUntil
  {
  }

  /** The earliest next grant is one interval after the last grant or release, and the
      limiter's start if there was none. */
  lemma {:induction false} DelayIsFromLast(states: seq<Spacer>, events: seq<Event>, k: nat) returns (i: int)
    requires Run(states, events) && k < |states|
    ensures -1 <= i < k
    ensures if i == -1 then states[k].delayUntil == states[0].now
            else HoldsBack(states[i], events[i], states[i + 1])
                 && states[k].delayUntil == states[i].now + states[0].interval
    ensures forall j :: i < j < k ==> !HoldsBack(states[j], events[j], states[j + 1])
  {
    if k == 0 {
      i := -1;
    } else {
      i := DelayIsFromLast(states, events, k - 1);
      RunInv(states, events, k - 1);
      assert Enabled(states[k - 1], events[k - 1]);
      DelayStep(states[k - 1], events[k - 1]);
      if HoldsBack(states[k - 1], events[k - 1], states[k]) {
        i := k - 1;
      }
    }
  }

  /** An acquire is granted at once when that moment is past, and sleeps until it, no
      shorter and no longer, when it is not. */
  lemma BeginWaitsForDelay(states: seq<Spacer>, events: seq<Event>, k: nat)
    requires Run(states, events) && k < |events| && events[k].Begin?
    ensures var s, s' := states[k], states[k + 1];
            if s.now >= s.delayUntil then s'.grants == s.grants + [s.now] && s'.holder == Nobody
            else s'.grants == s.grants && s'.holder == Sleeping(s.delayUntil)
  {
    assert Enabled(states[k], events[k]);
  }

  /** What an acquire that begins after a release at the given time does to the grants. */
  ghost predicate Pushed(s: Spacer, granted: nat, time: real) {
    && granted <= |s.grants|
    && (forall g :: granted <= g < |s.grants| ==> s.grants[g] >= time + s.interval)
    && s.delayUntil >= time + s.interval
    && (s.holder.Sleeping? ==> s.holder.until >= time + s.interval)
  }

  lemma PushedStep(s: Spacer, e: Event, granted: nat, time: real)
    requires Inv(s) && Enabled(s, e) && Pushed(s, granted, time) && time <= s.now
    ensures Pushed(Next(s, e), granted, time) && time <= Next(s, e).now
  {
  }

  lemma {:induction false} TimeGoesOn(states: seq<Spacer>, events: seq<Event>, i: nat, j: nat)
    requires Run(states, events) && i <= j < |states|
    ensures states[i].now <= states[j].now
  {
    if i == j {
    } else {
      TimeGoesOn(states, events, i, j - 1);
      assert Enabled(states[j - 1], events[j - 1]);
    }
  }

  lemma ReleaseHolds(states: seq<Spacer>, events: seq<Event>, i: nat, j: nat)
    requires Run(states, events) && i < j < |states| && events[i] == Event.Release
    ensures states[j].delayUntil >= states[i].now + states[j].interval && states[i].now <= states[j].now
  {
    RunInv(states, events, i);
    RunInv(states, events, j);
    DelayStep(states[i], events[i]);
    DelayNeverDecreases(states, events, i + 1, j);
    TimeGoesOn(states, events, i, j);
  }

  lemma PushedFirst(s: Spacer, time: real)
    requires Inv(s) && Enabled(s, Begin) && s.delayUntil >= time + s.interval && time <= s.now
    ensures Pushed(Next(s, Begin), |s.grants|, time) && time <= Next(s, Begin).now
  {
    hide Spaced;
  }

  lemma {:induction false} PushedSince(states: seq<Spacer>, events: seq<Event>, i: nat, j: nat, k: nat)
    requires Run(states, events) && i < j < k < |states| && events[i] == Event.Release && events[j] == Begin
    ensures Pushed(states[k], |states[j].grants|, states[i].now) && states[i].now <= states[k].now
  {
    RunInv(states, events, k - 1);
    if k == j + 1 {
      ReleaseHolds(states, events, i, j);
      hide Inv, Next, Enabled, Pushed;
      PushedFirst(states[j], states[i].now);
    } else {
      hide Inv, Next, Enabled, Pushed;
      PushedSince(states, events, i, j, k - 1);
      PushedStep(states[k - 1], events[k - 1], |states[j].grants|, states[i].now);
    }
  }

  /** An acquire that begins after a release, and every later one, is granted no earlier
      than an interval after that release. */
  lemma {:induction false} ReleasePushes(states: seq<Spacer>, events: seq<Event>, i: nat, j: nat, k: nat, g: nat)
    requires Run(states, events) && i < j < k < |states| && events[i] == Event.Release && events[j] == Begin
    requires |states[j].grants| <= g < |states[k].grants|
    ensures states[k].grants[g] >= states[i].now + states[0].interval
  {
    PushedSince(states, events, i, j, k);
    RunInv(states, events, k);
  }

  /** Consecutive grants are at least one interval apart, in every interleaving. */
  lemma GrantsSpaced(states: seq<Spacer>, events: seq<Event>, k: nat)
    requires Run(states, events) && k < |states|
    ensures Spaced(states[k].grants, states[0].interval)
  {
    RunInv(states, events, k);
  }

  ghost function Steps(n: int, interval: real): real { (n as real) * interval }

  /** The last of n grants in the window is n - 1 intervals past its start. */
  ghost predicate Far(n: nat, interval: real, from: real, last: real) {
    n > 0 ==> from + Steps(n - 1, interval) <= last
  }

  lemma StepsMore(n: int, interval: real)
    ensures Steps(n + 1, interval) == Steps(n, interval) + interval
    ensures Steps(0, interval) == 0.0
  {
  }

  lemma {:induction false} SpacedCount(grants: seq<real>, interval: real, from: real, to: real)
    requires Spaced(grants, interval) && interval > 0.0 && grants != []
    requires grants[|grants| - 1] <= to
    ensures Far(CountIn(grants, from, to), interval, from, grants[|grants| - 1])
  {
    var rest, last := grants[..|grants| - 1], grants[|grants| - 1];
    var n := CountIn(rest, from, to);
    StepsMore(0, interval);
    if rest == [] {
    } else {
      assert rest[|rest| - 1] + interval <= last;
      SpacedCount(rest, interval, from, to);
      StepsMore(n as int - 1, interval);
    }
  }

  lemma {:induction false} SpacedCountAny(grants: seq<real>, interval: real, from: real, to: real)
    requires Spaced(grants, interval) && interval > 0.0 && from <= to
    ensures Far(CountIn(grants, from, to), interval, from, to)
  {
    if grants == [] {
    } else if grants[|grants| - 1] > to {
      SpacedCountAny(grants[..|grants| - 1], interval, from, to);
    } else {
      SpacedCount(grants, interval, from, to);
    }
  }

  /** Permits over any run: what is missing is out with a grant or a sleeping task, or was
      lost by a cancelled one. There is never less than none. */
  lemma {:induction false} PermitsConserved(states: seq<Spacer>, events: seq<Event>, k: nat)
    requires Run(states, events) && k < |states|
    ensures var s := states[k];
            var asleep := if s.holder.Sleeping? then 1 else 0;
            && s.permits >= 0
            && s.permits + |s.grants| + s.cancelled + asleep == states[0].permits + s.released
  {
    if k == 0 {
    } else {
      PermitsConserved(states, events, k - 1);
      assert Enabled(states[k - 1], events[k - 1]);
    }
  }

  /** The bound on tasks in flight: those granted and not yet released, with the one asleep,
      never outnumber the permits that cancelled acquires have left. */
  lemma PendingIsBounded(states: seq<Spacer>, events: seq<Event>, k: nat)
    requires Run(states, events) && k < |states|
    ensures var s := states[k];
            var asleep := if s.holder.Sleeping? then 1 else 0;
            |s.grants| + asleep - s.released <= states[0].permits - s.cancelled
  {
    PermitsConserved(states, events, k);
  }

  /** So when every grant has been released, a permit is missing for each cancelled
      acquire, and no release ever brings it back. */
  lemma CancelledPermitsAreLost(states: seq<Spacer>, events: seq<Event>, k: nat)
    requires Run(states, events) && k < |states|
    requires states[k].holder == Nobody && states[k].released == |states[k].grants|
    ensures states[k].permits == states[0].permits - states[k].cancelled
  {
    PermitsConserved(states, events, k);
  }

  lemma StrictProduct(a: real, b: real)
    requires a > 0.0 && b > 0.0
    ensures a * b > 0.0
  {
  }

  lemma DivideSpan(n: int, span: real, interval: real)
    requires interval > 0.0 && Steps(n, interval) <= span
    ensures n <= (span / interval).Floor
  {
    var x, q := n as real, span / interval;
    assert q * interval == span;
    if x > q {
      StrictProduct(x - q, interval);
    }
  }

  /** Any window of length L holds at most floor(L / interval) + 1 grants. */
  lemma WindowHoldsFew(states: seq<Spacer>, events: seq<Event>, k: nat, from: real, to: real)
    requires Run(states, events) && k < |states| && from <= to
    ensures CountIn(states[k].grants, from, to) <= ((to - from) / states[0].interval).Floor + 1
  {
    RunInv(states, events, k);
    var interval := states[0].interval;
    var n := CountIn(states[k].grants, from, to);
    SpacedCountAny(states[k].grants, interval, from, to);
    if n > 0 {
      DivideSpan(n - 1, to - from, interval);
    } else {
      DivideSpan(0, to - from, interval);
    }
  }

  class UniformRateLimit {
    const interval: real
    var pending: int
    var delayUntil: real
    ghost var holder: Holder
    ghost var grants: seq<real>
    ghost var released: nat
    ghost var cancelled: nat

    ghost function At(now: real): Spacer
      reads this
    {
      Spacer(interval, now, delayUntil, holder, grants, pending, released, cancelled)
    }

    /** The constructor divides by the rate. */
    constructor (rateLimit: nat, maxPending: nat, clock: Clock)
      requires rateLimit > 0
      modifies clock
      ensures Initial(At(clock.now)) && clock.now >= old(clock.now)
      ensures interval == 1.0 / (rateLimit as real)
      ensures pending == if maxPending > 0 then maxPending else rateLimit
    {
      var now := clock.Monotonic();
      interval := 1.0 / (rateLimit as real);
      pending := if maxPending > 0 then maxPending else rateLimit;
      delayUntil := now;
      holder, grants, released, cancelled := Nobody, [], 0, 0;
    }

    /** acquire up to its sleep, once a permit is there; a wait of 0 means that it is
        already granted. */
    method BeginAcquire(clock: Clock) returns (wait: real)
      requires holder == Nobody && pending > 0
      modifies clock, this`pending, this`delayUntil, this`holder, this`grants
      ensures clock.now >= old(clock.now)
      ensures At(clock.now) == Next(old(At(clock.now)).(now := clock.now), Begin)
      ensures pending == old(pending) - 1
      ensures wait == if holder.Sleeping? then holder.until - clock.now else 0.0
    {
      pending := pending - 1;
      var now := clock.Monotonic();
      var timeout := delayUntil - now;
      if timeout > 0.0 {
        wait, holder := timeout, Sleeping(delayUntil);
      } else {
        wait := 0.0;
        delayUntil, grants := now + interval, grants + [now];
      }
    }

    /** acquire after its sleep; releases may have moved `delayUntil` meanwhile. */
    method FinishAcquire(clock: Clock)
      requires holder.Sleeping? && clock.now >= holder.until
      modifies clock, this`delayUntil, this`holder, this`grants
      ensures clock.now >= old(clock.now)
      ensures At(clock.now) == Next(old(At(clock.now)).(now := clock.now), Wake)
    {
      var now := clock.Monotonic();
      delayUntil := now + interval;
      holder, grants := Nobody, grants + [now];
    }

    /** acquire when its task is cancelled in its sleep. */
    method CancelAcquire()
      requires holder.Sleeping?
      modifies this`holder, this`cancelled
      ensures forall now :: At(now) == Next(old(At(now)), Cancel)
    {
      holder, cancelled := Nobody, cancelled + 1;
    }

    /** And when it is cancelled while it waits for the lock. */
    method CancelBeforeLock()
      requires pending > 0
      modifies this`pending, this`cancelled
      ensures forall now :: At(now) == Next(old(At(now)), CancelQueued)
    {
      pending, cancelled := pending - 1, cancelled + 1;
    }

    method Release(clock: Clock)
      modifies clock, this`pending, this`delayUntil, this`released
      ensures clock.now >= old(clock.now)
      ensures At(clock.now) == Next(old(At(clock.now)).(now := clock.now), Event.Release)
      ensures pending == old(pending) + 1
    {
      pending, released := pending + 1, released + 1;
      var now := clock.Monotonic();
      delayUntil := now + interval;
    }

    /** A caller alone with the limiter: acquire is its two halves around the sleep. */
    method Acquire(clock: Clock)
      requires holder == Nobody && pending > 0 && Inv(At(clock.now))
      modifies clock, this`pending, this`delayUntil, this`holder, this`grants
      ensures holder == Nobody && Inv(At(clock.now))
      ensures |grants| == |old(grants)| + 1 && grants[..|old(grants)|] == old(grants)
      ensures old(grants) != [] ==> grants[|grants| - 1] >= old(grants[|grants| - 1]) + interval
      ensures clock.now >= old(clock.now) && delayUntil >= old(delayUntil)
    {
      var wait := BeginAcquire(clock);
      if wait > 0.0 {
        clock.Sleep(wait);
        FinishAcquire(clock);
      }
    }
  }
}
