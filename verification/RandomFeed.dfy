/** The random feed of a collection: a window of ids grows around a random start
    segment, each pass of the loop asking the database only for the ids that the
    last climb added. */
module RandomFeed {
  import opened Common

  // ----- powers of two -----

  function Pow2(k: nat): (p: nat)
    ensures p >= 1
  {
    if k == 0 then 1 else 2 * Pow2(k - 1)
  }

  /** The ceiling of the base-2 logarithm. */
  function CeilLog2(n: nat): (k: nat)
    requires n >= 1
    ensures n <= Pow2(k)
    ensures k > 0 ==> Pow2(k - 1) < n
  {
    if n == 1 then 0 else 1 + CeilLog2((n + 1) / 2)
  }

  lemma {:induction false} Pow2Monotone(i: nat, j: nat)
    requires i <= j
    ensures Pow2(i) <= Pow2(j)
  {
    if i == j {
    } else {
      Pow2Monotone(i, j - 1);
    }
  }

  lemma {:induction false} Pow2Unbounded(k: nat)
    ensures k < Pow2(k)
  {
    if k == 0 {
    } else {
      Pow2Unbounded(k - 1);
    }
  }

  lemma MulDouble(a: int, b: int)
    ensures a * (2 * b) == 2 * (a * b) == (2 * a) * b
  {
  }

  ghost predicate IsPow2(n: nat) {
    exists k: nat :: Pow2(k) == n
  }

  /** The largest power of two that divides n, which is the lowest set bit of n. */
  function LowestBit(n: nat): (b: nat)
    requires n > 0
    ensures 1 <= b <= n
  {
    if n % 2 == 1 then 1 else 2 * LowestBit(n / 2)
  }

  lemma {:induction false} LowestBitFactor(n: nat) returns (a: nat, m: nat)
    requires n > 0
    ensures LowestBit(n) == Pow2(a) && m % 2 == 1 && n == Pow2(a) * m
  {
    if n % 2 == 1 {
      a, m := 0, n;
    } else {
      var a', m' := LowestBitFactor(n / 2);
      a, m := a' + 1, m';
      assert n == 2 * (Pow2(a') * m') == Pow2(a) * m;
    }
  }

  lemma {:induction false} LowestBitOfPow2(k: nat)
    ensures LowestBit(Pow2(k)) == Pow2(k)
  {
    if k == 0 {
    } else {
      LowestBitOfPow2(k - 1);
    }
  }

  // ----- the table -----

  /** The ids of all rows, and those of the rows that pass the filter. The feed
      reads the table in one session, so it is fixed for the length of a call. */
  datatype Table = Table(ids: set<nat>, matching: set<nat>) {
    ghost predicate Valid() { matching <= ids }

    ghost predicate IsLastId(last: nat) {
      && (forall id :: id in ids ==> id <= last)
      && (if ids == {} then last == 0 else last in ids)
    }

    ghost function Match(low: int, high: int): set<nat> {
      set id | id in matching && low <= id < high
    }

    ghost function MatchFrom(low: int): set<nat> {
      set id | id in matching && low <= id
    }
  }

  ghost function Elements(s: seq<nat>): set<nat> {
    set x | x in s
  }

  lemma {:induction false} DistinctSize(s: seq<nat>)
    requires Distinct(s)
    ensures |Elements(s)| == |s|
  {
    if s == [] {
      assert Elements(s) == {};
    } else {
      var rest := s[..|s| - 1];
      DistinctSize(rest);
      assert s == rest + [s[|s| - 1]];
      assert Elements(s) == Elements(rest) + {s[|s| - 1]};
    }
  }

  // ----- the climb -----

  /** The loop variables: the ids asked next are [x0, x1), the window that will then
      have been asked is [p0, p1). The segment number n is a float from the first
      climb on. */
  datatype Climb = Climb(x0: int, x1: int, p0: int, p1: int, n: real)

  function SegmentSize(limit: nat): (size: nat)
    requires limit >= 1
    ensures 2 * limit <= size < 4 * limit && IsPow2(size)
  {
    assert CeilLog2(limit) > 0 ==> Pow2(CeilLog2(limit)) == 2 * Pow2(CeilLog2(limit) - 1);
    Pow2(CeilLog2(limit) + 1)
  }

  function Start(size: nat, n: nat): Climb {
    Climb(size * n, size * n + size, size * n, size * n + size, n as real)
  }

  /** The test n % 2 == 1 on a float. */
  predicate IsOdd(n: real) {
    n.Floor as real == n && n.Floor % 2 == 1
  }

  /** The window doubles downwards from an odd segment, upwards from any other. */
  function Grow(c: Climb): Climb {
    if IsOdd(c.n) then
      var x1 := c.p0;
      var p0 := x1 - (c.p1 - x1);
      Climb(p0, x1, p0, c.p1, c.n)
    else
      var x0 := c.p1;
      var p1 := x0 + (x0 - c.p0);
      Climb(x0, p1, c.p0, p1, c.n)
  }

  /** One climb as written: the division is a true one. */
  function Up(c: Climb): Climb {
    Grow(c).(n := c.n / 2.0)
  }

  /** One climb as meant: the parent of segment n is segment n div 2. */
  function UpToParent(c: Climb): Climb {
    Grow(c).(n := (c.n.Floor / 2) as real)
  }

  function After(size: nat, n: nat, j: nat): Climb {
    if j == 0 then Start(size, n) else Up(After(size, n, j - 1))
  }

  function AfterMeant(size: nat, n: nat, j: nat): Climb {
    if j == 0 then Start(size, n) else UpToParent(AfterMeant(size, n, j - 1))
  }

  /** The part of the window asked before the current query. */
  function Asked(c: Climb): (int, int) {
    if c.x0 == c.p0 then (c.x1, c.p1) else (c.p0, c.x0)
  }

  ghost predicate Tiled(c: Climb) {
    && c.p0 < c.p1
    && c.x0 < c.x1
    && ((c.x0 == c.p0 && c.x1 <= c.p1) || (c.x1 == c.p1 && c.p0 < c.x0))
  }

  lemma GrowTiles(c: Climb)
    requires Tiled(c)
    ensures Tiled(Grow(c)) && Asked(Grow(c)) == (c.p0, c.p1)
    ensures Grow(c).p1 - Grow(c).p0 == 2 * (c.p1 - c.p0)
  {
  }

  lemma {:induction false} AfterTiles(size: nat, n: nat, j: nat)
    requires size > 0
    ensures Tiled(After(size, n, j))
    ensures var c := After(size, n, j); c.p1 - c.p0 == size * Pow2(j)
    ensures j > 0 ==> var w := After(size, n, j - 1); Asked(After(size, n, j)) == (w.p0, w.p1)
  {
    if j == 0 {
    } else {
      AfterTiles(size, n, j - 1);
      GrowTiles(After(size, n, j - 1));
      MulDouble(size, Pow2(j - 1));
    }
  }

  ghost predicate InRange(c: Climb, id: int) { c.x0 <= id < c.x1 }

  ghost predicate InWindow(c: Climb, id: int) { c.p0 <= id < c.p1 }

  lemma WindowStep(size: nat, n: nat, j: nat, id: int)
    requires size > 0 && j > 0
    ensures InWindow(After(size, n, j), id) <==>
            InWindow(After(size, n, j - 1), id) || InRange(After(size, n, j), id)
    ensures !(InWindow(After(size, n, j - 1), id) && InRange(After(size, n, j), id))
  {
    AfterTiles(size, n, j);
  }

  lemma {:induction false} WindowGrows(size: nat, n: nat, i: nat, j: nat, id: int)
    requires size > 0 && i <= j && InWindow(After(size, n, i), id)
    ensures InWindow(After(size, n, j), id)
  {
    if i == j {
    } else {
      WindowGrows(size, n, i, j - 1, id);
      WindowStep(size, n, j, id);
    }
  }

  lemma RangeInWindow(size: nat, n: nat, j: nat, id: int)
    requires size > 0 && InRange(After(size, n, j), id)
    ensures InWindow(After(size, n, j), id)
  {
    AfterTiles(size, n, j);
  }

  lemma {:induction false} FindRange(size: nat, n: nat, j: nat, id: int) returns (i: nat)
    requires size > 0 && InWindow(After(size, n, j), id)
    ensures i <= j && InRange(After(size, n, i), id)
  {
    if j == 0 || InRange(After(size, n, j), id) {
      i := j;
    } else {
      WindowStep(size, n, j, id);
      i := FindRange(size, n, j - 1, id);
    }
  }

  /** Some query up to climb j asked for the id. */
  ghost predicate Asks(size: nat, n: nat, j: nat, id: int) {
    exists i: nat :: i <= j && InRange(After(size, n, i), id)
  }

  lemma AsksAt(size: nat, n: nat, j: nat, id: int, i: nat)
    requires i <= j && InRange(After(size, n, i), id)
    ensures Asks(size, n, j, id)
  {
    hide After, InRange;
  }

  lemma AskedIsInWindow(size: nat, n: nat, j: nat, id: int)
    requires size > 0 && Asks(size, n, j, id)
    ensures InWindow(After(size, n, j), id)
  {
    hide After, InRange, InWindow;
    var i: nat :| i <= j && InRange(After(size, n, i), id);
    RangeInWindow(size, n, i, id);
    WindowGrows(size, n, i, j, id);
  }

  /** Whatever the start, the ranges asked up to climb j cover the window of climb j:
      an id is in the window exactly when it is in one of the ranges. */
  lemma RangesTileWindow(size: nat, n: nat, j: nat, id: int)
    requires size > 0
    ensures InWindow(After(size, n, j), id) <==> Asks(size, n, j, id)
  {
    hide After, InRange, InWindow, Asks;
    if InWindow(After(size, n, j), id) {
      var i := FindRange(size, n, j, id);
      AsksAt(size, n, j, id, i);
    }
    if Asks(size, n, j, id) {
      AskedIsInWindow(size, n, j, id);
    }
  }

  /** And then in no other. */
  lemma RangesAreDisjoint(size: nat, n: nat, i: nat, k: nat, id: int)
    requires size > 0 && i < k && InRange(After(size, n, i), id)
    ensures !InRange(After(size, n, k), id)
  {
    RangeInWindow(size, n, i, id);
    WindowGrows(size, n, i, k - 1, id);
    WindowStep(size, n, k, id);
  }

  // ----- the loop as written -----

  /** The rows found by climb j fill a segment, or the window has reached both ends. */
  ghost predicate Stops(t: Table, size: nat, n: nat, last: nat, j: nat) {
    var c := After(size, n, j);
    |t.Match(c.p0, c.p1)| >= size || (c.p0 <= 0 && c.p1 >= last)
  }

  /** The rows collected for the ranges asked so far, before the query [x0, x1). */
  ghost predicate Collected(t: Table, size: nat, c: Climb, result: seq<nat>) {
    var (low, high) := Asked(c);
    && Distinct(result)
    && |result| <= size
    && Elements(result) <= t.Match(low, high)
    && (|result| < size ==> Elements(result) == t.Match(low, high))
  }

  /** The rows collected once [x0, x1) has been asked too. */
  ghost predicate Complete(t: Table, size: nat, c: Climb, result: seq<nat>) {
    && Distinct(result)
    && |result| <= size
    && Elements(result) <= t.Match(c.p0, c.p1)
    && (|result| < size ==> Elements(result) == t.Match(c.p0, c.p1))
  }

  lemma NothingYet(t: Table, size: nat, c: Climb)
    requires Tiled(c) && c.x0 == c.p0 && c.x1 == c.p1
    ensures Collected(t, size, c, [])
  {
    assert Elements([]) == t.Match(c.p1, c.p1) == {};
  }

  lemma QueryCompletes(t: Table, size: nat, c: Climb, result: seq<nat>, rows: seq<nat>)
    requires Tiled(c) && Collected(t, size, c, result) && |result| < size
    requires Distinct(rows) && Elements(rows) <= t.Match(c.x0, c.x1)
    requires |rows| <= size - |result|
    requires |rows| < size - |result| ==> Elements(rows) == t.Match(c.x0, c.x1)
    ensures Complete(t, size, c, result + rows)
  {
    var (low, high) := Asked(c);
    var all := result + rows;
    forall i, j | 0 <= i < j < |all| ensures all[i] != all[j] {
      if i < |result| <= j {
        assert all[i] in Elements(result) && all[j] in Elements(rows);
      }
    }
    assert Elements(all) == Elements(result) + Elements(rows);
    assert t.Match(c.p0, c.p1) == t.Match(low, high) + t.Match(c.x0, c.x1);
  }

  lemma CompleteSize(t: Table, size: nat, c: Climb, result: seq<nat>)
    requires Complete(t, size, c, result)
    ensures |result| < size <==> |t.Match(c.p0, c.p1)| < size
    ensures |result| < size ==> |result| == |t.Match(c.p0, c.p1)|
  {
    DistinctSize(result);
    SubsetSize(Elements(result), t.Match(c.p0, c.p1));
  }

  /** SELECT id ORDER BY id DESC, first row. */
  method LastItemId(t: Table) returns (last: nat)
    ensures t.IsLastId(last)
  {
    last := 0;
    var rest := t.ids;
    var seen: set<nat> := {};
    while rest != {}
      invariant rest + seen == t.ids
      invariant forall id :: id in seen ==> id <= last
      invariant if seen == {} then last == 0 else last in seen
    {
      var id :| id in rest;
      if seen == {} || id > last {
        last := id;
      }
      rest, seen := rest - {id}, seen + {id};
    }
    assert seen == t.ids;
  }

  /** SELECT with a limit and no order: any `count` of the matching rows, all of them
      when there are no more. */
  method Query(t: Table, low: int, high: int, count: nat) returns (rows: seq<nat>)
    ensures Distinct(rows) && Elements(rows) <= t.Match(low, high)
    ensures |rows| <= count
    ensures |rows| < count ==> Elements(rows) == t.Match(low, high)
  {
    rows := [];
    var rest := set id | id in t.matching && low <= id < high;
    while rest != {} && |rows| < count
      invariant Distinct(rows) && |rows| <= count
      invariant rest !! Elements(rows)
      invariant rest + Elements(rows) == t.Match(low, high)
    {
      var id :| id in rest;
      ghost var before := rows;
      assert id !in Elements(rows);
      rows, rest := rows + [id], rest - {id};
      assert Elements(rows) == Elements(before) + {id};
    }
  }

  lemma ShufflePrefix(t: Table, low: int, high: int, s: seq<nat>, r: seq<nat>, k: nat)
    requires multiset(r) == multiset(s) && Distinct(s) && Elements(s) <= t.Match(low, high)
    requires k <= |s|
    ensures |r| == |s|
    ensures Distinct(r[..k]) && Elements(r[..k]) <= t.Match(low, high)
  {
    Reordered(s, r);
    forall x | x in r[..k] ensures x in t.Match(low, high) {
      assert x in r;
      assert x in Elements(s);
    }
  }

  datatype Feed =
    | DomainError                                  // log2 of a limit that is not positive
    | Rows(ids: seq<nat>)
    | StillClimbing(ids: seq<nat>, at: Climb)      // the pass budget ran out

  function Min(a: int, b: int): int { if a <= b then a else b }

  /** The feed as written. The loop need not end, so the model runs at most `passes`
      passes of it; `pick` is the random start segment. */
  method RandomFeed(t: Table, limit: int, pick: nat, passes: nat) returns (feed: Feed, ghost climbs: nat)
    requires t.Valid()
    ensures feed.DomainError? <==> limit <= 0
    ensures limit >= 1 ==> forall last: nat :: t.IsLastId(last) ==>
              var size := SegmentSize(limit);
              && (forall j: nat :: j < climbs ==> !Stops(t, size, pick, last, j))
              && (feed.StillClimbing? ==> climbs == passes)
              && (feed.Rows? ==> climbs < passes && Stops(t, size, pick, last, climbs))
    ensures feed.Rows? ==>
              var w := After(SegmentSize(limit), pick, climbs);
              && Distinct(feed.ids)
              && Elements(feed.ids) <= t.Match(w.p0, w.p1)
              && |feed.ids| == Min(limit, |t.Match(w.p0, w.p1)|)
  {
    hide Grow, IsOdd, Tiled, Asked, Pow2, Distinct;
    climbs := 0;
    if limit <= 0 {
      return DomainError, 0;
    }
    var size := SegmentSize(limit);
    var last := LastItemId(t);
    var result: seq<nat> := [];
    var c := Start(size, pick);
    AfterTiles(size, pick, 0);
    NothingYet(t, size, c);
    var pass := 0;
    var reached := false;
    while |result| < size && pass < passes && !reached
      invariant reached ==> pass == climbs + 1 && c == After(size, pick, climbs) && Stops(t, size, pick, last, climbs)
      invariant reached ==> Complete(t, size, c, result)
      invariant !reached && |result| < size ==> pass == climbs && c == After(size, pick, climbs)
      invariant !reached && |result| < size ==> Collected(t, size, c, result)
      invariant !reached && |result| >= size ==> pass == climbs + 1 && Stops(t, size, pick, last, climbs)
      invariant !reached && |result| >= size ==> Complete(t, size, After(size, pick, climbs), result)
      invariant pass <= passes
      invariant forall j: nat :: j < climbs ==> !Stops(t, size, pick, last, j)
      decreases passes - pass
    {
      AfterTiles(size, pick, climbs);
      var rows := Query(t, c.x0, c.x1, size - |result|);
      QueryCompletes(t, size, c, result, rows);
      result := result + rows;
      CompleteSize(t, size, c, result);
      pass := pass + 1;
      if c.p0 <= 0 && c.p1 >= last {
        reached := true;
      } else {
        AfterTiles(size, pick, climbs + 1);
        if |result| < size {
          climbs := climbs + 1;
        }
        c := Up(c);
      }
    }
    forall other: nat | t.IsLastId(other) ensures other == last {
    }
    if !reached && |result| < size {
      return StillClimbing(result, c), climbs;
    }
    ghost var w := After(size, pick, climbs);
    CompleteSize(t, size, w, result);
    var shuffled := Shuffle(result);
    var k := Min(limit, |result|);
    ShufflePrefix(t, w.p0, w.p1, result, shuffled, k);
    feed := Rows(shuffled[..k]);
  }

  /** What a climb that reached both ends has not seen: nothing but the last row, and
      that exactly when the window ends on its id. */
  lemma BreakMissesOnlyLast(t: Table, last: nat, low: int, high: int)
    requires t.Valid() && t.IsLastId(last)
    requires low <= 0 && high >= last
    ensures t.Match(low, high) == t.matching - (if high == last then {last} else {})
  {
  }

  /** The upper bound is exclusive but the break test is not: two rows, limit 1, and
      the second is never found. */
  lemma LastRowLost()
    ensures var t := Table({1, 2}, {1, 2});
            && t.IsLastId(2)
            && Stops(t, SegmentSize(1), 0, 2, 0)
            && t.Match(After(SegmentSize(1), 0, 0).p0, After(SegmentSize(1), 0, 0).p1) == {1}
  {
    assert CeilLog2(1) == 0;
    assert Pow2(1) == 2 * Pow2(0) == 2;
    var c := After(2, 0, 0);
    assert c.p0 == 0 && c.p1 == 2;
  }

  // ----- where the climb as written can get to -----

  /** The final lower end: the segment number with its lowest set bit cleared. */
  function Floor(size: nat, n: nat): nat {
    if n == 0 then 0 else size * (n - LowestBit(n))
  }

  lemma EvenProduct(k: int, p: int)
    requires p % 2 == 0
    ensures (k * p) % 2 == 0
  {
    MulDouble(k, p / 2);
  }

  lemma OddMultiple(p: nat, m: nat, n: real)
    requires p % 2 == 0 && m % 2 == 1
    requires n * (p as real) == m as real
    ensures !IsOdd(n)
  {
    EvenProduct(n.Floor, p);
    assert n.Floor as real == n ==> (n.Floor * p) as real == m as real;
  }

  ghost function Scaled(x: real, k: int): real { x * (k as real) }

  lemma MulAssoc(a: int, b: int, c: int)
    ensures a * b * c == a * (b * c)
  {
  }

  lemma Cancel(x: real, q: nat, k: nat)
    requires q >= 1
    requires x * (q as real) == (q * k) as real
    ensures x == k as real
  {
    assert (x - (k as real)) * (q as real) == 0.0;
  }

  lemma EvenQuotient(p: nat, r: nat, m: nat, x: real)
    requires p >= 1 && r % 2 == 0 && x * (p as real) == (p * r * m) as real
    ensures !IsOdd(x)
  {
    MulAssoc(p, r, m);
    Cancel(x, p, r * m);
    EvenProduct(m, r);
  }

  lemma RealMulAssoc(x: real, p: int, r: int)
    ensures (x * (r as real)) * (p as real) == x * ((p * r) as real)
  {
  }

  lemma FractionalQuotient(p: nat, r: nat, m: nat, x: real)
    requires p >= 1 && r % 2 == 0 && m % 2 == 1 && x * ((p * r) as real) == (p * m) as real
    ensures !IsOdd(x)
  {
    RealMulAssoc(x, p, r);
    Cancel(x * (r as real), p, m);
    OddMultiple(r, m, x);
  }

  lemma OddOnceBefore(n: nat, b: nat, p: nat, r: nat, m: nat, x: real)
    requires n == b * m && b == p * r && p >= 1 && r % 2 == 0
    requires Scaled(x, p) == n as real
    ensures !IsOdd(x)
  {
    EvenQuotient(p, r, m, x);
  }

  lemma OddOnceAt(n: nat, b: nat, m: nat, x: real)
    requires n == b * m && b >= 1 && m % 2 == 1
    requires Scaled(x, b) == n as real
    ensures IsOdd(x)
  {
    Cancel(x, b, m);
  }

  lemma OddOnceAfter(n: nat, q: nat, b: nat, r: nat, m: nat, x: real)
    requires b >= 1 && r % 2 == 0 && m % 2 == 1
    requires n == b * m
    requires q == b * r
    requires Scaled(x, q) == n as real
    ensures !IsOdd(x)
  {
    FractionalQuotient(b, r, m, x);
  }

  lemma Pow2Double(k: nat)
    ensures Pow2(k + 1) == 2 * Pow2(k)
  {
  }

  lemma {:induction false} EvenRatio(i: nat, j: nat) returns (r: nat)
    requires i < j
    ensures r % 2 == 0
    ensures Pow2(j) == Pow2(i) * r
    ensures Pow2(i) < Pow2(j)
  {
    hide Pow2;
    Pow2Double(j - 1);
    if i + 1 == j {
      r := 2;
    } else {
      var h := EvenRatio(i, j - 1);
      r := 2 * h;
      MulDouble(Pow2(i), h);
    }
  }

  /** Halving n keeps it even until its lowest set bit is reached, which is the one
      climb that finds an odd number; after it there is no integer any more. */
  lemma OddOnce(n: nat, i: nat, x: real)
    requires n > 0 && Scaled(x, Pow2(i)) == n as real
    ensures IsOdd(x) <==> Pow2(i) == LowestBit(n)
  {
    var a, m := LowestBitFactor(n);
    if i < a {
      var r := EvenRatio(i, a);
      OddOnceBefore(n, Pow2(a), Pow2(i), r, m, x);
    } else if i == a {
      OddOnceAt(n, Pow2(a), m, x);
    } else {
      var r := EvenRatio(a, i);
      OddOnceAfter(n, Pow2(i), Pow2(a), r, m, x);
    }
  }

  /** The climb after 2^j = q: the lower end stays at the start until the lowest set
      bit is used up, then drops once, for good. */
  ghost predicate Lower(size: nat, n: nat, q: nat, c: Climb)
    requires n > 0
  {
    && c.p0 == (if q <= LowestBit(n) then size * n else Floor(size, n))
    && c.p1 - c.p0 == size * q
    && Scaled(c.n, q) == n as real
  }

  lemma LowerMove(c: Climb, w: int)
    requires c.p1 - c.p0 == w
    ensures Up(c).p0 == (if IsOdd(c.n) then c.p0 - w else c.p0)
    ensures Up(c).p1 - Up(c).p0 == 2 * w
    ensures Up(c).n == c.n / 2.0
  {
  }

  lemma HalfDouble(x: real, q: int)
    ensures Scaled(x / 2.0, 2 * q) == Scaled(x, q)
  {
  }

  lemma DropBit(size: nat, n: nat, q: nat)
    ensures size * n - size * q == size * (n - q)
  {
  }

  lemma Pow2NextBit(n: nat, i: nat)
    requires n > 0
    ensures Pow2(i) < LowestBit(n) <==> Pow2(i + 1) <= LowestBit(n)
  {
    var a, m := LowestBitFactor(n);
    if i < a {
      Pow2Monotone(i + 1, a);
    } else {
      Pow2Monotone(a, i);
    }
  }

  lemma LowerStep(size: nat, n: nat, i: nat, q: nat, c: Climb)
    requires n > 0 && q == Pow2(i) && Lower(size, n, q, c)
    ensures Lower(size, n, 2 * q, Up(c))
  {
    OddOnce(n, i, c.n);
    Pow2NextBit(n, i);
    LowerMove(c, size * q);
    HalfDouble(c.n, q);
    DropBit(size, n, LowestBit(n));
    MulDouble(size, q);
  }

  lemma {:induction false} LowerEnd(size: nat, n: nat, j: nat)
    requires size > 0 && n > 0
    ensures Lower(size, n, Pow2(j), After(size, n, j))
  {
    if j == 0 {
    } else {
      LowerEnd(size, n, j - 1);
      LowerStep(size, n, j - 1, Pow2(j - 1), After(size, n, j - 1));
    }
  }

  lemma StaysAtZero(size: nat, j: nat)
    requires size > 0
    ensures After(size, 0, j).p0 == 0 && After(size, 0, j).n == 0.0
  {
    if j > 0 {
      StaysAtZero(size, j - 1);
    }
  }

  lemma PositiveProduct(a: int, b: int)
    requires a > 0
    ensures a * b > 0 <==> b > 0
    ensures b >= 0 ==> a * b >= b
  {
    if b > 0 {
      assert a * b >= b;
    } else {
      assert a * b <= 0;
    }
  }

  lemma FloorIsZero(size: nat, n: nat)
    requires size > 0
    ensures Floor(size, n) <= 0 <==> n == 0 || IsPow2(n)
  {
    if n > 0 {
      PositiveProduct(size, n - LowestBit(n));
      var a, m := LowestBitFactor(n);
      if IsPow2(n) {
        var k: nat :| Pow2(k) == n;
        LowestBitOfPow2(k);
      }
    }
  }

  lemma LowerEndBounds(size: nat, n: nat, j: nat)
    requires size > 0
    ensures After(size, n, j).p0 >= Floor(size, n)
    ensures j > n ==> After(size, n, j).p0 == Floor(size, n)
  {
    if n == 0 {
      StaysAtZero(size, j);
    } else {
      LowerEnd(size, n, j);
      DropBit(size, n, LowestBit(n));
      PositiveProduct(size, LowestBit(n));
      Pow2Unbounded(j);
    }
  }

  /** As written, the window ever reaches id 0 if and only if the start segment is 0
      or a power of two. */
  lemma ReachesZero(size: nat, n: nat)
    requires size > 0
    ensures (exists j: nat :: After(size, n, j).p0 <= 0) <==> n == 0 || IsPow2(n)
  {
    FloorIsZero(size, n);
    LowerEndBounds(size, n, n + 1);
    if exists j: nat :: After(size, n, j).p0 <= 0 {
      var j: nat :| After(size, n, j).p0 <= 0;
      LowerEndBounds(size, n, j);
    }
  }

  /** As written, the loop ends if and only if the start segment is 0 or a power of
      two, or a full segment of rows matches at or above the final lower end. From any
      other start it runs for ever. */
  lemma LoopEndsWhen(t: Table, size: nat, n: nat, last: nat)
    requires t.Valid() && t.IsLastId(last) && size > 0
    ensures (exists j: nat :: Stops(t, size, n, last, j)) <==>
            n == 0 || IsPow2(n) || |t.MatchFrom(Floor(size, n))| >= size
  {
    FloorIsZero(size, n);
    if exists j: nat :: Stops(t, size, n, last, j) {
      var j: nat :| Stops(t, size, n, last, j);
      var c := After(size, n, j);
      LowerEndBounds(size, n, j);
      SubsetSize(t.Match(c.p0, c.p1), t.MatchFrom(Floor(size, n)));
    }
    if n == 0 || IsPow2(n) || |t.MatchFrom(Floor(size, n))| >= size {
      var j := n + last + 1;
      var c := After(size, n, j);
      LowerEndBounds(size, n, j);
      AfterTiles(size, n, j);
      Pow2Unbounded(j);
      PositiveProduct(size, Pow2(j));
      assert c.p1 > last;
      assert t.Match(c.p0, c.p1) == t.MatchFrom(Floor(size, n));
      assert Stops(t, size, n, last, j);
    }
  }

  lemma MulMonotone(a: nat, b: int, c: int)
    requires 0 <= a && b <= c
    ensures a * b <= a * c
  {
  }

  lemma LowestBitOfAny(n: nat)
    requires n > 0
    ensures IsPow2(n) ==> LowestBit(n) == n
  {
    if IsPow2(n) {
      var k: nat :| Pow2(k) == n;
      LowestBitOfPow2(k);
    }
  }

  /** A call that never ends: one row with id 6, limit 1, and start segment 3 of 0..3. */
  lemma EndlessClimb()
    ensures var t := Table({6}, {6});
            && t.Valid() && t.IsLastId(6) && 3 <= 6 / SegmentSize(1)
            && forall j: nat :: !Stops(t, SegmentSize(1), 3, 6, j)
  {
    var t := Table({6}, {6});
    assert CeilLog2(1) == 0;
    assert Pow2(1) == 2 * Pow2(0) == 2;
    assert SegmentSize(1) == 2;
    assert LowestBit(3) == 1;
    assert Floor(2, 3) == 4;
    assert t.MatchFrom(4) == {6};
    if IsPow2(3) {
      var k: nat :| Pow2(k) == 3;
      LowestBitOfPow2(k);
      assert false;
    }
    LoopEndsWhen(t, 2, 3, 6);
  }

  lemma BottomWhen(size: nat, n: nat, j: nat)
    requires size > 0
    ensures After(size, n, j).p0 <= 0 <==> (n == 0 || IsPow2(n)) && n < Pow2(j)
    ensures After(size, n, j).p0 <= 0 ==> After(size, n, j).p0 == 0 && After(size, n, j).p1 == size * Pow2(j)
  {
    hide After, Pow2, Floor, IsPow2;
    AfterTiles(size, n, j);
    FloorIsZero(size, n);
    LowerEndBounds(size, n, j);
    if n == 0 {
      StaysAtZero(size, j);
    } else {
      LowerEnd(size, n, j);
      PositiveProduct(size, n);
      LowestBitOfAny(n);
    }
  }

  /** The id is a whole window past the start segment. */
  ghost predicate EndsWindow(size: nat, n: nat, last: nat) {
    exists i: nat :: last == size * Pow2(i) && n < Pow2(i)
  }

  /** When a call that finds less than a segment loses the last row: exactly when the last
      id is the segment size times a power of two above the start segment. */
  lemma LastRowLostWhen(t: Table, size: nat, n: nat, last: nat, j: nat)
    requires t.Valid() && t.IsLastId(last) && size > 0 && last in t.matching
    requires Stops(t, size, n, last, j) && forall i: nat :: i < j ==> !Stops(t, size, n, last, i)
    requires |t.Match(After(size, n, j).p0, After(size, n, j).p1)| < size
    ensures last !in t.Match(After(size, n, j).p0, After(size, n, j).p1) <==> EndsWindow(size, n, last)
  {
    hide After, Pow2, IsPow2;
    BottomWhen(size, n, j);
    if last !in t.Match(After(size, n, j).p0, After(size, n, j).p1) {
      assert last == size * Pow2(j);
    }
    if EndsWindow(size, n, last) {
      var i: nat :| last == size * Pow2(i) && n < Pow2(i);
      BottomWhen(size, n, i);
      assert Stops(t, size, n, last, i);
      assert j <= i;
      Pow2Monotone(j, i);
      MulMonotone(size, Pow2(j), Pow2(i));
    }
  }

  // ----- the climb as meant -----

  lemma MulAtLeast(d: nat, e: int)
    requires d >= 1
    ensures e >= 1 ==> d * e >= d
    ensures e <= -1 ==> d * e <= 0 - d
  {
  }

  lemma DivUnique(n: nat, d: nat, q: nat, r: nat)
    requires d >= 1 && n == d * q + r && r < d
    ensures n / d == q
  {
    var e := n / d - q;
    assert d * e == d * (n / d) - d * q;
    MulAtLeast(d, e);
  }

  lemma HalfOfQuotient(n: nat, p: nat)
    requires p >= 1
    ensures n / (2 * p) == (n / p) / 2
  {
    var q := n / p;
    var h := q / 2;
    assert n == p * q + n % p;
    assert p * q == (2 * p) * h + p * (q % 2);
    var r := p * (q % 2) + n % p;
    assert n == (2 * p) * h + r;
    assert 0 <= r < 2 * p;
    DivUnique(n, 2 * p, h, r);
  }

  /** A block of width w at place q, doubled towards its sibling. */
  lemma BlockParent(w: int, q: int)
    ensures q % 2 == 1 ==> w * q - w == (2 * w) * (q / 2)
    ensures q % 2 == 0 ==> w * q == (2 * w) * (q / 2)
    ensures (2 * w) * (q / 2 + 1) == (2 * w) * (q / 2) + 2 * w
    ensures w * (q + 1) == w * q + w
  {
    MulDouble(w, q / 2);
    assert q == 2 * (q / 2) + q % 2;
    assert w * (2 * (q / 2) + 1) == w * (2 * (q / 2)) + w;
  }

  /** The window is block q of those of width w. */
  ghost predicate IsBlock(c: Climb, w: int, q: int) {
    c.n == q as real && c.p0 == w * q && c.p1 == w * (q + 1)
  }

  lemma BlockStep(c: Climb, w: int, q: int)
    requires IsBlock(c, w, q)
    ensures IsBlock(UpToParent(c), 2 * w, q / 2)
  {
    assert c.n.Floor == q;
    BlockParent(w, q);
  }

  /** Climbing to the parent segment, the window after j climbs is the aligned block
      of 2^j segments around the start. */
  lemma {:induction false} AlignedBlock(size: nat, n: nat, j: nat)
    requires size > 0
    ensures IsBlock(AfterMeant(size, n, j), size * Pow2(j), n / Pow2(j))
  {
    hide UpToParent;
    if j == 0 {
    } else {
      AlignedBlock(size, n, j - 1);
      var p := Pow2(j - 1);
      BlockStep(AfterMeant(size, n, j - 1), size * p, n / p);
      HalfOfQuotient(n, p);
      MulDouble(size, p);
    }
  }

  lemma NextMultiple(a: nat, d: nat)
    requires d > 0
    ensures d * (a / d + 1) > a
  {
    assert a == d * (a / d) + a % d;
  }

  /** Climbing to the parent segment reaches both ends within ceil(log2(count + 1))
      climbs, whatever the table, the filter and the start. */
  lemma MeantClimbIsShort(size: nat, n: nat, last: nat)
    requires size > 0 && n <= last / size
    ensures var c := AfterMeant(size, n, CeilLog2(last / size + 1));
            c.p0 == 0 && c.p1 > last
  {
    var count := last / size;
    var j := CeilLog2(count + 1);
    AlignedBlock(size, n, j);
    DivUnique(n, Pow2(j), 0, n);
    NextMultiple(last, size);
    MulMonotone(size, count + 1, Pow2(j));
  }
}
