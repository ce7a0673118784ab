/** The index cursor of a collection: each cycle reads the cursor from the database,
    fetches the items after it from the chain, and commits the rows found together with
    the new cursor. A cycle may fail at any of its awaits; cycles are serialised by the
    indexer's lock. */
module IndexCursor {
  import opened Common

  /** What the chain and IPFS say about one item. An error while asking for its address
      ends the cycle whatever its type; later on a TonlibRequestError skips the item. */
  datatype Fetch = NoAddress | Data(index: int, content: int) | RequestError | Fails

  datatype Row = Row(index: int, content: int)

  /** `cursor` is None until the collection has its row. */
  datatype Db = Db(cursor: Option<int>, rows: seq<Row>)

  /** Everything a cycle meets; `ackOk` is false when it is cancelled while the commit
      goes through. */
  datatype Chain = Chain(refreshOk: bool, next: Option<int>, fetch: int -> Fetch,
                         iconsOk: bool, commitOk: bool, ackOk: bool)

  datatype Ending = Done | Raised

  /** TonlibRequestError: from the call, or for an item that is not the one asked for. */
  predicate Skipped(fetch: int -> Fetch, i: int) {
    fetch(i) == RequestError || (fetch(i).Data? && fetch(i).index != i)
  }

  ghost predicate Increasing(bulk: seq<Row>) {
    forall i, j :: 0 <= i < j < |bulk| ==> bulk[i].index < bulk[j].index
  }

  ghost predicate Indexed(rows: seq<Row>, i: int) {
    exists k :: 0 <= k < |rows| && rows[k].index == i
  }

  /** The bulk is what the chain has between the two indices, but for skipped items. */
  ghost predicate Scanned(fetch: int -> Fetch, from: int, to: int, bulk: seq<Row>) {
    && from <= to
    && Increasing(bulk)
    && (forall k :: 0 <= k < |bulk| ==>
         from <= bulk[k].index < to && fetch(bulk[k].index) == Data(bulk[k].index, bulk[k].content))
    && (forall i :: from <= i < to ==> Indexed(bulk, i) || Skipped(fetch, i))
  }

  function Cursor(db: Db): int {
    if db.cursor.Some? then db.cursor.value else 0
  }

  /** A cycle that commits moves the cursor past all that it has looked at. */
  ghost predicate Committed(db: Db, env: Chain, bulkSize: nat, db': Db, bulk: seq<Row>) {
    && env.refreshOk && env.next.Some?
    && Cursor(db) < Cursor(db') <= env.next.value
    && db'.cursor.Some? && db'.rows == db.rows + bulk
    && bulk != [] && |bulk| <= bulkSize
    && Scanned(env.fetch, Cursor(db), Cursor(db'), bulk)
  }

  /** Any other cycle leaves the rows, and the cursor or its first value. */
  ghost predicate Unchanged(db: Db, db': Db) {
    db'.rows == db.rows && Cursor(db') == Cursor(db)
  }

  /** The chain has this item under this index. */
  predicate Good(fetch: int -> Fetch, i: int) {
    fetch(i).Data? && fetch(i).index == i
  }

  /** How many such items there are between two indices. */
  function GoodCount(fetch: int -> Fetch, from: int, to: int): nat
    decreases to - from
  {
    if from >= to then 0 else GoodCount(fetch, from, to - 1) + (if Good(fetch, to - 1) then 1 else 0)
  }

  /** The scan comes to an item that ends the cycle, before its bulk is full. */
  ghost predicate ScanFails(fetch: int -> Fetch, from: int, next: int, bulkSize: nat) {
    exists i :: from <= i < next && (fetch(i).NoAddress? || fetch(i).Fails?) && GoodCount(fetch, from, i) < bulkSize
  }

  /** The cycle has something to commit when it has scanned. */
  ghost predicate HasBulk(db: Db, env: Chain, bulkSize: nat) {
    && env.refreshOk && env.next.Some?
    && !ScanFails(env.fetch, Cursor(db), env.next.value, bulkSize)
    && bulkSize > 0 && GoodCount(env.fetch, Cursor(db), env.next.value) > 0
  }

  ghost predicate Commits(db: Db, env: Chain, bulkSize: nat) {
    HasBulk(db, env, bulkSize) && env.iconsOk && env.commitOk
  }

  function Least(a: int, b: int): int { if a <= b then a else b }

  /** A cycle commits exactly when nothing goes wrong up to the commit and there is
      something to commit; it is then as much as the chain has, but for a full bulk. */
  ghost predicate CycleStep(db: Db, env: Chain, bulkSize: nat, db': Db) {
    if Commits(db, env, bulkSize) then
      exists bulk: seq<Row> ::
        && Committed(db, env, bulkSize, db', bulk)
        && |bulk| == Least(bulkSize, GoodCount(env.fetch, Cursor(db), env.next.value))
    else Unchanged(db, db')
  }

  lemma {:induction false} CountGrows(fetch: int -> Fetch, from: int, i: int, j: int)
    requires i <= j
    ensures GoodCount(fetch, from, i) <= GoodCount(fetch, from, j)
    decreases j - i
  {
    if i == j {
    } else {
      CountGrows(fetch, from, i, j - 1);
    }
  }

  // ----- runs -----

  ghost predicate Run(dbs: seq<Db>, envs: seq<Chain>, bulkSize: nat) {
    && |dbs| == |envs| + 1
    && dbs[0] == Db(None, [])
    && (forall k :: 0 <= k < |envs| ==> CycleStep(dbs[k], envs[k], bulkSize, dbs[k + 1]))
  }

  ghost predicate RowsOk(db: Db) {
    && Cursor(db) >= 0
    && (forall k :: 0 <= k < |db.rows| ==> 0 <= db.rows[k].index < Cursor(db))
    && Increasing(db.rows)
  }

  lemma CommitKeepsRows(db: Db, env: Chain, bulkSize: nat, db': Db, bulk: seq<Row>)
    requires RowsOk(db) && Committed(db, env, bulkSize, db', bulk)
    ensures RowsOk(db')
  {
  }

  lemma {:induction false} RunRows(dbs: seq<Db>, envs: seq<Chain>, bulkSize: nat, k: nat)
    requires Run(dbs, envs, bulkSize) && k < |dbs|
    ensures RowsOk(dbs[k])
  {
    if k == 0 {
    } else {
      RunRows(dbs, envs, bulkSize, k - 1);
      var db, env, db' := dbs[k - 1], envs[k - 1], dbs[k];
      assert CycleStep(db, env, bulkSize, db');
      if !Unchanged(db, db') {
        var bulk: seq<Row> :| Committed(db, env, bulkSize, db', bulk);
        CommitKeepsRows(db, env, bulkSize, db', bulk);
      }
    }
  }

  /** Over any run the committed rows have distinct indices, all below the cursor. */
  lemma RowsAreDistinct(dbs: seq<Db>, envs: seq<Chain>, bulkSize: nat, k: nat, i: nat, j: nat)
    requires Run(dbs, envs, bulkSize) && k < |dbs| && i < j < |dbs[k].rows|
    ensures dbs[k].rows[i].index != dbs[k].rows[j].index
    ensures 0 <= dbs[k].rows[i].index < Cursor(dbs[k])
  {
    RunRows(dbs, envs, bulkSize, k);
  }

  /** The cursor never goes back and rows are never lost; a cycle adds at most a bulk. */
  lemma {:induction false} CursorGrows(dbs: seq<Db>, envs: seq<Chain>, bulkSize: nat, i: nat, j: nat)
    requires Run(dbs, envs, bulkSize) && i <= j < |dbs|
    ensures Cursor(dbs[i]) <= Cursor(dbs[j])
    ensures dbs[i].rows <= dbs[j].rows
    ensures |dbs[j].rows| - |dbs[i].rows| <= bulkSize * (j - i)
  {
    if i == j {
    } else {
      CursorGrows(dbs, envs, bulkSize, i, j - 1);
      assert CycleStep(dbs[j - 1], envs[j - 1], bulkSize, dbs[j]);
      assert bulkSize * (j - i) == bulkSize * (j - 1 - i) + bulkSize;
    }
  }

  /** Nor does it pass the largest next index that the chain has shown to a cycle. */
  lemma {:induction false} CursorWasOnChain(dbs: seq<Db>, envs: seq<Chain>, bulkSize: nat, k: nat) returns (c: int)
    requires Run(dbs, envs, bulkSize) && k < |dbs|
    ensures Cursor(dbs[k]) == 0 || (0 <= c < k && envs[c].next.Some? && Cursor(dbs[k]) <= envs[c].next.value)
  {
    c := 0;
    if k == 0 {
    } else {
      c := CursorWasOnChain(dbs, envs, bulkSize, k - 1);
      var db, env, db' := dbs[k - 1], envs[k - 1], dbs[k];
      assert CycleStep(db, env, bulkSize, db');
      if !Unchanged(db, db') {
        c := k - 1;
      }
    }
  }

  /** Cycle c committed past index i and skipped it. */
  ghost predicate SkippedBy(dbs: seq<Db>, envs: seq<Chain>, c: int, i: int) {
    && 0 <= c < |envs| && c + 1 < |dbs| && Cursor(dbs[c]) <= i < Cursor(dbs[c + 1])
    && (envs[c].fetch(i) == RequestError || (envs[c].fetch(i).Data? && envs[c].fetch(i).index != i))
  }

  /** Every index below the cursor has its row, or raised TonlibRequestError in the very
      cycle that committed past it: nothing is passed over silently. */
  lemma {:induction false} NothingPassedOver(dbs: seq<Db>, envs: seq<Chain>, bulkSize: nat, k: nat, i: int)
      returns (c: int)
    requires Run(dbs, envs, bulkSize) && k < |dbs| && 0 <= i < Cursor(dbs[k])
    ensures Indexed(dbs[k].rows, i) || (c < k && SkippedBy(dbs, envs, c, i))
  {
    c := k - 1;
    var db, env, db' := dbs[k - 1], envs[k - 1], dbs[k];
    assert CycleStep(db, env, bulkSize, db');
    if i < Cursor(db) {
      c := NothingPassedOver(dbs, envs, bulkSize, k - 1, i);
      if Indexed(db.rows, i) {
        var r :| 0 <= r < |db.rows| && db.rows[r].index == i;
        assert db'.rows[r].index == i;
      }
    } else {
      var bulk: seq<Row> :| Committed(db, env, bulkSize, db', bulk);
      if Indexed(bulk, i) {
        var r :| 0 <= r < |bulk| && bulk[r].index == i;
        assert db'.rows[|db.rows| + r].index == i;
      }
    }
  }

  /** A row holds what the chain gave for its index when it was committed. */
  lemma {:induction false} RowsAreFetched(dbs: seq<Db>, envs: seq<Chain>, bulkSize: nat, k: nat, r: nat)
      returns (c: nat)
    requires Run(dbs, envs, bulkSize) && k < |dbs| && r < |dbs[k].rows|
    ensures c < k && envs[c].fetch(dbs[k].rows[r].index) == Data(dbs[k].rows[r].index, dbs[k].rows[r].content)
  {
    assert k > 0;
    c := k - 1;
    var db, env, db' := dbs[k - 1], envs[k - 1], dbs[k];
    assert CycleStep(db, env, bulkSize, db');
    if r < |db.rows| {
      assert db'.rows[r] == db.rows[r];
      c := RowsAreFetched(dbs, envs, bulkSize, k - 1, r);
    } else {
      var bulk: seq<Row> :| Committed(db, env, bulkSize, db', bulk);
      assert db'.rows[r] == bulk[r - |db.rows|];
    }
  }

  lemma CommitsMeans(db: Db, env: Chain, bulkSize: nat)
    requires Commits(db, env, bulkSize)
    ensures env.next.Some? && bulkSize > 0 && GoodCount(env.fetch, Cursor(db), env.next.value) > 0
  {
  }

  /** Over any run a cycle in which nothing goes wrong moves the cursor on whenever the
      chain has an item for it, and adds a full bulk or all there is. */
  lemma CyclesIndex(dbs: seq<Db>, envs: seq<Chain>, bulkSize: nat, k: nat)
    requires Run(dbs, envs, bulkSize) && k < |envs| && Commits(dbs[k], envs[k], bulkSize)
    ensures Cursor(dbs[k]) < Cursor(dbs[k + 1]) <= envs[k].next.value
    ensures |dbs[k + 1].rows| - |dbs[k].rows|
            == Least(bulkSize, GoodCount(envs[k].fetch, Cursor(dbs[k]), envs[k].next.value)) > 0
  {
    hide Commits;
    assert CycleStep(dbs[k], envs[k], bulkSize, dbs[k + 1]);
    CommitsMeans(dbs[k], envs[k], bulkSize);
  }

  // ----- the code -----

  lemma ScannedOne(fetch: int -> Fetch, from: int, to: int, bulk: seq<Row>, bulk': seq<Row>)
    requires Scanned(fetch, from, to, bulk) && !fetch(to).NoAddress? && !fetch(to).Fails?
    requires bulk' == if fetch(to).Data? && fetch(to).index == to then bulk + [Row(to, fetch(to).content)] else bulk
    ensures Scanned(fetch, from, to + 1, bulk')
  {
    forall i | from <= i < to + 1 ensures Indexed(bulk', i) || Skipped(fetch, i) {
      if i < to && Indexed(bulk, i) {
        var k :| 0 <= k < |bulk| && bulk[k].index == i;
        assert bulk'[k].index == i;
      } else if i == to && |bulk'| > |bulk| {
        assert bulk'[|bulk|].index == i;
      }
    }
  }

  lemma NothingToCount(fetch: int -> Fetch, from: int, next: int)
    ensures from >= next ==> GoodCount(fetch, from, next) == 0
  {
  }

  lemma NothingGood(fetch: int -> Fetch, from: int, next: int, bulkSize: nat)
    ensures GoodCount(fetch, from, next) == 0 && bulkSize > 0 && !ScanFails(fetch, from, next, bulkSize) ==>
              forall i :: from <= i < next ==> Skipped(fetch, i)
  {
    if GoodCount(fetch, from, next) == 0 && bulkSize > 0 && !ScanFails(fetch, from, next, bulkSize) {
      forall i | from <= i < next ensures Skipped(fetch, i) {
        CountGrows(fetch, from, i, next);
        CountGrows(fetch, from, i + 1, next);
        assert GoodCount(fetch, from, i + 1) == GoodCount(fetch, from, i) + (if Good(fetch, i) then 1 else 0);
      }
    }
  }

  lemma CountMeansMore(fetch: int -> Fetch, from: int, to: int, n: nat)
    requires n > 0 && GoodCount(fetch, from, to) == n
    ensures from < to
  {
  }

  /** The database and the settings of one collection's indexer. */
  class Indexer {
    const bulkSize: nat
    var cursor: Option<int>
    var rows: seq<Row>

    ghost function Model(): Db
      reads this
    {
      Db(cursor, rows)
    }

    constructor (bulkSize: nat)
      ensures Model() == Db(None, []) && this.bulkSize == bulkSize
    {
      this.bulkSize := bulkSize;
      cursor, rows := None, [];
    }

    /** sync_collection_upsert: the row of the collection, made on first use. */
    method CollectionUpsert() returns (index: int)
      modifies this`cursor
      ensures cursor == Some(index) && index == Cursor(old(Model()))
    {
      if cursor.None? {
        cursor := Some(0);
      }
      index := cursor.value;
    }

    /** sync_collection_nft_bulk_insert: rows and cursor in one transaction. */
    method BulkInsert(index: int, bulk: seq<Row>)
      modifies this`cursor, this`rows
      ensures cursor == Some(index) && rows == old(rows) + bulk
    {
      rows := rows + bulk;
      cursor := Some(index);
    }

    /** The scan of a cycle: the bulk, and the index it stops at; None if an item ends the
        cycle. */
    method Scan(env: Chain, from: int, next: int) returns (bulk: Option<seq<Row>>, index: int)
      ensures bulk.None? <==> ScanFails(env.fetch, from, next, bulkSize)
      ensures bulk.Some? && from < next ==>
                && from <= index <= next && Scanned(env.fetch, from, index, bulk.value)
                && |bulk.value| == GoodCount(env.fetch, from, index)
                && |bulk.value| == Least(bulkSize, GoodCount(env.fetch, from, next))
      ensures bulk.Some? && from >= next ==> bulk.value == [] && index == from
      // it stops behind the row that fills the bulk
      ensures bulk.Some? && bulk.value != [] && index < next ==>
                |bulk.value| == bulkSize && bulk.value[bulkSize - 1].index == index - 1
    {
      var rows: seq<Row> := [];
      index := from;
      assert Scanned(env.fetch, from, from, rows);
      hide Scanned;
      while index < next && |rows| < bulkSize
        invariant from <= index && (from < next ==> index <= next) && |rows| <= bulkSize
        invariant index == from || from < next
        invariant Scanned(env.fetch, from, index, rows)
        invariant |rows| == GoodCount(env.fetch, from, index)
        invariant |rows| == bulkSize && rows != [] ==> rows[|rows| - 1].index == index - 1
        invariant forall i :: from <= i < index ==> !env.fetch(i).NoAddress? && !env.fetch(i).Fails?
        decreases next - index
      {
        var item := env.fetch(index);
        if item.NoAddress? || item.Fails? {
          return None, index;
        }
        ghost var before := rows;
        if item.Data? && item.index == index {
          rows := rows + [Row(item.index, item.content)];
        }
        ScannedOne(env.fetch, from, index, before, rows);
        index := index + 1;
      }
      forall i | index <= i < next ensures GoodCount(env.fetch, from, i) >= bulkSize {
        CountGrows(env.fetch, from, index, i);
      }
      if index < next {
        CountGrows(env.fetch, from, index, next);
      }
      bulk := Some(rows);
    }

    /** _nft_indexer_cycle: it commits exactly when it can, and raises exactly when
        something it meets does. */
    method Cycle(env: Chain) returns (ending: Ending)
      modifies this`cursor, this`rows
      ensures CycleStep(old(Model()), env, bulkSize, Model())
      ensures ending == Raised <==>
                || !env.refreshOk || env.next.None?
                || ScanFails(env.fetch, Cursor(old(Model())), env.next.value, bulkSize)
                || (HasBulk(old(Model()), env, bulkSize) && !(env.iconsOk && env.commitOk && env.ackOk))
      // it ends well without a commit only if there was nothing to commit
      ensures ending == Done && Unchanged(old(Model()), Model()) && bulkSize > 0 ==>
                var next := if env.next.Some? then env.next.value else 0;
                forall i :: Cursor(Model()) <= i < next ==> Skipped(env.fetch, i)
      // a commit stops short of the chain only behind the row that fills the bulk
      ensures Commits(old(Model()), env, bulkSize) ==>
                Cursor(Model()) == env.next.value || rows[|rows| - 1].index == Cursor(Model()) - 1
    {
      hide Scanned, Good, GoodCount, ScanFails;
      if !env.refreshOk {
        return Raised;
      }
      var from := CollectionUpsert();
      if env.next.None? {
        return Raised;
      }
      var next := env.next.value;
      var scanned, index := Scan(env, from, next);
      NothingToCount(env.fetch, from, next);
      NothingGood(env.fetch, from, next, bulkSize);
      if scanned.None? {
        return Raised;
      }
      var bulk := scanned.value;
      if |bulk| > 0 {
        if !env.iconsOk || !env.commitOk {
          return Raised;
        }
        CountMeansMore(env.fetch, from, index, |bulk|);
        BulkInsert(index, bulk);
        assert Committed(old(Model()), env, bulkSize, Model(), bulk);
        if !env.ackOk {
          return Raised;
        }
      }
      ending := Done;
    }
  }
}
