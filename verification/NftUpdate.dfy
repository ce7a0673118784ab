/** Updating one stored NFT from the chain: the record is changed attribute by attribute
    in place, and the notices that follow are put into the task queue with it. */
module NftUpdate {
  import opened Common

  /** nft_mutable_attributes in their order: owner, uri, image, image_data, fee_due_time
      and description. All other columns are set once. */
  datatype Attr = Absent | Text(s: string) | Number(n: int)

  const OWNER := 0
  const IMAGE := 2
  const IMAGE_DATA := 3
  const FEE_DUE_TIME := 4

  type Attrs = s: seq<Attr> | |s| == 6 && s[FEE_DUE_TIME].Number?
    witness [Absent, Absent, Absent, Absent, Number(0), Absent]

  function Due(a: Attrs): real {
    a[FEE_DUE_TIME].n as real
  }

  const TASK_QUEUE_TIMEOUT := 5.0
  const DAY := 86400.0
  const WARN_OFFSET := 10.0 * DAY
  const EXPIRED_OFFSET := DAY

  datatype TaskType = NotifyUpdated | NotifyTransfered | NotifyDueDate

  datatype Task = Task(time: real, kind: TaskType, nft: Option<nat>)

  /** A row object; `id` is None until the database has given one, the last three fields
      are not columns. */
  class PetMemoryNft {
    var id: Option<nat>
    const address: int
    var attrs: Attrs
    var deletedTime: Option<real>
    var updatedTime: real
    var errorCode: Option<int>
    var updated: bool
    var imageUpdated: bool
    var transfered: bool

    constructor (id: Option<nat>, address: int, attrs: Attrs, deletedTime: Option<real>, updatedTime: real,
                 errorCode: Option<int>)
      ensures this.id == id && this.address == address && this.attrs == attrs && this.deletedTime == deletedTime
      ensures this.updatedTime == updatedTime && this.errorCode == errorCode
    {
      this.id, this.address, this.attrs, this.deletedTime := id, address, attrs, deletedTime;
      this.updatedTime, this.errorCode := updatedTime, errorCode;
      updated, imageUpdated, transfered := false, false, false;
    }
  }

  /** When the due date is still to come, its notice: ten days before it, or one day
      when that is over. */
  function DueNotice(now: real, due: real, nft: Option<nat>): seq<Task> {
    if due > now then
      [Task(due - (if due - WARN_OFFSET > now then WARN_OFFSET else EXPIRED_OFFSET), NotifyDueDate, nft)]
    else []
  }

  /** A due notice always comes before the due date, and not in the past unless the date
      is less than a day away. */
  lemma DueNoticeInTime(now: real, due: real, nft: Option<nat>)
    ensures |DueNotice(now, due, nft)| == if due > now then 1 else 0
    ensures due > now ==> DueNotice(now, due, nft)[0].time < due
    ensures due > now + EXPIRED_OFFSET ==> DueNotice(now, due, nft)[0].time > now
  {
  }

  function ChangeNotice(now: real, updated: bool, transfered: bool, nft: Option<nat>): seq<Task> {
    if updated then [Task(now + TASK_QUEUE_TIMEOUT, if transfered then NotifyTransfered else NotifyUpdated, nft)]
    else []
  }

  /** A change of owner is a transfer; any other change, or a restored NFT, an update. */
  lemma NoticesMean(now: real, due: real, updated: bool, transfered: bool, nft: Option<nat>)
    ensures updated && transfered ==>
              ChangeNotice(now, updated, transfered, nft) == [Task(now + 5.0, NotifyTransfered, nft)]
    ensures updated && !transfered ==>
              ChangeNotice(now, updated, transfered, nft) == [Task(now + 5.0, NotifyUpdated, nft)]
    ensures !updated ==> ChangeNotice(now, updated, transfered, nft) == []
    ensures due > now + 864000.0 ==> DueNotice(now, due, nft) == [Task(due - 864000.0, NotifyDueDate, nft)]
    ensures now < due <= now + 864000.0 ==> DueNotice(now, due, nft) == [Task(due - 86400.0, NotifyDueDate, nft)]
    ensures due <= now ==> DueNotice(now, due, nft) == []
  {
  }

  predicate ImageDiffers(a: Attrs, b: Attrs) {
    a[IMAGE] != b[IMAGE] || a[IMAGE_DATA] != b[IMAGE_DATA]
  }

  /** What the loop has noticed in the first i attributes. */
  ghost predicate Noticed(a: Attrs, b: Attrs, i: int, updated: bool, transfered: bool, imageUpdated: bool) {
    && (updated <==> exists k :: 0 <= k < i <= 6 && a[k] != b[k])
    && (transfered <==> i > OWNER && a[OWNER] != b[OWNER])
    && (imageUpdated <==> (i > IMAGE && a[IMAGE] != b[IMAGE]) || (i > IMAGE_DATA && a[IMAGE_DATA] != b[IMAGE_DATA]))
  }

  lemma NoticedMore(a: Attrs, b: Attrs, i: int, updated: bool, transfered: bool, imageUpdated: bool)
    requires 0 <= i < 6 && Noticed(a, b, i, updated, transfered, imageUpdated)
    ensures var d := a[i] != b[i];
            Noticed(a, b, i + 1, updated || d, transfered || (d && i == OWNER),
                    imageUpdated || (d && (i == IMAGE || i == IMAGE_DATA)))
  {
  }

  lemma NoticedAll(a: Attrs, b: Attrs, updated: bool, transfered: bool, imageUpdated: bool)
    requires Noticed(a, b, 6, updated, transfered, imageUpdated)
    ensures updated <==> a != b
    ensures transfered <==> a[OWNER] != b[OWNER]
    ensures imageUpdated <==> ImageDiffers(a, b)
  {
    if !updated {
      assert forall k :: 0 <= k < 6 ==> a[k] == b[k];
      assert a == b;
    }
  }

  /** The loop's body: one attribute and the marks that follow from it. */
  method CopyAttribute(nft: PetMemoryNft, latest: PetMemoryNft, i: nat)
    requires i < 6
    modifies nft`attrs, nft`updated, nft`imageUpdated, nft`transfered
    ensures nft.attrs == old(nft.attrs)[i := old(latest.attrs)[i]]
    ensures nft != latest ==> latest.attrs == old(latest.attrs)
    ensures var d := old(nft.attrs)[i] != old(latest.attrs)[i];
            && nft.updated == (old(nft.updated) || d)
            && nft.transfered == (old(nft.transfered) || (d && i == OWNER))
            && nft.imageUpdated == (old(nft.imageUpdated) || (d && (i == IMAGE || i == IMAGE_DATA)))
  {
    var vnew := latest.attrs[i];
    if nft.attrs[i] != vnew {
      nft.attrs := nft.attrs[i := vnew];
      nft.updated := true;
      if i == OWNER {
        nft.transfered := true;
      }
      if i == IMAGE || i == IMAGE_DATA {
        nft.imageUpdated := true;
      }
    }
  }

  lemma ReplaceNext(a: Attrs, b: Attrs, i: nat)
    requires i < 6
    ensures b[..i + 1] + a[i + 1..] == (b[..i] + a[i..])[i := b[i]]
    ensures (b[..i] + a[i..])[i] == a[i]
    ensures a[i] == b[i] ==> b[..i + 1] + a[i + 1..] == b[..i] + a[i..]
  {
  }

  /** The loop over the mutable attributes. */
  method CopyAttributes(nft: PetMemoryNft, latest: PetMemoryNft)
    requires !nft.transfered && !nft.imageUpdated
    modifies nft`attrs, nft`updated, nft`imageUpdated, nft`transfered
    ensures nft.attrs == old(latest.attrs)
    ensures nft.updated <==> old(nft.updated) || old(nft.attrs) != old(latest.attrs)
    ensures nft.transfered <==> old(nft.attrs)[OWNER] != old(latest.attrs)[OWNER]
    ensures nft.imageUpdated <==> ImageDiffers(old(nft.attrs), old(latest.attrs))
  {
    ghost var before, after := nft.attrs, latest.attrs;
    ghost var changed := false;
    for i := 0 to 6
      invariant latest.attrs == after
      invariant nft.attrs == after[..i] + before[i..]
      invariant nft.updated <==> old(nft.updated) || changed
      invariant Noticed(before, after, i, changed, nft.transfered, nft.imageUpdated)
    {
      hide Noticed;
      NoticedMore(before, after, i, changed, nft.transfered, nft.imageUpdated);
      ReplaceNext(before, after, i);
      CopyAttribute(nft, latest, i);
      changed := changed || before[i] != after[i];
    }
    NoticedAll(before, after, changed, nft.transfered, nft.imageUpdated);
    assert nft.attrs == after;
  }

  /** _nft_update: afterwards the record has the new attributes and is not deleted; it
      counts as updated exactly if it was deleted or some attribute differed. The two
      records may be one object. */
  method UpdateNft(nft: PetMemoryNft, latest: PetMemoryNft, now: real) returns (notifs: seq<Task>)
    modifies nft`attrs, nft`deletedTime, nft`updatedTime, nft`updated, nft`imageUpdated, nft`transfered
    ensures nft.attrs == old(latest.attrs) && nft.deletedTime.None?
    ensures nft.updated <==> old(nft.deletedTime).Some? || old(nft.attrs) != old(latest.attrs)
    ensures nft.transfered <==> old(nft.attrs)[OWNER] != old(latest.attrs)[OWNER]
    ensures nft.imageUpdated <==> ImageDiffers(old(nft.attrs), old(latest.attrs))
    ensures nft.updatedTime == if nft.updated then now else old(nft.updatedTime)
    ensures notifs == ChangeNotice(now, nft.updated, nft.transfered, nft.id)
                      + DueNotice(now, Due(old(latest.attrs)), nft.id)
  {
    nft.updated, nft.imageUpdated, nft.transfered := false, false, false;
    if nft.deletedTime.Some? {
      nft.updated := true;
      nft.deletedTime := None;
    }
    CopyAttributes(nft, latest);
    notifs := [];
    if nft.updated {
      nft.updatedTime := now;
      notifs := [Task(now + TASK_QUEUE_TIMEOUT, if nft.transfered then NotifyTransfered else NotifyUpdated, nft.id)];
    }
    notifs := notifs + DueNotice(now, Due(nft.attrs), nft.id);
  }

  /** A second update with the same data finds nothing to do but the due notice. */
  method UpdateTwice(nft: PetMemoryNft, latest: PetMemoryNft, now: real, later: real) returns (notifs: seq<Task>)
    modifies nft`attrs, nft`deletedTime, nft`updatedTime, nft`updated, nft`imageUpdated, nft`transfered
    ensures !nft.updated && !nft.imageUpdated && !nft.transfered && nft.attrs == old(latest.attrs)
    ensures notifs == DueNotice(later, Due(old(latest.attrs)), nft.id)
  {
    var first := UpdateNft(nft, latest, now);
    notifs := UpdateNft(nft, latest, later);
  }

  // ----- the sync path -----

  /** A stored row, keyed by its id. */
  datatype Record = Record(address: int, attrs: Attrs, deletedTime: Option<real>, updatedTime: real,
                           errorCode: Option<int>)

  /** What the chain gave for the address; `known` says whether its collection is one
      that is indexed. */
  datatype Item = Item(known: bool, attrs: Attrs)

  /** The awaits of the call: reading the row, unlinking from IPFS, asking IPFS about the
      CID, drawing the icons, which leaves an error code or none, and the commit.
      `rowKnown` says whether the stored row's collection is still indexed. */
  datatype World = World(readOk: bool, rowKnown: bool, unlinkOk: bool, infoOk: bool, drawOk: bool, commitOk: bool,
                         iconError: Option<int>)

  datatype Ending = Done | Raised

  const SCHEME := "ipfs://"

  /** uri_ipfs */
  predicate UriIpfs(a: Attr) {
    a.Text? && SCHEME <= a.s
  }

  /** The text up to the first slash, question mark or hash. */
  function NetLoc(s: string): string {
    if s == "" || s[0] in "/?#" then "" else [s[0]] + NetLoc(s[1..])
  }

  /** The CID of an image, where it is an IPFS link. */
  function Cid(a: Attr): Option<string> {
    if UriIpfs(a) then Some(NetLoc(a.s[|SCHEME|..])) else None
  }

  predicate HasCid(a: Attr) {
    Cid(a).Some? && Cid(a).value != ""
  }

  /** What can go wrong between a change of the record and its commit: a new image that
      is not an IPFS link leaves `cid` without a value. */
  predicate RedrawFails(before: Attrs, after: Attrs, errorCode: Option<int>, w: World) {
    if ImageDiffers(before, after) then
      || !UriIpfs(after[IMAGE])
      || (Cid(before[IMAGE]) != Cid(after[IMAGE]) && !w.unlinkOk)
      || (HasCid(after[IMAGE]) && !w.infoOk)
      || !w.drawOk
    else errorCode.Some? && !w.drawOk
  }

  lemma NothingToRedraw(a: Attrs, w: World)
    ensures !RedrawFails(a, a, None, w)
  {
  }

  /** What the call would write, and whether it can. */
  predicate WriteFails(r: Record, attrs: Attrs, w: World) {
    (r.deletedTime.Some? || r.attrs != attrs || r.errorCode.Some?) && !w.commitOk
  }

  predicate DeleteFails(attrs: Attrs, w: World) {
    (HasCid(attrs[IMAGE]) && !w.unlinkOk) || !w.rowKnown || !w.commitOk
  }

  /** The call raises for this stored row. */
  predicate Fails(r: Record, item: Option<Item>, w: World) {
    match item
    case None => DeleteFails(r.attrs, w)
    case Some(i) =>
      i.known && (RedrawFails(r.attrs, i.attrs, r.errorCode, w) || WriteFails(r, i.attrs, w))
  }

  predicate Changes(r: Record, attrs: Attrs) {
    r.deletedTime.Some? || r.attrs != attrs
  }

  /** The row after a call that ends well: what the chain has, and a new error code or none
      where the icons were drawn. */
  function NewRow(r: Record, attrs: Attrs, now: real, w: World): Record {
    Record(r.address, attrs, None, if Changes(r, attrs) then now else r.updatedTime,
           if ImageDiffers(r.attrs, attrs) || r.errorCode.Some? then w.iconError else None)
  }

  /** And the tasks added: none for a row that is left as it is. */
  function NewTasks(r: Record, id: nat, attrs: Attrs, now: real): seq<Task> {
    if !Changes(r, attrs) && r.errorCode.None? then []
    else
      ChangeNotice(now, Changes(r, attrs), r.attrs[OWNER] != attrs[OWNER], Some(id))
      + DueNotice(now, Due(attrs), Some(id))
  }

  /** What the owner is told: of a transfer, of another change, of the due date to come when
      anything was written, and of nothing otherwise. */
  lemma NewTasksMean(r: Record, id: nat, attrs: Attrs, now: real)
    ensures r.attrs[OWNER] != attrs[OWNER] ==>
              NewTasks(r, id, attrs, now)
              == [Task(now + 5.0, NotifyTransfered, Some(id))] + DueNotice(now, Due(attrs), Some(id))
    ensures r.attrs[OWNER] == attrs[OWNER] && (r.attrs != attrs || r.deletedTime.Some?) ==>
              NewTasks(r, id, attrs, now)
              == [Task(now + 5.0, NotifyUpdated, Some(id))] + DueNotice(now, Due(attrs), Some(id))
    ensures r.attrs == attrs && r.deletedTime.None? && r.errorCode.Some? ==>
              NewTasks(r, id, attrs, now) == DueNotice(now, Due(attrs), Some(id))
    ensures r.attrs == attrs && r.deletedTime.None? && r.errorCode.None? ==> NewTasks(r, id, attrs, now) == []
  {
    assert r.attrs[OWNER] != attrs[OWNER] ==> r.attrs != attrs;
  }

  const FINE := World(true, true, true, true, true, true, None)

  /** Where nothing goes wrong around it, the call raises exactly for a changed image
      whose link is not an IPFS link. */
  lemma FailsByItself(r: Record, item: Option<Item>)
    ensures Fails(r, item, FINE) <==>
            && item.Some? && item.value.known
            && ImageDiffers(r.attrs, item.value.attrs) && !UriIpfs(item.value.attrs[IMAGE])
  {
  }

  /** An image that moves from IPFS to the web. */
  lemma WebImageFails()
    ensures var before := [Text("o"), Absent, Text("ipfs://cid/a.png"), Absent, Number(0), Absent];
            var after := before[IMAGE := Text("https://host/a.png")];
            Fails(Record(1, before, None, 0.0, None), Some(Item(true, after)), FINE)
  {
    assert "https://host/a.png"[0] == 'h' && SCHEME[0] == 'i';
  }

  class NftStore {
    var rows: map<nat, Record>
    var queue: seq<Task>

    /** Addresses are unique. */
    ghost predicate Valid()
      reads this
    {
      forall i, j :: i in rows && j in rows && rows[i].address == rows[j].address ==> i == j
    }

    constructor ()
      ensures Valid() && rows == map[] && queue == []
    {
      rows, queue := map[], [];
    }

    ghost predicate Matches(nft: PetMemoryNft, r: Record)
      reads nft
    {
      r == Record(nft.address, nft.attrs, nft.deletedTime, nft.updatedTime, nft.errorCode)
    }

    /** sync_nft_get */
    method Get(address: int) returns (nft: PetMemoryNft?)
      requires Valid()
      ensures nft == null <==> forall id :: id in rows ==> rows[id].address != address
      ensures nft != null ==> fresh(nft) && nft.id.Some? && nft.id.value in rows && Matches(nft, rows[nft.id.value])
      ensures nft != null ==> nft.address == address
    {
      nft := null;
      var rest := rows.Keys;
      while rest != {}
        invariant rest <= rows.Keys
        invariant forall id :: id in rows && id !in rest ==> rows[id].address != address
      {
        var id :| id in rest;
        var r := rows[id];
        if r.address == address {
          nft := new PetMemoryNft(Some(id), r.address, r.attrs, r.deletedTime, r.updatedTime, r.errorCode);
          return;
        }
        rest := rest - {id};
      }
    }

    /** The next value of the id column. */
    method NewId() returns (id: nat)
      ensures id !in rows
    {
      id := 0;
      var rest := rows.Keys;
      while rest != {}
        invariant rest <= rows.Keys
        invariant forall k :: k in rows && k !in rest ==> k < id
      {
        var k :| k in rest;
        if k >= id {
          id := k + 1;
        }
        rest := rest - {k};
      }
    }

    /** session.merge and session.add_all in one commit: a record without an id is
        inserted, any other replaces its row. */
    method BulkUpdate(nft: PetMemoryNft, tasks: seq<Task>)
      modifies this
      ensures queue == old(queue) + tasks
      ensures var r := Record(nft.address, nft.attrs, nft.deletedTime, nft.updatedTime, nft.errorCode);
              if nft.id.Some? then rows == old(rows)[nft.id.value := r]
              else exists id: nat :: id !in old(rows) && rows == old(rows)[id := r]
    {
      var id: nat;
      if nft.id.Some? {
        id := nft.id.value;
      } else {
        id := NewId();
      }
      rows := rows[id := Record(nft.address, nft.attrs, nft.deletedTime, nft.updatedTime, nft.errorCode)];
      queue := queue + tasks;
    }

    /** The NFT is gone from the chain: its row is kept, with the time of it. */
    method MarkDeleted(nft: PetMemoryNft, now: real, world: World) returns (ok: bool)
      requires nft.id.Some?
      modifies nft`deletedTime, this
      ensures ok <==> !DeleteFails(nft.attrs, world)
      ensures queue == old(queue)
      ensures rows == if ok then
                old(rows)[nft.id.value := Record(nft.address, nft.attrs, Some(now), nft.updatedTime, nft.errorCode)]
              else old(rows)
    {
      if HasCid(nft.attrs[IMAGE]) {
        if !world.unlinkOk {
          return false;
        }
      }
      if !world.rowKnown {
        return false;
      }
      nft.deletedTime := Some(now);
      if !world.commitOk {
        return false;
      }
      BulkUpdate(nft, []);
      ok := true;
    }

    /** From the changed record to the point where it can be written. */
    method Redraw(nft: PetMemoryNft, before: Attrs, world: World) returns (ok: bool)
      requires nft.imageUpdated <==> ImageDiffers(before, nft.attrs)
      modifies nft`errorCode, nft`updated
      ensures ok <==> !RedrawFails(before, nft.attrs, old(nft.errorCode), world)
      ensures ok ==>
                nft.errorCode == if nft.imageUpdated || old(nft.errorCode).Some? then world.iconError else None
      ensures ok ==> nft.updated == (old(nft.updated) || (!nft.imageUpdated && old(nft.errorCode).Some?))
    {
      if nft.imageUpdated {
        if !UriIpfs(nft.attrs[IMAGE]) {
          return false;    // `cid` has no value
        }
        var cid := Cid(nft.attrs[IMAGE]);
        if Cid(before[IMAGE]) != cid {
          if !world.unlinkOk {
            return false;
          }
        }
        if cid.value != "" {
          if !world.infoOk {
            return false;
          }
        }
        nft.errorCode := world.iconError;
        ok := world.drawOk;
      } else if nft.errorCode.Some? {
        nft.updated := true;
        nft.errorCode := world.iconError;
        ok := world.drawOk;
      } else {
        ok := true;
      }
    }

    /** nft_update_nft_data: no row is inserted, no row but that of the address changes,
        a call that ends well leaves that row as the chain has it, and one that raises,
        which it does exactly when reading fails or the row's case does, changes none. */
    method UpdateNftData(address: int, item: Option<Item>, now: real, world: World) returns (ending: Ending)
      requires Valid()
      modifies this
      ensures Valid() && rows.Keys == old(rows).Keys
      ensures forall id :: id in rows && rows[id] != old(rows)[id] ==>
                old(rows)[id].address == address == rows[id].address
      ensures ending == Raised <==>
                || !world.readOk
                || exists id :: id in old(rows) && old(rows)[id].address == address && Fails(old(rows)[id], item, world)
      ensures ending == Raised ==> rows == old(rows) && queue == old(queue)
      ensures ending == Done && item.Some? && item.value.known ==>
                forall id :: id in rows && rows[id].address == address ==>
                  && rows[id].attrs == item.value.attrs && rows[id].deletedTime.None?
                  && rows[id] == NewRow(old(rows)[id], item.value.attrs, now, world)
                  && queue == old(queue) + NewTasks(old(rows)[id], id, item.value.attrs, now)
      ensures ending == Done && item.None? ==>
                && queue == old(queue)
                && forall id :: id in rows && rows[id].address == address ==>
                     rows[id] == old(rows)[id].(deletedTime := Some(now))
      ensures item.Some? && !item.value.known ==> rows == old(rows) && queue == old(queue)
      ensures (forall id :: id in old(rows) ==> old(rows)[id].address != address) ==>
                rows == old(rows) && queue == old(queue)
    {
      hide RedrawFails, DeleteFails, Due, DueNotice, ChangeNotice;
      if !world.readOk {
        return Raised;
      }
      var nft := Get(address);
      if item.None? {
        if nft != null {
          var deleted := MarkDeleted(nft, now, world);
          if !deleted {
            return Raised;
          }
        }
        return Done;
      }
      if !item.value.known {
        return Done;
      }
      var latest := new PetMemoryNft(None, address, item.value.attrs, None, now, None);
      if nft == null {
        nft := latest;
        nft.imageUpdated := true;
        nft.updated := true;
      }
      var before := nft.attrs;
      var notifs := UpdateNft(nft, latest, now);
      NothingToRedraw(item.value.attrs, world);
      var drawn := Redraw(nft, before, world);
      if !drawn {
        return Raised;
      }
      if nft.updated {
        if !world.commitOk {
          return Raised;
        }
        BulkUpdate(nft, notifs);
      }
      ending := Done;
    }
  }
}
