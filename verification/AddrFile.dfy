/** Saving the address manager to peers.dat and loading it again. The tables are not written
    out; they are rebuilt from the entries, the key and the list of each bucket's entries. */
module AddrFile {
  import opened Common
  import opened AddrBook

  /** What is written of an entry. */
  datatype Saved = Saved(addr: Service, nTime: int, nServices: set<nat>, source: NetAddr, nLastSuccess: int,
    nAttempts: int)

  function Save(e: Entry): Saved {
    Saved(e.addr, e.nTime, e.nServices, e.source, e.nLastSuccess, e.nAttempts)
  }

  function Restore(s: Saved): Entry {
    Entry(s.addr, s.nTime, s.nServices, s.source, s.nLastSuccess, s.nAttempts, 0, 0, 0, false)
  }

  /** `nUBuckets` is stored with bit 30 flipped; what is read may be any number. */
  datatype File = File(
    nUBuckets: int,
    newInfos: seq<Saved>,
    triedInfos: seq<Saved>,
    buckets: seq<seq<int>>,
    asmapChecksum: nat)

  const BIT30 := 0x4000_0000

  function Flip30(n: int): int {
    if n / BIT30 % 2 == 0 then n + BIT30 else n - BIT30
  }

  // ---------------------------------------------------------------------
  // Serialize
  // ---------------------------------------------------------------------

  /** `order` lists the entries as iterating over mapInfo does. */
  ghost predicate Enumerates(order: seq<int>, info: map<int, Entry>) {
    (forall id :: id in order <==> id in info) && Distinct(order)
  }

  function Sift(order: seq<int>, keep: int -> bool): seq<int> {
    if order == [] then [] else
      Sift(order[..|order| - 1], keep) + if keep(order[|order| - 1]) then [order[|order| - 1]] else []
  }

  function Referenced(info: map<int, Entry>): int -> bool { id => id in info && info[id].nRefCount != 0 }
  function InTried(info: map<int, Entry>): int -> bool { id => id in info && info[id].fInTried }

  function NewOrder(info: map<int, Entry>, order: seq<int>): (ids: seq<int>)
    ensures forall i :: 0 <= i < |ids| ==> ids[i] in info
  {
    SiftKeeps(order, Referenced(info));
    Sift(order, Referenced(info))
  }

  function TriedOrder(info: map<int, Entry>, order: seq<int>): (ids: seq<int>)
    ensures forall i :: 0 <= i < |ids| ==> ids[i] in info
  {
    SiftKeeps(order, InTried(info));
    Sift(order, InTried(info))
  }

  function SaveAll(info: map<int, Entry>, ids: seq<int>): (saved: seq<Saved>)
    requires forall i :: 0 <= i < |ids| ==> ids[i] in info
    ensures |saved| == |ids|
  {
    if ids == [] then [] else SaveAll(info, ids[..|ids| - 1]) + [Save(info[ids[|ids| - 1]])]
  }

  function IndexOf(ids: seq<int>, id: int): (i: nat)
    requires id in ids
    ensures i < |ids| && ids[i] == id
  {
    if ids[0] == id then 0 else 1 + IndexOf(ids[1..], id)
  }

  /** The indexes, among the saved entries `ids`, of the entries in the first `n` slots of a bucket. */
  function Row(table: Table, ids: seq<int>, bucket: nat, n: nat): seq<int> {
    if n == 0 then [] else
      var s := Slot(bucket, n - 1);
      Row(table, ids, bucket, n - 1) + if s in table && table[s] in ids then [IndexOf(ids, table[s])] else []
  }

  function Rows(table: Table, ids: seq<int>, n: nat): (rows: seq<seq<int>>)
    ensures |rows| == n
  {
    if n == 0 then [] else Rows(table, ids, n - 1) + [Row(table, ids, n - 1, BUCKET_SIZE)]
  }

  lemma {:induction false} SiftKeeps(order: seq<int>, keep: int -> bool)
    ensures forall i :: 0 <= i < |Sift(order, keep)| ==> keep(Sift(order, keep)[i])
  {
    if order != [] {
      SiftKeeps(order[..|order| - 1], keep);
    }
  }

  lemma {:induction false} SiftProps(order: seq<int>, keep: int -> bool)
    ensures var kept := Sift(order, keep);
      && (forall id :: id in kept <==> id in order && keep(id))
      && (forall i :: 0 <= i < |kept| ==> keep(kept[i]))
      && (Distinct(order) ==> Distinct(kept))
  {
    if order != [] {
      SiftProps(order[..|order| - 1], keep);
      assert order == order[..|order| - 1] + [order[|order| - 1]];
    }
  }

  function SavedFile(b: Book, order: seq<int>, asmapChecksum: nat): File {
    var news, tried := NewOrder(b.info, order), TriedOrder(b.info, order);
    File(Flip30(NEW_BUCKET_COUNT), SaveAll(b.info, news), SaveAll(b.info, tried),
         Rows(b.vvNew, news, NEW_BUCKET_COUNT), asmapChecksum)
  }

  // ---------------------------------------------------------------------
  // Unserialize
  // ---------------------------------------------------------------------

  function LoadNew(b: Book, s: Saved): Book {
    b.(info := b.info[b.nIdCount := Restore(s)], mapAddr := b.mapAddr[s.addr.ip := b.nIdCount],
      nIdCount := b.nIdCount + 1)
  }

  /** An entry whose slot in the tried table is taken is lost. */
  function LoadTried(h: Config, b: Book, s: Saved): Book {
    var slot := h.TriedSlot(s.addr);
    if slot in b.vvTried then b else
      b.(info := b.info[b.nIdCount := Restore(s).(fInTried := true)],
         mapAddr := b.mapAddr[s.addr.ip := b.nIdCount],
         vvTried := b.vvTried[slot := b.nIdCount],
         nIdCount := b.nIdCount + 1)
  }

  /** One reference from a bucket; without `restore`, or when its slot is taken, by the entry's own source. */
  function LoadReference(h: Config, b: Book, bucket: nat, index: int, restore: bool): Book {
    if index !in b.info || b.info[index].nRefCount >= NEW_BUCKETS_PER_ADDRESS then b else
      var e := b.info[index];
      var s := Slot(bucket, h.Position(e.addr, true, bucket));
      var own := h.NewSlot(e.addr, e.source);
      if restore && s !in b.vvNew then Placed(b, s, index)
      else if own !in b.vvNew then Placed(b, own, index)
      else b
  }

  function LoadAllNew(b: Book, infos: seq<Saved>): Book {
    if infos == [] then b else LoadNew(LoadAllNew(b, infos[..|infos| - 1]), infos[|infos| - 1])
  }

  function LoadAllTried(h: Config, b: Book, infos: seq<Saved>): Book {
    if infos == [] then b else LoadTried(h, LoadAllTried(h, b, infos[..|infos| - 1]), infos[|infos| - 1])
  }

  /** The references of one bucket; indexes that are out of range are ignored. */
  function LoadRow(h: Config, b: Book, bucket: nat, row: seq<int>, nNew: nat, restore: bool): Book {
    if row == [] then b else
      var b' := LoadRow(h, b, bucket, row[..|row| - 1], nNew, restore);
      var index := row[|row| - 1];
      if 0 <= index < nNew then LoadReference(h, b', bucket, index, restore) else b'
  }

  function LoadRows(h: Config, b: Book, rows: seq<seq<int>>, nNew: nat, restore: bool): Book {
    if rows == [] then b else
      LoadRow(h, LoadRows(h, b, rows[..|rows| - 1], nNew, restore), |rows| - 1, rows[|rows| - 1], nNew, restore)
  }

  /** Entries below `n` that ended up in no table are dropped. */
  function Pruned(b: Book, n: nat): Book {
    if n == 0 then b else
      var b' := Pruned(b, n - 1);
      if n - 1 in b'.info && !b'.info[n - 1].fInTried && b'.info[n - 1].nRefCount == 0 then Deleted(b', n - 1) else b'
  }

  function DropInvalidNew(h: Config, b: Book, s: Slot): Book {
    if s in b.vvNew && b.vvNew[s] in b.info && !h.isValid(b.info[b.vvNew[s]].addr.ip) then ClearedNew(b, s) else b
  }

  function DropInvalidTried(h: Config, b: Book, s: Slot): Book {
    if s in b.vvTried && b.vvTried[s] in b.info && !h.isValid(b.info[b.vvTried[s]].addr.ip) then
      var id := b.vvTried[s];
      Deleted(b, id).(vvTried := b.vvTried - {s}, collisions := b.collisions - {id})
    else b
  }

  /** The slots of a table of `buckets` buckets, in order. */
  function SlotAt(i: nat): Slot { Slot(i / BUCKET_SIZE, i % BUCKET_SIZE) }

  /** RemoveInvalid over the first `n` slots of the new table, then over the first `m` of the tried table. */
  function WithoutInvalid(h: Config, b: Book, n: nat, m: nat): Book
    decreases n + m
  {
    if m > 0 then DropInvalidTried(h, WithoutInvalid(h, b, n, m - 1), SlotAt(m - 1))
    else if n > 0 then DropInvalidNew(h, WithoutInvalid(h, b, n - 1, 0), SlotAt(n - 1))
    else b
  }

  const NEW_SLOTS := NEW_BUCKET_COUNT * BUCKET_SIZE
  const TRIED_SLOTS := TRIED_BUCKET_COUNT * BUCKET_SIZE

  /** The bucketing is unchanged since the file was written. */
  predicate SameBucketing(file: File, asmapChecksum: nat) {
    Flip30(file.nUBuckets) == NEW_BUCKET_COUNT && file.asmapChecksum == asmapChecksum
  }

  function LoadedEntries(h: Config, file: File): Book {
    LoadAllTried(h, LoadAllNew(EMPTY, file.newInfos), file.triedInfos)
  }

  function LoadedTables(h: Config, file: File, asmapChecksum: nat): Book {
    LoadRows(h, LoadedEntries(h, file), file.buckets, |file.newInfos|, SameBucketing(file, asmapChecksum))
  }

  /** None when the counts are out of range. */
  function Loaded(h: Config, file: File, asmapChecksum: nat): Option<Book> {
    if |file.newInfos| > NEW_SLOTS || |file.triedInfos| > TRIED_SLOTS then None else
      Some(WithoutInvalid(h, Pruned(LoadedTables(h, file, asmapChecksum), |file.newInfos|), NEW_SLOTS, TRIED_SLOTS))
  }

  // ---------------------------------------------------------------------
  // What loading a saved manager gives
  // ---------------------------------------------------------------------

  /** An entry as it comes back, before its references are restored. */
  function Fresh(e: Entry): Entry { Restore(Save(e)).(fInTried := e.fInTried) }

  function StageEntry(b: Book, id: int, slots: set<Slot>): Entry
    requires id in b.info
  {
    Fresh(b.info[id]).(nRefCount := |Slots(b.vvNew, id) * slots|)
  }

  function StageInfo(b: Book, ids: seq<int>, slots: set<Slot>): map<int, Entry> {
    map k | 0 <= k < |ids| && ids[k] in b.info :: StageEntry(b, ids[k], slots)
  }

  function StageAddr(mapAddr: map<NetAddr, int>, ids: seq<int>): map<NetAddr, int> {
    map ip | ip in mapAddr && mapAddr[ip] in ids :: IndexOf(ids, mapAddr[ip])
  }

  function StageTable(table: Table, ids: seq<int>, slots: set<Slot>): Table {
    map s | s in table && s in slots && table[s] in ids :: IndexOf(ids, table[s])
  }

  /** The manager with the entries `ids` loaded, under their positions in `ids` as new ids, and
      with the references in the slots `slots` restored. */
  function Stage(b: Book, ids: seq<int>, slots: set<Slot>): Book {
    Book(StageInfo(b, ids, slots), StageAddr(b.mapAddr, ids), StageTable(b.vvNew, ids, slots),
         StageTable(b.vvTried, ids, b.vvTried.Keys), {}, |ids|, 1)
  }

  /** The same tables and persistent data with the entries renumbered in file order. */
  function Renamed(b: Book, order: seq<int>): Book {
    Stage(b, NewOrder(b.info, order) + TriedOrder(b.info, order), b.vvNew.Keys)
  }

  lemma {:induction false} IndexOfAppend(ids: seq<int>, more: seq<int>, id: int)
    requires id in ids
    ensures id in ids + more && IndexOf(ids + more, id) == IndexOf(ids, id)
  {
    if ids[0] != id {
      assert (ids + more)[1..] == ids[1..] + more;
      IndexOfAppend(ids[1..], more, id);
    }
  }

  lemma {:induction false} IndexOfLast(ids: seq<int>, id: int)
    requires id !in ids
    ensures IndexOf(ids + [id], id) == |ids|
  {
    if ids != [] {
      assert (ids + [id])[1..] == ids[1..] + [id];
      IndexOfLast(ids[1..], id);
    }
  }

  lemma IndexOfNext(ids: seq<int>, id: int)
    requires id !in ids
    ensures IndexOf(ids + [id], id) == |ids|
    ensures forall x :: x in ids ==> IndexOf(ids + [id], x) == IndexOf(ids, x)
  {
    IndexOfLast(ids, id);
    forall x | x in ids ensures IndexOf(ids + [id], x) == IndexOf(ids, x) {
      IndexOfAppend(ids, [id], x);
    }
  }

  lemma StageInfoNext(b: Book, ids: seq<int>, id: int)
    requires id in b.info
    ensures StageInfo(b, ids + [id], {}) == StageInfo(b, ids, {})[|ids| := Fresh(b.info[id])]
  {
    assert Slots(b.vvNew, id) * {} == {};
  }

  lemma StageAddrNext(b: Book, ids: seq<int>, id: int)
    requires AddrOk(b.info, b.mapAddr) && id in b.info && id !in ids
    ensures StageAddr(b.mapAddr, ids + [id]) == StageAddr(b.mapAddr, ids)[b.info[id].addr.ip := |ids|]
  {
    IndexOfNext(ids, id);
  }

  lemma StageTriedNext(h: Config, b: Book, ids: seq<int>, id: int)
    requires TriedOk(h, b.info, b.vvTried) && id in b.info && id !in ids
    ensures var slots, s := b.vvTried.Keys, h.TriedSlot(b.info[id].addr);
      if b.info[id].fInTried
      then StageTable(b.vvTried, ids + [id], slots) == StageTable(b.vvTried, ids, slots)[s := |ids|]
        && s !in StageTable(b.vvTried, ids, slots)
      else StageTable(b.vvTried, ids + [id], slots) == StageTable(b.vvTried, ids, slots)
  {
    IndexOfNext(ids, id);
  }

  /** Loading the next entry, new or tried, is the next stage: nothing is lost to a collision. */
  lemma StageNextNew(h: Config, b: Book, ids: seq<int>, id: int)
    requires AddrOk(b.info, b.mapAddr) && TriedOk(h, b.info, b.vvTried) && id in b.info && id !in ids
    requires !b.info[id].fInTried
    ensures LoadNew(Stage(b, ids, {}), Save(b.info[id])) == Stage(b, ids + [id], {})
  {
    StageInfoNext(b, ids, id);
    StageAddrNext(b, ids, id);
    StageTriedNext(h, b, ids, id);
  }

  lemma StageNextTried(h: Config, b: Book, ids: seq<int>, id: int)
    requires AddrOk(b.info, b.mapAddr) && TriedOk(h, b.info, b.vvTried) && id in b.info && id !in ids
    requires b.info[id].fInTried
    ensures LoadTried(h, Stage(b, ids, {}), Save(b.info[id])) == Stage(b, ids + [id], {})
  {
    StageInfoNext(b, ids, id);
    StageAddrNext(b, ids, id);
    StageTriedNext(h, b, ids, id);
  }

  lemma LoadLastNew(b: Book, infos: seq<Saved>, s: Saved)
    ensures LoadAllNew(b, infos + [s]) == LoadNew(LoadAllNew(b, infos), s)
  {
    assert (infos + [s])[..|infos|] == infos;
  }

  lemma LoadLastTried(h: Config, b: Book, infos: seq<Saved>, s: Saved)
    ensures LoadAllTried(h, b, infos + [s]) == LoadTried(h, LoadAllTried(h, b, infos), s)
  {
    assert (infos + [s])[..|infos|] == infos;
  }

  lemma StageEmpty(b: Book)
    ensures Stage(b, [], {}) == EMPTY
  {
  }

  /** Loading in turn reaches, after every prefix of `ids`, what `stage` says. */
  lemma {:induction false} FoldNew(info: map<int, Entry>, ids: seq<int>, stage: seq<int> -> Book)
    requires forall i :: 0 <= i < |ids| ==> ids[i] in info
    requires forall k :: 0 <= k < |ids| ==> LoadNew(stage(ids[..k]), Save(info[ids[k]])) == stage(ids[..k + 1])
    ensures LoadAllNew(stage([]), SaveAll(info, ids)) == stage(ids)
    decreases |ids|
  {
    hide LoadNew;
    hide Save;
    if ids != [] {
      var n := |ids| - 1;
      var front := ids[..n];
      assert forall k :: 0 <= k <= n ==> front[..k] == ids[..k];
      FoldNew(info, front, stage);
      LoadLastNew(stage([]), SaveAll(info, front), Save(info[ids[n]]));
      assert ids[..n + 1] == ids;
    }
  }

  lemma {:induction false} FoldTried(h: Config, info: map<int, Entry>, ids: seq<int>, stage: seq<int> -> Book)
    requires forall i :: 0 <= i < |ids| ==> ids[i] in info
    requires forall k :: 0 <= k < |ids| ==> LoadTried(h, stage(ids[..k]), Save(info[ids[k]])) == stage(ids[..k + 1])
    ensures LoadAllTried(h, stage([]), SaveAll(info, ids)) == stage(ids)
    decreases |ids|
  {
    if ids != [] {
      var n := |ids| - 1;
      var front := ids[..n];
      assert forall k :: 0 <= k <= n ==> front[..k] == ids[..k];
      FoldTried(h, info, front, stage);
      LoadLastTried(h, stage([]), SaveAll(info, front), Save(info[ids[n]]));
      assert ids[..n + 1] == ids;
    }
  }

  lemma StageStepNew(h: Config, b: Book, ids: seq<int>, k: nat)
    requires AddrOk(b.info, b.mapAddr) && TriedOk(h, b.info, b.vvTried)
    requires Distinct(ids) && k < |ids| && ids[k] in b.info && !b.info[ids[k]].fInTried
    ensures LoadNew(Stage(b, ids[..k], {}), Save(b.info[ids[k]])) == Stage(b, ids[..k + 1], {})
  {
    StageNextNew(h, b, ids[..k], ids[k]);
    assert ids[..k + 1] == ids[..k] + [ids[k]];
  }

  lemma StageStepTried(h: Config, b: Book, news: seq<int>, ids: seq<int>, k: nat)
    requires AddrOk(b.info, b.mapAddr) && TriedOk(h, b.info, b.vvTried)
    requires Distinct(news + ids) && k < |ids| && ids[k] in b.info && b.info[ids[k]].fInTried
    ensures LoadTried(h, Stage(b, news + ids[..k], {}), Save(b.info[ids[k]])) == Stage(b, news + ids[..k + 1], {})
  {
    DistinctPrefix(news, ids, k);
    StageNextTried(h, b, news + ids[..k], ids[k]);
    assert news + ids[..k + 1] == news + ids[..k] + [ids[k]];
  }

  lemma StageAllNew(h: Config, b: Book, ids: seq<int>)
    requires AddrOk(b.info, b.mapAddr) && TriedOk(h, b.info, b.vvTried)
    requires Distinct(ids) && forall i :: 0 <= i < |ids| ==> ids[i] in b.info && !b.info[ids[i]].fInTried
    ensures LoadAllNew(Stage(b, [], {}), SaveAll(b.info, ids)) == Stage(b, ids, {})
  {
    var stage := p => Stage(b, p, {});
    forall k | 0 <= k < |ids| ensures LoadNew(stage(ids[..k]), Save(b.info[ids[k]])) == stage(ids[..k + 1]) {
      StageStepNew(h, b, ids, k);
    }
    FoldNew(b.info, ids, stage);
  }

  lemma StageAllTried(h: Config, b: Book, news: seq<int>, ids: seq<int>)
    requires AddrOk(b.info, b.mapAddr) && TriedOk(h, b.info, b.vvTried)
    requires Distinct(news + ids) && forall i :: 0 <= i < |ids| ==> ids[i] in b.info && b.info[ids[i]].fInTried
    ensures LoadAllTried(h, Stage(b, news, {}), SaveAll(b.info, ids)) == Stage(b, news + ids, {})
  {
    var stage := p => Stage(b, news + p, {});
    assert news + [] == news;
    forall k | 0 <= k < |ids| ensures LoadTried(h, stage(ids[..k]), Save(b.info[ids[k]])) == stage(ids[..k + 1]) {
      StageStepTried(h, b, news, ids, k);
    }
    FoldTried(h, b.info, ids, stage);
  }

  lemma DistinctPrefix(news: seq<int>, ids: seq<int>, k: nat)
    requires Distinct(news + ids) && k < |ids|
    ensures ids[k] !in news + ids[..k]
  {
    assert (news + ids)[|news| + k] == ids[k];
    assert news + ids[..k] == (news + ids)[..|news| + k];
  }

  // ---------------------------------------------------------------------
  // Restoring the references
  // ---------------------------------------------------------------------

  /** The occupied slots before position `n` of `bucket`. */
  function Before(table: Table, bucket: nat, n: nat): set<Slot> {
    set s | s in table && (s.bucket < bucket || (s.bucket == bucket && s.position < n))
  }

  lemma StageEntryPlaced(b: Book, id: int, slots: set<Slot>, s: Slot)
    requires id in b.info && s in b.vvNew && s !in slots
    ensures b.vvNew[s] != id ==> StageEntry(b, id, slots + {s}) == StageEntry(b, id, slots)
    ensures b.vvNew[s] == id ==>
      && StageEntry(b, id, slots).nRefCount < |Slots(b.vvNew, id)|
      && StageEntry(b, id, slots + {s})
         == StageEntry(b, id, slots).(nRefCount := StageEntry(b, id, slots).nRefCount + 1)
  {
    var mine := Slots(b.vvNew, id);
    if b.vvNew[s] == id {
      assert s in mine;
      assert mine * (slots + {s}) == mine * slots + {s};
      SubsetSize(mine * slots, mine - {s});
    } else {
      assert mine * (slots + {s}) == mine * slots;
    }
  }

  lemma StageInfoAt(b: Book, ids: seq<int>, slots: set<Slot>, id: int)
    requires id in b.info && id in ids
    ensures IndexOf(ids, id) in StageInfo(b, ids, slots)
    ensures StageInfo(b, ids, slots)[IndexOf(ids, id)] == StageEntry(b, id, slots)
  {
  }

  lemma StageInfoPlaced(b: Book, ids: seq<int>, slots: set<Slot>, s: Slot)
    requires Distinct(ids) && s in b.vvNew && s !in slots && b.vvNew[s] in ids && b.vvNew[s] in b.info
    ensures var index, info := IndexOf(ids, b.vvNew[s]), StageInfo(b, ids, slots);
      && index in info && info[index].nRefCount < |Slots(b.vvNew, b.vvNew[s])|
      && StageInfo(b, ids, slots + {s}) == info[index := info[index].(nRefCount := info[index].nRefCount + 1)]
  {
    hide StageEntry;
    var index, info, next := IndexOf(ids, b.vvNew[s]), StageInfo(b, ids, slots), StageInfo(b, ids, slots + {s});
    StageInfoAt(b, ids, slots, b.vvNew[s]);
    StageEntryPlaced(b, b.vvNew[s], slots, s);
    assert next.Keys == info.Keys;
    forall k | k in info && k != index ensures next[k] == info[k] {
      assert ids[k] != ids[index];
      StageEntryPlaced(b, ids[k], slots, s);
    }
  }

  lemma StageTablePlaced(table: Table, ids: seq<int>, slots: set<Slot>, s: Slot)
    requires s in table && s !in slots && table[s] in ids
    ensures StageTable(table, ids, slots + {s}) == StageTable(table, ids, slots)[s := IndexOf(ids, table[s])]
    ensures s !in StageTable(table, ids, slots)
  {
  }

  /** A saved reference finds its own slot free, and the entry below its limit. */
  lemma StagePlaced(h: Config, b: Book, ids: seq<int>, slots: set<Slot>, s: Slot)
    requires Distinct(ids) && s in b.vvNew && s !in slots && b.vvNew[s] in ids
    requires var id := b.vvNew[s];
      id in b.info && NewPlaceOk(h, b.info[id].addr, s) && |Slots(b.vvNew, id)| <= NEW_BUCKETS_PER_ADDRESS
    ensures LoadReference(h, Stage(b, ids, slots), s.bucket, IndexOf(ids, b.vvNew[s]), true)
      == Stage(b, ids, slots + {s})
  {
    StageInfoPlaced(b, ids, slots, s);
    StageTablePlaced(b.vvNew, ids, slots, s);
  }

  lemma {:induction false} FoldRow(h: Config, table: Table, ids: seq<int>, bucket: nat, n: nat, stage: nat -> Book)
    requires forall k :: 0 <= k < n ==>
      var s := Slot(bucket, k);
      stage(k + 1) == if s in table && table[s] in ids
        then LoadReference(h, stage(k), bucket, IndexOf(ids, table[s]), true) else stage(k)
    ensures LoadRow(h, stage(0), bucket, Row(table, ids, bucket, n), |ids|, true) == stage(n)
  {
    hide LoadReference;
    hide LoadRow;
    hide Row;
    hide IndexOf;
    if n == 0 {
      NoRow(h, stage(0), table, ids, bucket);
    } else {
      FoldRow(h, table, ids, bucket, n - 1, stage);
      var s := Slot(bucket, n - 1);
      assert stage(n - 1 + 1) == stage(n);
      RowNext(table, ids, bucket, n - 1);
      if s in table && table[s] in ids {
        LoadRowLast(h, stage(0), bucket, Row(table, ids, bucket, n - 1), IndexOf(ids, table[s]), |ids|);
      }
    }
  }

  lemma NoRow(h: Config, b: Book, table: Table, ids: seq<int>, bucket: nat)
    ensures LoadRow(h, b, bucket, Row(table, ids, bucket, 0), |ids|, true) == b
  {
  }

  lemma RowNext(table: Table, ids: seq<int>, bucket: nat, n: nat)
    ensures var s := Slot(bucket, n);
      Row(table, ids, bucket, n + 1)
        == Row(table, ids, bucket, n) + if s in table && table[s] in ids then [IndexOf(ids, table[s])] else []
    ensures Row(table, ids, bucket, n) + [] == Row(table, ids, bucket, n)
  {
  }

  lemma LoadRowLast(h: Config, b: Book, bucket: nat, row: seq<int>, index: int, nNew: nat)
    requires 0 <= index < nNew
    ensures LoadRow(h, b, bucket, row + [index], nNew, true)
      == LoadReference(h, LoadRow(h, b, bucket, row, nNew, true), bucket, index, true)
  {
    hide LoadReference;
    assert (row + [index])[..|row|] == row;
  }

  lemma {:induction false} FoldRows(h: Config, table: Table, ids: seq<int>, n: nat, stage: nat -> Book)
    requires forall k :: 0 <= k < n ==>
      stage(k + 1) == LoadRow(h, stage(k), k, Row(table, ids, k, BUCKET_SIZE), |ids|, true)
    ensures LoadRows(h, stage(0), Rows(table, ids, n), |ids|, true) == stage(n)
  {
    if n > 0 {
      FoldRows(h, table, ids, n - 1, stage);
      var rows := Rows(table, ids, n - 1);
      assert (rows + [Row(table, ids, n - 1, BUCKET_SIZE)])[..|rows|] == rows;
      assert stage(n - 1 + 1) == stage(n);
    }
  }

  /** Every slot of the new table holds one of the entries `news`, where it belongs and within its limit. */
  ghost predicate RowsOk(h: Config, b: Book, news: seq<int>) {
    forall s :: s in b.vvNew ==>
      && b.vvNew[s] in news && b.vvNew[s] in b.info
      && NewPlaceOk(h, b.info[b.vvNew[s]].addr, s)
      && |Slots(b.vvNew, b.vvNew[s])| <= NEW_BUCKETS_PER_ADDRESS
  }

  lemma StageRowStep(h: Config, b: Book, news: seq<int>, tried: seq<int>, s: Slot)
    requires Distinct(news + tried) && (s in b.vvNew ==> b.vvNew[s] in news && b.vvNew[s] in b.info)
    requires s in b.vvNew ==>
      NewPlaceOk(h, b.info[b.vvNew[s]].addr, s) && |Slots(b.vvNew, b.vvNew[s])| <= NEW_BUCKETS_PER_ADDRESS
    ensures var before := Stage(b, news + tried, Before(b.vvNew, s.bucket, s.position));
      Stage(b, news + tried, Before(b.vvNew, s.bucket, s.position + 1)) ==
        if s in b.vvNew then LoadReference(h, before, s.bucket, IndexOf(news, b.vvNew[s]), true) else before
  {
    var slots := Before(b.vvNew, s.bucket, s.position);
    if s in b.vvNew {
      assert Before(b.vvNew, s.bucket, s.position + 1) == slots + {s};
      IndexOfAppend(news, tried, b.vvNew[s]);
      StagePlaced(h, b, news + tried, slots, s);
    } else {
      assert Before(b.vvNew, s.bucket, s.position + 1) == slots;
    }
  }

  function RowStage(b: Book, ids: seq<int>, bucket: nat): nat -> Book {
    (k: nat) => Stage(b, ids, Before(b.vvNew, bucket, k))
  }

  lemma StageRow(h: Config, b: Book, news: seq<int>, tried: seq<int>, bucket: nat)
    requires Distinct(news + tried) && RowsOk(h, b, news)
    ensures LoadRow(h, Stage(b, news + tried, Before(b.vvNew, bucket, 0)), bucket,
      Row(b.vvNew, news, bucket, BUCKET_SIZE), |news|, true)
         == Stage(b, news + tried, Before(b.vvNew, bucket + 1, 0))
  {
    hide Stage;
    hide LoadReference;
    var stage := RowStage(b, news + tried, bucket);
    forall k | 0 <= k < BUCKET_SIZE ensures
      var s := Slot(bucket, k);
      stage(k + 1) == if s in b.vvNew && b.vvNew[s] in news
        then LoadReference(h, stage(k), bucket, IndexOf(news, b.vvNew[s]), true) else stage(k)
    {
      StageRowStep(h, b, news, tried, Slot(bucket, k));
    }
    FoldRow(h, b.vvNew, news, bucket, BUCKET_SIZE, stage);
    BeforeEnd(h, b, news, bucket);
  }

  lemma BeforeEnd(h: Config, b: Book, news: seq<int>, bucket: nat)
    requires RowsOk(h, b, news)
    ensures Before(b.vvNew, bucket, BUCKET_SIZE) == Before(b.vvNew, bucket + 1, 0)
  {
    forall s | s in b.vvNew ensures s.position < BUCKET_SIZE {
      assert NewPlaceOk(h, b.info[b.vvNew[s]].addr, s);
    }
  }

  lemma StageRows(h: Config, b: Book, news: seq<int>, tried: seq<int>)
    requires Distinct(news + tried) && RowsOk(h, b, news)
    ensures LoadRows(h, Stage(b, news + tried, {}), Rows(b.vvNew, news, NEW_BUCKET_COUNT), |news|, true)
         == Stage(b, news + tried, b.vvNew.Keys)
  {
    var stage := (k: nat) => Stage(b, news + tried, Before(b.vvNew, k, 0));
    forall k | 0 <= k < NEW_BUCKET_COUNT
      ensures stage(k + 1) == LoadRow(h, stage(k), k, Row(b.vvNew, news, k, BUCKET_SIZE), |news|, true)
    {
      StageRow(h, b, news, tried, k);
    }
    FoldRows(h, b.vvNew, news, NEW_BUCKET_COUNT, stage);
    assert Before(b.vvNew, 0, 0) == {};
    assert Before(b.vvNew, NEW_BUCKET_COUNT, 0) == b.vvNew.Keys;
  }

  lemma {:induction false} NothingToPrune(b: Book, n: nat)
    requires forall id :: id in b.info ==> b.info[id].fInTried || b.info[id].nRefCount != 0
    ensures Pruned(b, n) == b
  {
    if n > 0 {
      NothingToPrune(b, n - 1);
    }
  }

  lemma {:induction false} NothingInvalid(h: Config, b: Book, n: nat, m: nat)
    requires forall id :: id in b.info ==> h.isValid(b.info[id].addr.ip)
    ensures WithoutInvalid(h, b, n, m) == b
    decreases n + m
  {
    if m > 0 {
      NothingInvalid(h, b, n, m - 1);
    } else if n > 0 {
      NothingInvalid(h, b, n - 1, 0);
    }
  }

  // ---------------------------------------------------------------------
  // The counts fit
  // ---------------------------------------------------------------------

  lemma {:induction false} RowSize(slots: set<Slot>, bucket: nat, n: nat)
    requires forall s :: s in slots ==> s.bucket == bucket && s.position < n
    ensures |slots| <= n
  {
    if n == 0 {
      assert slots == {};
    } else {
      var last := Slot(bucket, n - 1);
      RowSize(slots - {last}, bucket, n - 1);
    }
  }

  lemma {:induction false} GridSize(slots: set<Slot>, buckets: nat)
    requires forall s :: s in slots ==> s.bucket < buckets && s.position < BUCKET_SIZE
    ensures |slots| <= buckets * BUCKET_SIZE
  {
    if buckets == 0 {
      assert slots == {};
    } else {
      var row := set s | s in slots && s.bucket == buckets - 1;
      RowSize(row, buckets - 1, BUCKET_SIZE);
      GridSize(slots - row, buckets - 1);
      assert slots == (slots - row) + row;
    }
  }

  /** Entries that each hold a slot are no more than the slots. */
  lemma {:induction false} IdsFit(table: Table, ids: seq<int>)
    requires Distinct(ids) && forall i :: 0 <= i < |ids| ==> Slots(table, ids[i]) != {}
    ensures |ids| <= |table.Keys|
    decreases |ids|
  {
    if ids != [] {
      var front, id := ids[..|ids| - 1], ids[|ids| - 1];
      var mine := Slots(table, id);
      forall i | 0 <= i < |front| ensures Slots(table - mine, front[i]) != {} {
        assert Slots(table - mine, front[i]) == Slots(table, front[i]);
      }
      IdsFit(table - mine, front);
      assert (table - mine).Keys == table.Keys - mine;
      assert |mine| > 0;
    }
  }

  // ---------------------------------------------------------------------
  // The round trip
  // ---------------------------------------------------------------------

  lemma OrdersDistinct(h: Config, b: Book, order: seq<int>)
    requires CountsOk(b.info, b.vvNew, {}) && Enumerates(order, b.info)
    ensures var news, tried := NewOrder(b.info, order), TriedOrder(b.info, order);
      && Distinct(news + tried) && Distinct(news) && Distinct(tried)
      && (forall i :: 0 <= i < |news| ==> news[i] in b.info && !b.info[news[i]].fInTried)
      && (forall i :: 0 <= i < |tried| ==> tried[i] in b.info && b.info[tried[i]].fInTried)
      && (forall id :: id in b.info ==> id in (if b.info[id].fInTried then tried else news))
  {
    SiftProps(order, Referenced(b.info));
    SiftProps(order, InTried(b.info));
    var news, tried := NewOrder(b.info, order), TriedOrder(b.info, order);
    forall id | id in b.info ensures b.info[id].fInTried <==> b.info[id].nRefCount == 0 {
      assert CountOk(b.info[id], Slots(b.vvNew, id), false);
    }
  }

  lemma OrdersCoverTable(h: Config, b: Book, order: seq<int>)
    requires CountsOk(b.info, b.vvNew, {}) && PlacesOk(h, b.info, b.vvNew) && Enumerates(order, b.info)
    ensures RowsOk(h, b, NewOrder(b.info, order))
  {
    SiftProps(order, Referenced(b.info));
    forall s | s in b.vvNew
      ensures b.vvNew[s] in NewOrder(b.info, order) && |Slots(b.vvNew, b.vvNew[s])| <= NEW_BUCKETS_PER_ADDRESS
    {
      var id := b.vvNew[s];
      assert CountOk(b.info[id], Slots(b.vvNew, id), false);
      assert s in Slots(b.vvNew, id);
    }
  }

  lemma NewFits(h: Config, b: Book, order: seq<int>)
    requires CountsOk(b.info, b.vvNew, {}) && PlacesOk(h, b.info, b.vvNew) && Enumerates(order, b.info)
    ensures |NewOrder(b.info, order)| <= NEW_SLOTS
  {
    var news := NewOrder(b.info, order);
    SiftProps(order, Referenced(b.info));
    forall i | 0 <= i < |news| ensures Slots(b.vvNew, news[i]) != {} {
      assert CountOk(b.info[news[i]], Slots(b.vvNew, news[i]), false);
    }
    IdsFit(b.vvNew, news);
    GridSize(b.vvNew.Keys, NEW_BUCKET_COUNT);
  }

  lemma TriedFits(h: Config, b: Book, order: seq<int>)
    requires TriedOk(h, b.info, b.vvTried) && Enumerates(order, b.info)
    ensures |TriedOrder(b.info, order)| <= TRIED_SLOTS
  {
    var tried := TriedOrder(b.info, order);
    SiftProps(order, InTried(b.info));
    forall i | 0 <= i < |tried| ensures Slots(b.vvTried, tried[i]) != {} {
      assert h.TriedSlot(b.info[tried[i]].addr) in Slots(b.vvTried, tried[i]);
    }
    IdsFit(b.vvTried, tried);
    GridSize(b.vvTried.Keys, TRIED_BUCKET_COUNT);
  }

  /** Before RemoveInvalid, everything a consistent manager saves is back in its place. */
  lemma Rebuilt(h: Config, b: Book, order: seq<int>)
    requires Core(h, b, {}) && Enumerates(order, b.info)
    ensures var news, tried := NewOrder(b.info, order), TriedOrder(b.info, order);
      LoadRows(h, LoadAllTried(h, LoadAllNew(EMPTY, SaveAll(b.info, news)), SaveAll(b.info, tried)),
               Rows(b.vvNew, news, NEW_BUCKET_COUNT), |news|, true) == Renamed(b, order)
  {
    hide Stage;
    var news, tried := NewOrder(b.info, order), TriedOrder(b.info, order);
    OrdersDistinct(h, b, order);
    OrdersCoverTable(h, b, order);
    StageEmpty(b);
    StageAllNew(h, b, news);
    StageAllTried(h, b, news, tried);
    StageRows(h, b, news, tried);
  }

  lemma RenamedHeld(h: Config, b: Book, order: seq<int>)
    requires CountsOk(b.info, b.vvNew, {})
    ensures var info := Renamed(b, order).info; forall k :: k in info ==> info[k].fInTried || info[k].nRefCount != 0
  {
    var ids := NewOrder(b.info, order) + TriedOrder(b.info, order);
    var info := Renamed(b, order).info;
    forall k | k in info ensures info[k].fInTried || info[k].nRefCount != 0 {
      assert CountOk(b.info[ids[k]], Slots(b.vvNew, ids[k]), false);
      assert Slots(b.vvNew, ids[k]) * b.vvNew.Keys == Slots(b.vvNew, ids[k]);
    }
  }

  /** Saving a consistent manager and loading the file with the same bucketing gives the manager
      back, renumbered, up to the final removal of invalid addresses. */
  lemma LoadsRenamed(h: Config, b: Book, order: seq<int>, asmapChecksum: nat)
    requires Core(h, b, {}) && Enumerates(order, b.info)
    ensures Loaded(h, SavedFile(b, order, asmapChecksum), asmapChecksum)
         == Some(WithoutInvalid(h, Renamed(b, order), NEW_SLOTS, TRIED_SLOTS))
  {
    hide Renamed;
    hide WithoutInvalid;
    hide Pruned;
    hide Rows;
    NewFits(h, b, order);
    TriedFits(h, b, order);
    Rebuilt(h, b, order);
    RenamedHeld(h, b, order);
    NothingToPrune(Renamed(b, order), |NewOrder(b.info, order)|);
  }

  lemma RenamedValid(h: Config, b: Book, order: seq<int>)
    requires forall id :: id in b.info ==> h.isValid(b.info[id].addr.ip)
    ensures var info := Renamed(b, order).info; forall k :: k in info ==> h.isValid(info[k].addr.ip)
  {
  }

  lemma RoundTrip(h: Config, b: Book, order: seq<int>, asmapChecksum: nat)
    requires Core(h, b, {}) && Enumerates(order, b.info)
    requires forall id :: id in b.info ==> h.isValid(b.info[id].addr.ip)
    ensures Loaded(h, SavedFile(b, order, asmapChecksum), asmapChecksum) == Some(Renamed(b, order))
  {
    hide Renamed;
    LoadsRenamed(h, b, order, asmapChecksum);
    RenamedValid(h, b, order);
    NothingInvalid(h, Renamed(b, order), NEW_SLOTS, TRIED_SLOTS);
  }

  /** What is saved of an entry, and where it is. */
  predicate SameEntry(e: Entry, e': Entry) {
    Save(e) == Save(e') && e'.fInTried == e.fInTried && e'.nRefCount == e.nRefCount
  }

  ghost predicate SameEntries(b: Book, b': Book) {
    && b'.mapAddr.Keys == b.mapAddr.Keys
    && (forall ip :: ip in b.mapAddr ==>
          b.mapAddr[ip] in b.info && b'.mapAddr[ip] in b'.info
            && SameEntry(b.info[b.mapAddr[ip]], b'.info[b'.mapAddr[ip]]))
  }

  ghost predicate SameTable(info: map<int, Entry>, table: Table, info': map<int, Entry>, table': Table) {
    && table'.Keys == table.Keys
    && (forall s :: s in table ==>
         table[s] in info && table'[s] in info' && info'[table'[s]].addr == info[table[s]].addr)
  }

  lemma StageSameTable(b: Book, ids: seq<int>, table: Table)
    requires forall s :: s in table ==> table[s] in b.info && table[s] in ids
    ensures SameTable(b.info, table, StageInfo(b, ids, b.vvNew.Keys), StageTable(table, ids, table.Keys))
  {
    hide StageInfo;
    forall s | s in table
      ensures IndexOf(ids, table[s]) in StageInfo(b, ids, b.vvNew.Keys)
      ensures StageInfo(b, ids, b.vvNew.Keys)[IndexOf(ids, table[s])].addr == b.info[table[s]].addr
    {
      StageInfoAt(b, ids, b.vvNew.Keys, table[s]);
    }
  }

  lemma StageEntryAll(b: Book, id: int)
    requires CountsOk(b.info, b.vvNew, {}) && id in b.info
    ensures SameEntry(b.info[id], StageEntry(b, id, b.vvNew.Keys))
  {
    assert CountOk(b.info[id], Slots(b.vvNew, id), false);
    assert Slots(b.vvNew, id) * b.vvNew.Keys == Slots(b.vvNew, id);
  }

  lemma Listed(info: map<int, Entry>, ids: seq<int>, id: int)
    requires id in info && forall x :: x in info ==> x in ids
    ensures id in ids
  {
  }

  lemma StageSameEntries(b: Book, ids: seq<int>)
    requires AddrOk(b.info, b.mapAddr) && CountsOk(b.info, b.vvNew, {}) && forall id :: id in b.info ==> id in ids
    ensures SameEntries(b, Stage(b, ids, b.vvNew.Keys))
  {
    hide StageInfo;
    hide StageEntry;
    hide SameEntry;
    hide CountsOk;
    forall id | id in b.info
      ensures IndexOf(ids, id) in StageInfo(b, ids, b.vvNew.Keys)
      ensures SameEntry(b.info[id], StageInfo(b, ids, b.vvNew.Keys)[IndexOf(ids, id)])
    {
      StageInfoAt(b, ids, b.vvNew.Keys, id);
      StageEntryAll(b, id);
    }
    forall ip | ip in b.mapAddr ensures ip in StageAddr(b.mapAddr, ids) {
      Listed(b.info, ids, b.mapAddr[ip]);
    }
  }

  /** What the renumbering keeps: every address with its persistent data and reference count, and
      every slot of both tables with the address in it. */
  lemma RenamedKeeps(h: Config, b: Book, order: seq<int>)
    requires Core(h, b, {}) && Enumerates(order, b.info)
    ensures SameEntries(b, Renamed(b, order))
    ensures SameTable(b.info, b.vvNew, Renamed(b, order).info, Renamed(b, order).vvNew)
    ensures SameTable(b.info, b.vvTried, Renamed(b, order).info, Renamed(b, order).vvTried)
  {
    hide SameTable;
    hide SameEntries;
    hide StageInfo;
    hide StageTable;
    hide StageAddr;
    OrdersDistinct(h, b, order);
    var ids := NewOrder(b.info, order) + TriedOrder(b.info, order);
    assert forall id :: id in b.info ==> id in ids;
    StageSameEntries(b, ids);
    StageSameTable(b, ids, b.vvNew);
    StageSameTable(b, ids, b.vvTried);
  }
}
