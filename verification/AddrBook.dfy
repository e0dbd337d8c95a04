/** The address manager on values: entries, the new and tried tables, and what every
    operation does to them. The class in AddrMan adds the redundant indexes. */
module AddrBook {
  import opened Common

  type NetAddr = nat
  datatype Service = Service(ip: NetAddr, port: nat)

  /** A bucket and a position in it; an absent key stands for the source's -1. */
  datatype Slot = Slot(bucket: nat, position: nat)
  type Table = map<Slot, int>

  const TRIED_BUCKET_COUNT := 256
  const NEW_BUCKET_COUNT := 1024
  const BUCKET_SIZE := 64
  const NEW_BUCKETS_PER_ADDRESS := 8
  const SET_TRIED_COLLISION_SIZE := 10
  const HORIZON_DAYS := 30
  const RETRIES := 3
  const MAX_FAILURES := 10
  const MIN_FAIL_DAYS := 7
  const REPLACEMENT_HOURS := 4
  const TEST_WINDOW := 40 * 60

  /** CAddrInfo without its position in vRandom. */
  datatype Entry = Entry(
    addr: Service,
    nTime: int,
    nServices: set<nat>,
    source: NetAddr,
    nLastSuccess: int,
    nAttempts: int,
    nLastTry: int,
    nLastCountAttempt: int,
    nRefCount: int,
    fInTried: bool)
  {
    predicate IsTerrible(nNow: int) {
      if nLastTry != 0 && nLastTry >= nNow - 60 then false
      else
        || nTime > nNow + 10 * 60
        || nTime == 0 || nNow - nTime > HORIZON_DAYS * 24 * 60 * 60
        || (nLastSuccess == 0 && nAttempts >= RETRIES)
        || (nNow - nLastSuccess > MIN_FAIL_DAYS * 24 * 60 * 60 && nAttempts >= MAX_FAILURES)
    }
  }

  function NewEntry(addr: Service, nTime: int, nServices: set<nat>, source: NetAddr): Entry {
    Entry(addr, nTime, nServices, source, 0, 0, 0, 0, 0, false)
  }

  /** The keyed hashes (key and asmap fixed in them) and the address tests, as arbitrary functions. */
  datatype Config = Config(
    triedHash: Service -> nat,
    newHash: (Service, NetAddr) -> nat,
    positionHash: (Service, bool, nat) -> nat,
    isRoutable: NetAddr -> bool,
    isValid: NetAddr -> bool)
  {
    function Position(addr: Service, isNew: bool, bucket: nat): nat {
      positionHash(addr, isNew, bucket) % BUCKET_SIZE
    }

    function TriedSlot(addr: Service): Slot {
      var bucket := triedHash(addr) % TRIED_BUCKET_COUNT;
      Slot(bucket, Position(addr, false, bucket))
    }

    function NewSlot(addr: Service, source: NetAddr): Slot {
      var bucket := newHash(addr, source) % NEW_BUCKET_COUNT;
      Slot(bucket, Position(addr, true, bucket))
    }
  }

  datatype Book = Book(
    info: map<int, Entry>,
    mapAddr: map<NetAddr, int>,
    vvNew: Table,
    vvTried: Table,
    collisions: set<int>,
    nIdCount: int,
    nLastGood: int)

  const EMPTY := Book(map[], map[], map[], map[], {}, 0, 1)

  // ---------------------------------------------------------------------
  // The invariant
  // ---------------------------------------------------------------------

  function Slots(table: Table, id: int): set<Slot> {
    set s | s in table && table[s] == id
  }

  /** An entry lies in slot `s` of the new table only where its hash puts it. */
  predicate NewPlaceOk(h: Config, addr: Service, s: Slot) {
    s.bucket < NEW_BUCKET_COUNT && s.position == h.Position(addr, true, s.bucket)
  }

  /** The reference count is the number of slots; only a tried entry, or a `loose` one, may have none. */
  predicate CountOk(e: Entry, slots: set<Slot>, loose: bool) {
    && e.nRefCount == |slots|
    && e.nRefCount <= NEW_BUCKETS_PER_ADDRESS
    && (e.fInTried ==> e.nRefCount == 0)
    && (!e.fInTried && !loose ==> e.nRefCount > 0)
  }

  ghost predicate PlacesOk(h: Config, info: map<int, Entry>, vvNew: Table) {
    forall s :: s in vvNew ==> vvNew[s] in info && NewPlaceOk(h, info[vvNew[s]].addr, s)
  }

  ghost predicate CountsOk(info: map<int, Entry>, vvNew: Table, loose: set<int>) {
    forall id :: id in info ==> CountOk(info[id], Slots(vvNew, id), id in loose)
  }

  /** The tried entries and the slots of the tried table are in one-to-one correspondence. */
  ghost predicate TriedOk(h: Config, info: map<int, Entry>, vvTried: Table) {
    && (forall s :: s in vvTried ==>
          vvTried[s] in info && info[vvTried[s]].fInTried && s == h.TriedSlot(info[vvTried[s]].addr))
    && (forall id :: id in info && info[id].fInTried ==>
          h.TriedSlot(info[id].addr) in vvTried && vvTried[h.TriedSlot(info[id].addr)] == id
            && info[id].nLastSuccess > 0)
  }

  /** mapAddr is the inverse of looking up an entry's address. */
  ghost predicate AddrOk(info: map<int, Entry>, mapAddr: map<NetAddr, int>) {
    && (forall id :: id in info ==> info[id].addr.ip in mapAddr && mapAddr[info[id].addr.ip] == id)
    && (forall ip :: ip in mapAddr ==> mapAddr[ip] in info && info[mapAddr[ip]].addr.ip == ip)
  }

  ghost predicate InfoOk(info: map<int, Entry>, nIdCount: int) {
    && nIdCount >= 0
    && forall id :: id in info ==> 0 <= id < nIdCount && info[id].nLastTry >= 0 && info[id].nLastSuccess >= 0
  }

  /** A live collision stands before an occupied slot of the tried table. */
  ghost predicate CollisionsOk(h: Config, b: Book) {
    && |b.collisions| <= SET_TRIED_COLLISION_SIZE
    && (forall id :: id in b.collisions ==> id < b.nIdCount)
    && (forall id :: id in b.collisions && id in b.info ==> h.TriedSlot(b.info[id].addr) in b.vvTried)
  }

  /** Entries and tables in order, with `loose` entries about to be placed or dropped; more than Check_ asks. */
  ghost predicate Core(h: Config, b: Book, loose: set<int>) {
    && InfoOk(b.info, b.nIdCount)
    && AddrOk(b.info, b.mapAddr)
    && PlacesOk(h, b.info, b.vvNew)
    && CountsOk(b.info, b.vvNew, loose)
    && TriedOk(h, b.info, b.vvTried)
  }

  ghost predicate Consistent(h: Config, b: Book) {
    Core(h, b, {}) && CollisionsOk(h, b)
  }

  // ---------------------------------------------------------------------
  // The operations
  // ---------------------------------------------------------------------

  function Deleted(b: Book, id: int): Book
    requires id in b.info
  {
    b.(info := b.info - {id}, mapAddr := b.mapAddr - {b.info[id].addr.ip})
  }

  /** The new-table slot `s` is emptied; an entry that was nowhere else is forgotten. */
  function ClearedNew(b: Book, s: Slot): Book {
    if s !in b.vvNew || b.vvNew[s] !in b.info then b else
      var id := b.vvNew[s];
      var e := b.info[id].(nRefCount := b.info[id].nRefCount - 1);
      var b' := b.(vvNew := b.vvNew - {s}, info := b.info[id := e]);
      if e.nRefCount == 0 then Deleted(b', id) else b'
  }

  /** Put `id` into the free slot `s`. */
  function Placed(b: Book, s: Slot, id: int): Book
    requires id in b.info
  {
    b.(vvNew := b.vvNew[s := id], info := b.info[id := b.info[id].(nRefCount := b.info[id].nRefCount + 1)])
  }

  function RemovedFromNew(b: Book, id: int): Book
    requires id in b.info
  {
    b.(vvNew := b.vvNew - Slots(b.vvNew, id), info := b.info[id := b.info[id].(nRefCount := 0)])
  }

  lemma SlotsRemove(table: Table, s: Slot, id: int)
    ensures Slots(table - {s}, id) == Slots(table, id) - {s}
  {
  }

  lemma SlotsPut(table: Table, s: Slot, put: int, id: int)
    requires s !in table
    ensures Slots(table[s := put], id) == if id == put then Slots(table, id) + {s} else Slots(table, id)
  {
  }

  /** Whatever the new-table slot `s` holds is a counted entry outside the tried table. */
  predicate HolderOk(b: Book, s: Slot) {
    s in b.vvNew ==> b.vvNew[s] in b.info && !b.info[b.vvNew[s]].fInTried && b.info[b.vvNew[s]].nRefCount > 0
  }

  lemma HolderCounted(h: Config, b: Book, s: Slot, loose: set<int>)
    requires Core(h, b, loose)
    ensures HolderOk(b, s)
  {
    if s in b.vvNew {
      assert s in Slots(b.vvNew, b.vvNew[s]);
    }
  }

  lemma OnlySlot(slots: set<Slot>, s: Slot)
    requires s in slots && |slots| == 1
    ensures slots == {s}
  {
    assert |slots - {s}| == 0;
    assert slots == slots - {s} + {s};
  }

  lemma ClearedNewCounts(b: Book, s: Slot, loose: set<int>)
    requires CountsOk(b.info, b.vvNew, loose) && s in b.vvNew && b.vvNew[s] in b.info
    ensures CountsOk(ClearedNew(b, s).info, ClearedNew(b, s).vvNew, loose)
  {
    var b' := ClearedNew(b, s);
    assert s in Slots(b.vvNew, b.vvNew[s]);
    forall id | id in b'.info ensures CountOk(b'.info[id], Slots(b'.vvNew, id), id in loose) {
      SlotsRemove(b.vvNew, s, id);
      assert CountOk(b.info[id], Slots(b.vvNew, id), id in loose);
    }
  }

  lemma ClearedNewPlaces(h: Config, b: Book, s: Slot, loose: set<int>)
    requires PlacesOk(h, b.info, b.vvNew) && CountsOk(b.info, b.vvNew, loose) && s in b.vvNew
    ensures PlacesOk(h, ClearedNew(b, s).info, ClearedNew(b, s).vvNew)
  {
    var b', gone := ClearedNew(b, s), b.vvNew[s];
    assert s in Slots(b.vvNew, gone);
    forall t | t in b'.vvNew ensures b'.vvNew[t] in b'.info && NewPlaceOk(h, b'.info[b'.vvNew[t]].addr, t) {
      if b.info[gone].nRefCount == 1 {
        OnlySlot(Slots(b.vvNew, gone), s);
        assert t !in Slots(b.vvNew, gone);
      }
    }
  }

  /** Only reference counts changed, and only entries outside the tried table may be gone. */
  ghost predicate Trimmed(info: map<int, Entry>, info': map<int, Entry>) {
    && (forall id :: id in info' ==> id in info && info'[id] == info[id].(nRefCount := info'[id].nRefCount))
    && (forall id :: id in info && info[id].fInTried ==> id in info')
  }

  lemma TrimmedInfo(info: map<int, Entry>, info': map<int, Entry>, nIdCount: int)
    requires InfoOk(info, nIdCount) && Trimmed(info, info')
    ensures InfoOk(info', nIdCount)
  {
  }

  lemma TrimmedTried(h: Config, info: map<int, Entry>, info': map<int, Entry>, vvTried: Table)
    requires TriedOk(h, info, vvTried) && Trimmed(info, info')
    ensures TriedOk(h, info', vvTried)
  {
    forall s | s in vvTried
      ensures vvTried[s] in info' && info'[vvTried[s]].fInTried && s == h.TriedSlot(info'[vvTried[s]].addr)
    {
      var id := vvTried[s];
      assert id in info && info[id].fInTried;
    }
  }

  lemma TrimmedOk(h: Config, b: Book, b': Book)
    requires InfoOk(b.info, b.nIdCount) && TriedOk(h, b.info, b.vvTried)
    requires Trimmed(b.info, b'.info) && b'.nIdCount == b.nIdCount && b'.vvTried == b.vvTried
    ensures InfoOk(b'.info, b'.nIdCount) && TriedOk(h, b'.info, b'.vvTried)
  {
    TrimmedInfo(b.info, b'.info, b.nIdCount);
    TrimmedTried(h, b.info, b'.info, b.vvTried);
  }

  lemma ClearedNewAddr(b: Book, s: Slot)
    requires AddrOk(b.info, b.mapAddr)
    ensures AddrOk(ClearedNew(b, s).info, ClearedNew(b, s).mapAddr)
  {
  }

  lemma ClearedNewOk(h: Config, b: Book, s: Slot, loose: set<int>)
    requires Core(h, b, loose)
    ensures Core(h, ClearedNew(b, s), loose)
  {
    if s in b.vvNew {
      ClearedNewCounts(b, s, loose);
      ClearedNewPlaces(h, b, s, loose);
      assert s in Slots(b.vvNew, b.vvNew[s]);
      TrimmedOk(h, b, ClearedNew(b, s));
      ClearedNewAddr(b, s);
    }
  }

  lemma PlacedOk(h: Config, b: Book, s: Slot, id: int, loose: set<int>)
    requires Core(h, b, loose) && id in b.info && s !in b.vvNew
    requires !b.info[id].fInTried && b.info[id].nRefCount < NEW_BUCKETS_PER_ADDRESS && NewPlaceOk(h, b.info[id].addr, s)
    ensures Core(h, Placed(b, s, id), loose - {id})
  {
    var b' := Placed(b, s, id);
    assert Trimmed(b.info, b'.info);
    TrimmedOk(h, b, b');
    PlacedCounts(b, s, id, loose);
  }

  lemma PlacedCounts(b: Book, s: Slot, id: int, loose: set<int>)
    requires CountsOk(b.info, b.vvNew, loose) && id in b.info && s !in b.vvNew
    requires !b.info[id].fInTried && b.info[id].nRefCount < NEW_BUCKETS_PER_ADDRESS
    ensures CountsOk(Placed(b, s, id).info, Placed(b, s, id).vvNew, loose - {id})
  {
    var b' := Placed(b, s, id);
    forall id' | id' in b'.info ensures CountOk(b'.info[id'], Slots(b'.vvNew, id'), id' in loose - {id}) {
      SlotsPut(b.vvNew, s, id, id');
      assert CountOk(b.info[id'], Slots(b.vvNew, id'), id' in loose);
    }
  }

  lemma RemovedFromNewOk(h: Config, b: Book, id: int)
    requires Core(h, b, {}) && id in b.info && !b.info[id].fInTried
    ensures Core(h, RemovedFromNew(b, id), {id})
    ensures Slots(RemovedFromNew(b, id).vvNew, id) == {}
  {
    var b' := RemovedFromNew(b, id);
    TrimmedOk(h, b, b');
    forall id' | id' in b'.info ensures CountOk(b'.info[id'], Slots(b'.vvNew, id'), id' in {id}) {
      assert Slots(b'.vvNew, id') == if id' == id then {} else Slots(b.vvNew, id');
    }
  }

  /** The tried entry in slot `s` leaves the tried table. */
  function Untried(b: Book, s: Slot): Book
    requires s in b.vvTried && b.vvTried[s] in b.info
  {
    var id := b.vvTried[s];
    b.(vvTried := b.vvTried - {s}, info := b.info[id := b.info[id].(fInTried := false)])
  }

  lemma UntriedOk(h: Config, b: Book, s: Slot, loose: set<int>)
    requires Core(h, b, loose) && s in b.vvTried
    ensures Core(h, Untried(b, s), loose + {b.vvTried[s]})
  {
    var b', id := Untried(b, s), b.vvTried[s];
    forall id' | id' in b'.info && b'.info[id'].fInTried
      ensures h.TriedSlot(b'.info[id'].addr) in b'.vvTried && b'.vvTried[h.TriedSlot(b'.info[id'].addr)] == id'
    {
      assert b.vvTried[h.TriedSlot(b.info[id'].addr)] == id';
    }
  }

  /** The entry `id`, in no table, enters the free slot `s` of the tried table. */
  function Tried(b: Book, s: Slot, id: int): Book
    requires id in b.info
  {
    b.(vvTried := b.vvTried[s := id], info := b.info[id := b.info[id].(fInTried := true)])
  }

  lemma TriedEntryOk(h: Config, b: Book, s: Slot, id: int, loose: set<int>)
    requires Core(h, b, loose) && id in b.info && s !in b.vvTried && s == h.TriedSlot(b.info[id].addr)
    requires b.info[id].nRefCount == 0 && b.info[id].nLastSuccess > 0
    ensures Core(h, Tried(b, s, id), loose - {id})
  {
  }

  /** Whatever stands in the tried slot `s` moves back to the new table, clearing its place there. */
  function Evicted(h: Config, b: Book, s: Slot): Book {
    if s !in b.vvTried || b.vvTried[s] !in b.info then b else
      var id := b.vvTried[s];
      var place := h.NewSlot(b.info[id].addr, b.info[id].source);
      var cleared := ClearedNew(Untried(b, s), place);
      if id in cleared.info then Placed(cleared, place, id) else cleared
  }

  lemma EvictedOk(h: Config, b: Book, s: Slot, loose: set<int>)
    requires Core(h, b, loose) && s in b.vvTried && b.vvTried[s] !in loose
    ensures Core(h, Evicted(h, b, s), loose) && s !in Evicted(h, b, s).vvTried
    ensures forall id :: id in b.info && id in loose && Slots(b.vvNew, id) == {} ==>
        id in Evicted(h, b, s).info && Evicted(h, b, s).info[id] == b.info[id]
  {
    var id := b.vvTried[s];
    var place := h.NewSlot(b.info[id].addr, b.info[id].source);
    var untried := Untried(b, s);
    UntriedOk(h, b, s, loose);
    assert Slots(b.vvNew, id) == {};
    ClearedNewOk(h, untried, place, loose + {id});
    assert place in b.vvNew ==> place in Slots(b.vvNew, b.vvNew[place]);
    ClearedNewKeeps(untried, place, id);
    PlacedOk(h, ClearedNew(untried, place), place, id, loose + {id});
    assert loose + {id} - {id} == loose;
    forall id' | id' in b.info && id' in loose && Slots(b.vvNew, id') == {}
      ensures id' in Evicted(h, b, s).info && Evicted(h, b, s).info[id'] == b.info[id']
    {
      ClearedNewKeeps(untried, place, id');
    }
  }

  lemma ClearedNewKeeps(b: Book, s: Slot, id: int)
    requires id in b.info && (s in b.vvNew ==> b.vvNew[s] != id)
    ensures id in ClearedNew(b, s).info && ClearedNew(b, s).info[id] == b.info[id]
    ensures s in b.vvNew && b.vvNew[s] in b.info ==> s !in ClearedNew(b, s).vvNew
  {
  }

  function MadeTried(h: Config, b: Book, id: int): Book
    requires id in b.info
  {
    var s := h.TriedSlot(b.info[id].addr);
    var evicted := Evicted(h, RemovedFromNew(b, id), s);
    if id in evicted.info then Tried(evicted, s, id) else evicted
  }

  lemma MadeTriedOk(h: Config, b: Book, id: int)
    requires Core(h, b, {}) && id in b.info && !b.info[id].fInTried && b.info[id].nLastSuccess > 0
    ensures Core(h, MadeTried(h, b, id), {})
  {
    var s := h.TriedSlot(b.info[id].addr);
    var removed := RemovedFromNew(b, id);
    RemovedFromNewOk(h, b, id);
    if s in removed.vvTried {
      EvictedOk(h, removed, s, {id});
    }
    TriedEntryOk(h, Evicted(h, removed, s), s, id, {id});
    assert {id} - {id} == {};
  }

  // ---------------------------------------------------------------------
  // The public operations
  // ---------------------------------------------------------------------

  /** The same entry with new statistics: its place in the tables stays. */
  predicate SamePlace(e: Entry, e': Entry) {
    && e'.addr == e.addr && e'.nRefCount == e.nRefCount && e'.fInTried == e.fInTried
    && e'.nLastTry >= 0 && e'.nLastSuccess >= 0 && (e.nLastSuccess > 0 ==> e'.nLastSuccess > 0)
  }

  lemma TouchedOk(h: Config, b: Book, id: int, e: Entry, loose: set<int>)
    requires Core(h, b, loose) && id in b.info && SamePlace(b.info[id], e)
    ensures Core(h, b.(info := b.info[id := e]), loose)
    ensures CollisionsOk(h, b) ==> CollisionsOk(h, b.(info := b.info[id := e]))
  {
  }

  /** The entry that `addr` names exactly, port included. */
  predicate Finds(b: Book, addr: Service) {
    addr.ip in b.mapAddr && b.mapAddr[addr.ip] in b.info && b.info[b.mapAddr[addr.ip]].addr == addr
  }

  /** The end of Good_: move a new entry to the tried table, or note the collision. */
  function Promoted(h: Config, b: Book, id: int, testBeforeEvict: bool): Book
    requires id in b.info
  {
    if b.info[id].fInTried then b
    else if testBeforeEvict && h.TriedSlot(b.info[id].addr) in b.vvTried then
      if |b.collisions| < SET_TRIED_COLLISION_SIZE then b.(collisions := b.collisions + {id}) else b
    else MadeTried(h, b, id)
  }

  function Good(h: Config, b: Book, addr: Service, testBeforeEvict: bool, nTime: int): Book {
    var b0 := b.(nLastGood := nTime);
    if !Finds(b0, addr) then b0 else
      var id := b0.mapAddr[addr.ip];
      var e := b0.info[id].(nLastSuccess := nTime, nLastTry := nTime, nAttempts := 0);
      Promoted(h, b0.(info := b0.info[id := e]), id, testBeforeEvict)
  }

  /** Nothing that keeps collisions in order is undone from `b` to `b'`. */
  ghost predicate Advances(b: Book, b': Book) {
    && b.nIdCount <= b'.nIdCount
    && b.vvTried.Keys <= b'.vvTried.Keys
    && (forall id :: id in b'.info && id < b.nIdCount ==> id in b.info && b'.info[id].addr == b.info[id].addr)
  }

  /** What every public operation but Good_ guarantees. */
  ghost predicate Kept(h: Config, b: Book, b': Book) {
    Consistent(h, b') && Advances(b, b') && b'.collisions <= b.collisions
  }

  lemma CollisionsKept(h: Config, b: Book, b': Book)
    requires CollisionsOk(h, b) && Advances(b, b') && b'.collisions <= b.collisions
    ensures CollisionsOk(h, b')
  {
    SubsetSize(b'.collisions, b.collisions);
  }

  /** No entry appears, changes its address or its id. */
  ghost predicate NoneAppear(info: map<int, Entry>, info': map<int, Entry>) {
    forall id :: id in info' ==> id in info && info'[id].addr == info[id].addr
  }

  lemma ClearedNewFrame(b: Book, s: Slot)
    ensures var b' := ClearedNew(b, s);
      NoneAppear(b.info, b'.info) && b' == b.(info := b'.info, mapAddr := b'.mapAddr, vvNew := b'.vvNew)
  {
  }

  lemma EvictedFrame(h: Config, b: Book, s: Slot)
    requires s in b.vvTried && b.vvTried[s] in b.info
    ensures var b' := Evicted(h, b, s);
      NoneAppear(b.info, b'.info)
        && b' == b.(info := b'.info, mapAddr := b'.mapAddr, vvNew := b'.vvNew, vvTried := b.vvTried - {s})
  {
    var id := b.vvTried[s];
    ClearedNewFrame(Untried(b, s), h.NewSlot(b.info[id].addr, b.info[id].source));
  }

  /** Making room in the tried table does not touch the entry that is to enter it. */
  lemma EvictionSpares(h: Config, b: Book, id: int)
    requires Core(h, b, {}) && id in b.info && !b.info[id].fInTried
    ensures var s := h.TriedSlot(b.info[id].addr);
      var evicted := Evicted(h, RemovedFromNew(b, id), s);
      id in evicted.info && evicted.info[id] == b.info[id].(nRefCount := 0)
        && (s in b.vvTried ==> b.vvTried[s] in b.info && b.vvTried[s] != id)
  {
    var s := h.TriedSlot(b.info[id].addr);
    RemovedFromNewOk(h, b, id);
    if s in b.vvTried {
      EvictedOk(h, RemovedFromNew(b, id), s, {id});
    }
  }

  /** What the eviction from the tried slot `s` relies on. */
  predicate Evictable(h: Config, b: Book, s: Slot) {
    && s in b.vvTried && b.vvTried[s] in b.info
    && var out := b.vvTried[s];
       var place := h.NewSlot(b.info[out].addr, b.info[out].source);
       b.info[out].fInTried && b.info[out].nRefCount == 0 && HolderOk(b, place)
         && (place in b.vvNew ==> b.vvNew[place] != out)
  }

  /** What moving `id` to the tried table relies on. */
  ghost predicate Triable(h: Config, b: Book, id: int) {
    && id in b.info && !b.info[id].fInTried
    && b.info[id].nRefCount == |Slots(b.vvNew, id)|
    && (forall s :: s in b.vvNew && b.vvNew[s] == id ==> NewPlaceOk(h, b.info[id].addr, s))
    && var slot, removed := h.TriedSlot(b.info[id].addr), RemovedFromNew(b, id);
       && id in Evicted(h, removed, slot).info && !Evicted(h, removed, slot).info[id].fInTried
       && (slot in b.vvTried ==> Evictable(h, removed, slot))
  }

  lemma CoreTriable(h: Config, b: Book, id: int)
    requires Core(h, b, {}) && id in b.info && !b.info[id].fInTried
    ensures Triable(h, b, id)
  {
    var s := h.TriedSlot(b.info[id].addr);
    var removed := RemovedFromNew(b, id);
    EvictionSpares(h, b, id);
    if s in b.vvTried {
      RemovedFromNewOk(h, b, id);
      var out := b.vvTried[s];
      HolderCounted(h, removed, h.NewSlot(b.info[out].addr, b.info[out].source), {id});
    }
  }

  lemma MadeTriedAdvances(h: Config, b: Book, id: int)
    requires id in b.info
    requires var s := h.TriedSlot(b.info[id].addr);
      id in Evicted(h, RemovedFromNew(b, id), s).info && (s in b.vvTried ==> b.vvTried[s] in b.info)
    ensures var b' := MadeTried(h, b, id); Advances(b, b') && b'.collisions == b.collisions
    ensures MadeTried(h, b, id).vvTried == b.vvTried[h.TriedSlot(b.info[id].addr) := id]
  {
    hide Slots;
    hide Config.TriedSlot;
    hide Evicted;
    hide NoneAppear;
    var s := h.TriedSlot(b.info[id].addr);
    var removed := RemovedFromNew(b, id);
    if s in removed.vvTried {
      EvictedFrame(h, removed, s);
    } else {
      NoneEvicted(h, removed, s);
    }
    TriedAdvances(b, Evicted(h, removed, s), s, id);
  }

  lemma TriedAdvances(b: Book, evicted: Book, s: Slot, id: int)
    requires id in b.info && id in evicted.info && NoneAppear(RemovedFromNew(b, id).info, evicted.info)
    requires evicted.nIdCount == b.nIdCount && evicted.vvTried == b.vvTried - {s}
    ensures Advances(b, Tried(evicted, s, id))
  {
    hide Slots;
  }

  lemma NoneEvicted(h: Config, b: Book, s: Slot)
    requires s !in b.vvTried
    ensures Evicted(h, b, s) == b && NoneAppear(b.info, b.info) && b.vvTried - {s} == b.vvTried
  {
  }

  lemma PromotedOk(h: Config, b: Book, id: int, testBeforeEvict: bool)
    requires Consistent(h, b) && id in b.info && b.info[id].nLastSuccess > 0
    ensures var b' := Promoted(h, b, id, testBeforeEvict);
      Consistent(h, b') && Advances(b, b') && (!testBeforeEvict ==> b'.collisions == b.collisions)
  {
    if !b.info[id].fInTried && !(testBeforeEvict && h.TriedSlot(b.info[id].addr) in b.vvTried) {
      MadeTriedOk(h, b, id);
      EvictionSpares(h, b, id);
      MadeTriedAdvances(h, b, id);
      CollisionsKept(h, b, MadeTried(h, b, id));
    }
  }

  lemma GoodOk(h: Config, b: Book, addr: Service, testBeforeEvict: bool, nTime: int)
    requires Consistent(h, b) && nTime > 0
    ensures var b' := Good(h, b, addr, testBeforeEvict, nTime);
      Consistent(h, b') && Advances(b, b') && (!testBeforeEvict ==> b'.collisions == b.collisions)
  {
    hide Core;
    hide CollisionsOk;
    hide Promoted;
    var b0 := b.(nLastGood := nTime);
    LastGoodOk(h, b, nTime);
    if Finds(b, addr) {
      var id := b.mapAddr[addr.ip];
      var e := b.info[id].(nLastSuccess := nTime, nLastTry := nTime, nAttempts := 0);
      var b1 := b0.(info := b.info[id := e]);
      TouchedOk(h, b0, id, e, {});
      TouchedAdvances(b, b1, id);
      PromotedOk(h, b1, id, testBeforeEvict);
      hide Advances;
      AdvancesTransitive(b, b1, Promoted(h, b1, id, testBeforeEvict));
    }
  }

  lemma LastGoodOk(h: Config, b: Book, nTime: int)
    requires Consistent(h, b)
    ensures Core(h, b.(nLastGood := nTime), {}) && CollisionsOk(h, b.(nLastGood := nTime))
  {
  }

  lemma TouchedAdvances(b: Book, b': Book, id: int)
    requires id in b.info && b'.info.Keys == b.info.Keys && b'.vvTried == b.vvTried && b'.nIdCount == b.nIdCount
    requires b'.info[id].addr == b.info[id].addr && forall x :: x in b.info && x != id ==> b'.info[x] == b.info[x]
    ensures Advances(b, b')
  {
  }

  function Attempt(b: Book, addr: Service, fCountFailure: bool, nTime: int): Book {
    if !Finds(b, addr) then b else
      var id := b.mapAddr[addr.ip];
      var e := b.info[id].(nLastTry := nTime);
      b.(info := b.info[id :=
        if fCountFailure && e.nLastCountAttempt < b.nLastGood
        then e.(nLastCountAttempt := nTime, nAttempts := e.nAttempts + 1) else e])
  }

  function Connected(b: Book, addr: Service, nTime: int): Book {
    if !Finds(b, addr) then b else
      var id := b.mapAddr[addr.ip];
      if nTime - b.info[id].nTime > 20 * 60 then b.(info := b.info[id := b.info[id].(nTime := nTime)]) else b
  }

  function SetServices(b: Book, addr: Service, nServices: set<nat>): Book {
    if !Finds(b, addr) then b else
      var id := b.mapAddr[addr.ip];
      b.(info := b.info[id := b.info[id].(nServices := nServices)])
  }

  /** What Add_ learns about an address it already has. */
  function Refreshed(e: Entry, nTime: int, nServices: set<nat>, nTimePenalty: int, now: int): Entry {
    var nUpdateInterval := if now - nTime < 24 * 60 * 60 then 60 * 60 else 24 * 60 * 60;
    var e' := if nTime != 0 && (e.nTime == 0 || e.nTime < nTime - nUpdateInterval - nTimePenalty)
              then e.(nTime := Max(0, nTime - nTimePenalty)) else e;
    e'.(nServices := e'.nServices + nServices)
  }

  function Created(b: Book, addr: Service, nTime: int, nServices: set<nat>, source: NetAddr): Book {
    b.(info := b.info[b.nIdCount := NewEntry(addr, nTime, nServices, source)],
       mapAddr := b.mapAddr[addr.ip := b.nIdCount],
       nIdCount := b.nIdCount + 1)
  }

  /** Give `id` the slot it has for `source`, unless a better entry holds it; an entry left without any is dropped. */
  function Inserted(h: Config, b: Book, id: int, source: NetAddr, now: int): Book
    requires id in b.info
  {
    var s := h.NewSlot(b.info[id].addr, source);
    if s in b.vvNew && b.vvNew[s] == id then b
    else if s !in b.vvNew || b.vvNew[s] !in b.info || b.info[b.vvNew[s]].IsTerrible(now)
            || (b.info[b.vvNew[s]].nRefCount > 1 && b.info[id].nRefCount == 0) then
      var cleared := ClearedNew(b, s);
      if id in cleared.info then Placed(cleared, s, id) else cleared
    else if b.info[id].nRefCount == 0 then Deleted(b, id)
    else b
  }

  /** `lucky` is the outcome of the stochastic test against raising the reference count. */
  function AddKnown(h: Config, b: Book, id: int, e: Entry, nTime: int, source: NetAddr, now: int, lucky: bool): Book
    requires id in b.info
  {
    var b' := b.(info := b.info[id := e]);
    if nTime == 0 || (e.nTime != 0 && nTime <= e.nTime) || e.fInTried
       || e.nRefCount == NEW_BUCKETS_PER_ADDRESS || (e.nRefCount > 0 && !lucky)
    then b' else Inserted(h, b', id, source, now)
  }

  function Add(h: Config, b: Book, addr: Service, nTime: int, nServices: set<nat>, source: NetAddr,
               nTimePenalty: int, now: int, lucky: bool): Book
  {
    if !h.isRoutable(addr.ip) then b else
      var penalty := Penalty(addr, source, nTimePenalty);
      if addr.ip in b.mapAddr && b.mapAddr[addr.ip] in b.info then
        var id := b.mapAddr[addr.ip];
        AddKnown(h, b, id, Refreshed(b.info[id], nTime, nServices, penalty, now), nTime, source, now, lucky)
      else
        AddUnknown(h, b, addr, Max(0, nTime - penalty), nServices, source, now)
  }

  function AddUnknown(h: Config, b: Book, addr: Service, nTime: int, nServices: set<nat>, source: NetAddr,
                      now: int): Book {
    Inserted(h, Created(b, addr, nTime, nServices, source), b.nIdCount, source, now)
  }

  lemma DeletedOk(h: Config, b: Book, id: int, loose: set<int>)
    requires Core(h, b, loose) && id in b.info && !b.info[id].fInTried && b.info[id].nRefCount == 0
    ensures Core(h, Deleted(b, id), loose - {id})
  {
    var b' := Deleted(b, id);
    assert Slots(b.vvNew, id) == {};
    TrimmedOk(h, b, b');
    forall s | s in b'.vvNew ensures b'.vvNew[s] in b'.info && NewPlaceOk(h, b'.info[b'.vvNew[s]].addr, s) {
      assert s !in Slots(b.vvNew, id);
    }
  }

  lemma CreatedOk(h: Config, b: Book, addr: Service, nTime: int, nServices: set<nat>, source: NetAddr)
    requires Consistent(h, b) && addr.ip !in b.mapAddr
    ensures Core(h, Created(b, addr, nTime, nServices, source), {b.nIdCount})
  {
    hide TriedOk;
    hide PlacesOk;
    hide CountsOk;
    hide AddrOk;
    CreatedTables(h, b, addr, nTime, nServices, source);
    CreatedCounts(h, b, addr, nTime, nServices, source);
  }

  lemma CreatedTables(h: Config, b: Book, addr: Service, nTime: int, nServices: set<nat>, source: NetAddr)
    requires Consistent(h, b) && addr.ip !in b.mapAddr
    ensures var b' := Created(b, addr, nTime, nServices, source);
      TriedOk(h, b'.info, b'.vvTried) && PlacesOk(h, b'.info, b'.vvNew) && AddrOk(b'.info, b'.mapAddr)
  {
    hide CountsOk;
    hide CollisionsOk;
    hide Config.TriedSlot;
    hide NewPlaceOk;
  }

  lemma CreatedCounts(h: Config, b: Book, addr: Service, nTime: int, nServices: set<nat>, source: NetAddr)
    requires PlacesOk(h, b.info, b.vvNew) && CountsOk(b.info, b.vvNew, {}) && b.nIdCount !in b.info
    ensures CountsOk(Created(b, addr, nTime, nServices, source).info, b.vvNew, {b.nIdCount})
  {
    var info' := Created(b, addr, nTime, nServices, source).info;
    assert Slots(b.vvNew, b.nIdCount) == {};
    forall id | id in info' ensures CountOk(info'[id], Slots(b.vvNew, id), id in {b.nIdCount}) {
      assert id in b.info && id != b.nIdCount ==> CountOk(b.info[id], Slots(b.vvNew, id), false);
    }
  }

  lemma InsertedOk(h: Config, b: Book, id: int, source: NetAddr, now: int)
    requires Core(h, b, {id}) && id in b.info && !b.info[id].fInTried && b.info[id].nRefCount < NEW_BUCKETS_PER_ADDRESS
    ensures Core(h, Inserted(h, b, id, source, now), {})
  {
    var s := h.NewSlot(b.info[id].addr, source);
    if s in b.vvNew && b.vvNew[s] == id {
      assert s in Slots(b.vvNew, id);
    } else if s !in b.vvNew || b.info[b.vvNew[s]].IsTerrible(now)
              || (b.info[b.vvNew[s]].nRefCount > 1 && b.info[id].nRefCount == 0) {
      ClearedNewOk(h, b, s, {id});
      ClearedNewKeeps(b, s, id);
      PlacedOk(h, ClearedNew(b, s), s, id, {id});
      assert {id} - {id} == {};
    } else if b.info[id].nRefCount == 0 {
      DeletedOk(h, b, id, {id});
    }
  }

  lemma InsertedAdvances(h: Config, b: Book, id: int, source: NetAddr, now: int)
    requires id in b.info
    ensures var b' := Inserted(h, b, id, source, now);
      NoneAppear(b.info, b'.info) && b' == b.(info := b'.info, mapAddr := b'.mapAddr, vvNew := b'.vvNew)
  {
    ClearedNewFrame(b, h.NewSlot(b.info[id].addr, source));
  }

  lemma AddKnownOk(h: Config, b: Book, id: int, e: Entry, nTime: int, source: NetAddr, now: int, lucky: bool)
    requires Consistent(h, b) && id in b.info && SamePlace(b.info[id], e)
    ensures Kept(h, b, AddKnown(h, b, id, e, nTime, source, now, lucky))
  {
    var b1 := b.(info := b.info[id := e]);
    TouchedOk(h, b, id, e, {});
    if !e.fInTried && e.nRefCount != NEW_BUCKETS_PER_ADDRESS {
      InsertedOk(h, b1, id, source, now);
      InsertedAdvances(h, b1, id, source, now);
      CollisionsKept(h, b1, Inserted(h, b1, id, source, now));
    }
  }

  lemma AddUnknownOk(h: Config, b: Book, addr: Service, nTime: int, nServices: set<nat>, source: NetAddr, now: int)
    requires Consistent(h, b) && addr.ip !in b.mapAddr
    ensures Kept(h, b, AddUnknown(h, b, addr, nTime, nServices, source, now))
  {
    var b1 := Created(b, addr, nTime, nServices, source);
    CreatedOk(h, b, addr, nTime, nServices, source);
    InsertedOk(h, b1, b.nIdCount, source, now);
    InsertedAdvances(h, b1, b.nIdCount, source, now);
    CollisionsKept(h, b1, Inserted(h, b1, b.nIdCount, source, now));
  }

  function Penalty(addr: Service, source: NetAddr, nTimePenalty: int): int {
    if addr.ip == source then 0 else nTimePenalty
  }

  lemma AddFoundOk(h: Config, b: Book, addr: Service, nTime: int, nServices: set<nat>, source: NetAddr,
                   nTimePenalty: int, now: int, lucky: bool)
    requires Consistent(h, b) && h.isRoutable(addr.ip) && addr.ip in b.mapAddr
    ensures Kept(h, b, Add(h, b, addr, nTime, nServices, source, nTimePenalty, now, lucky))
  {
    var id := b.mapAddr[addr.ip];
    var e := Refreshed(b.info[id], nTime, nServices, Penalty(addr, source, nTimePenalty), now);
    AddKnownOk(h, b, id, e, nTime, source, now, lucky);
  }

  lemma AddFreshOk(h: Config, b: Book, addr: Service, nTime: int, nServices: set<nat>, source: NetAddr,
                   nTimePenalty: int, now: int, lucky: bool)
    requires Consistent(h, b) && h.isRoutable(addr.ip) && addr.ip !in b.mapAddr
    ensures Kept(h, b, Add(h, b, addr, nTime, nServices, source, nTimePenalty, now, lucky))
  {
    AddUnknownOk(h, b, addr, Max(0, nTime - Penalty(addr, source, nTimePenalty)), nServices, source, now);
    assert Add(h, b, addr, nTime, nServices, source, nTimePenalty, now, lucky)
        == AddUnknown(h, b, addr, Max(0, nTime - Penalty(addr, source, nTimePenalty)), nServices, source, now);
  }

  lemma AddOk(h: Config, b: Book, addr: Service, nTime: int, nServices: set<nat>, source: NetAddr,
              nTimePenalty: int, now: int, lucky: bool)
    requires Consistent(h, b)
    ensures Kept(h, b, Add(h, b, addr, nTime, nServices, source, nTimePenalty, now, lucky))
  {
    if !h.isRoutable(addr.ip) {
      assert Add(h, b, addr, nTime, nServices, source, nTimePenalty, now, lucky) == b;
    } else if addr.ip in b.mapAddr {
      AddFoundOk(h, b, addr, nTime, nServices, source, nTimePenalty, now, lucky);
    } else {
      AddFreshOk(h, b, addr, nTime, nServices, source, nTimePenalty, now, lucky);
    }
  }

  /** New statistics for one entry. */
  lemma TouchedKept(h: Config, b: Book, id: int, e: Entry)
    requires Consistent(h, b) && id in b.info && SamePlace(b.info[id], e)
    ensures Kept(h, b, b.(info := b.info[id := e]))
  {
    hide Core;
    hide CollisionsOk;
    TouchedOk(h, b, id, e, {});
    TouchedAdvances(b, b.(info := b.info[id := e]), id);
  }

  lemma SameKept(h: Config, b: Book)
    requires Consistent(h, b)
    ensures Kept(h, b, b)
  {
  }

  lemma EntryTimes(h: Config, b: Book, id: int)
    requires Consistent(h, b) && id in b.info
    ensures b.info[id].nLastTry >= 0 && b.info[id].nLastSuccess >= 0
  {
  }

  lemma AttemptOk(h: Config, b: Book, addr: Service, fCountFailure: bool, nTime: int)
    requires Consistent(h, b) && nTime >= 0
    ensures Kept(h, b, Attempt(b, addr, fCountFailure, nTime))
  {
    hide Consistent;
    hide Kept;
    SameKept(h, b);
    if Finds(b, addr) {
      var id := b.mapAddr[addr.ip];
      EntryTimes(h, b, id);
      TouchedKept(h, b, id, Attempt(b, addr, fCountFailure, nTime).info[id]);
    }
  }

  lemma StatsOk(h: Config, b: Book, addr: Service, nTime: int, nServices: set<nat>)
    requires Consistent(h, b)
    ensures Kept(h, b, Connected(b, addr, nTime)) && Kept(h, b, SetServices(b, addr, nServices))
  {
    hide Consistent;
    hide Kept;
    SameKept(h, b);
    if Finds(b, addr) {
      var id := b.mapAddr[addr.ip];
      EntryTimes(h, b, id);
      TouchedKept(h, b, id, b.info[id].(nTime := nTime));
      TouchedKept(h, b, id, b.info[id].(nServices := nServices));
    }
  }

  // ---------------------------------------------------------------------
  // Tried-table collisions
  // ---------------------------------------------------------------------

  datatype Verdict = Keep | Erase | Replace

  /** The clock, as it is read anew at each comparison and for the final move. */
  datatype Clock = Clock(success: int, recent: int, minute: int, window: int, move: int)

  /** What becomes of the collision `id`, given the entry it would push out of the tried table. */
  function Judge(h: Config, b: Book, id: int, t: Clock): Verdict {
    if id !in b.info || !h.isValid(b.info[id].addr.ip) then Erase else
      var s := h.TriedSlot(b.info[id].addr);
      if s !in b.vvTried || b.vvTried[s] !in b.info then Replace else
        var old_ := b.info[b.vvTried[s]];
        if t.success - old_.nLastSuccess < REPLACEMENT_HOURS * 60 * 60 then Erase
        else if t.recent - old_.nLastTry < REPLACEMENT_HOURS * 60 * 60 then
          if t.minute - old_.nLastTry > 60 then Replace else Keep
        else if t.window - b.info[id].nLastSuccess > TEST_WINDOW then Replace
        else Keep
  }

  function ResolvedOne(h: Config, b: Book, id: int, t: Clock): Book {
    match Judge(h, b, id, t)
    case Keep => b
    case Erase => b.(collisions := b.collisions - {id})
    case Replace =>
      if id !in b.info then b else
        var b' := Good(h, b, b.info[id].addr, false, t.move);
        b'.(collisions := b'.collisions - {id})
  }

  function Least(ids: set<int>): (m: int)
    requires ids != {}
    ensures m in ids && forall id :: id in ids ==> m <= id
  {
    LeastExists(ids);
    var m :| m in ids && forall id :: id in ids ==> m <= id;
    m
  }

  lemma Pick<T>(s: set<T>) returns (x: T)
    requires s != {}
    ensures x in s
  {
    x :| x in s;
  }

  lemma {:induction false} LeastExists(ids: set<int>)
    requires |ids| > 0
    ensures exists m :: m in ids && forall id :: id in ids ==> m <= id
    decreases |ids|
  {
    var x := Pick(ids);
    var rest := ids - {x};
    assert ids == rest + {x};
    if |rest| > 0 {
      LeastExists(rest);
      var m :| m in rest && forall id :: id in rest ==> m <= id;
      var least := if x < m then x else m;
      assert least in ids && forall id :: id in rest + {x} ==> least <= id;
    } else {
      assert rest == {};
      assert forall id :: id in rest + {x} ==> x <= id;
    }
  }

  /** The ids still to be looked at are visited in ascending order; `clock(id)` is the clock while `id` is. */
  function Resolved(h: Config, b: Book, pending: set<int>, clock: int -> Clock): Book
    decreases |pending|
  {
    if pending == {} then b else
      var id := Least(pending);
      Resolved(h, ResolvedOne(h, b, id, clock(id)), pending - {id}, clock)
  }

  lemma CollisionsFree(h: Config, b: Book, collisions: set<int>)
    requires Core(h, b, {})
    ensures Core(h, b.(collisions := collisions), {})
  {
  }

  lemma ResolvedOneOk(h: Config, b: Book, id: int, t: Clock)
    requires Consistent(h, b) && t.move > 0
    ensures Kept(h, b, ResolvedOne(h, b, id, t))
  {
    hide Good;
    hide Core;
    if Judge(h, b, id, t).Replace? {
      var b' := Good(h, b, b.info[id].addr, false, t.move);
      GoodOk(h, b, b.info[id].addr, false, t.move);
      CollisionsKept(h, b', b'.(collisions := b'.collisions - {id}));
      CollisionsFree(h, b', b'.collisions - {id});
    } else if Judge(h, b, id, t).Erase? {
      CollisionsKept(h, b, b.(collisions := b.collisions - {id}));
      CollisionsFree(h, b, b.collisions - {id});
    }
  }

  lemma AdvancesTransitive(a: Book, b: Book, c: Book)
    requires Advances(a, b) && Advances(b, c)
    ensures Advances(a, c)
  {
  }

  lemma {:induction false} ResolvedOk(h: Config, b: Book, pending: set<int>, clock: int -> Clock)
    requires Consistent(h, b) && forall id :: clock(id).move > 0
    ensures Kept(h, b, Resolved(h, b, pending, clock))
    decreases |pending|
  {
    if pending != {} {
      var id := Least(pending);
      var b' := ResolvedOne(h, b, id, clock(id));
      ResolvedOneOk(h, b, id, clock(id));
      ResolvedOk(h, b', pending - {id}, clock);
      AdvancesTransitive(b, b', Resolved(h, b', pending - {id}, clock));
    }
  }

  // ---------------------------------------------------------------------
  // Runs
  // ---------------------------------------------------------------------

  datatype Op =
    | OpAdd(addr: Service, nTime: int, nServices: set<nat>, source: NetAddr, nTimePenalty: int, now: int, lucky: bool)
    | OpGood(addr: Service, testBeforeEvict: bool, nTime: int)
    | OpAttempt(addr: Service, fCountFailure: bool, nTime: int)
    | OpConnected(addr: Service, nTime: int)
    | OpSetServices(addr: Service, nServices: set<nat>)
    | OpResolve(clock: int -> Clock)
    | OpForget(id: int)       // SelectTriedCollision_ meeting an id that is no longer known

  ghost predicate Allowed(op: Op) {
    && (op.OpGood? ==> op.nTime > 0)
    && (op.OpAttempt? ==> op.nTime >= 0)
    && (op.OpResolve? ==> forall id :: op.clock(id).move > 0)
  }

  function Step(h: Config, b: Book, op: Op): Book {
    match op
    case OpAdd(addr, nTime, nServices, source, nTimePenalty, now, lucky) =>
      Add(h, b, addr, nTime, nServices, source, nTimePenalty, now, lucky)
    case OpGood(addr, testBeforeEvict, nTime) => Good(h, b, addr, testBeforeEvict, nTime)
    case OpAttempt(addr, fCountFailure, nTime) => Attempt(b, addr, fCountFailure, nTime)
    case OpConnected(addr, nTime) => Connected(b, addr, nTime)
    case OpSetServices(addr, nServices) => SetServices(b, addr, nServices)
    case OpResolve(clock) => Resolved(h, b, b.collisions, clock)
    case OpForget(id) => if id in b.info then b else b.(collisions := b.collisions - {id})
  }

  lemma StepOk(h: Config, b: Book, op: Op)
    requires Consistent(h, b) && Allowed(op)
    ensures Consistent(h, Step(h, b, op)) && Advances(b, Step(h, b, op))
  {
    hide Add;
    hide Good;
    hide Attempt;
    hide Connected;
    hide SetServices;
    hide Resolved;
    hide Core;
    match op
    case OpAdd(addr, nTime, nServices, source, nTimePenalty, now, lucky) =>
      AddOk(h, b, addr, nTime, nServices, source, nTimePenalty, now, lucky);
    case OpGood(addr, testBeforeEvict, nTime) => GoodOk(h, b, addr, testBeforeEvict, nTime);
    case OpAttempt(addr, fCountFailure, nTime) => AttemptOk(h, b, addr, fCountFailure, nTime);
    case OpConnected(addr, nTime) => StatsOk(h, b, addr, nTime, {});
    case OpSetServices(addr, nServices) => StatsOk(h, b, addr, 0, nServices);
    case OpResolve(clock) => ResolvedOk(h, b, b.collisions, clock);
    case OpForget(id) =>
      CollisionsKept(h, b, b.(collisions := b.collisions - {id}));
      CollisionsFree(h, b, b.collisions - {id});
  }

  function Run(h: Config, b: Book, ops: seq<Op>): Book
    decreases |ops|
  {
    if ops == [] then b else Run(h, Step(h, b, ops[0]), ops[1..])
  }

  /** Every run keeps the whole invariant, and a filled slot of the tried table stays filled. */
  lemma {:induction false} RunOk(h: Config, b: Book, ops: seq<Op>)
    requires Consistent(h, b) && forall op :: op in ops ==> Allowed(op)
    ensures Consistent(h, Run(h, b, ops)) && Advances(b, Run(h, b, ops))
    decreases |ops|
  {
    if ops != [] {
      var b' := Step(h, b, ops[0]);
      StepOk(h, b, ops[0]);
      RunOk(h, b', ops[1..]);
      AdvancesTransitive(b, b', Run(h, b', ops[1..]));
    }
  }

  lemma EmptyOk(h: Config)
    ensures Consistent(h, EMPTY)
  {
  }

  /** Whatever has happened, a collision that is still known stands before a tried entry, which
      SelectTriedCollision_ will find. */
  lemma CollisionHasRival(h: Config, ops: seq<Op>, id: int)
    requires forall op :: op in ops ==> Allowed(op)
    requires var b := Run(h, EMPTY, ops); id in b.collisions && id in b.info
    ensures var b := Run(h, EMPTY, ops);
      var s := h.TriedSlot(b.info[id].addr);
      && |b.collisions| <= SET_TRIED_COLLISION_SIZE
      && s in b.vvTried && b.vvTried[s] in b.info && b.info[b.vvTried[s]].fInTried
  {
    EmptyOk(h);
    RunOk(h, EMPTY, ops);
  }

  /** Moving an entry to the tried table: the one that stood there goes back to the new table with a
      single reference, and at most one other entry is forgotten, the one that held its place there. */
  lemma MadeTriedEffect(h: Config, b: Book, id: int)
    requires Core(h, b, {}) && id in b.info && !b.info[id].fInTried && b.info[id].nLastSuccess > 0
    ensures var b', s := MadeTried(h, b, id), h.TriedSlot(b.info[id].addr);
      && b'.vvTried == b.vvTried[s := id]
      && id in b'.info && b'.info[id] == b.info[id].(nRefCount := 0, fInTried := true)
      && (s !in b.vvTried ==> b'.info.Keys == b.info.Keys)
      && (s in b.vvTried ==>
            var out := b.vvTried[s];
            out in b.info &&
            var place := h.NewSlot(b.info[out].addr, b.info[out].source);
            && out in b'.info && b'.info[out] == b.info[out].(nRefCount := 1, fInTried := false)
            && place in b'.vvNew && b'.vvNew[place] == out
            && forall lost :: lost in b.info && lost !in b'.info ==> place in b.vvNew && b.vvNew[place] == lost)
  {
    var s := h.TriedSlot(b.info[id].addr);
    EvictionSpares(h, b, id);
    MadeTriedAdvances(h, b, id);
    if s in b.vvTried {
      EvictedEffect(h, RemovedFromNew(b, id), s, {id}) by { RemovedFromNewOk(h, b, id); }
    }
  }

  lemma EvictedEffect(h: Config, b: Book, s: Slot, loose: set<int>)
    requires Core(h, b, loose) && s in b.vvTried
    ensures var b', out := Evicted(h, b, s), b.vvTried[s];
      var place := h.NewSlot(b.info[out].addr, b.info[out].source);
      && out in b'.info && b'.info[out] == b.info[out].(nRefCount := 1, fInTried := false)
      && place in b'.vvNew && b'.vvNew[place] == out
      && forall lost :: lost in b.info && lost !in b'.info ==> place in b.vvNew && b.vvNew[place] == lost
  {
    var out := b.vvTried[s];
    var place := h.NewSlot(b.info[out].addr, b.info[out].source);
    assert Slots(b.vvNew, out) == {};
    assert place in b.vvNew ==> place in Slots(b.vvNew, b.vvNew[place]);
    ClearedNewKeeps(Untried(b, s), place, out);
  }

  /** A newcomer may take the slot: it is free, or its holder is terrible or has other references. */
  predicate Yields(b: Book, s: Slot, now: int) {
    s !in b.vvNew || b.vvNew[s] !in b.info || b.info[b.vvNew[s]].IsTerrible(now) || b.info[b.vvNew[s]].nRefCount > 1
  }

  /** The holder of `s`, if any, loses one reference, and is forgotten with its last; no other entry but `id`
      changes. */
  ghost predicate GaveWay(b: Book, s: Slot, id: int, info': map<int, Entry>) {
    && (forall x :: x in b.info && x != id && (s !in b.vvNew || x != b.vvNew[s]) ==>
         x in info' && info'[x] == b.info[x])
    && (s in b.vvNew && b.vvNew[s] in b.info && b.info[b.vvNew[s]].nRefCount == 1 ==> b.vvNew[s] !in info')
    && (s in b.vvNew && b.vvNew[s] in b.info && b.info[b.vvNew[s]].nRefCount > 1 ==>
          b.vvNew[s] in info' && info'[b.vvNew[s]]
            == b.info[b.vvNew[s]].(nRefCount := b.info[b.vvNew[s]].nRefCount - 1))
  }

  lemma TakesSlot(b: Book, id: int, s: Slot)
    requires id in b.info && HolderOk(b, s) && (s in b.vvNew ==> b.vvNew[s] != id)
    ensures var c := ClearedNew(b, s);
      id in c.info && c.info[id] == b.info[id] && c.vvNew[s := id] == b.vvNew[s := id] && GaveWay(b, s, id, c.info)
  {
  }

  lemma SameHolders(b: Book, c: Book, s: Slot, id: int, info': map<int, Entry>)
    requires GaveWay(c, s, id, info') && b.vvNew == c.vvNew && (s in b.vvNew ==> b.vvNew[s] != id)
    requires forall x :: x in b.info && x != id ==> x in c.info && c.info[x] == b.info[x]
    ensures GaveWay(b, s, id, info')
  {
  }

  lemma PlacedGaveWay(b: Book, s: Slot, id: int, c: Book)
    requires id in c.info && GaveWay(b, s, id, c.info) && (s in b.vvNew ==> b.vvNew[s] != id)
    ensures GaveWay(b, s, id, Placed(c, s, id).info)
  {
  }

  lemma InsertedTakes(h: Config, b: Book, id: int, source: NetAddr, now: int)
    requires id in b.info && b.info[id].nRefCount == 0
    requires var s := h.NewSlot(b.info[id].addr, source);
      Yields(b, s, now) && HolderOk(b, s) && (s in b.vvNew ==> b.vvNew[s] != id)
    ensures var s := h.NewSlot(b.info[id].addr, source);
      id in ClearedNew(b, s).info && Inserted(h, b, id, source, now) == Placed(ClearedNew(b, s), s, id)
  {
    hide ClearedNew;
    TakesSlot(b, id, h.NewSlot(b.info[id].addr, source));
  }

  lemma NextIdFree(h: Config, b: Book, s: Slot)
    requires Core(h, b, {})
    ensures b.nIdCount !in b.info && (s in b.vvNew ==> b.vvNew[s] != b.nIdCount)
  {
  }

  /** An unknown address gets its slot, at the cost of one reference of the holder. */
  lemma AddUnknownPlaced(h: Config, b: Book, addr: Service, nTime: int, nServices: set<nat>, source: NetAddr, now: int)
    requires Core(h, b, {}) && addr.ip !in b.mapAddr && Yields(b, h.NewSlot(addr, source), now)
    ensures var b', s, id := AddUnknown(h, b, addr, nTime, nServices, source, now), h.NewSlot(addr, source), b.nIdCount;
      && b'.vvNew == b.vvNew[s := id] && GaveWay(b, s, id, b'.info)
      && id in b'.info && b'.info[id] == NewEntry(addr, nTime, nServices, source).(nRefCount := 1)
  {
    hide Core;
    hide ClearedNew;
    hide Inserted;
    hide GaveWay;
    hide Config.NewSlot;
    hide Entry.IsTerrible;
    var s, id := h.NewSlot(addr, source), b.nIdCount;
    NextIdFree(h, b, s);
    HolderCounted(h, b, s, {});
    var created := Created(b, addr, nTime, nServices, source);
    InsertedTakes(h, created, id, source, now);
    TakesSlot(created, id, s);
    var cleared := ClearedNew(created, s);
    SameHolders(b, created, s, id, cleared.info);
    PlacedGaveWay(b, s, id, cleared);
  }

  /** If the slot is not given up, nothing changes but the next id. */
  lemma AddUnknownDropped(h: Config, b: Book, addr: Service, nTime: int, nServices: set<nat>, source: NetAddr, now: int)
    requires Core(h, b, {}) && addr.ip !in b.mapAddr && !Yields(b, h.NewSlot(addr, source), now)
    ensures AddUnknown(h, b, addr, nTime, nServices, source, now) == b.(nIdCount := b.nIdCount + 1)
  {
    var id := b.nIdCount;
    assert id !in b.info;
    hide Core;
    hide ClearedNew;
    var created := Created(b, addr, nTime, nServices, source);
    assert created.info - {id} == b.info && created.mapAddr - {addr.ip} == b.mapAddr;
  }

  /** When a known address, refreshed to `e`, is given one more slot. */
  predicate GainsSlot(b: Book, s: Slot, id: int, e: Entry, nTime: int, now: int, lucky: bool) {
    && lucky && nTime != 0 && (e.nTime == 0 || e.nTime < nTime)
    && !e.fInTried && 1 <= e.nRefCount < NEW_BUCKETS_PER_ADDRESS
    && (s !in b.vvNew || (b.vvNew[s] != id && b.vvNew[s] in b.info && b.info[b.vvNew[s]].IsTerrible(now)))
  }

  /** A known address gains one slot exactly when it is due, from a terrible holder or none; otherwise only its entry
      changes. */
  lemma AddKnownEffect(h: Config, b: Book, id: int, e: Entry, nTime: int, source: NetAddr, now: int, lucky: bool)
    requires Core(h, b, {}) && id in b.info && SamePlace(b.info[id], e)
    ensures var b', s := AddKnown(h, b, id, e, nTime, source, now, lucky), h.NewSlot(e.addr, source);
      if GainsSlot(b, s, id, e, nTime, now, lucky) then
        && b'.vvNew == b.vvNew[s := id] && GaveWay(b, s, id, b'.info)
        && id in b'.info && b'.info[id] == e.(nRefCount := e.nRefCount + 1)
      else b' == b.(info := b.info[id := e])
  {
    var s := h.NewSlot(e.addr, source);
    var b0 := b.(info := b.info[id := e]);
    assert CountOk(b.info[id], Slots(b.vvNew, id), false);
    HolderCounted(h, b, s, {});
    hide Core;
    if s !in b.vvNew || b.vvNew[s] != id {
      TakesSlot(b0, id, s);
      hide ClearedNew;
      SameHolders(b, b0, s, id, ClearedNew(b0, s).info);
      PlacedGaveWay(b, s, id, ClearedNew(b0, s));
    }
  }
}
