/** What the address manager's check of itself tests, in terms of entries and tables, and when a loaded
    manager passes it. */
module AddrCheck {
  import opened Common
  import opened AddrBook
  import opened AddrFile
  import opened AddrLoad

  /** Looking up an address that is not in the map gives zero, and inserts it. */
  function Looked(mapAddr: map<NetAddr, int>, ip: NetAddr): int { if ip in mapAddr then mapAddr[ip] else 0 }

  function Touched(mapAddr: map<NetAddr, int>, ip: NetAddr): map<NetAddr, int> {
    if ip in mapAddr then mapAddr else mapAddr[ip := 0]
  }

  /** Addresses of entries were inserted, and nothing else changed. */
  ghost predicate OnlyInserted(info: map<int, Entry>, before: map<NetAddr, int>, after: map<NetAddr, int>) {
    && (forall ip :: ip in before ==> ip in after && after[ip] == before[ip])
    && (forall ip :: ip in after && ip !in before ==>
          after[ip] == 0 && exists id :: id in info && info[id].addr.ip == ip)
  }

  lemma InsertedNothing(info: map<int, Entry>, mapAddr: map<NetAddr, int>)
    ensures OnlyInserted(info, mapAddr, mapAddr)
  {
  }

  lemma InsertedMore(info: map<int, Entry>, before: map<NetAddr, int>, after: map<NetAddr, int>, id: int)
    requires OnlyInserted(info, before, after) && id in info
    ensures OnlyInserted(info, before, Touched(after, info[id].addr.ip))
  {
  }

  lemma InsertedLooked(info: map<int, Entry>, before: map<NetAddr, int>, after: map<NetAddr, int>, ip: NetAddr)
    requires OnlyInserted(info, before, after)
    ensures Looked(after, ip) == Looked(before, ip)
  {
  }

  /** Nothing is inserted where every address is known. */
  lemma InsertedNone(info: map<int, Entry>, before: map<NetAddr, int>, after: map<NetAddr, int>)
    requires OnlyInserted(info, before, after) && AddrOk(info, before)
    ensures after == before
  {
    forall ip | ip in after ensures ip in before {
    }
  }

  function NewIds(info: map<int, Entry>): set<int> { set id | id in info && !info[id].fInTried }
  function TriedIds(info: map<int, Entry>): set<int> { set id | id in info && info[id].fInTried }

  /** What the check asks of one entry. */
  predicate EntrySound(mapAddr: map<NetAddr, int>, id: int, e: Entry) {
    && e.nLastTry >= 0 && TimesFit(e) && Looked(mapAddr, e.addr.ip) == id
    && (if e.fInTried then e.nRefCount == 0 else 0 < e.nRefCount <= NEW_BUCKETS_PER_ADDRESS)
  }

  /** Everything that the check asks of the entries and the tables. */
  ghost predicate BookSound(h: Config, b: Book) {
    && (forall id :: id in b.info ==>
         b.info[id].nLastTry >= 0 && TimesFit(b.info[id]) && Looked(b.mapAddr, b.info[id].addr.ip) == id)
    && PlacesOk(h, b.info, b.vvNew) && CountsOk(b.info, b.vvNew, {}) && TriedPlaced(h, b.info, b.vvTried)
  }

  /** A table of the given number of buckets. */
  ghost predicate InTable(table: Table, buckets: nat) {
    forall s :: s in table ==> s.bucket < buckets && s.position < BUCKET_SIZE
  }

  /** A consistent manager passes. */
  lemma ConsistentSound(h: Config, b: Book)
    requires Consistent(h, b)
    ensures BookSound(h, b)
  {
    CoreIff(h, b, {});
    hide PlacesOk;
    hide CountsOk;
    hide TriedPlaced;
    forall id | id in b.info
      ensures b.info[id].nLastTry >= 0 && TimesFit(b.info[id]) && Looked(b.mapAddr, b.info[id].addr.ip) == id
    {
      assert Fit(b, id);
    }
  }

  lemma SoundEntry(h: Config, b: Book, id: int)
    requires BookSound(h, b) && id in b.info
    ensures EntrySound(b.mapAddr, id, b.info[id])
  {
    assert CountOk(b.info[id], Slots(b.vvNew, id), false);
  }

  // ---------------------------------------------------------------------
  // The tried table, slot by slot
  // ---------------------------------------------------------------------

  /** The tried entries that no slot looked at holds. */
  function TriedLeft(info: map<int, Entry>, vvTried: Table, seen: set<Slot>): set<int> {
    TriedIds(info) - set s | s in seen && s in vvTried :: vvTried[s]
  }

  predicate TriedHere(h: Config, info: map<int, Entry>, vvTried: Table, s: Slot) {
    s in vvTried ==> vvTried[s] in info && info[vvTried[s]].fInTried && s == h.TriedSlot(info[vvTried[s]].addr)
  }

  ghost predicate TriedFair(h: Config, info: map<int, Entry>, vvTried: Table, seen: set<Slot>) {
    forall s :: s in seen ==> TriedHere(h, info, vvTried, s)
  }

  /** The test of one slot of the tried table. */
  predicate TriedPasses(h: Config, info: map<int, Entry>, vvTried: Table, seen: set<Slot>, s: Slot) {
    s in vvTried ==>
      vvTried[s] in TriedLeft(info, vvTried, seen) && s == h.TriedSlot(info[vvTried[s]].addr)
  }

  lemma TriedStep(h: Config, info: map<int, Entry>, vvTried: Table, seen: set<Slot>, s: Slot)
    requires s !in seen && TriedFair(h, info, vvTried, seen)
    ensures TriedPasses(h, info, vvTried, seen, s) <==> TriedFair(h, info, vvTried, seen + {s})
    ensures TriedLeft(info, vvTried, seen + {s})
      == TriedLeft(info, vvTried, seen) - if s in vvTried then {vvTried[s]} else {}
  {
    hide Config.TriedSlot;
    assert s in seen + {s};
  }

  lemma TriedEnd(h: Config, info: map<int, Entry>, vvTried: Table, seen: set<Slot>)
    requires TriedFair(h, info, vvTried, seen) && vvTried.Keys <= seen
    ensures TriedLeft(info, vvTried, seen) == {} <==> TriedPlaced(h, info, vvTried)
  {
    hide Config.TriedSlot;
    forall s | s in vvTried ensures TriedHere(h, info, vvTried, s) {
      assert s in seen;
    }
    if TriedLeft(info, vvTried, seen) == {} {
      forall id | id in info && info[id].fInTried
        ensures h.TriedSlot(info[id].addr) in vvTried && vvTried[h.TriedSlot(info[id].addr)] == id
      {
        assert id !in TriedLeft(info, vvTried, seen);
        var s :| s in seen && s in vvTried && vvTried[s] == id;
        assert TriedHere(h, info, vvTried, s);
      }
    }
    if TriedPlaced(h, info, vvTried) {
      forall id | id in TriedIds(info) ensures id !in TriedLeft(info, vvTried, seen) {
        assert h.TriedSlot(info[id].addr) in seen;
      }
    }
  }

  // ---------------------------------------------------------------------
  // The new table, slot by slot
  // ---------------------------------------------------------------------

  function SeenSlots(vvNew: Table, seen: set<Slot>, id: int): set<Slot> {
    set s | s in seen && s in vvNew && vvNew[s] == id
  }

  /** The references still to be found. */
  function NewLeft(info: map<int, Entry>, vvNew: Table, seen: set<Slot>): map<int, int> {
    map id | id in info && !info[id].fInTried && info[id].nRefCount > |SeenSlots(vvNew, seen, id)| ::
      info[id].nRefCount - |SeenSlots(vvNew, seen, id)|
  }

  predicate NewHere(h: Config, info: map<int, Entry>, vvNew: Table, s: Slot) {
    s in vvNew ==> vvNew[s] in info && !info[vvNew[s]].fInTried && NewPlaceOk(h, info[vvNew[s]].addr, s)
  }

  ghost predicate NewFair(h: Config, info: map<int, Entry>, vvNew: Table, seen: set<Slot>) {
    && (forall s :: s in seen ==> NewHere(h, info, vvNew, s))
    && (forall id :: id in info && !info[id].fInTried ==> |SeenSlots(vvNew, seen, id)| <= info[id].nRefCount)
  }

  /** The test of one slot of the new table. */
  predicate NewPasses(h: Config, info: map<int, Entry>, vvNew: Table, seen: set<Slot>, s: Slot) {
    s in vvNew ==> vvNew[s] in NewLeft(info, vvNew, seen) && NewPlaceOk(h, info[vvNew[s]].addr, s)
  }

  /** One reference found. */
  function Reduced(left: map<int, int>, id: int): map<int, int>
    requires id in left
  {
    if left[id] == 1 then left - {id} else left[id := left[id] - 1]
  }

  lemma SeenSlotsNext(vvNew: Table, seen: set<Slot>, s: Slot, id: int)
    requires s !in seen
    ensures SeenSlots(vvNew, seen + {s}, id) ==
      if s in vvNew && vvNew[s] == id then SeenSlots(vvNew, seen, id) + {s} else SeenSlots(vvNew, seen, id)
    ensures |SeenSlots(vvNew, seen + {s}, id)|
      == |SeenSlots(vvNew, seen, id)| + if s in vvNew && vvNew[s] == id then 1 else 0
  {
  }

  lemma NewStep(h: Config, info: map<int, Entry>, vvNew: Table, seen: set<Slot>, s: Slot)
    requires s !in seen && NewFair(h, info, vvNew, seen)
    ensures NewPasses(h, info, vvNew, seen, s) <==> NewFair(h, info, vvNew, seen + {s})
    ensures NewPasses(h, info, vvNew, seen, s) ==>
      NewLeft(info, vvNew, seen + {s}) ==
        if s in vvNew then Reduced(NewLeft(info, vvNew, seen), vvNew[s]) else NewLeft(info, vvNew, seen)
  {
    hide NewPlaceOk;
    forall id ensures
      |SeenSlots(vvNew, seen + {s}, id)| == |SeenSlots(vvNew, seen, id)| + if s in vvNew && vvNew[s] == id then 1 else 0
    {
      SeenSlotsNext(vvNew, seen, s, id);
    }
    NewStepFair(h, info, vvNew, seen, s);
    NewStepLeft(info, vvNew, seen, s);
  }

  lemma NewStepFair(h: Config, info: map<int, Entry>, vvNew: Table, seen: set<Slot>, s: Slot)
    requires s !in seen && NewFair(h, info, vvNew, seen)
    requires forall id ::
      |SeenSlots(vvNew, seen + {s}, id)| == |SeenSlots(vvNew, seen, id)| + if s in vvNew && vvNew[s] == id then 1 else 0
    ensures NewPasses(h, info, vvNew, seen, s) <==> NewFair(h, info, vvNew, seen + {s})
  {
    hide SeenSlots;
    hide NewPlaceOk;
    assert s in seen + {s};
    if NewPasses(h, info, vvNew, seen, s) {
      forall id | id in info && !info[id].fInTried ensures |SeenSlots(vvNew, seen + {s}, id)| <= info[id].nRefCount {
      }
    }
  }

  lemma NewStepLeft(info: map<int, Entry>, vvNew: Table, seen: set<Slot>, s: Slot)
    requires forall id ::
      |SeenSlots(vvNew, seen + {s}, id)| == |SeenSlots(vvNew, seen, id)| + if s in vvNew && vvNew[s] == id then 1 else 0
    ensures s !in vvNew ==> NewLeft(info, vvNew, seen + {s}) == NewLeft(info, vvNew, seen)
    ensures s in vvNew && vvNew[s] in NewLeft(info, vvNew, seen) ==>
      NewLeft(info, vvNew, seen + {s}) == Reduced(NewLeft(info, vvNew, seen), vvNew[s])
  {
    hide SeenSlots;
    var left, left' := NewLeft(info, vvNew, seen), NewLeft(info, vvNew, seen + {s});
    if s in vvNew && vvNew[s] in left {
      var reduced := Reduced(left, vvNew[s]);
      forall id ensures id in left' <==> id in reduced {
      }
      forall id | id in left' ensures left'[id] == reduced[id] {
      }
    }
  }

  lemma NewEnd(h: Config, info: map<int, Entry>, vvNew: Table, seen: set<Slot>)
    requires NewFair(h, info, vvNew, seen) && vvNew.Keys <= seen
    requires forall id :: id in info ==>
      if info[id].fInTried then info[id].nRefCount == 0 else 0 < info[id].nRefCount <= NEW_BUCKETS_PER_ADDRESS
    ensures NewLeft(info, vvNew, seen) == map[] <==> PlacesOk(h, info, vvNew) && CountsOk(info, vvNew, {})
  {
    hide NewPlaceOk;
    forall s | s in vvNew ensures NewHere(h, info, vvNew, s) {
      assert s in seen;
    }
    forall id | id in info ensures SeenSlots(vvNew, seen, id) == Slots(vvNew, id) {
    }
    assert PlacesOk(h, info, vvNew);
    var left := NewLeft(info, vvNew, seen);
    if left == map[] {
      forall id | id in info ensures CountOk(info[id], Slots(vvNew, id), false) {
        if info[id].fInTried {
          NoneHeld(h, info, vvNew, id);
        } else {
          assert id !in left;
        }
      }
    } else {
      var id :| id in left;
      assert !CountOk(info[id], Slots(vvNew, id), id in {});
    }
  }

  lemma NoneHeld(h: Config, info: map<int, Entry>, vvNew: Table, id: int)
    requires (forall s :: s in vvNew ==> NewHere(h, info, vvNew, s)) && id in info && info[id].fInTried
    ensures Slots(vvNew, id) == {}
  {
    forall s | s in vvNew ensures vvNew[s] != id {
      assert NewHere(h, info, vvNew, s);
    }
  }

  /** A sound book is fair to every part of its tables. */
  lemma SoundFair(h: Config, b: Book, seen: set<Slot>)
    requires BookSound(h, b)
    ensures TriedFair(h, b.info, b.vvTried, seen) && NewFair(h, b.info, b.vvNew, seen)
  {
    hide Config.TriedSlot;
    forall s | s in seen ensures NewHere(h, b.info, b.vvNew, s) && TriedHere(h, b.info, b.vvTried, s) {
      if s in b.vvNew {
        assert s in Slots(b.vvNew, b.vvNew[s]);
        assert CountOk(b.info[b.vvNew[s]], Slots(b.vvNew, b.vvNew[s]), false);
      }
    }
    forall id | id in b.info && !b.info[id].fInTried ensures |SeenSlots(b.vvNew, seen, id)| <= b.info[id].nRefCount {
      assert CountOk(b.info[id], Slots(b.vvNew, id), false);
      SubsetSize(SeenSlots(b.vvNew, seen, id), Slots(b.vvNew, id));
    }
  }

  lemma {:induction false} SeenMore(n: nat, m: nat)
    requires n <= m
    ensures Seen(n) <= Seen(m)
  {
    if n < m {
      SeenMore(n, m - 1);
    }
  }

  lemma TriedUnfair(h: Config, info: map<int, Entry>, vvTried: Table, n: nat, m: nat)
    requires n <= m && !TriedFair(h, info, vvTried, Seen(n))
    ensures !TriedFair(h, info, vvTried, Seen(m))
  {
    SeenMore(n, m);
  }

  lemma NewUnfair(h: Config, info: map<int, Entry>, vvNew: Table, n: nat, m: nat)
    requires n <= m && !NewFair(h, info, vvNew, Seen(n))
    ensures !NewFair(h, info, vvNew, Seen(m))
  {
    SeenMore(n, m);
    forall id ensures |SeenSlots(vvNew, Seen(n), id)| <= |SeenSlots(vvNew, Seen(m), id)| {
      SubsetSize(SeenSlots(vvNew, Seen(n), id), SeenSlots(vvNew, Seen(m), id));
    }
  }

  /** Before any slot is looked at. */
  lemma NothingSeen(h: Config, info: map<int, Entry>, vvNew: Table, vvTried: Table)
    requires forall id :: id in info && !info[id].fInTried ==> info[id].nRefCount > 0
    ensures Seen(0) == {} && TriedFair(h, info, vvTried, Seen(0)) && NewFair(h, info, vvNew, Seen(0))
    ensures TriedLeft(info, vvTried, Seen(0)) == TriedIds(info) && NewLeft(info, vvNew, Seen(0)).Keys == NewIds(info)
    ensures forall id :: id in NewIds(info) ==> NewLeft(info, vvNew, Seen(0))[id] == info[id].nRefCount
  {
    assert forall id :: SeenSlots(vvNew, {}, id) == {};
  }

  /** The three loops together. */
  lemma SoundIff(h: Config, b: Book)
    requires InTable(b.vvNew, NEW_BUCKET_COUNT) && InTable(b.vvTried, TRIED_BUCKET_COUNT)
    ensures BookSound(h, b) <==>
      && (forall id :: id in b.info ==> EntrySound(b.mapAddr, id, b.info[id]))
      && TriedFair(h, b.info, b.vvTried, Seen(TRIED_SLOTS)) && TriedLeft(b.info, b.vvTried, Seen(TRIED_SLOTS)) == {}
      && NewFair(h, b.info, b.vvNew, Seen(NEW_SLOTS)) && NewLeft(b.info, b.vvNew, Seen(NEW_SLOTS)) == map[]
  {
    TableSeen(b.vvNew, NEW_BUCKET_COUNT);
    TableSeen(b.vvTried, TRIED_BUCKET_COUNT);
    var entries := forall id :: id in b.info ==> EntrySound(b.mapAddr, id, b.info[id]);
    if BookSound(h, b) {
      SoundFair(h, b, Seen(TRIED_SLOTS));
      SoundFair(h, b, Seen(NEW_SLOTS));
      forall id | id in b.info ensures EntrySound(b.mapAddr, id, b.info[id]) {
        SoundEntry(h, b, id);
      }
    }
    hide PlacesOk;
    hide CountsOk;
    hide TriedPlaced;
    hide TriedFair;
    hide NewFair;
    hide TriedLeft;
    hide NewLeft;
    hide Seen;
    hide Looked;
    hide TimesFit;
    if TriedFair(h, b.info, b.vvTried, Seen(TRIED_SLOTS)) {
      TriedEnd(h, b.info, b.vvTried, Seen(TRIED_SLOTS));
    }
    if entries && NewFair(h, b.info, b.vvNew, Seen(NEW_SLOTS)) {
      NewEnd(h, b.info, b.vvNew, Seen(NEW_SLOTS));
    }
  }

  lemma SlotAtNew(n: nat, k: nat)
    requires k <= n
    ensures SlotAt(n) !in Seen(k)
  {
    if k > 0 {
      SlotAtNew(n, k - 1);
    }
  }

  lemma TableSeen(table: Table, buckets: nat)
    requires InTable(table, buckets)
    ensures table.Keys <= Seen(buckets * BUCKET_SIZE)
  {
    forall s | s in table ensures s in Seen(buckets * BUCKET_SIZE) {
      SeenAll(s, buckets);
    }
  }

  // ---------------------------------------------------------------------
  // Loading
  // ---------------------------------------------------------------------

  /** Every entry that finds a place and has a valid address has proper times and shares its address with no other
      entry read. Of the entry numbered zero only this is asked, that it shares its address with none that found a
      place: zero is what looking up a missing address gives. */
  ghost predicate Passable(h: Config, file: File, asmapChecksum: nat) {
    var read, kept := LoadedEntries(h, file).info, Housed(h, file, asmapChecksum).info;
    forall id :: id in kept && h.isValid(kept[id].addr.ip) ==> TimesFit(kept[id]) && Own(read, kept, id)
  }

  ghost predicate Own(read: map<int, Entry>, kept: map<int, Entry>, id: int)
    requires id in kept
  {
    if id == 0 then Alone(kept, id) else id in read && Alone(read, id)
  }

  lemma LookedOwn(h: Config, b: Book, b': Book, id: int)
    requires Shrunk(b, b') && id in b'.info && h.isValid(b'.info[id].addr.ip)
    requires forall x :: x in b'.info && h.isValid(b'.info[x].addr.ip) ==> Looked(b'.mapAddr, b'.info[x].addr.ip) == x
    ensures Own(b.info, b'.info, id)
  {
    hide LostAddr;
    if id != 0 {
      FoundAlone(b, b', id);
    }
  }

  lemma OwnLooked(b: Book, b': Book, id: int)
    requires Shrunk(b, b') && AddrLeads(b.info, b.mapAddr) && AddrLeads(b'.info, b'.mapAddr) && Reached(b)
    requires id in b'.info && Own(b.info, b'.info, id)
    ensures Looked(b'.mapAddr, b'.info[id].addr.ip) == id
  {
    hide LostAddr;
    if id != 0 {
      AloneFound(b, b', id);
    }
  }

  lemma FilteredLooked(h: Config, b: Book, id: int)
    requires id in b.info && h.isValid(b.info[id].addr.ip)
    ensures id in Filtered(h, b).info && Filtered(h, b).info[id] == b.info[id]
    ensures Looked(Filtered(h, b).mapAddr, b.info[id].addr.ip) == Looked(b.mapAddr, b.info[id].addr.ip)
  {
  }

  lemma FilteredSound(h: Config, b: Book)
    requires Shelved(h, Filtered(h, b), {})
    ensures BookSound(h, Filtered(h, b)) <==>
      forall id :: id in b.info && h.isValid(b.info[id].addr.ip) ==>
        TimesFit(b.info[id]) && Looked(b.mapAddr, b.info[id].addr.ip) == id
  {
    hide PlacesOk;
    hide CountsOk;
    hide TriedPlaced;
    hide AddrLeads;
    hide TimesFit;
    var b' := Filtered(h, b);
    assert forall id :: id in b'.info <==> id in b.info && h.isValid(b.info[id].addr.ip);
    hide Filtered;
    forall id | id in b.info && h.isValid(b.info[id].addr.ip)
      ensures id in b'.info && b'.info[id] == b.info[id]
              && Looked(b'.mapAddr, b.info[id].addr.ip) == Looked(b.mapAddr, b.info[id].addr.ip)
    {
      FilteredLooked(h, b, id);
    }
    hide Looked;
  }

  /** What Unserialize leaves passes the check if and only if the entries that find a place are as said. */
  lemma LoadedSound(h: Config, file: File, asmapChecksum: nat)
    requires Shaped(file)
    ensures var r := Loaded(h, file, asmapChecksum); r.Some? ==>
      (BookSound(h, r.value) <==> Passable(h, file, asmapChecksum))
  {
    var kept, read := Housed(h, file, asmapChecksum), LoadedEntries(h, file);
    LoadedIff(h, file, asmapChecksum);
    HousedOk(h, file, asmapChecksum);
    EntriesOk(h, file);
    FilteredIs(h, kept);
    hide *;
    LoadedSoundFrom(h, read, kept, |file.newInfos|);
    PassableIs(h, file, asmapChecksum);
  }

  lemma PassableIs(h: Config, file: File, asmapChecksum: nat)
    ensures Passable(h, file, asmapChecksum) <==> AllOwn(h, LoadedEntries(h, file), Housed(h, file, asmapChecksum))
  {
  }

  ghost predicate AllOwn(h: Config, b: Book, b': Book) {
    forall id :: id in b'.info && h.isValid(b'.info[id].addr.ip) ==> TimesFit(b'.info[id]) && Own(b.info, b'.info, id)
  }

  lemma LoadedSoundFrom(h: Config, b: Book, b': Book, n: nat)
    requires Shrunk(b, b') && Loading(h, b, n) && Reached(b) && Shelved(h, b', {}) && Shelved(h, Filtered(h, b'), {})
    ensures BookSound(h, Filtered(h, b')) <==> AllOwn(h, b, b')
  {
    FilteredSound(h, b');
    ShelvedParts(h, b, Ids(n));
    ShelvedParts(h, b', {});
    hide *;
    SoundOwn(h, b, b');
  }

  lemma SoundOwn(h: Config, b: Book, b': Book)
    requires Shrunk(b, b') && AddrLeads(b.info, b.mapAddr) && AddrLeads(b'.info, b'.mapAddr) && Reached(b)
    ensures AllOwn(h, b, b') <==>
      forall id :: id in b'.info && h.isValid(b'.info[id].addr.ip) ==>
        TimesFit(b'.info[id]) && Looked(b'.mapAddr, b'.info[id].addr.ip) == id
  {
    hide Shrunk;
    hide TimesFit;
    hide Looked;
    hide Own;
    if AllOwn(h, b, b') {
      forall id | id in b'.info && h.isValid(b'.info[id].addr.ip)
        ensures Looked(b'.mapAddr, b'.info[id].addr.ip) == id
      {
        OwnLooked(b, b', id);
      }
    }
    if forall id :: id in b'.info && h.isValid(b'.info[id].addr.ip) ==>
      TimesFit(b'.info[id]) && Looked(b'.mapAddr, b'.info[id].addr.ip) == id {
      forall id | id in b'.info && h.isValid(b'.info[id].addr.ip) ensures Own(b.info, b'.info, id) {
        LookedOwn(h, b, b', id);
      }
    }
  }

  /** Files that load to a manager that does not pass: a valid address twice in the tried table, */
  lemma RepeatedFails(h: Config, s: Saved, t: Saved, asmapChecksum: nat)
    requires s.addr.ip == t.addr.ip && h.isValid(s.addr.ip) && h.TriedSlot(s.addr) != h.TriedSlot(t.addr)
    ensures var r := Loaded(h, File(BIT30, [], [s, t], [], 0), asmapChecksum);
      r.Some? && !BookSound(h, r.value) && !Consistent(h, r.value)
  {
    var file := File(BIT30, [], [s, t], [], 0);
    TriedOnly(h, [s, t], asmapChecksum);
    LoadedIff(h, file, asmapChecksum);
    LoadedSound(h, file, asmapChecksum);
    hide Loaded;
    hide Consistent;
    hide BookSound;
    hide Config.TriedSlot;
    hide Housed;
    hide LoadedEntries;
    hide LoadAllTried;
    TwoTriedInfo(h, s, t);
    var read := LoadedEntries(h, file).info;
    assert 0 in read && 1 in read && read[1].addr.ip == read[0].addr.ip;
    assert !Own(read, read, 0);
  }

  /** a tried entry that was never reached, */
  lemma NoSuccessFails(h: Config, s: Saved, asmapChecksum: nat)
    requires s.nLastSuccess <= 0 && h.isValid(s.addr.ip)
    ensures var r := Loaded(h, File(BIT30, [], [s], [], 0), asmapChecksum);
      r.Some? && !BookSound(h, r.value) && !Consistent(h, r.value)
  {
    var file := File(BIT30, [], [s], [], 0);
    TriedOnly(h, [s], asmapChecksum);
    LoadedIff(h, file, asmapChecksum);
    LoadedSound(h, file, asmapChecksum);
    hide Loaded;
    hide Consistent;
    hide BookSound;
    hide Config.TriedSlot;
    hide Housed;
    hide LoadedEntries;
    hide LoadAllTried;
    TwoTried(h, s, s);
    assert Housed(h, file, asmapChecksum).info[0] == Restore(s).(fInTried := true);
  }

  /** and a new entry with a negative time. */
  lemma NegativeTimeFails(h: Config, s: Saved, asmapChecksum: nat)
    requires s.nLastSuccess < 0 && h.isValid(s.addr.ip)
    ensures var r := Loaded(h, File(BIT30 + 1, [s], [], [[0]], 0), asmapChecksum);
      r.Some? && !BookSound(h, r.value) && !Consistent(h, r.value)
  {
    var file := File(BIT30 + 1, [s], [], [[0]], 0);
    OneNew(h, s, asmapChecksum);
    LoadedIff(h, file, asmapChecksum);
    LoadedSound(h, file, asmapChecksum);
    hide Loaded;
    hide Consistent;
    hide BookSound;
    hide LoadedEntries;
    hide LoadRows;
    hide LoadReference;
    hide Pruned;
    OneRow(h, LoadNew(EMPTY, s), 0, 1, false);
    OneNewKept(h, s);
    assert Housed(h, file, asmapChecksum).info[0] == Restore(s).(nRefCount := 1);
  }

  /** The check overlooks an address that no longer leads anywhere, when its entry is the first of the file: here
      the second entry, of the same address, finds no place and takes the address with it. */
  lemma FirstOverlooked(h: Config, s: Saved, t: Saved, asmapChecksum: nat)
    requires s.addr.ip == t.addr.ip && h.isValid(s.addr.ip) && s.nLastSuccess >= 0
    ensures var r := Loaded(h, File(BIT30 + 1, [s, t], [], [[0]], 0), asmapChecksum);
      r.Some? && BookSound(h, r.value) && !Consistent(h, r.value)
  {
    var file := File(BIT30 + 1, [s, t], [], [[0]], 0);
    TwoNew(h, s, t, asmapChecksum);
    LoadedIff(h, file, asmapChecksum);
    LoadedSound(h, file, asmapChecksum);
    hide Loaded;
    hide Consistent;
    hide BookSound;
    hide LoadedEntries;
    hide Housed;
    var read, kept := LoadedEntries(h, file).info, Housed(h, file, asmapChecksum).info;
    assert kept == map[0 := Restore(s).(nRefCount := 1)];
    assert 1 in read && read[1].addr.ip == read[0].addr.ip;
    assert !Alone(read, 0);
  }

  lemma TwoNew(h: Config, s: Saved, t: Saved, asmapChecksum: nat)
    ensures var file := File(BIT30 + 1, [s, t], [], [[0]], 0);
      && Shaped(file) && LoadedEntries(h, file).info == map[0 := Restore(s), 1 := Restore(t)]
      && Housed(h, file, asmapChecksum).info == map[0 := Restore(s).(nRefCount := 1)]
  {
    var file := File(BIT30 + 1, [s, t], [], [[0]], 0);
    var read := LoadNew(LoadNew(EMPTY, s), t);
    assert Flip30(BIT30 + 1) == 1;
    assert !SameBucketing(file, asmapChecksum);
    assert [s, t][..1] == [s] && [s][..0] == [];
    assert LoadAllNew(EMPTY, []) == EMPTY;
    assert LoadAllNew(EMPTY, [s]) == LoadNew(EMPTY, s);
    assert LoadAllNew(EMPTY, [s, t]) == read;
    assert LoadedEntries(h, file) == read;
    OneRow(h, read, 0, 2, false);
    hide LoadRows;
    SecondPruned(h, s, t);
  }

  lemma SecondPruned(h: Config, s: Saved, t: Saved)
    ensures Pruned(LoadReference(h, LoadNew(LoadNew(EMPTY, s), t), 0, 0, false), 2).info
      == map[0 := Restore(s).(nRefCount := 1)]
  {
    hide Config.NewSlot;
    hide Config.Position;
    var b := LoadReference(h, LoadNew(LoadNew(EMPTY, s), t), 0, 0, false);
    assert b.info == map[0 := Restore(s).(nRefCount := 1), 1 := Restore(t)];
    assert Pruned(b, 0) == b;
    assert Pruned(b, 1) == b;
    assert Pruned(b, 2) == Deleted(b, 1);
  }
}
