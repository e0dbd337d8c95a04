/** Loading any peers.dat, also one written under another bucketing: what the address manager is
    then, and exactly when it is consistent. */
module AddrLoad {
  import opened Common
  import opened AddrBook
  import opened AddrFile

  // ---------------------------------------------------------------------
  // What loading keeps, whatever the file says
  // ---------------------------------------------------------------------

  ghost predicate IdsOk(info: map<int, Entry>, nIdCount: int) {
    nIdCount >= 0 && forall id :: id in info ==> 0 <= id < nIdCount && info[id].nLastTry >= 0
  }

  /** An address leads to an entry with that address. */
  ghost predicate AddrLeads(info: map<int, Entry>, mapAddr: map<NetAddr, int>) {
    forall ip :: ip in mapAddr ==> mapAddr[ip] in info && info[mapAddr[ip]].addr.ip == ip
  }

  /** TriedOk apart from the times. */
  ghost predicate TriedPlaced(h: Config, info: map<int, Entry>, vvTried: Table) {
    && (forall s :: s in vvTried ==>
          vvTried[s] in info && info[vvTried[s]].fInTried && s == h.TriedSlot(info[vvTried[s]].addr))
    && (forall id :: id in info && info[id].fInTried ==>
          h.TriedSlot(info[id].addr) in vvTried && vvTried[h.TriedSlot(info[id].addr)] == id)
  }

  /** Everything that Core says of the tables. */
  ghost predicate Shelved(h: Config, b: Book, loose: set<int>) {
    && IdsOk(b.info, b.nIdCount)
    && AddrLeads(b.info, b.mapAddr)
    && PlacesOk(h, b.info, b.vvNew)
    && CountsOk(b.info, b.vvNew, loose)
    && TriedPlaced(h, b.info, b.vvTried)
  }

  /** What Core says of an entry beyond its places: its times, and that its address leads to it. */
  predicate Fit(b: Book, id: int)
    requires id in b.info
  {
    TimesFit(b.info[id]) && b.info[id].addr.ip in b.mapAddr && b.mapAddr[b.info[id].addr.ip] == id
  }

  predicate TimesFit(e: Entry) { e.nLastSuccess >= 0 && (e.fInTried ==> e.nLastSuccess > 0) }

  lemma CoreIff(h: Config, b: Book, loose: set<int>)
    ensures Core(h, b, loose) <==> Shelved(h, b, loose) && forall id :: id in b.info ==> Fit(b, id)
  {
    hide CountsOk;
    hide PlacesOk;
    hide Config.TriedSlot;
    if Shelved(h, b, loose) && forall id :: id in b.info ==> Fit(b, id) {
      forall id | id in b.info
        ensures b.info[id].nLastSuccess >= 0 && (b.info[id].fInTried ==> b.info[id].nLastSuccess > 0)
        ensures b.info[id].addr.ip in b.mapAddr && b.mapAddr[b.info[id].addr.ip] == id
      {
        assert Fit(b, id);
      }
    }
  }

  lemma {:induction false} ShelvedWeaken(h: Config, b: Book, loose: set<int>, loose': set<int>)
    requires Shelved(h, b, loose) && loose <= loose'
    ensures Shelved(h, b, loose')
  {
    forall id | id in b.info ensures CountOk(b.info[id], Slots(b.vvNew, id), id in loose') {
      assert CountOk(b.info[id], Slots(b.vvNew, id), id in loose);
    }
  }

  function Ids(n: nat): (ids: set<int>)
    ensures forall k :: k in ids <==> 0 <= k < n
  {
    if n == 0 then {} else Ids(n - 1) + {n - 1}
  }

  /** A manager being loaded: the entries below `n` are new and may lack references. */
  ghost predicate Loading(h: Config, b: Book, n: nat) {
    Shelved(h, b, Ids(n)) && b.collisions == {} && forall id :: id in b.info && id < n ==> !b.info[id].fInTried
  }

  function Appended(b: Book, e: Entry): Book {
    b.(info := b.info[b.nIdCount := e], mapAddr := b.mapAddr[e.addr.ip := b.nIdCount], nIdCount := b.nIdCount + 1)
  }

  lemma AppendedCounts(h: Config, b: Book, e: Entry, loose: set<int>)
    requires PlacesOk(h, b.info, b.vvNew) && CountsOk(b.info, b.vvNew, loose) && b.nIdCount !in b.info
    requires e.nRefCount == 0
    ensures CountsOk(Appended(b, e).info, b.vvNew, loose + {b.nIdCount})
  {
    assert Slots(b.vvNew, b.nIdCount) == {};
    var info' := Appended(b, e).info;
    forall id | id in info' ensures CountOk(info'[id], Slots(b.vvNew, id), id in loose + {b.nIdCount}) {
      assert id in b.info ==> CountOk(b.info[id], Slots(b.vvNew, id), id in loose);
    }
  }

  lemma AppendedTables(h: Config, b: Book, e: Entry)
    requires PlacesOk(h, b.info, b.vvNew) && AddrLeads(b.info, b.mapAddr) && IdsOk(b.info, b.nIdCount)
             && e.nLastTry >= 0
    ensures var b' := Appended(b, e);
      PlacesOk(h, b'.info, b.vvNew) && AddrLeads(b'.info, b'.mapAddr) && IdsOk(b'.info, b'.nIdCount)
  {
  }

  lemma AppendedTried(h: Config, b: Book, e: Entry)
    requires TriedPlaced(h, b.info, b.vvTried) && b.nIdCount !in b.info
    ensures !e.fInTried ==> TriedPlaced(h, Appended(b, e).info, b.vvTried)
    ensures var s := h.TriedSlot(e.addr);
      e.fInTried && s !in b.vvTried ==> TriedPlaced(h, Appended(b, e).info, b.vvTried[s := b.nIdCount])
  {
  }

  lemma LoadNewOk(h: Config, b: Book, s: Saved, n: nat)
    requires Loading(h, b, n) && b.nIdCount < n
    ensures Loading(h, LoadNew(b, s), n)
  {
    hide PlacesOk;
    hide TriedPlaced;
    hide CountsOk;
    AppendedCounts(h, b, Restore(s), Ids(n));
    AppendedTables(h, b, Restore(s));
    AppendedTried(h, b, Restore(s));
    assert Ids(n) + {b.nIdCount} == Ids(n);
  }

  lemma LoadTriedCounts(h: Config, b: Book, e: Entry, n: nat)
    requires PlacesOk(h, b.info, b.vvNew) && CountsOk(b.info, b.vvNew, Ids(n)) && b.nIdCount !in b.info
    requires e.nRefCount == 0 && e.fInTried
    ensures CountsOk(Appended(b, e).info, b.vvNew, Ids(n))
  {
    AppendedCounts(h, b, e, Ids(n));
    var info' := Appended(b, e).info;
    forall id | id in info' ensures CountOk(info'[id], Slots(b.vvNew, id), id in Ids(n)) {
      assert CountOk(info'[id], Slots(b.vvNew, id), id in Ids(n) + {b.nIdCount});
    }
  }

  lemma LoadTriedOk(h: Config, b: Book, s: Saved, n: nat)
    requires Loading(h, b, n) && b.nIdCount >= n
    ensures Loading(h, LoadTried(h, b, s), n) && LoadTried(h, b, s).nIdCount >= n
  {
    hide PlacesOk;
    hide TriedPlaced;
    hide CountsOk;
    var e := Restore(s).(fInTried := true);
    LoadTriedCounts(h, b, e, n);
    AppendedTables(h, b, e);
    AppendedTried(h, b, e);
  }

  /** Only reference counts of entries outside the tried table change. */
  lemma PlacedShelved(h: Config, b: Book, s: Slot, id: int, loose: set<int>)
    requires Shelved(h, b, loose) && id in b.info && s !in b.vvNew
    requires !b.info[id].fInTried && b.info[id].nRefCount < NEW_BUCKETS_PER_ADDRESS && NewPlaceOk(h, b.info[id].addr, s)
    ensures Shelved(h, Placed(b, s, id), loose - {id})
  {
    PlacedCounts(b, s, id, loose);
    hide CountsOk;
  }

  lemma LoadReferenceOk(h: Config, b: Book, bucket: nat, index: int, restore: bool, n: nat)
    requires Loading(h, b, n) && 0 <= index < n && (restore ==> bucket < NEW_BUCKET_COUNT)
    ensures Loading(h, LoadReference(h, b, bucket, index, restore), n)
  {
    hide Shelved;
    if index in b.info && b.info[index].nRefCount < NEW_BUCKETS_PER_ADDRESS {
      var e := b.info[index];
      var s, own := Slot(bucket, h.Position(e.addr, true, bucket)), h.NewSlot(e.addr, e.source);
      if restore && s !in b.vvNew {
        PlacedShelved(h, b, s, index, Ids(n));
        ShelvedWeaken(h, Placed(b, s, index), Ids(n) - {index}, Ids(n));
      } else if own !in b.vvNew {
        PlacedShelved(h, b, own, index, Ids(n));
        ShelvedWeaken(h, Placed(b, own, index), Ids(n) - {index}, Ids(n));
      }
    }
  }

  lemma {:induction false} LoadAllNewOk(h: Config, b: Book, infos: seq<Saved>, n: nat)
    requires Loading(h, b, n) && b.nIdCount + |infos| <= n
    ensures var b' := LoadAllNew(b, infos); Loading(h, b', n) && b'.nIdCount == b.nIdCount + |infos|
    decreases |infos|
  {
    hide Loading;
    if infos != [] {
      var front, last := infos[..|infos| - 1], infos[|infos| - 1];
      LoadAllNewOk(h, b, front, n);
      LoadNewOk(h, LoadAllNew(b, front), last, n);
    }
  }

  lemma {:induction false} LoadAllTriedOk(h: Config, b: Book, infos: seq<Saved>, n: nat)
    requires Loading(h, b, n) && b.nIdCount >= n
    ensures var b' := LoadAllTried(h, b, infos); Loading(h, b', n) && b'.nIdCount >= n
    decreases |infos|
  {
    hide Loading;
    hide LoadTried;
    if infos != [] {
      var front, last := infos[..|infos| - 1], infos[|infos| - 1];
      LoadAllTriedOk(h, b, front, n);
      LoadTriedOk(h, LoadAllTried(h, b, front), last, n);
    }
  }

  lemma {:induction false} LoadRowOk(h: Config, b: Book, bucket: nat, row: seq<int>, n: nat, restore: bool)
    requires Loading(h, b, n) && (restore ==> bucket < NEW_BUCKET_COUNT)
    ensures Loading(h, LoadRow(h, b, bucket, row, n, restore), n)
    decreases |row|
  {
    hide Loading;
    hide LoadReference;
    if row != [] {
      LoadRowOk(h, b, bucket, row[..|row| - 1], n, restore);
      var index := row[|row| - 1];
      if 0 <= index < n {
        LoadReferenceOk(h, LoadRow(h, b, bucket, row[..|row| - 1], n, restore), bucket, index, restore, n);
      }
    }
  }

  lemma {:induction false} LoadRowsOk(h: Config, b: Book, rows: seq<seq<int>>, n: nat, restore: bool)
    requires Loading(h, b, n) && (restore ==> |rows| <= NEW_BUCKET_COUNT)
    ensures Loading(h, LoadRows(h, b, rows, n, restore), n)
    decreases |rows|
  {
    hide Loading;
    hide LoadRow;
    if rows != [] {
      var front := rows[..|rows| - 1];
      LoadRowsOk(h, b, front, n, restore);
      LoadRowOk(h, LoadRows(h, b, front, n, restore), |rows| - 1, rows[|rows| - 1], n, restore);
    }
  }

  // ---------------------------------------------------------------------
  // Entries that go, with their addresses
  // ---------------------------------------------------------------------

  /** Some entry that was in `info` and is not in `info'` had this address. */
  ghost predicate LostAddr(info: map<int, Entry>, info': map<int, Entry>, ip: NetAddr) {
    exists id :: id in info && id !in info' && info[id].addr.ip == ip
  }

  /** Entries may go, each with its address, and reference counts may change; nothing else is different. */
  ghost predicate Shrunk(b: Book, b': Book) {
    && (forall id :: id in b'.info ==> id in b.info && b'.info[id] == b.info[id].(nRefCount := b'.info[id].nRefCount))
    && (forall ip :: ip in b'.mapAddr <==> ip in b.mapAddr && !LostAddr(b.info, b'.info, ip))
    && (forall ip :: ip in b'.mapAddr ==> b'.mapAddr[ip] == b.mapAddr[ip])
    && b'.nIdCount == b.nIdCount && b'.nLastGood == b.nLastGood
  }

  lemma ShrunkSame(b: Book, b': Book)
    requires b'.info == b.info && b'.mapAddr == b.mapAddr && b'.nIdCount == b.nIdCount && b'.nLastGood == b.nLastGood
    ensures Shrunk(b, b')
  {
  }

  lemma ShrunkTransitive(a: Book, b: Book, c: Book)
    requires Shrunk(a, b) && Shrunk(b, c)
    ensures Shrunk(a, c)
  {
    forall ip ensures LostAddr(a.info, c.info, ip) <==> LostAddr(a.info, b.info, ip) || LostAddr(b.info, c.info, ip) {
      if LostAddr(a.info, c.info, ip) {
        var id :| id in a.info && id !in c.info && a.info[id].addr.ip == ip;
        assert id in b.info ==> b.info[id].addr.ip == ip;
      }
      if LostAddr(a.info, b.info, ip) {
        var id :| id in a.info && id !in b.info && a.info[id].addr.ip == ip;
        assert id !in c.info;
      }
      if LostAddr(b.info, c.info, ip) {
        var id :| id in b.info && id !in c.info && b.info[id].addr.ip == ip;
        assert id in a.info && a.info[id].addr.ip == ip;
      }
    }
  }

  lemma DeletedShrunk(b: Book, id: int)
    requires id in b.info
    ensures Shrunk(b, Deleted(b, id))
  {
    var b' := Deleted(b, id);
    forall ip ensures LostAddr(b.info, b'.info, ip) <==> ip == b.info[id].addr.ip {
    }
  }

  lemma CountedShrunk(b: Book, id: int, n: int)
    requires id in b.info
    ensures Shrunk(b, b.(info := b.info[id := b.info[id].(nRefCount := n)]))
  {
  }

  lemma ClearedNewShrunk(b: Book, s: Slot)
    ensures Shrunk(b, ClearedNew(b, s))
  {
    hide Shrunk;
    if s in b.vvNew && b.vvNew[s] in b.info {
      var id := b.vvNew[s];
      var n := b.info[id].nRefCount - 1;
      var counted := b.(info := b.info[id := b.info[id].(nRefCount := n)]);
      CountedShrunk(b, id, n);
      var moved := counted.(vvNew := b.vvNew - {s});
      ShrunkSame(counted, moved);
      ShrunkTransitive(b, counted, moved);
      DeletedShrunk(moved, id);
      ShrunkTransitive(b, moved, Deleted(moved, id));
    } else {
      ShrunkSame(b, b);
    }
  }

  lemma ShrunkLeads(b: Book, b': Book)
    requires Shrunk(b, b') && AddrLeads(b.info, b.mapAddr) && IdsOk(b.info, b.nIdCount)
    ensures AddrLeads(b'.info, b'.mapAddr) && IdsOk(b'.info, b'.nIdCount)
  {
    forall ip | ip in b'.mapAddr ensures b'.mapAddr[ip] in b'.info && b'.info[b'.mapAddr[ip]].addr.ip == ip {
      var id := b.mapAddr[ip];
      assert id in b.info && b.info[id].addr.ip == ip;
      if id !in b'.info {
        assert LostAddr(b.info, b'.info, ip);
      }
    }
  }

  // ---------------------------------------------------------------------
  // Entries in no table are dropped
  // ---------------------------------------------------------------------

  lemma DeletedShelved(h: Config, b: Book, id: int, loose: set<int>)
    requires Shelved(h, b, loose) && id in b.info && !b.info[id].fInTried && b.info[id].nRefCount == 0
    ensures Shelved(h, Deleted(b, id), loose - {id}) && Shrunk(b, Deleted(b, id))
  {
    var b' := Deleted(b, id);
    DeletedShrunk(b, id);
    ShrunkLeads(b, b');
    assert Slots(b.vvNew, id) == {} by { assert CountOk(b.info[id], Slots(b.vvNew, id), id in loose); }
    forall s | s in b'.vvNew ensures b'.vvNew[s] in b'.info && NewPlaceOk(h, b'.info[b'.vvNew[s]].addr, s) {
      assert s !in Slots(b.vvNew, id);
    }
    forall x | x in b'.info ensures CountOk(b'.info[x], Slots(b'.vvNew, x), x in loose - {id}) {
      assert CountOk(b.info[x], Slots(b.vvNew, x), x in loose);
    }
  }

  /** An entry that has a reference, or is gone, or is tried, is not loose. */
  lemma Tighten(h: Config, b: Book, id: int, loose: set<int>)
    requires Shelved(h, b, loose) && (id in b.info ==> b.info[id].fInTried || b.info[id].nRefCount != 0)
    ensures Shelved(h, b, loose - {id})
  {
    forall x | x in b.info ensures CountOk(b.info[x], Slots(b.vvNew, x), x in loose - {id}) {
      assert CountOk(b.info[x], Slots(b.vvNew, x), x in loose);
    }
  }

  lemma {:induction false} PrunedOk(h: Config, b: Book, k: nat, loose: set<int>)
    requires Shelved(h, b, loose)
    ensures var b' := Pruned(b, k); Shelved(h, b', loose - Ids(k)) && Shrunk(b, b') && b'.collisions == b.collisions
  {
    hide Shelved;
    hide Deleted;
    hide Shrunk;
    if k == 0 {
      assert loose - Ids(0) == loose;
      ShrunkSame(b, b);
    } else {
      PrunedOk(h, b, k - 1, loose);
      var b' := Pruned(b, k - 1);
      if k - 1 in b'.info && !b'.info[k - 1].fInTried && b'.info[k - 1].nRefCount == 0 {
        DeletedShelved(h, b', k - 1, loose - Ids(k - 1));
        ShrunkTransitive(b, b', Deleted(b', k - 1));
        DeletedCollisions(b', k - 1);
      } else {
        Tighten(h, b', k - 1, loose - Ids(k - 1));
      }
      assert loose - Ids(k) == loose - Ids(k - 1) - {k - 1};
    }
  }

  lemma DeletedCollisions(b: Book, id: int)
    requires id in b.info
    ensures Deleted(b, id).collisions == b.collisions
  {
  }

  // ---------------------------------------------------------------------
  // Entries with an invalid address are dropped
  // ---------------------------------------------------------------------

  /** The slots whose holder has a valid address, and those not yet looked at. */
  function Sound(h: Config, info: map<int, Entry>, table: Table, seen: set<Slot>): Table {
    map s | s in table && (s !in seen || (table[s] in info && h.isValid(info[table[s]].addr.ip))) :: table[s]
  }

  /** The tried entries with an invalid address in the slots looked at. */
  function Unsound(h: Config, info: map<int, Entry>, table: Table, seen: set<Slot>): set<int> {
    set s | s in table && s in seen && table[s] in info && !h.isValid(info[table[s]].addr.ip) :: table[s]
  }

  function Valid(h: Config, info: map<int, Entry>): map<int, Entry> {
    map id | id in info && h.isValid(info[id].addr.ip) :: info[id]
  }

  /** The part of the manager with valid addresses. */
  function Filtered(h: Config, b: Book): Book {
    b.(info := Valid(h, b.info),
       mapAddr := map ip | ip in b.mapAddr && h.isValid(ip) :: b.mapAddr[ip],
       vvNew := Sound(h, b.info, b.vvNew, b.vvNew.Keys),
       vvTried := Sound(h, b.info, b.vvTried, b.vvTried.Keys),
       collisions := b.collisions - set id | id in b.info && b.info[id].fInTried && !h.isValid(b.info[id].addr.ip))
  }

  /** The manager after the slots `news` and `tried` were looked at. */
  ghost predicate Sifted(h: Config, b: Book, b': Book, news: set<Slot>, tried: set<Slot>) {
    && Shelved(h, b', {}) && Shrunk(b, b')
    && b'.vvNew == Sound(h, b.info, b.vvNew, news) && b'.vvTried == Sound(h, b.info, b.vvTried, tried)
    && b'.collisions == b.collisions - Unsound(h, b.info, b.vvTried, tried)
  }

  lemma SiftedStart(h: Config, b: Book)
    requires Shelved(h, b, {})
    ensures Sifted(h, b, b, {}, {})
  {
    ShrunkSame(b, b);
    assert Sound(h, b.info, b.vvNew, {}) == b.vvNew && Sound(h, b.info, b.vvTried, {}) == b.vvTried;
  }

  lemma ClearedNewShelved(h: Config, b: Book, s: Slot)
    requires Shelved(h, b, {}) && s in b.vvNew
    ensures Shelved(h, ClearedNew(b, s), {})
    ensures ClearedNew(b, s).vvNew == b.vvNew - {s}
    ensures ClearedNew(b, s).vvTried == b.vvTried && ClearedNew(b, s).collisions == b.collisions
  {
    var b' := ClearedNew(b, s);
    ShelvedHolder(h, b, s);
    ShelvedParts(h, b, {});
    hide Shelved;
    hide CountsOk;
    hide PlacesOk;
    hide Shrunk;
    hide IdsOk;
    hide AddrLeads;
    hide TriedPlaced;
    ClearedNewCounts(b, s, {});
    ClearedNewPlaces(h, b, s, {});
    ClearedNewShrunk(b, s);
    ShrunkLeads(b, b');
    ClearedNewTried(h, b, s);
    ClearedNewTables(b, s);
    hide ClearedNew;
    ShelvedIs(h, b', {});
  }

  lemma ClearedNewTables(b: Book, s: Slot)
    requires s in b.vvNew && b.vvNew[s] in b.info
    ensures var b' := ClearedNew(b, s);
      b' == b.(info := b'.info, mapAddr := b'.mapAddr, vvNew := b.vvNew - {s})
  {
  }

  lemma ShelvedParts(h: Config, b: Book, loose: set<int>)
    requires Shelved(h, b, loose)
    ensures IdsOk(b.info, b.nIdCount) && AddrLeads(b.info, b.mapAddr) && PlacesOk(h, b.info, b.vvNew)
    ensures CountsOk(b.info, b.vvNew, loose) && TriedPlaced(h, b.info, b.vvTried)
  {
  }

  lemma ShelvedIs(h: Config, b: Book, loose: set<int>)
    requires IdsOk(b.info, b.nIdCount) && AddrLeads(b.info, b.mapAddr) && PlacesOk(h, b.info, b.vvNew)
    requires CountsOk(b.info, b.vvNew, loose) && TriedPlaced(h, b.info, b.vvTried)
    ensures Shelved(h, b, loose)
  {
  }

  lemma ClearedNewTried(h: Config, b: Book, s: Slot)
    requires TriedPlaced(h, b.info, b.vvTried)
             && (s in b.vvNew && b.vvNew[s] in b.info ==> !b.info[b.vvNew[s]].fInTried)
    ensures TriedPlaced(h, ClearedNew(b, s).info, b.vvTried)
  {
    hide Config.TriedSlot;
  }

  lemma SiftNew(h: Config, b: Book, b': Book, news: set<Slot>, s: Slot)
    requires Shelved(h, b, {}) && Sifted(h, b, b', news, {})
    ensures Sifted(h, b, DropInvalidNew(h, b', s), news + {s}, {})
  {
    var b'' := DropInvalidNew(h, b', s);
    hide Shelved;
    if s in b'.vvNew {
      assert s in b.vvNew && b'.vvNew[s] == b.vvNew[s];
      NewHolder(h, b, s);
      NewHolder(h, b', s);
      assert b'.info[b'.vvNew[s]].addr == b.info[b.vvNew[s]].addr;
      if !h.isValid(b.info[b.vvNew[s]].addr.ip) {
        ClearedNewShelved(h, b', s);
        ClearedNewShrunk(b', s);
        ShrunkTransitive(b, b', b'');
      }
    }
    hide ClearedNew;
    hide Shrunk;
    assert b''.vvNew == Sound(h, b.info, b.vvNew, news + {s});
  }

  lemma NewHolder(h: Config, b: Book, s: Slot)
    requires Shelved(h, b, {}) && s in b.vvNew
    ensures b.vvNew[s] in b.info
  {
  }

  /** An entry with an invalid address leaves the tried table. */
  lemma DropTriedTables(h: Config, b: Book, s: Slot)
    requires Shelved(h, b, {}) && s in b.vvTried
    ensures var id := b.vvTried[s];
      && id in b.info && TriedPlaced(h, b.info - {id}, b.vvTried - {s}) && PlacesOk(h, b.info - {id}, b.vvNew)
      && CountsOk(b.info - {id}, b.vvNew, {})
  {
    var id := b.vvTried[s];
    assert Slots(b.vvNew, id) == {} by { assert CountOk(b.info[id], Slots(b.vvNew, id), false); }
    forall t | t in b.vvNew ensures b.vvNew[t] != id {
      assert t !in Slots(b.vvNew, id);
    }
    forall x | x in b.info - {id} ensures CountOk((b.info - {id})[x], Slots(b.vvNew, x), false) {
      assert CountOk(b.info[x], Slots(b.vvNew, x), false);
    }
  }

  lemma DropTriedShelved(h: Config, b: Book, s: Slot)
    requires Shelved(h, b, {}) && s in b.vvTried && b.vvTried[s] in b.info
    ensures var id := b.vvTried[s];
      var b' := Deleted(b, id).(vvTried := b.vvTried - {s}, collisions := b.collisions - {id});
      Shelved(h, b', {}) && Shrunk(b, b')
  {
    var id := b.vvTried[s];
    DropTriedTables(h, b, s);
    DeletedShrunk(b, id);
    ShrunkLeads(b, Deleted(b, id));
    hide TriedPlaced;
    hide PlacesOk;
    hide CountsOk;
    hide IdsOk;
    hide AddrLeads;
  }

  lemma TriedHolder(h: Config, b: Book, s: Slot)
    requires Shelved(h, b, {}) && s in b.vvTried
    ensures b.vvTried[s] in b.info
  {
  }

  lemma SiftTried(h: Config, b: Book, b': Book, news: set<Slot>, tried: set<Slot>, s: Slot)
    requires Shelved(h, b, {}) && Sifted(h, b, b', news, tried)
    ensures Sifted(h, b, DropInvalidTried(h, b', s), news, tried + {s})
  {
    var b'' := DropInvalidTried(h, b', s);
    hide Shelved;
    if s in b'.vvTried {
      assert s in b.vvTried && b'.vvTried[s] == b.vvTried[s];
      TriedHolder(h, b, s);
      TriedHolder(h, b', s);
      assert b'.info[b'.vvTried[s]].addr == b.info[b.vvTried[s]].addr;
      if !h.isValid(b.info[b.vvTried[s]].addr.ip) {
        DropTriedShelved(h, b', s);
        ShrunkTransitive(b, b', b'');
      }
    } else if s in b.vvTried {
      TriedHolder(h, b, s);
    }
    hide Shrunk;
    assert b''.vvTried == Sound(h, b.info, b.vvTried, tried + {s});
    UnsoundNext(h, b.info, b.vvTried, tried, s);
  }

  lemma UnsoundNext(h: Config, info: map<int, Entry>, table: Table, seen: set<Slot>, s: Slot)
    ensures Unsound(h, info, table, seen + {s})
         == Unsound(h, info, table, seen) + if s in table && table[s] in info && !h.isValid(info[table[s]].addr.ip)
           then {table[s]} else {}
  {
  }

  lemma ShelvedHolder(h: Config, b: Book, s: Slot)
    requires Shelved(h, b, {})
    ensures HolderOk(b, s)
  {
    if s in b.vvNew {
      assert s in Slots(b.vvNew, b.vvNew[s]);
    }
  }

  lemma DropInvalidNewOk(h: Config, b: Book, s: Slot)
    requires Shelved(h, b, {})
    ensures Shelved(h, DropInvalidNew(h, b, s), {})
  {
    if s in b.vvNew {
      ClearedNewShelved(h, b, s);
    }
  }

  lemma DropInvalidTriedOk(h: Config, b: Book, s: Slot)
    requires Shelved(h, b, {})
    ensures Shelved(h, DropInvalidTried(h, b, s), {})
  {
    if s in b.vvTried {
      DropTriedShelved(h, b, s);
    }
  }

  /** The first `n` slots. */
  function Seen(n: nat): set<Slot> {
    if n == 0 then {} else Seen(n - 1) + {SlotAt(n - 1)}
  }

  lemma {:induction false} SeenAt(n: nat, i: nat)
    requires i < n
    ensures SlotAt(i) in Seen(n)
  {
    if i != n - 1 {
      SeenAt(n - 1, i);
    }
  }

  lemma SeenAll(s: Slot, buckets: nat)
    requires s.bucket < buckets && s.position < BUCKET_SIZE
    ensures s in Seen(buckets * BUCKET_SIZE)
  {
    var i := s.bucket * BUCKET_SIZE + s.position;
    assert SlotAt(i) == s;
    SeenAt(buckets * BUCKET_SIZE, i);
  }

  lemma {:induction false} WithoutInvalidSifted(h: Config, b: Book, n: nat, m: nat)
    requires Shelved(h, b, {})
    ensures Sifted(h, b, WithoutInvalid(h, b, n, m), Seen(n), Seen(m))
    decreases n + m
  {
    hide Shelved;
    hide Sifted;
    hide DropInvalidNew;
    hide DropInvalidTried;
    hide SlotAt;
    if m > 0 {
      WithoutInvalidSifted(h, b, n, m - 1);
      SiftTried(h, b, WithoutInvalid(h, b, n, m - 1), Seen(n), Seen(m - 1), SlotAt(m - 1));
    } else if n > 0 {
      WithoutInvalidSifted(h, b, n - 1, 0);
      SiftNew(h, b, WithoutInvalid(h, b, n - 1, 0), Seen(n - 1), SlotAt(n - 1));
    } else {
      SiftedStart(h, b);
    }
  }

  /** A kept entry is in a slot that was kept, so its address is valid. */
  lemma SiftedValid(h: Config, b: Book, b': Book, news: set<Slot>, tried: set<Slot>, id: int)
    requires Sifted(h, b, b', news, tried) && b.vvNew.Keys <= news && b.vvTried.Keys <= tried && id in b'.info
    ensures id in b.info && h.isValid(b.info[id].addr.ip)
  {
    hide Config.TriedSlot;
    if b'.info[id].fInTried {
      var s := h.TriedSlot(b'.info[id].addr);
      assert b'.vvTried[s] == id;
    } else {
      assert CountOk(b'.info[id], Slots(b'.vvNew, id), false);
      var s :| s in Slots(b'.vvNew, id);
      assert b'.vvNew[s] == id;
    }
  }

  /** A valid entry keeps all its slots, and with them its reference count. */
  lemma SiftedKeeps(h: Config, b: Book, b': Book, news: set<Slot>, tried: set<Slot>, id: int)
    requires Shelved(h, b, {}) && Sifted(h, b, b', news, tried) && id in b.info && h.isValid(b.info[id].addr.ip)
    ensures id in b'.info && b'.info[id] == b.info[id]
  {
    hide Config.TriedSlot;
    assert Slots(b'.vvNew, id) == Slots(b.vvNew, id);
    assert CountOk(b.info[id], Slots(b.vvNew, id), false);
    if b.info[id].fInTried {
      var s := h.TriedSlot(b.info[id].addr);
      assert b.vvTried[s] == id;
      assert b'.vvTried[s] == id;
    } else {
      var s :| s in Slots(b.vvNew, id);
      assert b'.vvNew[s] == id;
    }
    assert CountOk(b'.info[id], Slots(b'.vvNew, id), false);
  }

  lemma SoundAll(h: Config, info: map<int, Entry>, table: Table, seen: set<Slot>)
    requires table.Keys <= seen
    ensures Sound(h, info, table, seen) == Sound(h, info, table, table.Keys)
    ensures Unsound(h, info, table, seen) == Unsound(h, info, table, table.Keys)
  {
  }

  lemma TriedUnsound(h: Config, info: map<int, Entry>, table: Table)
    requires TriedPlaced(h, info, table)
    ensures Unsound(h, info, table, table.Keys) == set id | id in info && info[id].fInTried
            && !h.isValid(info[id].addr.ip)
  {
    hide Config.TriedSlot;
    forall id | id in info && info[id].fInTried && !h.isValid(info[id].addr.ip)
      ensures id in Unsound(h, info, table, table.Keys)
    {
      assert table[h.TriedSlot(info[id].addr)] == id;
    }
  }

  lemma SiftedInfo(h: Config, b: Book, b': Book, news: set<Slot>, tried: set<Slot>)
    requires Shelved(h, b, {}) && Sifted(h, b, b', news, tried) && b.vvNew.Keys <= news && b.vvTried.Keys <= tried
    ensures b'.info == Filtered(h, b).info
  {
    hide Shelved;
    hide Sifted;
    forall id | id in b'.info ensures id in b.info && h.isValid(b.info[id].addr.ip) {
      SiftedValid(h, b, b', news, tried, id);
    }
    forall id | id in b.info && h.isValid(b.info[id].addr.ip) ensures id in b'.info && b'.info[id] == b.info[id] {
      SiftedKeeps(h, b, b', news, tried, id);
    }
  }

  lemma SiftedAddr(h: Config, b: Book, b': Book)
    requires Shrunk(b, b') && AddrLeads(b.info, b.mapAddr) && b'.info == Filtered(h, b).info
    ensures b'.mapAddr == Filtered(h, b).mapAddr
  {
    forall ip | ip in b.mapAddr ensures LostAddr(b.info, b'.info, ip) <==> !h.isValid(ip) {
      var id := b.mapAddr[ip];
      assert id in b.info && b.info[id].addr.ip == ip;
    }
  }

  /** RemoveInvalid drops exactly the entries with an invalid address, from both tables and all indexes. */
  lemma FilteredIs(h: Config, b: Book)
    requires Shelved(h, b, {})
    ensures WithoutInvalid(h, b, NEW_SLOTS, TRIED_SLOTS) == Filtered(h, b) && Shelved(h, Filtered(h, b), {})
  {
    var b', news, tried := WithoutInvalid(h, b, NEW_SLOTS, TRIED_SLOTS), Seen(NEW_SLOTS), Seen(TRIED_SLOTS);
    WithoutInvalidSifted(h, b, NEW_SLOTS, TRIED_SLOTS);
    SlotsSeen(h, b);
    SiftedInfo(h, b, b', news, tried);
    SiftedAddr(h, b, b');
    SoundAll(h, b.info, b.vvNew, news);
    SoundAll(h, b.info, b.vvTried, tried);
    TriedUnsound(h, b.info, b.vvTried);
    hide *;
    FilteredParts(h, b, b', news, tried);
  }

  lemma FilteredParts(h: Config, b: Book, b': Book, news: set<Slot>, tried: set<Slot>)
    requires Sifted(h, b, b', news, tried) && b'.info == Filtered(h, b).info && b'.mapAddr == Filtered(h, b).mapAddr
    requires Sound(h, b.info, b.vvNew, news) == Sound(h, b.info, b.vvNew, b.vvNew.Keys)
    requires Sound(h, b.info, b.vvTried, tried) == Sound(h, b.info, b.vvTried, b.vvTried.Keys)
    requires Unsound(h, b.info, b.vvTried, tried) == set id | id in b.info && b.info[id].fInTried
             && !h.isValid(b.info[id].addr.ip)
    ensures b' == Filtered(h, b) && Shelved(h, b', {})
  {
    hide Sound;
    hide Unsound;
    hide Shelved;
  }

  lemma SlotsSeen(h: Config, b: Book)
    requires Shelved(h, b, {})
    ensures b.vvNew.Keys <= Seen(NEW_SLOTS) && b.vvTried.Keys <= Seen(TRIED_SLOTS)
  {
    forall s | s in b.vvNew ensures s in Seen(NEW_SLOTS) {
      assert NewPlaceOk(h, b.info[b.vvNew[s]].addr, s);
      SeenAll(s, NEW_BUCKET_COUNT);
    }
    forall s | s in b.vvTried ensures s in Seen(TRIED_SLOTS) {
      assert s == h.TriedSlot(b.info[b.vvTried[s]].addr);
      SeenAll(s, TRIED_BUCKET_COUNT);
    }
  }

  // ---------------------------------------------------------------------
  // When the loaded manager is consistent
  // ---------------------------------------------------------------------

  /** As many bucket lists as announced, none for a negative number. */
  predicate Shaped(file: File) { |file.buckets| == Max(0, Flip30(file.nUBuckets)) }

  /** The entries that found a place. */
  function Housed(h: Config, file: File, asmapChecksum: nat): Book {
    Pruned(LoadedTables(h, file, asmapChecksum), |file.newInfos|)
  }

  /** No other entry has the address of `id`. */
  ghost predicate Alone(info: map<int, Entry>, id: int)
    requires id in info
  {
    forall x :: x in info && info[x].addr.ip == info[id].addr.ip ==> x == id
  }

  /** Every entry that finds a place and has a valid address has proper times, and no other entry was
      read with that address, whether or not that one found a place. */
  ghost predicate Loadable(h: Config, file: File, asmapChecksum: nat) {
    var read, kept := LoadedEntries(h, file).info, Housed(h, file, asmapChecksum).info;
    forall id :: id in kept && h.isValid(kept[id].addr.ip) ==> TimesFit(kept[id]) && id in read && Alone(read, id)
  }

  /** Every address leads somewhere. */
  ghost predicate Reached(b: Book) {
    forall id :: id in b.info ==> b.info[id].addr.ip in b.mapAddr
  }

  lemma {:induction false} AllNewReached(b: Book, infos: seq<Saved>)
    requires Reached(b)
    ensures Reached(LoadAllNew(b, infos))
    decreases |infos|
  {
    if infos != [] {
      AllNewReached(b, infos[..|infos| - 1]);
    }
  }

  lemma {:induction false} AllTriedReached(h: Config, b: Book, infos: seq<Saved>)
    requires Reached(b)
    ensures Reached(LoadAllTried(h, b, infos))
    decreases |infos|
  {
    if infos != [] {
      AllTriedReached(h, b, infos[..|infos| - 1]);
    }
  }

  lemma ReferenceShrunk(h: Config, b: Book, bucket: nat, index: int, restore: bool)
    ensures Shrunk(b, LoadReference(h, b, bucket, index, restore))
  {
    if index in b.info {
      CountedShrunk(b, index, b.info[index].nRefCount + 1);
    }
    hide Config.Position;
    hide Config.NewSlot;
    hide LostAddr;
    ShrunkSame(b, b);
  }

  lemma {:induction false} RowShrunk(h: Config, b: Book, bucket: nat, row: seq<int>, n: nat, restore: bool)
    ensures Shrunk(b, LoadRow(h, b, bucket, row, n, restore))
    decreases |row|
  {
    hide Shrunk;
    hide LoadReference;
    if row == [] {
      ShrunkSame(b, b);
    } else {
      var b' := LoadRow(h, b, bucket, row[..|row| - 1], n, restore);
      RowShrunk(h, b, bucket, row[..|row| - 1], n, restore);
      ReferenceShrunk(h, b', bucket, row[|row| - 1], restore);
      ShrunkTransitive(b, b', LoadReference(h, b', bucket, row[|row| - 1], restore));
    }
  }

  lemma {:induction false} RowsShrunk(h: Config, b: Book, rows: seq<seq<int>>, n: nat, restore: bool)
    ensures Shrunk(b, LoadRows(h, b, rows, n, restore))
    decreases |rows|
  {
    hide Shrunk;
    hide LoadRow;
    if rows == [] {
      ShrunkSame(b, b);
    } else {
      var b' := LoadRows(h, b, rows[..|rows| - 1], n, restore);
      RowsShrunk(h, b, rows[..|rows| - 1], n, restore);
      RowShrunk(h, b', |rows| - 1, rows[|rows| - 1], n, restore);
      ShrunkTransitive(b, b', LoadRow(h, b', |rows| - 1, rows[|rows| - 1], n, restore));
    }
  }

  lemma EmptyLoading(h: Config, n: nat)
    ensures Loading(h, EMPTY, n)
  {
  }

  lemma EntriesOk(h: Config, file: File)
    ensures Loading(h, LoadedEntries(h, file), |file.newInfos|) && Reached(LoadedEntries(h, file))
  {
    AllNewReached(EMPTY, file.newInfos);
    AllTriedReached(h, LoadAllNew(EMPTY, file.newInfos), file.triedInfos);
    hide *;
    EntriesLoading(h, file);
  }

  lemma EntriesLoading(h: Config, file: File)
    ensures Loading(h, LoadedEntries(h, file), |file.newInfos|)
  {
    hide Loading;
    hide LoadAllNew;
    hide LoadAllTried;
    EmptyLoading(h, |file.newInfos|);
    LoadAllNewOk(h, EMPTY, file.newInfos, |file.newInfos|);
    LoadAllTriedOk(h, LoadAllNew(EMPTY, file.newInfos), file.triedInfos, |file.newInfos|);
  }

  /** The tables are in order whatever the file says; what may be wrong are times and addresses. */
  lemma HousedOk(h: Config, file: File, asmapChecksum: nat)
    requires Shaped(file)
    ensures var kept := Housed(h, file, asmapChecksum);
      Shelved(h, kept, {}) && Shrunk(LoadedEntries(h, file), kept) && kept.collisions == {}
  {
    hide Shelved;
    hide Pruned;
    hide Shrunk;
    var n, restore := |file.newInfos|, SameBucketing(file, asmapChecksum);
    var read, tables := LoadedEntries(h, file), LoadedTables(h, file, asmapChecksum);
    EntriesOk(h, file);
    LoadRowsOk(h, read, file.buckets, n, restore);
    RowsShrunk(h, read, file.buckets, n, restore);
    PrunedOk(h, tables, n, Ids(n));
    ShrunkTransitive(read, tables, Pruned(tables, n));
    assert Ids(n) - Ids(n) == {};
  }

  lemma LostOwn(b: Book, b': Book, id: int)
    requires Shrunk(b, b') && id in b'.info && id in b.info && Alone(b.info, id)
    ensures !LostAddr(b.info, b'.info, b.info[id].addr.ip)
  {
  }

  /** A kept entry that is alone with its address is found under it. */
  lemma AloneFound(b: Book, b': Book, id: int)
    requires Shrunk(b, b') && AddrLeads(b.info, b.mapAddr) && Reached(b) && id in b'.info && id in b.info
             && Alone(b.info, id)
    ensures b'.info[id].addr.ip in b'.mapAddr && b'.mapAddr[b'.info[id].addr.ip] == id
  {
    LostOwn(b, b', id);
    var ip := b.info[id].addr.ip;
    assert ip in b.mapAddr && b.mapAddr[ip] in b.info && b.info[b.mapAddr[ip]].addr.ip == ip;
  }

  /** If all kept entries with the address of `id` are found under it, no other entry had that address. */
  lemma FoundAlone(b: Book, b': Book, id: int)
    requires Shrunk(b, b') && id in b'.info && id in b.info
    requires forall x :: x in b'.info && b'.info[x].addr.ip == b'.info[id].addr.ip ==>
      b'.info[x].addr.ip in b'.mapAddr && b'.mapAddr[b'.info[x].addr.ip] == x
    ensures Alone(b.info, id)
  {
    var ip := b.info[id].addr.ip;
    forall x | x in b.info && b.info[x].addr.ip == ip ensures x == id {
      if x !in b'.info {
        assert LostAddr(b.info, b'.info, ip);
      }
    }
  }

  lemma FilteredFit(h: Config, b: Book, id: int)
    requires id in b.info && h.isValid(b.info[id].addr.ip)
    ensures id in Filtered(h, b).info && (Fit(Filtered(h, b), id) <==> Fit(b, id))
  {
  }

  lemma FitIff(h: Config, b: Book, b': Book)
    requires Shrunk(b, b') && AddrLeads(b.info, b.mapAddr) && Reached(b)
    ensures (forall id :: id in b'.info && h.isValid(b'.info[id].addr.ip) ==> Fit(b', id))
       <==> (forall id :: id in b'.info && h.isValid(b'.info[id].addr.ip) ==>
         TimesFit(b'.info[id]) && id in b.info && Alone(b.info, id))
  {
    hide LostAddr;
    hide TimesFit;
    if forall id :: id in b'.info && h.isValid(b'.info[id].addr.ip) ==> Fit(b', id) {
      forall id | id in b'.info && h.isValid(b'.info[id].addr.ip) ensures TimesFit(b'.info[id]) && Alone(b.info, id) {
        assert Fit(b', id);
        forall x | x in b'.info && b'.info[x].addr.ip == b'.info[id].addr.ip
          ensures b'.info[x].addr.ip in b'.mapAddr && b'.mapAddr[b'.info[x].addr.ip] == x
        {
          assert Fit(b', x);
        }
        FoundAlone(b, b', id);
      }
    }
    if forall id :: id in b'.info && h.isValid(b'.info[id].addr.ip) ==>
      TimesFit(b'.info[id]) && id in b.info && Alone(b.info, id) {
      forall id | id in b'.info && h.isValid(b'.info[id].addr.ip) ensures Fit(b', id) {
        AloneFound(b, b', id);
      }
    }
  }

  lemma FilteredCore(h: Config, b: Book)
    requires Shelved(h, b, {}) && Shelved(h, Filtered(h, b), {})
    ensures Core(h, Filtered(h, b), {}) <==> forall id :: id in b.info && h.isValid(b.info[id].addr.ip) ==> Fit(b, id)
  {
    CoreIff(h, Filtered(h, b), {});
    hide Shelved;
    hide Core;
    hide Fit;
    var b' := Filtered(h, b);
    assert forall id :: id in b'.info <==> id in b.info && h.isValid(b.info[id].addr.ip);
    hide Filtered;
    forall id | id in b.info && h.isValid(b.info[id].addr.ip) ensures Fit(b', id) <==> Fit(b, id) {
      FilteredFit(h, b, id);
    }
  }

  /** The loaded manager is consistent if and only if the entries that find a place are in order; the counts out of
      range are the only refusal. */
  lemma LoadedIff(h: Config, file: File, asmapChecksum: nat)
    requires Shaped(file)
    ensures var r := Loaded(h, file, asmapChecksum);
      && (r.Some? <==> |file.newInfos| <= NEW_SLOTS && |file.triedInfos| <= TRIED_SLOTS)
      && (r.Some? ==> r.value == Filtered(h, Housed(h, file, asmapChecksum)))
      && (r.Some? ==> (Consistent(h, r.value) <==> Loadable(h, file, asmapChecksum)))
  {
    hide Core;
    hide Shelved;
    hide Shrunk;
    hide Reached;
    hide Filtered;
    hide WithoutInvalid;
    hide Pruned;
    hide LoadedTables;
    hide LoadedEntries;
    hide Fit;
    hide TimesFit;
    hide Alone;
    hide AddrLeads;
    var kept, read := Housed(h, file, asmapChecksum), LoadedEntries(h, file);
    HousedOk(h, file, asmapChecksum);
    EntriesOk(h, file);
    FilteredIs(h, kept);
    FilteredCore(h, kept);
    ShelvedParts(h, read, Ids(|file.newInfos|));
    FitIff(h, read, kept);
    NoCollisions(h, Filtered(h, kept));
    FilteredNoCollisions(h, kept);
  }

  lemma FilteredNoCollisions(h: Config, b: Book)
    requires b.collisions == {}
    ensures Filtered(h, b).collisions == {}
  {
  }

  lemma NoCollisions(h: Config, b: Book)
    ensures b.collisions == {} ==> CollisionsOk(h, b)
  {
  }

  // ---------------------------------------------------------------------
  // Files that load consistently
  // ---------------------------------------------------------------------

  function Infos(file: File): seq<Saved> { file.newInfos + file.triedInfos }

  /** No address twice, no negative time, a success for every tried entry, and as many bucket lists as announced. */
  ghost predicate FileOk(file: File) {
    && (forall i, j :: 0 <= i < j < |Infos(file)| ==> Infos(file)[i].addr.ip != Infos(file)[j].addr.ip)
    && (forall i :: 0 <= i < |file.newInfos| ==> file.newInfos[i].nLastSuccess >= 0)
    && (forall i :: 0 <= i < |file.triedInfos| ==> file.triedInfos[i].nLastSuccess > 0)
    && Shaped(file)
  }

  ghost predicate FreshAddrs(infos: seq<Saved>, addrs: set<NetAddr>) {
    && (forall i :: 0 <= i < |infos| ==> infos[i].addr.ip !in addrs)
    && (forall i, j :: 0 <= i < j < |infos| ==> infos[i].addr.ip != infos[j].addr.ip)
  }

  function Addrs(infos: seq<Saved>): set<NetAddr> { set i | 0 <= i < |infos| :: infos[i].addr.ip }

  ghost predicate AllFit(b: Book) {
    (forall id :: id in b.info ==> id < b.nIdCount) && forall id :: id in b.info ==> Fit(b, id)
  }

  lemma {:induction false} AllNewFit(b: Book, infos: seq<Saved>)
    requires AllFit(b) && FreshAddrs(infos, b.mapAddr.Keys)
             && forall i :: 0 <= i < |infos| ==> infos[i].nLastSuccess >= 0
    ensures AllFit(LoadAllNew(b, infos)) && LoadAllNew(b, infos).mapAddr.Keys == b.mapAddr.Keys + Addrs(infos)
    decreases |infos|
  {
    if infos != [] {
      var front, last := infos[..|infos| - 1], infos[|infos| - 1];
      assert FreshAddrs(front, b.mapAddr.Keys) && last.addr.ip !in b.mapAddr.Keys + Addrs(front);
      hide AllFit;
      hide Fit;
      AllNewFit(b, front);
      AppendFit(LoadAllNew(b, front), Restore(last));
      assert Addrs(infos) == Addrs(front) + {last.addr.ip};
    }
  }

  lemma AppendFit(b: Book, e: Entry)
    requires AllFit(b) && e.addr.ip !in b.mapAddr && TimesFit(e)
    ensures AllFit(Appended(b, e))
  {
    var b' := Appended(b, e);
    forall id | id in b'.info ensures Fit(b', id) {
      assert id in b.info && id != b.nIdCount ==> Fit(b, id);
    }
  }

  lemma {:induction false} AllTriedFit(h: Config, b: Book, infos: seq<Saved>)
    requires AllFit(b) && FreshAddrs(infos, b.mapAddr.Keys)
             && forall i :: 0 <= i < |infos| ==> infos[i].nLastSuccess > 0
    ensures AllFit(LoadAllTried(h, b, infos)) && LoadAllTried(h, b, infos).mapAddr.Keys <= b.mapAddr.Keys + Addrs(infos)
    decreases |infos|
  {
    hide Config.TriedSlot;
    if infos != [] {
      var front, last := infos[..|infos| - 1], infos[|infos| - 1];
      AllTriedFit(h, b, front);
      var b' := LoadAllTried(h, b, front);
      assert last.addr.ip !in b'.mapAddr;
      AppendFit(b', Restore(last).(fInTried := true));
      assert Addrs(infos) == Addrs(front) + {last.addr.ip};
      TriedFitFrame(h, b', last);
    }
  }

  lemma TriedFitFrame(h: Config, b: Book, s: Saved)
    requires AllFit(b) && AllFit(Appended(b, Restore(s).(fInTried := true)))
    ensures AllFit(LoadTried(h, b, s)) && LoadTried(h, b, s).mapAddr.Keys <= b.mapAddr.Keys + {s.addr.ip}
  {
    hide Config.TriedSlot;
    var b', c := LoadTried(h, b, s), Appended(b, Restore(s).(fInTried := true));
    if b' != b {
      assert b'.info == c.info && b'.mapAddr == c.mapAddr && b'.nIdCount == c.nIdCount;
      forall id | id in b'.info ensures Fit(b', id) {
        assert Fit(c, id);
      }
    }
  }

  lemma FitAlone(b: Book, id: int)
    requires AllFit(b) && id in b.info
    ensures Alone(b.info, id) && TimesFit(b.info[id])
  {
    assert Fit(b, id);
    forall x | x in b.info && b.info[x].addr.ip == b.info[id].addr.ip ensures x == id {
      assert Fit(b, x);
    }
  }

  lemma FileOkLoadable(h: Config, file: File, asmapChecksum: nat)
    requires FileOk(file)
    ensures Loadable(h, file, asmapChecksum)
  {
    InfosFresh(file);
    var read := LoadedEntries(h, file);
    ReadFit(h, file);
    HousedOk(h, file, asmapChecksum);
    var kept := Housed(h, file, asmapChecksum);
    hide Housed;
    hide LoadedEntries;
    hide Shelved;
    hide AllFit;
    forall id | id in kept.info ensures TimesFit(kept.info[id]) && id in read.info && Alone(read.info, id) {
      FitAlone(read, id);
    }
  }

  lemma ReadFit(h: Config, file: File)
    requires FileOk(file)
    ensures AllFit(LoadedEntries(h, file))
  {
    hide LoadAllNew;
    hide LoadAllTried;
    hide FreshAddrs;
    InfosFresh(file);
    assert EMPTY.mapAddr.Keys == {};
    AllNewFit(EMPTY, file.newInfos);
    AllTriedFit(h, LoadAllNew(EMPTY, file.newInfos), file.triedInfos);
  }

  lemma InfosFresh(file: File)
    requires FileOk(file)
    ensures FreshAddrs(file.newInfos, {}) && FreshAddrs(file.triedInfos, {} + Addrs(file.newInfos))
  {
    var infos := Infos(file);
    forall i | 0 <= i < |file.newInfos| ensures file.newInfos[i] == infos[i] {}
    forall i | 0 <= i < |file.triedInfos| ensures file.triedInfos[i] == infos[|file.newInfos| + i] {}
  }

  lemma TriedOnly(h: Config, tried: seq<Saved>, asmapChecksum: nat)
    ensures var file := File(BIT30, [], tried, [], 0);
      Shaped(file) && Housed(h, file, asmapChecksum) == LoadedEntries(h, file) == LoadAllTried(h, EMPTY, tried)
  {
  }

  lemma TwoTried(h: Config, s: Saved, t: Saved)
    ensures LoadAllTried(h, EMPTY, [s]) == LoadTried(h, EMPTY, s)
    ensures LoadAllTried(h, EMPTY, [s, t]) == LoadTried(h, LoadTried(h, EMPTY, s), t)
  {
    assert [s, t][..1] == [s];
    assert LoadAllTried(h, EMPTY, []) == EMPTY;
  }

  lemma TwoTriedInfo(h: Config, s: Saved, t: Saved)
    requires h.TriedSlot(s.addr) != h.TriedSlot(t.addr)
    ensures LoadAllTried(h, EMPTY, [s, t]).info
      == map[0 := Restore(s).(fInTried := true), 1 := Restore(t).(fInTried := true)]
  {
    hide Config.TriedSlot;
    TwoTried(h, s, t);
  }

  lemma OneNew(h: Config, s: Saved, asmapChecksum: nat)
    ensures var file := File(BIT30 + 1, [s], [], [[0]], 0);
      Shaped(file) && !SameBucketing(file, asmapChecksum) && LoadedEntries(h, file) == LoadNew(EMPTY, s)
  {
    assert Flip30(BIT30 + 1) == 1;
    assert [s][..0] == [];
    assert LoadAllNew(EMPTY, []) == EMPTY;
    assert LoadAllNew(EMPTY, [s]) == LoadNew(EMPTY, s);
  }

  lemma OneRow(h: Config, b: Book, index: int, n: nat, restore: bool)
    requires 0 <= index < n
    ensures LoadRows(h, b, [[index]], n, restore) == LoadReference(h, b, 0, index, restore)
  {
    hide LoadReference;
    assert [[index]][..0] == [] && [index][..0] == [];
    assert LoadRows(h, b, [], n, restore) == b;
    assert LoadRow(h, b, 0, [], n, restore) == b;
    assert LoadRow(h, b, 0, [index], n, restore) == LoadReference(h, b, 0, index, restore);
  }

  lemma OneNewKept(h: Config, s: Saved)
    ensures var b := Pruned(LoadReference(h, LoadNew(EMPTY, s), 0, 0, false), 1);
      0 in b.info && b.info[0] == Restore(s).(nRefCount := 1)
  {
    hide Config.NewSlot;
    hide Config.Position;
    var b := LoadReference(h, LoadNew(EMPTY, s), 0, 0, false);
    assert Pruned(b, 0) == b;
  }

  /** A repeated entry that is lost to the slot of the first does no harm. */
  lemma RepeatedLost(h: Config, s: Saved, asmapChecksum: nat)
    requires s.nLastSuccess > 0
    ensures var file := File(BIT30, [], [s, s], [], 0);
      !FileOk(file) && var r := Loaded(h, file, asmapChecksum); r.Some? && Consistent(h, r.value)
  {
    var file := File(BIT30, [], [s, s], [], 0);
    assert Infos(file)[0].addr == Infos(file)[1].addr;
    TriedOnly(h, [s, s], asmapChecksum);
    LoadedIff(h, file, asmapChecksum);
    hide Loaded;
    hide Consistent;
    hide Config.TriedSlot;
    hide Housed;
    hide LoadedEntries;
    hide LoadAllTried;
    TwoTried(h, s, s);
    assert Housed(h, file, asmapChecksum).info == map[0 := Restore(s).(fInTried := true)];
  }

  /** A file in order loads consistently, whatever bucketing it was written under. */
  lemma LoadedOk(h: Config, file: File, asmapChecksum: nat)
    requires FileOk(file)
    ensures var r := Loaded(h, file, asmapChecksum);
      (r.Some? <==> |file.newInfos| <= NEW_SLOTS && |file.triedInfos| <= TRIED_SLOTS)
        && (r.Some? ==> Consistent(h, r.value))
  {
    hide Loaded;
    hide Loadable;
    hide Consistent;
    LoadedIff(h, file, asmapChecksum);
    FileOkLoadable(h, file, asmapChecksum);
  }

  lemma {:induction false} SaveAllAt(info: map<int, Entry>, ids: seq<int>, i: nat)
    requires (forall k :: 0 <= k < |ids| ==> ids[k] in info) && i < |ids|
    ensures SaveAll(info, ids)[i] == Save(info[ids[i]])
    decreases |ids|
  {
    if i < |ids| - 1 {
      SaveAllAt(info, ids[..|ids| - 1], i);
    }
  }

  lemma SavedAt(b: Book, order: seq<int>, asmapChecksum: nat, i: nat)
    requires CountsOk(b.info, b.vvNew, {}) && Enumerates(order, b.info)
    requires i < |NewOrder(b.info, order) + TriedOrder(b.info, order)|
    ensures var file, ids := SavedFile(b, order, asmapChecksum), NewOrder(b.info, order) + TriedOrder(b.info, order);
      i < |Infos(file)| && ids[i] in b.info && Infos(file)[i] == Save(b.info[ids[i]])
  {
    hide Rows;
    var news, tried := NewOrder(b.info, order), TriedOrder(b.info, order);
    if i < |news| {
      SaveAllAt(b.info, news, i);
    } else {
      SaveAllAt(b.info, tried, i - |news|);
    }
  }

  lemma SavedDistinct(h: Config, b: Book, order: seq<int>, asmapChecksum: nat, i: nat, j: nat)
    requires CountsOk(b.info, b.vvNew, {}) && AddrOk(b.info, b.mapAddr) && Enumerates(order, b.info)
    requires i < j < |Infos(SavedFile(b, order, asmapChecksum))|
    ensures Infos(SavedFile(b, order, asmapChecksum))[i].addr.ip != Infos(SavedFile(b, order, asmapChecksum))[j].addr.ip
  {
    hide Rows;
    hide Slots;
    OrdersDistinct(h, b, order);
    SavedAt(b, order, asmapChecksum, i);
    SavedAt(b, order, asmapChecksum, j);
  }

  lemma TriedTime(h: Config, b: Book, order: seq<int>, i: nat)
    requires TriedOk(h, b.info, b.vvTried) && i < |TriedOrder(b.info, order)|
    ensures SaveAll(b.info, TriedOrder(b.info, order))[i].nLastSuccess > 0
  {
    hide Config.TriedSlot;
    SiftKeeps(order, InTried(b.info));
    SaveAllAt(b.info, TriedOrder(b.info, order), i);
    var id := TriedOrder(b.info, order)[i];
    assert InTried(b.info)(id);
  }

  lemma SavedTimes(h: Config, b: Book, order: seq<int>, asmapChecksum: nat)
    requires Core(h, b, {}) && Enumerates(order, b.info)
    ensures var file := SavedFile(b, order, asmapChecksum);
      && (forall i :: 0 <= i < |file.newInfos| ==> file.newInfos[i].nLastSuccess >= 0)
      && (forall i :: 0 <= i < |file.triedInfos| ==> file.triedInfos[i].nLastSuccess > 0)
  {
    hide Rows;
    hide CountsOk;
    hide PlacesOk;
    hide AddrOk;
    OrdersDistinct(h, b, order);
    var file := SavedFile(b, order, asmapChecksum);
    forall i | 0 <= i < |file.newInfos| ensures file.newInfos[i].nLastSuccess >= 0 {
      SaveAllAt(b.info, NewOrder(b.info, order), i);
    }
    forall i | 0 <= i < |file.triedInfos| ensures file.triedInfos[i].nLastSuccess > 0 {
      TriedTime(h, b, order, i);
    }
  }

  /** What a consistent manager writes is well formed. */
  lemma SavedFileOk(h: Config, b: Book, order: seq<int>, asmapChecksum: nat)
    requires Core(h, b, {}) && Enumerates(order, b.info)
    ensures FileOk(SavedFile(b, order, asmapChecksum))
  {
    hide Rows;
    hide CountsOk;
    hide PlacesOk;
    hide TriedOk;
    var file := SavedFile(b, order, asmapChecksum);
    forall i, j | 0 <= i < j < |Infos(file)| ensures Infos(file)[i].addr.ip != Infos(file)[j].addr.ip {
      SavedDistinct(h, b, order, asmapChecksum, i, j);
    }
    SavedTimes(h, b, order, asmapChecksum);
  }

  /** Saving a consistent manager and loading the file with the same bucketing gives back, renumbered, the
      part with valid addresses: each of its addresses with persistent data and reference count, and each of its
      slots. */
  lemma LoadSaved(h: Config, b: Book, order: seq<int>, asmapChecksum: nat)
    requires Core(h, b, {}) && Enumerates(order, b.info)
    ensures var r := Loaded(h, SavedFile(b, order, asmapChecksum), asmapChecksum);
      && r == Some(Filtered(h, Renamed(b, order))) && Consistent(h, r.value)
      && SameEntries(Filtered(h, b), r.value)
      && SameTable(Filtered(h, b).info, Filtered(h, b).vvNew, r.value.info, r.value.vvNew)
      && SameTable(Filtered(h, b).info, Filtered(h, b).vvTried, r.value.info, r.value.vvTried)
  {
    hide *;
    var file := SavedFile(b, order, asmapChecksum);
    LoadsRenamed(h, b, order, asmapChecksum);
    SavedFileOk(h, b, order, asmapChecksum);
    LoadedOk(h, file, asmapChecksum);
    RenamedShelved(h, b, order, asmapChecksum);
    FilteredIs(h, Renamed(b, order));
    RenamedKeeps(h, b, order);
    CoreLeads(h, b, Renamed(b, order));
    FilteredSame(h, b, Renamed(b, order));
  }

  lemma RenamedShelved(h: Config, b: Book, order: seq<int>, asmapChecksum: nat)
    requires Core(h, b, {}) && Enumerates(order, b.info)
    ensures Shelved(h, Renamed(b, order), {})
  {
    var file := SavedFile(b, order, asmapChecksum);
    SavedFileOk(h, b, order, asmapChecksum);
    HousedOk(h, file, asmapChecksum);
    Rebuilt(h, b, order);
    RenamedHeld(h, b, order);
    NothingToPrune(Renamed(b, order), |NewOrder(b.info, order)|);
    hide Shelved;
    hide Core;
    hide Renamed;
    hide Rows;
    hide LoadRows;
    hide LoadAllNew;
    hide LoadAllTried;
    hide Pruned;
    hide Shrunk;
  }

  /** The validity filter looks at addresses only. */
  lemma FilteredTable(h: Config, info: map<int, Entry>, table: Table, info': map<int, Entry>, table': Table)
    requires SameTable(info, table, info', table')
    ensures SameTable(Valid(h, info), Sound(h, info, table, table.Keys), Valid(h, info'),
      Sound(h, info', table', table'.Keys))
  {
  }

  lemma FilteredEntries(h: Config, b: Book, b': Book)
    requires SameEntries(b, b') && AddrLeads(b.info, b.mapAddr) && AddrLeads(b'.info, b'.mapAddr)
    ensures SameEntries(Filtered(h, b), Filtered(h, b'))
  {
    hide Sound;
    hide SameEntry;
    forall ip | ip in Filtered(h, b).mapAddr
      ensures Filtered(h, b).mapAddr[ip] in Valid(h, b.info) && Filtered(h, b').mapAddr[ip] in Valid(h, b'.info)
    {
      assert ip in b.mapAddr && ip in b'.mapAddr && b.mapAddr[ip] in b.info && b'.mapAddr[ip] in b'.info;
    }
  }

  lemma FilteredSame(h: Config, b: Book, b': Book)
    requires SameEntries(b, b') && SameTable(b.info, b.vvNew, b'.info, b'.vvNew)
             && SameTable(b.info, b.vvTried, b'.info, b'.vvTried)
    requires AddrLeads(b.info, b.mapAddr) && AddrLeads(b'.info, b'.mapAddr)
    ensures var f, f' := Filtered(h, b), Filtered(h, b');
      && SameEntries(f, f') && SameTable(f.info, f.vvNew, f'.info, f'.vvNew)
         && SameTable(f.info, f.vvTried, f'.info, f'.vvTried)
  {
    hide SameEntries;
    hide SameTable;
    hide Sound;
    hide Valid;
    FilteredEntries(h, b, b');
    FilteredTable(h, b.info, b.vvNew, b'.info, b'.vvNew);
    FilteredTable(h, b.info, b.vvTried, b'.info, b'.vvTried);
  }

  lemma CoreLeads(h: Config, b: Book, b': Book)
    requires Core(h, b, {}) && Shelved(h, b', {})
    ensures AddrLeads(b.info, b.mapAddr) && AddrLeads(b'.info, b'.mapAddr)
  {
  }

  /** A manager saved under one bucketing loads, consistent, under any other. */
  lemma Rebucketed(h: Config, h': Config, b: Book, order: seq<int>, asmapChecksum: nat, asmapChecksum': nat)
    requires Core(h, b, {}) && Enumerates(order, b.info)
    ensures var r := Loaded(h', SavedFile(b, order, asmapChecksum), asmapChecksum'); r.Some? && Consistent(h', r.value)
  {
    hide Rows;
    hide CountsOk;
    hide PlacesOk;
    hide TriedOk;
    hide Loaded;
    SavedFileOk(h, b, order, asmapChecksum);
    NewFits(h, b, order);
    TriedFits(h, b, order);
    LoadedOk(h', SavedFile(b, order, asmapChecksum), asmapChecksum');
  }

  // ---------------------------------------------------------------------
  // The references are collected first and applied afterwards
  // ---------------------------------------------------------------------

  datatype Ref = Ref(bucket: nat, index: int)

  function RowRefs(bucket: nat, row: seq<int>, nNew: nat): seq<Ref> {
    if row == [] then [] else
      var index := row[|row| - 1];
      RowRefs(bucket, row[..|row| - 1], nNew) + if 0 <= index < nNew then [Ref(bucket, index)] else []
  }

  function Refs(rows: seq<seq<int>>, nNew: nat): seq<Ref> {
    if rows == [] then [] else Refs(rows[..|rows| - 1], nNew) + RowRefs(|rows| - 1, rows[|rows| - 1], nNew)
  }

  function LoadRefs(h: Config, b: Book, refs: seq<Ref>, restore: bool): Book {
    if refs == [] then b else
      var ref := refs[|refs| - 1];
      LoadReference(h, LoadRefs(h, b, refs[..|refs| - 1], restore), ref.bucket, ref.index, restore)
  }

  lemma {:induction false} LoadRefsAppend(h: Config, b: Book, xs: seq<Ref>, ys: seq<Ref>, restore: bool)
    ensures LoadRefs(h, b, xs + ys, restore) == LoadRefs(h, LoadRefs(h, b, xs, restore), ys, restore)
    decreases |ys|
  {
    hide LoadReference;
    if ys == [] {
      assert xs + ys == xs;
    } else {
      assert (xs + ys)[..|xs + ys| - 1] == xs + ys[..|ys| - 1];
      LoadRefsAppend(h, b, xs, ys[..|ys| - 1], restore);
    }
  }

  lemma {:induction false} RowRefsSame(h: Config, b: Book, bucket: nat, row: seq<int>, n: nat, restore: bool)
    ensures LoadRefs(h, b, RowRefs(bucket, row, n), restore) == LoadRow(h, b, bucket, row, n, restore)
    decreases |row|
  {
    hide LoadReference;
    if row != [] {
      var front, index := RowRefs(bucket, row[..|row| - 1], n), row[|row| - 1];
      RowRefsSame(h, b, bucket, row[..|row| - 1], n, restore);
      if 0 <= index < n {
        assert (front + [Ref(bucket, index)])[..|front|] == front;
      } else {
        assert front + [] == front;
      }
    }
  }

  lemma {:induction false} RefsSame(h: Config, b: Book, rows: seq<seq<int>>, n: nat, restore: bool)
    ensures LoadRefs(h, b, Refs(rows, n), restore) == LoadRows(h, b, rows, n, restore)
    decreases |rows|
  {
    hide LoadReference;
    if rows != [] {
      var front, last := rows[..|rows| - 1], rows[|rows| - 1];
      RefsSame(h, b, front, n, restore);
      LoadRefsAppend(h, b, Refs(front, n), RowRefs(|rows| - 1, last, n), restore);
      RowRefsSame(h, LoadRows(h, b, front, n, restore), |rows| - 1, last, n, restore);
    }
  }

  lemma {:induction false} RowRefsInRange(bucket: nat, row: seq<int>, nNew: nat)
    ensures forall i :: 0 <= i < |RowRefs(bucket, row, nNew)| ==> 0 <= RowRefs(bucket, row, nNew)[i].index < nNew
    decreases |row|
  {
    if row != [] {
      RowRefsInRange(bucket, row[..|row| - 1], nNew);
    }
  }

  lemma {:induction false} RefsInRange(rows: seq<seq<int>>, nNew: nat)
    ensures forall i :: 0 <= i < |Refs(rows, nNew)| ==> 0 <= Refs(rows, nNew)[i].index < nNew
    decreases |rows|
  {
    if rows != [] {
      RefsInRange(rows[..|rows| - 1], nNew);
      RowRefsInRange(|rows| - 1, rows[|rows| - 1], nNew);
    }
  }

  /** The first pass over the bucket lists: the references with an index in range, in order. */
  method CollectRefs(rows: seq<seq<int>>, nNew: nat) returns (refs: seq<Ref>)
    ensures refs == Refs(rows, nNew) && forall i :: 0 <= i < |refs| ==> 0 <= refs[i].index < nNew
  {
    refs := [];
    for bucket := 0 to |rows|
      invariant refs == Refs(rows[..bucket], nNew)
    {
      var row := rows[bucket];
      ghost var before := refs;
      for n := 0 to |row|
        invariant refs == before + RowRefs(bucket, row[..n], nNew)
      {
        assert row[..n + 1][..n] == row[..n];
        var index := row[n];
        if 0 <= index < nNew {
          refs := refs + [Ref(bucket, index)];
        }
      }
      assert row[..|row|] == row;
      assert rows[..bucket + 1][..bucket] == rows[..bucket];
    }
    assert rows[..|rows|] == rows;
    RefsInRange(rows, nNew);
  }
}
