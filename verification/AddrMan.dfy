/** The address manager as it is stored: the entries and tables of AddrBook with the
    redundant indexes vRandom and nRandomPos and the counters nNew and nTried, all
    updated in place. Every method is proved against its AddrBook function. */
module AddrMan {
  import opened Numbers
  import opened Common
  import opened AddrBook
  import opened AddrFile
  import opened AddrLoad
  import opened AddrCheck

  /** CAddrInfo: an entry with its position in vRandom. */
  datatype AddrInfo = AddrInfo(e: Entry, nRandomPos: int)

  function Entries(mapInfo: map<int, AddrInfo>): map<int, Entry> {
    map id | id in mapInfo :: mapInfo[id].e
  }

  lemma EntriesPut(mapInfo: map<int, AddrInfo>, id: int, info: AddrInfo)
    ensures Entries(mapInfo[id := info]) == Entries(mapInfo)[id := info.e]
  {
  }

  lemma EntriesRemove(mapInfo: map<int, AddrInfo>, id: int)
    ensures Entries(mapInfo - {id}) == Entries(mapInfo) - {id}
  {
  }

  lemma EntryAt(mapInfo: map<int, AddrInfo>, id: int)
    ensures id in Entries(mapInfo) <==> id in mapInfo
    ensures id in mapInfo ==> Entries(mapInfo)[id] == mapInfo[id].e
  {
  }

  lemma NewReferenced(h: Config, b: Book, id: int)
    requires Core(h, b, {}) && id in b.info && !b.info[id].fInTried
    ensures b.info[id].nRefCount > 0
  {
    assert CountOk(b.info[id], Slots(b.vvNew, id), false);
  }

  ghost predicate IdsBelow(info: map<int, Entry>, n: int) { forall id :: id in info ==> id < n }

  lemma SlotAtIs(bucket: nat, i: nat)
    requires i < BUCKET_SIZE
    ensures SlotAt(bucket * BUCKET_SIZE + i) == Slot(bucket, i)
  {
  }

  lemma WithoutNothing(h: Config, b: Book)
    ensures WithoutInvalid(h, b, 0, 0) == b
  {
  }

  lemma WithoutNextNew(h: Config, b: Book, n: nat)
    ensures WithoutInvalid(h, b, n + 1, 0) == DropInvalidNew(h, WithoutInvalid(h, b, n, 0), SlotAt(n))
  {
  }

  lemma WithoutNextTried(h: Config, b: Book, n: nat, m: nat)
    ensures WithoutInvalid(h, b, n, m + 1) == DropInvalidTried(h, WithoutInvalid(h, b, n, m), SlotAt(m))
  {
  }

  lemma KeysSame(mapInfo: map<int, AddrInfo>)
    ensures mapInfo.Keys == Entries(mapInfo).Keys
  {
  }

  lemma ConsistentAddr(h: Config, b: Book)
    requires Consistent(h, b)
    ensures AddrOk(b.info, b.mapAddr) && CountsOk(b.info, b.vvNew, {}) && PlacesOk(h, b.info, b.vvNew)
  {
  }

  /** vRandom and nRandomPos are inverse to each other. */
  ghost predicate RandomOk(mapInfo: map<int, AddrInfo>, vRandom: seq<int>) {
    && (forall i :: 0 <= i < |vRandom| ==> vRandom[i] in mapInfo && mapInfo[vRandom[i]].nRandomPos == i)
    && (forall id :: id in mapInfo ==> 0 <= mapInfo[id].nRandomPos < |vRandom| && vRandom[mapInfo[id].nRandomPos] == id)
  }

  function Swapped(v: seq<int>, i: int, j: int): seq<int>
    requires 0 <= i < |v| && 0 <= j < |v|
  {
    v[i := v[j]][j := v[i]]
  }

  /** An entry may change without moving in vRandom. */
  lemma RandomTouched(mapInfo: map<int, AddrInfo>, vRandom: seq<int>, id: int, e: Entry)
    requires RandomOk(mapInfo, vRandom) && id in mapInfo
    ensures RandomOk(mapInfo[id := mapInfo[id].(e := e)], vRandom)
  {
  }

  lemma SizePut(ids: set<int>, id: int)
    ensures |ids + {id}| == |ids| + if id in ids then 0 else 1
    ensures |ids - {id}| == |ids| - if id in ids then 1 else 0
  {
    if id in ids {
      assert ids + {id} == ids;
    } else {
      assert ids - {id} == ids;
    }
  }

  lemma IdsPut(info: map<int, Entry>, id: int, e: Entry)
    requires id in info
    ensures NewIds(info[id := e]) == if e.fInTried then NewIds(info) - {id} else NewIds(info) + {id}
    ensures TriedIds(info[id := e]) == if e.fInTried then TriedIds(info) + {id} else TriedIds(info) - {id}
    ensures (id in NewIds(info) <==> !info[id].fInTried) && (id in TriedIds(info) <==> info[id].fInTried)
  {
  }

  lemma CountsPut(info: map<int, Entry>, id: int, e: Entry)
    requires id in info
    ensures |NewIds(info[id := e])|
      == |NewIds(info)| - (if info[id].fInTried then 0 else 1) + if e.fInTried then 0 else 1
    ensures |TriedIds(info[id := e])|
      == |TriedIds(info)| - (if info[id].fInTried then 1 else 0) + if e.fInTried then 1 else 0
  {
    hide NewIds;
    hide TriedIds;
    IdsPut(info, id, e);
    SizePut(NewIds(info), id);
    SizePut(TriedIds(info), id);
  }

  lemma CountsRemove(info: map<int, Entry>, id: int)
    requires id in info
    ensures |NewIds(info - {id})| == |NewIds(info)| - if info[id].fInTried then 0 else 1
    ensures |TriedIds(info - {id})| == |TriedIds(info)| - if info[id].fInTried then 1 else 0
  {
    SizePut(NewIds(info), id);
    SizePut(TriedIds(info), id);
    assert NewIds(info - {id}) == NewIds(info) - {id} && TriedIds(info - {id}) == TriedIds(info) - {id};
  }

  lemma RandomAt(mapInfo: map<int, AddrInfo>, vRandom: seq<int>, id: int)
    requires RandomOk(mapInfo, vRandom) && id in mapInfo
    ensures 0 <= mapInfo[id].nRandomPos < |vRandom| && vRandom[mapInfo[id].nRandomPos] == id
  {
  }

  lemma RandomEntry(mapInfo: map<int, AddrInfo>, vRandom: seq<int>, i: nat)
    requires RandomOk(mapInfo, vRandom) && i < |vRandom|
    ensures vRandom[i] in mapInfo && vRandom[i] in Entries(mapInfo)
            && Entries(mapInfo)[vRandom[i]] == mapInfo[vRandom[i]].e
  {
  }

  /** The entry at the end of vRandom goes. */
  lemma RandomRemove(mapInfo: map<int, AddrInfo>, vRandom: seq<int>, id: int)
    requires RandomOk(mapInfo, vRandom) && |vRandom| > 0 && vRandom[|vRandom| - 1] == id
    ensures RandomOk(mapInfo - {id}, vRandom[..|vRandom| - 1])
  {
  }

  /** vRandom lists every entry, and none twice. */
  lemma RandomLists(mapInfo: map<int, AddrInfo>, vRandom: seq<int>, n: nat)
    requires RandomOk(mapInfo, vRandom) && n <= |vRandom|
    ensures forall i, j :: 0 <= i < j < n ==> vRandom[..n][i] != vRandom[..n][j]
    ensures forall id :: id in Entries(mapInfo) ==> id in vRandom
  {
  }

  lemma CountsNew(info: map<int, Entry>, id: int, e: Entry)
    requires id !in info && !e.fInTried
    ensures |NewIds(info[id := e])| == |NewIds(info)| + 1 && TriedIds(info[id := e]) == TriedIds(info)
  {
    assert NewIds(info[id := e]) == NewIds(info) + {id};
  }

  lemma CountsTried(info: map<int, Entry>, id: int, e: Entry)
    requires id !in info && e.fInTried
    ensures |TriedIds(info[id := e])| == |TriedIds(info)| + 1 && NewIds(info[id := e]) == NewIds(info)
  {
    assert TriedIds(info[id := e]) == TriedIds(info) + {id};
  }

  lemma EnumeratedAt(info: map<int, Entry>, order: seq<int>, k: nat)
    requires Enumerates(order, info) && k < |order|
    ensures order[k] in info && order[k] !in order[..k]
  {
    var id := order[k];
    assert id in order;
  }

  lemma NewOrderNext(info: map<int, Entry>, order: seq<int>, k: nat)
    requires Enumerates(order, info) && k < |order|
    ensures var ids, id := NewOrder(info, order[..k]), order[k];
      && id in info && id !in ids
      && NewOrder(info, order[..k + 1]) == (if info[id].nRefCount != 0 then ids + [id] else ids)
      && SaveAll(info, NewOrder(info, order[..k + 1]))
         == SaveAll(info, ids) + (if info[id].nRefCount != 0 then [Save(info[id])] else [])
  {
    assert order[..k + 1][..k] == order[..k];
    EnumeratedAt(info, order, k);
    SiftProps(order[..k], Referenced(info));
    var ids := NewOrder(info, order[..k]);
    assert (ids + [order[k]])[..|ids|] == ids;
  }

  lemma TriedOrderNext(info: map<int, Entry>, order: seq<int>, k: nat)
    requires Enumerates(order, info) && k < |order|
    ensures var ids, id := TriedOrder(info, order[..k]), order[k];
      id in info && SaveAll(info, TriedOrder(info, order[..k + 1]))
        == SaveAll(info, ids) + (if info[id].fInTried then [Save(info[id])] else [])
  {
    assert order[..k + 1][..k] == order[..k];
    EnumeratedAt(info, order, k);
    var ids := TriedOrder(info, order[..k]);
    assert TriedOrder(info, order[..k + 1]) == if info[order[k]].fInTried then ids + [order[k]] else ids;
    assert (ids + [order[k]])[..|ids|] == ids;
  }

  lemma OrderCounts(h: Config, b: Book, order: seq<int>)
    requires CountsOk(b.info, b.vvNew, {}) && Enumerates(order, b.info)
    ensures |NewOrder(b.info, order)| == |NewIds(b.info)| && |TriedOrder(b.info, order)| == |TriedIds(b.info)|
  {
    OrdersDistinct(h, b, order);
    forall id | id in NewIds(b.info) ensures id in NewOrder(b.info, order) {}
    forall id | id in TriedIds(b.info) ensures id in TriedOrder(b.info, order) {}
    DistinctSize(NewOrder(b.info, order));
    DistinctSize(TriedOrder(b.info, order));
    assert SetOf(NewOrder(b.info, order)) == NewIds(b.info) && SetOf(TriedOrder(b.info, order)) == TriedIds(b.info);
  }

  /** `mapUnkIds` gives each of `news` its index. */
  ghost predicate Indexes(news: seq<int>, mapUnkIds: map<int, int>) {
    forall x :: x in news ==> x in mapUnkIds && mapUnkIds[x] == IndexOf(news, x)
  }

  lemma IndexesNext(news: seq<int>, mapUnkIds: map<int, int>, id: int)
    requires Indexes(news, mapUnkIds) && id !in news
    ensures Indexes(news, mapUnkIds[id := |news|]) && Indexes(news + [id], mapUnkIds[id := |news|])
  {
    IndexOfNext(news, id);
  }

  lemma Indexed(news: seq<int>, mapUnkIds: map<int, int>, id: int)
    requires id in news && Indexes(news, mapUnkIds)
    ensures id in mapUnkIds && mapUnkIds[id] == IndexOf(news, id)
  {
  }

  lemma RandomAppend(mapInfo: map<int, AddrInfo>, vRandom: seq<int>, id: int, e: Entry)
    requires RandomOk(mapInfo, vRandom) && id !in mapInfo
    ensures RandomOk(mapInfo[id := AddrInfo(e, |vRandom|)], vRandom + [id])
  {
  }

  /** The slots of `id` in the buckets below `bucket`. */
  function SlotsBelow(vvNew: Table, id: int, bucket: nat): set<Slot> {
    set s | s in Slots(vvNew, id) && s.bucket < bucket
  }

  lemma SlotsBelowNext(h: Config, vvNew: Table, id: int, addr: Service, bucket: nat)
    requires forall s :: s in vvNew && vvNew[s] == id ==> NewPlaceOk(h, addr, s)
    ensures var s := Slot(bucket, h.Position(addr, true, bucket));
      SlotsBelow(vvNew, id, bucket + 1)
        == if s in vvNew && vvNew[s] == id then SlotsBelow(vvNew, id, bucket) + {s} else SlotsBelow(vvNew, id, bucket)
  {
    var s := Slot(bucket, h.Position(addr, true, bucket));
    forall t | t in SlotsBelow(vvNew, id, bucket + 1) && t !in SlotsBelow(vvNew, id, bucket) ensures t == s {
      assert NewPlaceOk(h, addr, t);
    }
  }

  /** The stochastic test of Add_: with N references it passes for one random number in 2^N. */
  predicate Lucky(nRefCount: int, rnd: nat) {
    rnd % Two(if nRefCount < 0 then 0 else nRefCount) == 0
  }

  function RefCountOf(b: Book, ip: NetAddr): int {
    if ip in b.mapAddr && b.mapAddr[ip] in b.info then b.info[b.mapAddr[ip]].nRefCount else 0
  }

  lemma AddReady(h: Config, b: Book)
    requires Core(h, b, {})
    ensures b.nIdCount !in b.info
    ensures forall s :: HolderOk(b, s) && (s in b.vvNew ==> b.vvNew[s] != b.nIdCount)
  {
    forall s ensures HolderOk(b, s) && (s in b.vvNew ==> b.vvNew[s] != b.nIdCount) {
      HolderCounted(h, b, s, {});
    }
  }

  function Limit(nodes: nat, maxAddresses: nat, maxPct: nat): nat {
    var limit := if maxPct != 0 then maxPct * nodes / 100 else nodes;
    if maxAddresses != 0 && maxAddresses < limit then maxAddresses else limit
  }

  /** vRandom lists every entry exactly once. */
  lemma {:induction false} RandomCount(mapInfo: map<int, AddrInfo>, vRandom: seq<int>)
    requires RandomOk(mapInfo, vRandom)
    ensures |vRandom| == |mapInfo|
    decreases |vRandom|
  {
    if |vRandom| > 0 {
      var id := vRandom[|vRandom| - 1];
      RandomCount(mapInfo - {id}, vRandom[..|vRandom| - 1]);
      assert (mapInfo - {id}).Keys == mapInfo.Keys - {id};
    } else {
      assert forall id :: id !in mapInfo;
      assert mapInfo == map[];
    }
  }

  /** An entry that GetAddr_ may hand out; `wanted` is its network filter. */
  predicate Presentable(e: Entry, wanted: NetAddr -> bool, now: int) {
    wanted(e.addr.ip) && !e.IsTerrible(now)
  }

  function Picked(info: map<int, Entry>, v: seq<int>, wanted: NetAddr -> bool, now: int): seq<int> {
    if v == [] then [] else
      var id := v[|v| - 1];
      Picked(info, v[..|v| - 1], wanted, now) + if id in info && Presentable(info[id], wanted, now) then [id] else []
  }

  lemma PickedNext(info: map<int, Entry>, v: seq<int>, n: nat, wanted: NetAddr -> bool, now: int)
    requires n < |v| && v[n] in info
    ensures Picked(info, v[..n + 1], wanted, now)
      == Picked(info, v[..n], wanted, now) + if Presentable(info[v[n]], wanted, now) then [v[n]] else []
  {
    assert v[..n + 1][..n] == v[..n];
  }

  lemma {:induction false} PickedProps(info: map<int, Entry>, v: seq<int>, wanted: NetAddr -> bool, now: int)
    requires forall i, j :: 0 <= i < j < |v| ==> v[i] != v[j]
    ensures var picked := Picked(info, v, wanted, now);
      && (forall id :: id in picked <==> id in v && id in info && Presentable(info[id], wanted, now))
      && (forall i, j :: 0 <= i < j < |picked| ==> picked[i] != picked[j])
  {
    if v != [] {
      PickedProps(info, v[..|v| - 1], wanted, now);
      assert v == v[..|v| - 1] + [v[|v| - 1]];
    }
  }

  /** The position an entry names in vRandom names it. */
  predicate RandomHere(mapInfo: map<int, AddrInfo>, vRandom: seq<int>, id: int)
    requires id in mapInfo
  {
    0 <= mapInfo[id].nRandomPos < |vRandom| && vRandom[mapInfo[id].nRandomPos] == id
  }

  /** A list as long as there are entries that holds each where it says holds nothing else. */
  lemma RandomBack(mapInfo: map<int, AddrInfo>, vRandom: seq<int>)
    requires |vRandom| == |mapInfo| && forall id :: id in mapInfo ==> RandomHere(mapInfo, vRandom, id)
    ensures RandomOk(mapInfo, vRandom)
  {
    forall id | id in mapInfo ensures id in SetOf(vRandom) {
      assert RandomHere(mapInfo, vRandom, id);
    }
    DistinctSize(vRandom);
    SubsetSize(mapInfo.Keys, SetOf(vRandom));
    forall i | 0 <= i < |vRandom| ensures vRandom[i] in mapInfo && mapInfo[vRandom[i]].nRandomPos == i {
      assert vRandom[i] in SetOf(vRandom);
      assert RandomHere(mapInfo, vRandom, vRandom[i]);
    }
    forall id | id in mapInfo ensures 0 <= mapInfo[id].nRandomPos < |vRandom| && vRandom[mapInfo[id].nRandomPos] == id {
      assert RandomHere(mapInfo, vRandom, id);
    }
  }

  lemma AllIds(mapInfo: map<int, AddrInfo>)
    ensures |mapInfo| == |NewIds(Entries(mapInfo))| + |TriedIds(Entries(mapInfo))|
  {
    var news, tried := NewIds(Entries(mapInfo)), TriedIds(Entries(mapInfo));
    assert mapInfo.Keys == news + tried && news !! tried;
  }

  /** The first loop of Check_ after `ids`: which entries passed, and what it has collected. */
  ghost predicate Sorted(info: map<int, Entry>, ids: seq<int>, setTried: set<int>, mapNew: map<int, int>) {
    && (forall id :: id in setTried <==> id in ids && id in info && info[id].fInTried)
    && (forall id :: id in mapNew <==> id in ids && id in info && !info[id].fInTried)
    && (forall id :: id in mapNew ==> mapNew[id] == info[id].nRefCount)
  }

  lemma SortedNext(info: map<int, Entry>, ids: seq<int>, setTried: set<int>, mapNew: map<int, int>, id: int)
    requires Sorted(info, ids, setTried, mapNew) && id in info
    ensures info[id].fInTried ==> Sorted(info, ids + [id], setTried + {id}, mapNew)
    ensures !info[id].fInTried ==> Sorted(info, ids + [id], setTried, mapNew[id := info[id].nRefCount])
  {
  }

  lemma SortedAll(h: Config, info: map<int, Entry>, vvNew: Table, vvTried: Table, order: seq<int>, setTried: set<int>,
                  mapNew: map<int, int>)
    requires Enumerates(order, info) && Sorted(info, order, setTried, mapNew)
    requires forall id :: id in info && !info[id].fInTried ==> info[id].nRefCount > 0
    ensures setTried == TriedIds(info) == TriedLeft(info, vvTried, Seen(0))
    ensures mapNew.Keys == NewIds(info) && mapNew == NewLeft(info, vvNew, Seen(0))
  {
    NothingSeen(h, info, vvNew, vvTried);
    hide NewLeft;
    hide TriedLeft;
    hide Seen;
    var left := NewLeft(info, vvNew, Seen(0));
    forall id ensures (id in setTried <==> id in TriedIds(info)) && (id in mapNew <==> id in NewIds(info)) {
      assert id in order <==> id in info;
    }
    assert mapNew.Keys == NewIds(info) == left.Keys;
    forall id | id in mapNew ensures mapNew[id] == left[id] {
      assert id in NewIds(info);
    }
  }

  /** What the first loop of Check_ asks of the entry `id`. */
  predicate Passes(mapInfo: map<int, AddrInfo>, vRandom: seq<int>, mapAddr: map<NetAddr, int>, id: int)
    requires id in mapInfo
  {
    EntrySound(mapAddr, id, mapInfo[id].e) && RandomHere(mapInfo, vRandom, id)
  }

  ghost predicate AllPass(mapInfo: map<int, AddrInfo>, vRandom: seq<int>, mapAddr: map<NetAddr, int>, ids: seq<int>) {
    forall id :: id in ids ==> id in mapInfo && Passes(mapInfo, vRandom, mapAddr, id)
  }

  ghost predicate AllKnown(mapInfo: map<int, AddrInfo>, mapAddr: map<NetAddr, int>, ids: seq<int>) {
    forall id :: id in ids ==> id in mapInfo && mapInfo[id].e.addr.ip in mapAddr
  }

  lemma AllPassNext(mapInfo: map<int, AddrInfo>, vRandom: seq<int>, mapAddr: map<NetAddr, int>, ids: seq<int>, id: int)
    requires AllPass(mapInfo, vRandom, mapAddr, ids) && id in mapInfo
    ensures AllPass(mapInfo, vRandom, mapAddr, ids + [id]) <==> Passes(mapInfo, vRandom, mapAddr, id)
  {
    hide Passes;
    assert id in ids + [id];
  }

  lemma AllKnownNext(mapInfo: map<int, AddrInfo>, mapAddr: map<NetAddr, int>, ids: seq<int>, id: int)
    requires AllKnown(mapInfo, mapAddr, ids) && id in mapInfo
    ensures AllKnown(mapInfo, Touched(mapAddr, mapInfo[id].e.addr.ip), ids + [id])
  {
  }

  lemma AllListed(mapInfo: map<int, AddrInfo>, vRandom: seq<int>, mapAddr: map<NetAddr, int>,
                  mapAddr': map<NetAddr, int>, order: seq<int>)
    requires Enumerates(order, Entries(mapInfo))
    ensures AllPass(mapInfo, vRandom, mapAddr, order) <==> forall id :: id in mapInfo ==>
      Passes(mapInfo, vRandom, mapAddr, id)
    ensures AllKnown(mapInfo, mapAddr', order) ==> forall id :: id in mapInfo ==> mapInfo[id].e.addr.ip in mapAddr'
  {
    hide Passes;
    assert forall id :: id in mapInfo <==> id in order;
  }

  /** Inserting zeros for missing addresses does not change the verdict on an entry. */
  lemma PassesStill(mapInfo: map<int, AddrInfo>, vRandom: seq<int>, before: map<NetAddr, int>,
                    after: map<NetAddr, int>, id: int)
    requires OnlyInserted(Entries(mapInfo), before, after) && id in mapInfo
    ensures Passes(mapInfo, vRandom, after, id) <==> Passes(mapInfo, vRandom, before, id)
  {
    InsertedLooked(Entries(mapInfo), before, after, mapInfo[id].e.addr.ip);
  }

  lemma SortedNothing(info: map<int, Entry>)
    ensures Sorted(info, [], {}, map[])
  {
  }

  lemma NextSlot(n: nat)
    ensures SlotAt(n) !in Seen(n) && Seen(n + 1) == Seen(n) + {SlotAt(n)}
  {
    SlotAtNew(n, n);
  }

  lemma PassesIff(mapInfo: map<int, AddrInfo>, vRandom: seq<int>, mapAddr: map<NetAddr, int>)
    requires |vRandom| == |mapInfo| || RandomOk(mapInfo, vRandom)
    ensures (forall id :: id in mapInfo ==> Passes(mapInfo, vRandom, mapAddr, id)) <==>
      RandomOk(mapInfo, vRandom)
        && forall id :: id in Entries(mapInfo) ==> EntrySound(mapAddr, id, Entries(mapInfo)[id])
  {
    hide EntrySound;
    forall id ensures id in Entries(mapInfo) <==> id in mapInfo {
      EntryAt(mapInfo, id);
    }
    if RandomOk(mapInfo, vRandom) {
      forall id | id in mapInfo ensures RandomHere(mapInfo, vRandom, id) {
        RandomAt(mapInfo, vRandom, id);
      }
    } else if forall id :: id in mapInfo ==> Passes(mapInfo, vRandom, mapAddr, id) {
      forall id | id in mapInfo ensures RandomHere(mapInfo, vRandom, id) {
        assert Passes(mapInfo, vRandom, mapAddr, id);
      }
      RandomBack(mapInfo, vRandom);
    }
  }

  /** Entries that pass have references where they should. */
  lemma PassReferenced(mapInfo: map<int, AddrInfo>, vRandom: seq<int>, mapAddr: map<NetAddr, int>)
    requires forall id :: id in mapInfo ==> Passes(mapInfo, vRandom, mapAddr, id)
    ensures forall id :: id in Entries(mapInfo) && !Entries(mapInfo)[id].fInTried ==> Entries(mapInfo)[id].nRefCount > 0
  {
    forall id | id in Entries(mapInfo) && !Entries(mapInfo)[id].fInTried ensures Entries(mapInfo)[id].nRefCount > 0 {
      assert Passes(mapInfo, vRandom, mapAddr, id);
    }
  }

  /** Entries that pass are found once their addresses are inserted. */
  lemma PassFound(mapInfo: map<int, AddrInfo>, vRandom: seq<int>, before: map<NetAddr, int>, b: Book, id: int)
    requires id in mapInfo && Passes(mapInfo, vRandom, before, id) && b.info == Entries(mapInfo)
    requires OnlyInserted(b.info, before, b.mapAddr) && mapInfo[id].e.addr.ip in b.mapAddr
    ensures Finds(b, mapInfo[id].e.addr)
  {
    EntryAt(mapInfo, id);
    InsertedLooked(b.info, before, b.mapAddr, mapInfo[id].e.addr.ip);
  }

  /** The entries are numbered from zero. */
  ghost predicate Numbered(info: map<int, Entry>, n: int) { forall id :: id in info <==> 0 <= id < n }

  lemma NumberedNext(info: map<int, Entry>, n: nat, e: Entry)
    requires Numbered(info, n)
    ensures n !in info && Numbered(info[n := e], n + 1)
  {
  }

  lemma NoneNumbered(infos: seq<Saved>)
    ensures Numbered(EMPTY.info, 0) && LoadAllNew(EMPTY, infos[..0]) == EMPTY
  {
  }

  lemma LoadAllNewNext(infos: seq<Saved>, n: nat)
    requires n < |infos|
    ensures LoadAllNew(EMPTY, infos[..n + 1]) == LoadNew(LoadAllNew(EMPTY, infos[..n]), infos[n])
  {
    assert infos[..n + 1][..n] == infos[..n];
  }

  class AddrMan {
    const config: Config
    const nKey: nat
    var mapInfo: map<int, AddrInfo>
    var mapAddr: map<NetAddr, int>
    var vRandom: seq<int>
    var vvNew: Table
    var vvTried: Table
    var nNew: int
    var nTried: int
    var nIdCount: int
    var nLastGood: int
    var collisions: set<int>

    ghost function Abs(): Book
      reads this
    {
      Book(Entries(mapInfo), mapAddr, vvNew, vvTried, collisions, nIdCount, nLastGood)
    }

    /** How far the counters are ahead of what they count. */
    ghost function NewLead(): int reads this { nNew - |NewIds(Entries(mapInfo))| }
    ghost function TriedLead(): int reads this { nTried - |TriedIds(Entries(mapInfo))| }

    ghost predicate Valid()
      reads this
    {
      RandomOk(mapInfo, vRandom) && NewLead() == 0 && TriedLead() == 0 && Consistent(config, Abs())
    }

    /** What Check_ tests, apart from the key. */
    ghost predicate Checks()
      reads this
    {
      RandomOk(mapInfo, vRandom) && NewLead() == 0 && TriedLead() == 0 && BookSound(config, Abs())
    }

    lemma ValidChecks()
      requires Valid()
      ensures Checks()
    {
      ConsistentSound(config, Abs());
    }

    /** Clear; the hashes in `config` are those under the key `nKey`. */
    constructor (config: Config, nKey: nat)
      ensures Valid() && Abs() == EMPTY && this.config == config && this.nKey == nKey
    {
      this.config, this.nKey := config, nKey;
      mapInfo, mapAddr, vRandom, vvNew, vvTried := map[], map[], [], map[], map[];
      nNew, nTried, nIdCount, nLastGood, collisions := 0, 0, 0, 1, {};
      new;
      EmptyOk(config);
      assert Abs() == EMPTY;
    }

    /** The tests of one entry. The look-up of its address inserts it if it is missing. */
    method CheckEntry(n: int) returns (err: int)
      requires n in mapInfo
      modifies this`mapAddr
      ensures err == 0 <==> Passes(mapInfo, vRandom, old(mapAddr), n)
      ensures mapAddr == old(mapAddr) || mapAddr == Touched(old(mapAddr), mapInfo[n].e.addr.ip)
      ensures err == 0 ==> mapInfo[n].e.addr.ip in mapAddr
      ensures err > -9 || err == -14
    {
      var info := mapInfo[n].e;
      if info.fInTried {
        if info.nLastSuccess == 0 {
          return -1;
        }
        if info.nRefCount != 0 {
          return -2;
        }
      } else {
        if info.nRefCount < 0 || info.nRefCount > NEW_BUCKETS_PER_ADDRESS {
          return -3;
        }
        if info.nRefCount == 0 {
          return -4;
        }
      }
      mapAddr := Touched(mapAddr, info.addr.ip);
      if mapAddr[info.addr.ip] != n {
        return -5;
      }
      var pos := mapInfo[n].nRandomPos;
      if pos < 0 || pos >= |vRandom| || vRandom[pos] != n {
        return -14;
      }
      if info.nLastTry < 0 {
        return -6;
      }
      if info.nLastSuccess < 0 {
        return -8;
      }
      err := 0;
    }

    /** The loop over the entries, in the order `order` of the map. */
    method CheckEntries(order: seq<int>) returns (err: int, setTried: set<int>, mapNew: map<int, int>)
      requires Enumerates(order, Entries(mapInfo))
      modifies this`mapAddr
      ensures OnlyInserted(Entries(mapInfo), old(mapAddr), mapAddr)
      ensures err == 0 <==> forall id :: id in mapInfo ==> Passes(mapInfo, vRandom, old(mapAddr), id)
      ensures err == 0 ==> Sorted(Entries(mapInfo), order, setTried, mapNew)
      ensures err == 0 ==> forall id :: id in mapInfo ==> mapInfo[id].e.addr.ip in mapAddr
      ensures err > -9 || err == -14
    {
      hide Passes;
      hide Sorted;
      hide OnlyInserted;
      hide Entries;
      ghost var info := Entries(mapInfo);
      InsertedNothing(info, mapAddr);
      SortedNothing(info);
      setTried, mapNew := {}, map[];
      for k := 0 to |order|
        invariant OnlyInserted(info, old(mapAddr), mapAddr) && Sorted(info, order[..k], setTried, mapNew)
        invariant AllPass(mapInfo, vRandom, old(mapAddr), order[..k]) && AllKnown(mapInfo, mapAddr, order[..k])
      {
        var n := order[k];
        EnumeratedAt(info, order, k);
        EntryAt(mapInfo, n);
        assert order[..k + 1] == order[..k] + [n];
        PassesStill(mapInfo, vRandom, old(mapAddr), mapAddr, n);
        InsertedMore(info, old(mapAddr), mapAddr, n);
        SortedNext(info, order[..k], setTried, mapNew, n);
        AllPassNext(mapInfo, vRandom, old(mapAddr), order[..k], n);
        AllKnownNext(mapInfo, mapAddr, order[..k], n);
        err := CheckEntry(n);
        if err != 0 {
          return;
        }
        if mapInfo[n].e.fInTried {
          setTried := setTried + {n};
        } else {
          mapNew := mapNew[n := mapInfo[n].e.nRefCount];
        }
      }
      assert order[..|order|] == order;
      AllListed(mapInfo, vRandom, old(mapAddr), mapAddr, order);
      err := 0;
    }

    /** The loop over the tried table. */
    method CheckTried(setTried: set<int>) returns (err: int, left: set<int>)
      requires setTried == TriedIds(Entries(mapInfo)) == TriedLeft(Entries(mapInfo), vvTried, Seen(0))
      requires TriedFair(config, Entries(mapInfo), vvTried, Seen(0))
      ensures err in {0, -11, -17, -18}
      ensures err == 0 <==> TriedFair(config, Entries(mapInfo), vvTried, Seen(TRIED_SLOTS))
      ensures err == 0 ==> left == TriedLeft(Entries(mapInfo), vvTried, Seen(TRIED_SLOTS))
    {
      hide TriedFair;
      hide TriedLeft;
      hide Seen;
      hide SlotAt;
      hide Entries;
      ghost var info := Entries(mapInfo);
      left := setTried;
      for bucket := 0 to TRIED_BUCKET_COUNT
        invariant TriedFair(config, info, vvTried, Seen(bucket * BUCKET_SIZE))
        invariant left == TriedLeft(info, vvTried, Seen(bucket * BUCKET_SIZE))
      {
        for i := 0 to BUCKET_SIZE
          invariant TriedFair(config, info, vvTried, Seen(bucket * BUCKET_SIZE + i))
          invariant left == TriedLeft(info, vvTried, Seen(bucket * BUCKET_SIZE + i))
        {
          ghost var n := bucket * BUCKET_SIZE + i;
          SlotAtIs(bucket, i);
          NextSlot(n);
          TriedStep(config, info, vvTried, Seen(n), Slot(bucket, i));
          err := CheckTriedSlot(bucket, i, left, Seen(n));
          if err != 0 {
            TriedUnfair(config, info, vvTried, n + 1, TRIED_SLOTS);
            return;
          }
          if Slot(bucket, i) in vvTried {
            left := left - {vvTried[Slot(bucket, i)]};
          }
        }
      }
      err := 0;
    }

    method CheckTriedSlot(n: nat, i: nat, left: set<int>, ghost seen: set<Slot>) returns (err: int)
      requires left == TriedLeft(Entries(mapInfo), vvTried, seen)
      ensures err in {0, -11, -17, -18}
      ensures err == 0 <==> TriedPasses(config, Entries(mapInfo), vvTried, seen, Slot(n, i))
    {
      var s := Slot(n, i);
      if s in vvTried {
        if vvTried[s] !in left {
          return -11;
        }
        var addr := mapInfo[vvTried[s]].e.addr;
        if config.TriedSlot(addr).bucket != n {
          return -17;
        }
        if config.Position(addr, false, n) != i {
          return -18;
        }
      }
      err := 0;
    }

    /** The loop over the new table. */
    method CheckNew(mapNew: map<int, int>) returns (err: int, left: map<int, int>)
      requires mapNew == NewLeft(Entries(mapInfo), vvNew, Seen(0)) && NewFair(config, Entries(mapInfo), vvNew, Seen(0))
      ensures err in {0, -12, -19}
      ensures err == 0 <==> NewFair(config, Entries(mapInfo), vvNew, Seen(NEW_SLOTS))
      ensures err == 0 ==> left == NewLeft(Entries(mapInfo), vvNew, Seen(NEW_SLOTS))
    {
      hide NewFair;
      hide NewLeft;
      hide Seen;
      hide SlotAt;
      hide Entries;
      ghost var info := Entries(mapInfo);
      left := mapNew;
      for bucket := 0 to NEW_BUCKET_COUNT
        invariant NewFair(config, info, vvNew, Seen(bucket * BUCKET_SIZE))
        invariant left == NewLeft(info, vvNew, Seen(bucket * BUCKET_SIZE))
      {
        for i := 0 to BUCKET_SIZE
          invariant NewFair(config, info, vvNew, Seen(bucket * BUCKET_SIZE + i))
          invariant left == NewLeft(info, vvNew, Seen(bucket * BUCKET_SIZE + i))
        {
          ghost var n := bucket * BUCKET_SIZE + i;
          SlotAtIs(bucket, i);
          NextSlot(n);
          NewStep(config, info, vvNew, Seen(n), Slot(bucket, i));
          err, left := CheckNewSlot(bucket, i, left, Seen(n));
          if err != 0 {
            NewUnfair(config, info, vvNew, n + 1, NEW_SLOTS);
            return;
          }
        }
      }
      err := 0;
    }

    method CheckNewSlot(n: nat, i: nat, left: map<int, int>, ghost seen: set<Slot>)
      returns (err: int, left': map<int, int>)
      requires left == NewLeft(Entries(mapInfo), vvNew, seen) && n < NEW_BUCKET_COUNT
      ensures err in {0, -12, -19}
      ensures err == 0 <==> NewPasses(config, Entries(mapInfo), vvNew, seen, Slot(n, i))
      ensures err == 0 ==> left' == if Slot(n, i) in vvNew then Reduced(left, vvNew[Slot(n, i)]) else left
    {
      hide SeenSlots;
      var s := Slot(n, i);
      left' := left;
      if s in vvNew {
        var id := vvNew[s];
        if id !in left {
          return -12, left';
        }
        if config.Position(mapInfo[id].e.addr, true, n) != i {
          return -19, left';
        }
        left' := left[id := left[id] - 1];
        if left'[id] == 0 {
          left' := left' - {id};
        }
        assert left' == Reduced(left, id);
      }
      err := 0;
    }

    /** Where every address is known there is nothing to insert. */
    lemma ValidUnchanged(b: Book)
      requires b.info == Entries(mapInfo) && OnlyInserted(b.info, b.mapAddr, mapAddr)
      ensures Consistent(config, b) ==> mapAddr == b.mapAddr
    {
      if Consistent(config, b) {
        InsertedNone(b.info, b.mapAddr, mapAddr);
      }
    }

    /** Check_'s tests one by one. */
    lemma ChecksIff()
      requires InTable(vvNew, NEW_BUCKET_COUNT) && InTable(vvTried, TRIED_BUCKET_COUNT)
      ensures var info := Entries(mapInfo);
        Checks() <==>
        && |vRandom| == nTried + nNew
        && (forall id :: id in mapInfo ==> Passes(mapInfo, vRandom, mapAddr, id))
        && |TriedIds(info)| == nTried && |NewIds(info)| == nNew
        && TriedFair(config, info, vvTried, Seen(TRIED_SLOTS)) && TriedLeft(info, vvTried, Seen(TRIED_SLOTS)) == {}
        && NewFair(config, info, vvNew, Seen(NEW_SLOTS)) && NewLeft(info, vvNew, Seen(NEW_SLOTS)) == map[]
    {
      SoundIff(config, Abs());
      AllIds(mapInfo);
      ChecksIs();
      hide *;
      if RandomOk(mapInfo, vRandom) {
        RandomCount(mapInfo, vRandom);
      }
      if |vRandom| == |mapInfo| {
        PassesIff(mapInfo, vRandom, mapAddr);
      }
    }

    lemma AbsIs()
      ensures Abs() == Book(Entries(mapInfo), mapAddr, vvNew, vvTried, collisions, nIdCount, nLastGood)
      ensures Valid() ==> Consistent(config, Abs())
    {
    }

    lemma ChecksIs()
      ensures Checks() <==>
        RandomOk(mapInfo, vRandom) && |TriedIds(Entries(mapInfo))| == nTried && |NewIds(Entries(mapInfo))| == nNew
                            && BookSound(config, Abs())
      ensures Abs().info == Entries(mapInfo) && Abs().mapAddr == mapAddr && Abs().vvNew == vvNew
              && Abs().vvTried == vvTried
    {
      hide RandomOk;
      hide NewIds;
      hide TriedIds;
      hide BookSound;
    }

    /** Check_ returns zero exactly when the random list, the counters, the entries and the tables are as they should
        be and the key is not null. It may insert missing addresses; on a valid manager it changes nothing. */
    method Check_(order: seq<int>) returns (err: int)
      requires Enumerates(order, Entries(mapInfo))
      requires InTable(vvNew, NEW_BUCKET_COUNT) && InTable(vvTried, TRIED_BUCKET_COUNT)
      modifies this`mapAddr
      ensures err == 0 <==> old(Checks()) && nKey != 0
      ensures err == -16 <==> old(Checks()) && nKey == 0
      ensures OnlyInserted(Entries(mapInfo), old(mapAddr), mapAddr)
      ensures old(Checks()) ==> forall id :: id in mapInfo ==> Finds(Abs(), mapInfo[id].e.addr)
      ensures old(Valid()) ==> Abs() == old(Abs())
    {
      hide *;
      AbsIs();
      ghost var b := Abs();
      ChecksIff();
      AllIds(mapInfo);
      InsertedNothing(b.info, mapAddr);
      if |vRandom| != nTried + nNew {
        return -7;
      }
      var setTried, mapNew;
      err, setTried, mapNew := CheckEntries(order);
      ValidUnchanged(b);
      AbsIs();
      if err != 0 {
        return;
      }
      PassReferenced(mapInfo, vRandom, old(mapAddr));
      SortedAll(config, Entries(mapInfo), vvNew, vvTried, order, setTried, mapNew);
      NothingSeen(config, Entries(mapInfo), vvNew, vvTried);
      forall id | id in mapInfo ensures Finds(Abs(), mapInfo[id].e.addr) {
        PassFound(mapInfo, vRandom, old(mapAddr), Abs(), id);
      }
      if |setTried| != nTried {
        return -9;
      }
      if |mapNew| != nNew {
        return -10;
      }
      var triedLeft, newLeft;
      err, triedLeft := CheckTried(setTried);
      if err != 0 {
        return;
      }
      err, newLeft := CheckNew(mapNew);
      if err != 0 {
        return;
      }
      if |triedLeft| != 0 {
        return -13;
      }
      if |newLeft| != 0 {
        return -15;
      }
      if nKey == 0 {
        return -16;
      }
      err := 0;
    }

    method Find(ip: NetAddr) returns (found: bool, id: int)
      requires AddrOk(Entries(mapInfo), mapAddr)
      ensures found <==> ip in mapAddr
      ensures found ==> id == mapAddr[ip] && id in mapInfo && mapInfo[id].e.addr.ip == ip
    {
      if ip !in mapAddr {
        return false, 0;
      }
      id := mapAddr[ip];
      found := id in mapInfo;
    }

    /** Find, and the test for the same port. */
    method FindExact(addr: Service) returns (found: bool, id: int)
      requires AddrOk(Entries(mapInfo), mapAddr)
      ensures found <==> Finds(Abs(), addr)
      ensures found ==> id == mapAddr[addr.ip] && id in mapInfo && mapInfo[id].e == Abs().info[id]
    {
      found, id := Find(addr.ip);
      if found {
        assert Abs().info[id] == mapInfo[id].e;
        found := mapInfo[id].e.addr == addr;
      }
    }

    method SwapRandom(nRndPos1: nat, nRndPos2: nat)
      requires RandomOk(mapInfo, vRandom)
      requires nRndPos1 < |vRandom| && nRndPos2 < |vRandom|
      modifies this`mapInfo, this`vRandom
      ensures RandomOk(mapInfo, vRandom) && Entries(mapInfo) == old(Entries(mapInfo))
      ensures vRandom == Swapped(old(vRandom), nRndPos1, nRndPos2)
    {
      if nRndPos1 == nRndPos2 {
        return;
      }
      var nId1, nId2 := vRandom[nRndPos1], vRandom[nRndPos2];
      mapInfo := mapInfo[nId1 := mapInfo[nId1].(nRandomPos := nRndPos2)];
      mapInfo := mapInfo[nId2 := mapInfo[nId2].(nRandomPos := nRndPos1)];
      vRandom := vRandom[nRndPos1 := nId2];
      vRandom := vRandom[nRndPos2 := nId1];
    }

    method Delete(nId: int)
      requires RandomOk(mapInfo, vRandom)
      requires nId in mapInfo && !mapInfo[nId].e.fInTried && mapInfo[nId].e.nRefCount == 0
      modifies this`mapInfo, this`vRandom, this`mapAddr, this`nNew
      ensures RandomOk(mapInfo, vRandom) && Abs() == Deleted(old(Abs()), nId)
      ensures NewLead() == old(NewLead()) && TriedLead() == old(TriedLead())
    {
      hide RandomOk;
      hide Entries;
      hide NewIds;
      hide TriedIds;
      EntryAt(mapInfo, nId);
      RandomAt(mapInfo, vRandom, nId);
      SwapRandom(mapInfo[nId].nRandomPos, |vRandom| - 1);
      EntryAt(mapInfo, nId);
      CountsRemove(Entries(mapInfo), nId);
      RandomRemove(mapInfo, vRandom, nId);
      EntriesRemove(mapInfo, nId);
      vRandom := vRandom[..|vRandom| - 1];
      mapAddr := mapAddr - {mapInfo[nId].e.addr.ip};
      mapInfo := mapInfo - {nId};
      nNew := nNew - 1;
    }

    /** Store new statistics or a new place for an entry that stays in vRandom where it is. */
    method SetEntry(nId: int, e: Entry)
      requires RandomOk(mapInfo, vRandom) && nId in mapInfo
      modifies this`mapInfo
      ensures RandomOk(mapInfo, vRandom) && nId in mapInfo
      ensures Entries(mapInfo) == old(Entries(mapInfo))[nId := e]
      ensures e.fInTried == old(mapInfo)[nId].e.fInTried ==>
        NewLead() == old(NewLead()) && TriedLead() == old(TriedLead())
      ensures e.fInTried && !old(mapInfo)[nId].e.fInTried ==>
        NewLead() == old(NewLead()) + 1 && TriedLead() == old(TriedLead()) - 1
      ensures !e.fInTried && old(mapInfo)[nId].e.fInTried ==>
        NewLead() == old(NewLead()) - 1 && TriedLead() == old(TriedLead()) + 1
    {
      CountsPut(Entries(mapInfo), nId, e);
      EntriesPut(mapInfo, nId, mapInfo[nId].(e := e));
      RandomTouched(mapInfo, vRandom, nId, e);
      mapInfo := mapInfo[nId := mapInfo[nId].(e := e)];
    }

    method ClearNew(s: Slot)
      requires RandomOk(mapInfo, vRandom) && HolderOk(Abs(), s)
      modifies this`mapInfo, this`vRandom, this`mapAddr, this`nNew, this`vvNew
      ensures RandomOk(mapInfo, vRandom) && Abs() == ClearedNew(old(Abs()), s)
      ensures NewLead() == old(NewLead()) && TriedLead() == old(TriedLead())
    {
      hide RandomOk;
      hide Entries;
      hide NewIds;
      hide TriedIds;
      if s in vvNew {
        var nIdDelete := vvNew[s];
        EntryAt(mapInfo, nIdDelete);
        var e := mapInfo[nIdDelete].e;
        assert e.nRefCount > 0;
        SetEntry(nIdDelete, e.(nRefCount := e.nRefCount - 1));
        vvNew := vvNew - {s};
        EntryAt(mapInfo, nIdDelete);
        if mapInfo[nIdDelete].e.nRefCount == 0 {
          Delete(nIdDelete);
        }
      }
    }

    /** The first loop of MakeTried: take `nId` out of every new bucket, counting. */
    method Unlink(nId: int, addr: Service) returns (removed: nat)
      requires forall s :: s in vvNew && vvNew[s] == nId ==> NewPlaceOk(config, addr, s)
      modifies this`vvNew
      ensures vvNew == old(vvNew) - Slots(old(vvNew), nId) && removed == |Slots(old(vvNew), nId)|
    {
      ghost var table := vvNew;
      removed := 0;
      assert table - SlotsBelow(table, nId, 0) == table;
      for bucket := 0 to NEW_BUCKET_COUNT
        invariant vvNew == table - SlotsBelow(table, nId, bucket)
        invariant removed == |SlotsBelow(table, nId, bucket)|
      {
        SlotsBelowNext(config, table, nId, addr, bucket);
        var s := Slot(bucket, config.Position(addr, true, bucket));
        assert s !in SlotsBelow(table, nId, bucket);
        if s in vvNew && vvNew[s] == nId {
          vvNew := vvNew - {s};
          removed := removed + 1;
        }
      }
      assert SlotsBelow(table, nId, NEW_BUCKET_COUNT) == Slots(table, nId);
    }

    method RemoveFromNew(nId: int)
      requires RandomOk(mapInfo, vRandom) && nId in mapInfo
      requires mapInfo[nId].e.nRefCount == |Slots(vvNew, nId)|
      requires forall s :: s in vvNew && vvNew[s] == nId ==> NewPlaceOk(config, mapInfo[nId].e.addr, s)
      modifies this`mapInfo, this`vvNew
      ensures RandomOk(mapInfo, vRandom) && nId in mapInfo && Abs() == RemovedFromNew(old(Abs()), nId)
      ensures NewLead() == old(NewLead()) && TriedLead() == old(TriedLead())
    {
      hide RandomOk;
      hide Entries;
      hide NewIds;
      hide TriedIds;
      EntryAt(mapInfo, nId);
      var info := mapInfo[nId].e;
      var removed := Unlink(nId, info.addr);
      SetEntry(nId, info.(nRefCount := info.nRefCount - removed));
    }

    /** MakeTried, taking the entry in slot `s` out of the tried table. */
    method LeaveTried(s: Slot)
      requires RandomOk(mapInfo, vRandom) && s in vvTried && vvTried[s] in mapInfo && mapInfo[vvTried[s]].e.fInTried
      modifies this`mapInfo, this`nTried, this`vvTried
      ensures RandomOk(mapInfo, vRandom) && Abs() == Untried(old(Abs()), s)
      ensures NewLead() == old(NewLead()) - 1 && TriedLead() == old(TriedLead())
    {
      hide RandomOk;
      hide Entries;
      hide NewIds;
      hide TriedIds;
      EntryAt(mapInfo, vvTried[s]);
      var nIdEvict := vvTried[s];
      SetEntry(nIdEvict, mapInfo[nIdEvict].e.(fInTried := false));
      vvTried := vvTried - {s};
      nTried := nTried - 1;
    }

    /** MakeTried, the last step. */
    method EnterTried(s: Slot, nId: int)
      requires RandomOk(mapInfo, vRandom) && nId in mapInfo && !mapInfo[nId].e.fInTried
      modifies this`mapInfo, this`nTried, this`vvTried
      ensures RandomOk(mapInfo, vRandom) && Abs() == Tried(old(Abs()), s, nId)
      ensures NewLead() == old(NewLead()) + 1 && TriedLead() == old(TriedLead())
    {
      hide RandomOk;
      hide Entries;
      hide NewIds;
      hide TriedIds;
      EntryAt(mapInfo, nId);
      vvTried := vvTried[s := nId];
      nTried := nTried + 1;
      SetEntry(nId, mapInfo[nId].e.(fInTried := true));
    }

    /** MakeTried, moving the entry in the tried slot `s` back to the new table. */
    method Evict(s: Slot)
      requires RandomOk(mapInfo, vRandom) && Evictable(config, Abs(), s)
      modifies this`mapInfo, this`vRandom, this`mapAddr, this`nNew, this`nTried, this`vvNew, this`vvTried
      ensures RandomOk(mapInfo, vRandom) && Abs() == Evicted(config, old(Abs()), s)
      ensures NewLead() == old(NewLead()) && TriedLead() == old(TriedLead())
    {
      hide RandomOk;
      hide Entries;
      hide NewIds;
      hide TriedIds;
      var nIdEvict := vvTried[s];
      EntryAt(mapInfo, nIdEvict);
      var infoOld := mapInfo[nIdEvict].e;
      var place := config.NewSlot(infoOld.addr, infoOld.source);
      LeaveTried(s);
      ClearedNewKeeps(Abs(), place, nIdEvict);
      ClearNew(place);
      EntryAt(mapInfo, nIdEvict);
      SetEntry(nIdEvict, mapInfo[nIdEvict].e.(nRefCount := 1));
      vvNew := vvNew[place := nIdEvict];
      nNew := nNew + 1;
    }

    method MakeTried(nId: int)
      requires RandomOk(mapInfo, vRandom) && Triable(config, Abs(), nId)
      modifies this`mapInfo, this`vRandom, this`mapAddr, this`nNew, this`nTried, this`vvNew, this`vvTried
      ensures RandomOk(mapInfo, vRandom) && Abs() == MadeTried(config, old(Abs()), nId)
      ensures NewLead() == old(NewLead()) && TriedLead() == old(TriedLead())
    {
      hide RandomOk;
      hide Entries;
      hide NewIds;
      hide TriedIds;
      EntryAt(mapInfo, nId);
      var s := config.TriedSlot(mapInfo[nId].e.addr);
      RemoveFromNew(nId);
      nNew := nNew - 1;
      if s in vvTried {
        Evict(s);
      }
      EntryAt(mapInfo, nId);
      EnterTried(s, nId);
    }

    /** The slot of `addr` in the `n`th bucket probed by Good_. */
    function Probe(addr: Service, nRnd: nat, n: nat): Slot {
      var nB := (n + nRnd) % NEW_BUCKET_COUNT;
      Slot(nB, config.Position(addr, true, nB))
    }

    /** The search in Good_, starting at a random bucket: it fails only for an entry that is in no new bucket. */
    method FindNewBucket(nId: int, addr: Service, nRnd: nat) returns (nUBucket: int)
      requires forall s :: s in vvNew && vvNew[s] == nId ==> NewPlaceOk(config, addr, s)
      requires nRnd < NEW_BUCKET_COUNT
      ensures nUBucket == -1 <==> Slots(vvNew, nId) == {}
      ensures nUBucket != -1 ==>
        0 <= nUBucket < NEW_BUCKET_COUNT && Slot(nUBucket, config.Position(addr, true, nUBucket)) in Slots(vvNew, nId)
    {
      for n := 0 to NEW_BUCKET_COUNT
        invariant forall k :: 0 <= k < n ==> Probe(addr, nRnd, k) !in Slots(vvNew, nId)
      {
        var s := Probe(addr, nRnd, n);
        if s in vvNew && vvNew[s] == nId {
          assert s in Slots(vvNew, nId);
          return s.bucket;
        }
      }
      forall s | NewPlaceOk(config, addr, s)
        ensures exists k :: 0 <= k < NEW_BUCKET_COUNT && Probe(addr, nRnd, k) == s
      {
        var k := if s.bucket >= nRnd then s.bucket - nRnd else s.bucket - nRnd + NEW_BUCKET_COUNT;
        assert Probe(addr, nRnd, k) == s;
      }
      return -1;
    }

    /** Good_, once the entry is found and its statistics are updated. `bailed` stands for the
        return that is taken when no bucket is found. */
    method Promote(nId: int, testBeforeEvict: bool, nRnd: nat) returns (bailed: bool)
      requires RandomOk(mapInfo, vRandom) && nId in mapInfo && nRnd < NEW_BUCKET_COUNT
      requires !mapInfo[nId].e.fInTried ==> Triable(config, Abs(), nId) && mapInfo[nId].e.nRefCount > 0
      modifies this
      ensures RandomOk(mapInfo, vRandom) && Abs() == Promoted(config, old(Abs()), nId, testBeforeEvict) && !bailed
      ensures NewLead() == old(NewLead()) && TriedLead() == old(TriedLead())
    {
      hide RandomOk;
      hide Entries;
      hide NewIds;
      hide TriedIds;
      EntryAt(mapInfo, nId);
      if mapInfo[nId].e.fInTried {
        return false;
      }
      var nUBucket := FindNewBucket(nId, mapInfo[nId].e.addr, nRnd);
      bailed := nUBucket == -1;
      var s := config.TriedSlot(mapInfo[nId].e.addr);
      if bailed {
      } else if testBeforeEvict && s in vvTried {
        if |collisions| < SET_TRIED_COLLISION_SIZE {
          collisions := collisions + {nId};
        }
      } else {
        MakeTried(nId);
      }
    }

    method Good_(addr: Service, testBeforeEvict: bool, nTime: int, nRnd: nat) returns (bailed: bool)
      requires Valid() && nTime > 0 && nRnd < NEW_BUCKET_COUNT
      modifies this
      ensures Valid() && Abs() == Good(config, old(Abs()), addr, testBeforeEvict, nTime) && !bailed
    {
      hide Promoted;
      hide Triable;
      hide RandomOk;
      hide Entries;
      hide NewIds;
      hide TriedIds;
      hide AddrOk;
      hide TriedOk;
      hide PlacesOk;
      hide CountsOk;
      hide CollisionsOk;
      hide Advances;
      GoodOk(config, Abs(), addr, testBeforeEvict, nTime);
      bailed := false;
      nLastGood := nTime;
      var found, nId := FindExact(addr);
      if found {
        var e := mapInfo[nId].e.(nLastSuccess := nTime, nLastTry := nTime, nAttempts := 0);
        TouchedOk(config, Abs(), nId, e, {});
        SetEntry(nId, e);
        EntryAt(mapInfo, nId);
        if !e.fInTried {
          CoreTriable(config, Abs(), nId);
          NewReferenced(config, Abs(), nId);
        }
        bailed := Promote(nId, testBeforeEvict, nRnd);
      }
      assert Abs() == Good(config, old(Abs()), addr, testBeforeEvict, nTime);
    }

    method Create(addr: Service, nTime: int, nServices: set<nat>, source: NetAddr) returns (nId: int)
      requires RandomOk(mapInfo, vRandom) && nIdCount !in mapInfo
      modifies this`mapInfo, this`mapAddr, this`vRandom, this`nIdCount
      ensures RandomOk(mapInfo, vRandom) && nId == old(nIdCount) && nId in mapInfo
      ensures Abs() == Created(old(Abs()), addr, nTime, nServices, source)
      ensures NewLead() == old(NewLead()) - 1 && TriedLead() == old(TriedLead())
    {
      nId := nIdCount;
      nIdCount := nIdCount + 1;
      var e := NewEntry(addr, nTime, nServices, source);
      EntriesPut(mapInfo, nId, AddrInfo(e, |vRandom|));
      RandomAppend(mapInfo, vRandom, nId, e);
      CountsNew(Entries(mapInfo), nId, e);
      mapInfo := mapInfo[nId := AddrInfo(e, |vRandom|)];
      mapAddr := mapAddr[addr.ip := nId];
      vRandom := vRandom + [nId];
    }

    /** The end of Add_: find the slot for `source` and take it, or drop an entry left without one. */
    method Insert(nId: int, source: NetAddr, now: int)
      requires RandomOk(mapInfo, vRandom) && nId in mapInfo && !mapInfo[nId].e.fInTried
      requires HolderOk(Abs(), config.NewSlot(mapInfo[nId].e.addr, source))
      modifies this`mapInfo, this`vRandom, this`mapAddr, this`nNew, this`vvNew
      ensures RandomOk(mapInfo, vRandom) && Abs() == Inserted(config, old(Abs()), nId, source, now)
      ensures NewLead() == old(NewLead()) && TriedLead() == old(TriedLead())
    {
      hide RandomOk;
      hide Entries;
      hide NewIds;
      hide TriedIds;
      EntryAt(mapInfo, nId);
      var s := config.NewSlot(mapInfo[nId].e.addr, source);
      if s in vvNew && vvNew[s] == nId {
        return;
      }
      var fInsert := s !in vvNew;
      if !fInsert {
        EntryAt(mapInfo, vvNew[s]);
        var infoExisting := mapInfo[vvNew[s]].e;
        if infoExisting.IsTerrible(now) || (infoExisting.nRefCount > 1 && mapInfo[nId].e.nRefCount == 0) {
          fInsert := true;
        }
      }
      if fInsert {
        ClearedNewKeeps(Abs(), s, nId);
        ClearNew(s);
        EntryAt(mapInfo, nId);
        SetEntry(nId, mapInfo[nId].e.(nRefCount := mapInfo[nId].e.nRefCount + 1));
        vvNew := vvNew[s := nId];
      } else if mapInfo[nId].e.nRefCount == 0 {
        Delete(nId);
      }
    }

    method PassesTest(nRefCount: int, rnd: nat) returns (passes: bool)
      ensures nRefCount > 0 ==> passes == Lucky(nRefCount, rnd)
      ensures nRefCount <= 0 ==> passes
    {
      var nFactor, n := 1, 0;
      while n < nRefCount
        invariant 0 <= n && (nRefCount > 0 ==> n <= nRefCount) && nFactor == Two(n)
        invariant nRefCount <= 0 ==> n == 0
      {
        nFactor := nFactor * 2;
        n := n + 1;
      }
      passes := !(nFactor > 1 && rnd % nFactor != 0);
    }

    /** Add_ for an address that is already known. */
    method UpdateKnown(nId: int, nTime: int, nServices: set<nat>, source: NetAddr, penalty: int, now: int, rnd: nat)
      requires RandomOk(mapInfo, vRandom) && nId in mapInfo
      requires HolderOk(Abs(), config.NewSlot(mapInfo[nId].e.addr, source))
      modifies this`mapInfo, this`vRandom, this`mapAddr, this`nNew, this`vvNew
      ensures RandomOk(mapInfo, vRandom) && NewLead() == old(NewLead()) && TriedLead() == old(TriedLead())
      ensures Abs() == AddKnown(config, old(Abs()), nId, Refreshed(old(mapInfo)[nId].e, nTime, nServices, penalty, now),
                                nTime, source, now, Lucky(old(mapInfo)[nId].e.nRefCount, rnd))
    {
      hide RandomOk;
      hide Entries;
      hide NewIds;
      hide TriedIds;
      var pinfo := mapInfo[nId].e;
      var fCurrentlyOnline := now - nTime < 24 * 60 * 60;
      var nUpdateInterval := if fCurrentlyOnline then 60 * 60 else 24 * 60 * 60;
      if nTime != 0 && (pinfo.nTime == 0 || pinfo.nTime < nTime - nUpdateInterval - penalty) {
        pinfo := pinfo.(nTime := Max(0, nTime - penalty));
      }
      pinfo := pinfo.(nServices := pinfo.nServices + nServices);
      EntryAt(mapInfo, nId);
      SetEntry(nId, pinfo);
      EntryAt(mapInfo, nId);
      if nTime == 0 || (pinfo.nTime != 0 && nTime <= pinfo.nTime) {
        return;
      }
      if pinfo.fInTried {
        return;
      }
      if pinfo.nRefCount == NEW_BUCKETS_PER_ADDRESS {
        return;
      }
      var passes := PassesTest(pinfo.nRefCount, rnd);
      if !passes {
        return;
      }
      Insert(nId, source, now);
    }

    /** Add_ for an address that is not known yet. */
    method InsertUnknown(addr: Service, nTime: int, nServices: set<nat>, source: NetAddr, now: int)
      requires RandomOk(mapInfo, vRandom) && nIdCount !in mapInfo
      requires HolderOk(Abs(), config.NewSlot(addr, source))
      requires forall s :: s in vvNew ==> vvNew[s] != nIdCount
      modifies this`mapInfo, this`vRandom, this`mapAddr, this`nNew, this`vvNew, this`nIdCount
      ensures RandomOk(mapInfo, vRandom) && NewLead() == old(NewLead()) && TriedLead() == old(TriedLead())
      ensures Abs() == AddUnknown(config, old(Abs()), addr, nTime, nServices, source, now)
    {
      hide RandomOk;
      hide Entries;
      hide NewIds;
      hide TriedIds;
      var nId := Create(addr, nTime, nServices, source);
      nNew := nNew + 1;
      EntryAt(mapInfo, nId);
      Insert(nId, source, now);
    }

    /** Add_, against the specification alone. */
    method AddUnchecked(addr: Service, nTime: int, nServices: set<nat>, source: NetAddr, nTimePenalty: int, now: int,
                        rnd: nat)
      returns (fNew: bool)
      requires RandomOk(mapInfo, vRandom) && AddrOk(Entries(mapInfo), mapAddr) && nIdCount !in mapInfo
      requires forall s :: HolderOk(Abs(), s) && (s in vvNew ==> vvNew[s] != nIdCount)
      modifies this
      ensures RandomOk(mapInfo, vRandom) && NewLead() == old(NewLead()) && TriedLead() == old(TriedLead())
      ensures Abs() == Add(config, old(Abs()), addr, nTime, nServices, source, nTimePenalty, now,
                           Lucky(RefCountOf(old(Abs()), addr.ip), rnd))
      ensures fNew <==> config.isRoutable(addr.ip) && addr.ip !in old(mapAddr)
    {
      hide RandomOk;
      hide Entries;
      hide NewIds;
      hide TriedIds;
      if !config.isRoutable(addr.ip) {
        return false;
      }
      var found, nId := Find(addr.ip);
      var penalty := Penalty(addr, source, nTimePenalty);
      if found {
        EntryAt(mapInfo, nId);
        UpdateKnown(nId, nTime, nServices, source, penalty, now, rnd);
      } else {
        InsertUnknown(addr, Max(0, nTime - penalty), nServices, source, now);
      }
      fNew := !found;
    }

    /** Returns whether the address was unknown before, kept or not. */
    method Add_(addr: Service, nTime: int, nServices: set<nat>, source: NetAddr, nTimePenalty: int, now: int, rnd: nat)
      returns (fNew: bool)
      requires Valid()
      modifies this
      ensures Valid()
      ensures Abs() == Add(config, old(Abs()), addr, nTime, nServices, source, nTimePenalty, now,
                           Lucky(RefCountOf(old(Abs()), addr.ip), rnd))
      ensures fNew <==> config.isRoutable(addr.ip) && addr.ip !in old(mapAddr)
    {
      AddReady(config, Abs());
      AddOk(config, Abs(), addr, nTime, nServices, source, nTimePenalty, now, Lucky(RefCountOf(Abs(), addr.ip), rnd));
      fNew := AddUnchecked(addr, nTime, nServices, source, nTimePenalty, now, rnd);
    }

    method Attempt_(addr: Service, fCountFailure: bool, nTime: int)
      requires Valid() && nTime >= 0
      modifies this`mapInfo
      ensures Valid() && Abs() == Attempt(old(Abs()), addr, fCountFailure, nTime)
    {
      hide RandomOk;
      hide Entries;
      hide NewIds;
      hide TriedIds;
      hide Consistent;
      hide AddrOk;
      hide CountsOk;
      hide PlacesOk;
      hide Advances;
      ConsistentAddr(config, Abs());
      AttemptOk(config, Abs(), addr, fCountFailure, nTime);
      var found, nId := FindExact(addr);
      if found {
        var info := mapInfo[nId].e.(nLastTry := nTime);
        if fCountFailure && info.nLastCountAttempt < nLastGood {
          info := info.(nLastCountAttempt := nTime, nAttempts := info.nAttempts + 1);
        }
        SetEntry(nId, info);
      }
      assert Abs() == Attempt(old(Abs()), addr, fCountFailure, nTime);
    }

    method Connected_(addr: Service, nTime: int)
      requires Valid()
      modifies this`mapInfo
      ensures Valid() && Abs() == Connected(old(Abs()), addr, nTime)
    {
      hide RandomOk;
      hide Entries;
      hide NewIds;
      hide TriedIds;
      hide Consistent;
      hide AddrOk;
      hide CountsOk;
      hide PlacesOk;
      hide Advances;
      ConsistentAddr(config, Abs());
      StatsOk(config, Abs(), addr, nTime, {});
      var found, nId := FindExact(addr);
      if found && nTime - mapInfo[nId].e.nTime > 20 * 60 {
        SetEntry(nId, mapInfo[nId].e.(nTime := nTime));
      }
      assert Abs() == Connected(old(Abs()), addr, nTime);
    }

    method SetServices_(addr: Service, nServices: set<nat>)
      requires Valid()
      modifies this`mapInfo
      ensures Valid() && Abs() == SetServices(old(Abs()), addr, nServices)
    {
      hide RandomOk;
      hide Entries;
      hide NewIds;
      hide TriedIds;
      hide Consistent;
      hide AddrOk;
      hide CountsOk;
      hide PlacesOk;
      hide Advances;
      ConsistentAddr(config, Abs());
      StatsOk(config, Abs(), addr, 0, nServices);
      var found, nId := FindExact(addr);
      if found {
        SetEntry(nId, mapInfo[nId].e.(nServices := nServices));
      }
      assert Abs() == SetServices(old(Abs()), addr, nServices);
    }

    /** ResolveCollisions_, deciding about one collision. */
    method JudgeCollision(idNew: int, t: Clock) returns (verdict: Verdict)
      requires TriedOk(config, Entries(mapInfo), vvTried)
      ensures verdict == Judge(config, Abs(), idNew, t)
    {
      if idNew !in mapInfo {
        return Erase;
      }
      assert Entries(mapInfo)[idNew] == mapInfo[idNew].e;
      var infoNew := mapInfo[idNew].e;
      var s := config.TriedSlot(infoNew.addr);
      if !config.isValid(infoNew.addr.ip) {
        return Erase;
      } else if s in vvTried {
        assert vvTried[s] in Entries(mapInfo);
        var infoOld := mapInfo[vvTried[s]].e;
        if t.success - infoOld.nLastSuccess < REPLACEMENT_HOURS * (60 * 60) {
          return Erase;
        } else if t.recent - infoOld.nLastTry < REPLACEMENT_HOURS * (60 * 60) {
          return if t.minute - infoOld.nLastTry > 60 then Replace else Keep;
        } else {
          return if t.window - infoNew.nLastSuccess > TEST_WINDOW then Replace else Keep;
        }
      } else {
        return Replace;
      }
    }

    /** One pass of the loop in ResolveCollisions_. */
    method ResolveOne(idNew: int, t: Clock, nRnd: nat)
      requires Valid() && t.move > 0 && nRnd < NEW_BUCKET_COUNT
      modifies this
      ensures Valid() && Abs() == ResolvedOne(config, old(Abs()), idNew, t)
    {
      hide CountsOk;
      hide PlacesOk;
      hide TriedOk;
      hide CollisionsOk;
      hide Good;
      hide RandomOk;
      ResolvedOneOk(config, Abs(), idNew, t);
      var verdict := JudgeCollision(idNew, t);
      if verdict.Replace? {
        assert idNew in Entries(mapInfo);
        var _ := Good_(mapInfo[idNew].e.addr, false, t.move, nRnd);
      }
      if !verdict.Keep? {
        collisions := collisions - {idNew};
      }
    }

    /** `nRnd(id)` is the random bucket at which Good_ starts to search for `id`, `clock(id)` the clock while `id` is
        decided. */
    method ResolveCollisions_(clock: int -> Clock, nRnd: int -> nat)
      requires Valid() && forall id :: clock(id).move > 0 && nRnd(id) < NEW_BUCKET_COUNT
      modifies this
      ensures Valid() && Abs() == Resolved(config, old(Abs()), old(collisions), clock)
    {
      var pending := collisions;
      while pending != {}
        invariant Valid()
        invariant Resolved(config, Abs(), pending, clock) == Resolved(config, old(Abs()), old(collisions), clock)
        decreases |pending|
      {
        var idNew := Least(pending);
        ResolveOne(idNew, clock(idNew), nRnd(idNew));
        pending := pending - {idNew};
      }
    }

    /** `idNew` is the randomly chosen collision, if there is any; the answer is the tried entry it stands before. */
    method SelectTriedCollision_(idNew: int) returns (idOld: int)
      requires Valid() && (collisions != {} ==> idNew in collisions)
      modifies this`collisions
      ensures Valid() && Abs() == Step(config, old(Abs()), OpForget(idNew))
      ensures idOld == -1 <==> old(collisions) == {} || idNew !in mapInfo
      ensures idOld != -1 ==> idOld in mapInfo && mapInfo[idOld].e.fInTried
      ensures idOld != -1 ==> config.TriedSlot(mapInfo[idOld].e.addr) == config.TriedSlot(mapInfo[idNew].e.addr)
    {
      StepOk(config, Abs(), OpForget(idNew));
      if collisions == {} {
        assert collisions - {idNew} == collisions;
        return -1;
      }
      if idNew !in mapInfo {
        collisions := collisions - {idNew};
        return -1;
      }
      assert Entries(mapInfo)[idNew] == mapInfo[idNew].e;
      idOld := vvTried[config.TriedSlot(mapInfo[idNew].e.addr)];
      assert idOld in Entries(mapInfo);
    }

    /** The loop of GetAddr_: a shuffle that stops when enough presentable entries are found. */
    method Shuffle(nNodes: nat, wanted: NetAddr -> bool, now: int, rnd: nat -> nat) returns (picked: seq<int>, n: nat)
      requires RandomOk(mapInfo, vRandom)
      modifies this`mapInfo, this`vRandom
      ensures RandomOk(mapInfo, vRandom) && Entries(mapInfo) == old(Entries(mapInfo))
      ensures n <= |vRandom| == |old(vRandom)| && picked == Picked(Entries(mapInfo), vRandom[..n], wanted, now)
      ensures |picked| <= nNodes && (n == |vRandom| || |picked| == nNodes)
    {
      ghost var info := Entries(mapInfo);
      picked, n := [], 0;
      while n < |vRandom| && |picked| < nNodes
        invariant n <= |vRandom| == |old(vRandom)| && |picked| <= nNodes
        invariant RandomOk(mapInfo, vRandom) && Entries(mapInfo) == info
        invariant picked == Picked(info, vRandom[..n], wanted, now)
      {
        hide RandomOk;
        hide Entries;
        var nRndPos := rnd(n) % (|vRandom| - n) + n;
        ghost var prefix := vRandom[..n];
        SwapRandom(n, nRndPos);
        assert vRandom[..n + 1][..n] == prefix;
        hide Picked;
        RandomEntry(mapInfo, vRandom, n);
        PickedNext(info, vRandom, n, wanted, now);
        var ai := mapInfo[vRandom[n]].e;
        if wanted(ai.addr.ip) && !ai.IsTerrible(now) {
          picked := picked + [vRandom[n]];
        }
        n := n + 1;
      }
    }

    /** A random choice of presentable entries: no entry twice, never more than asked for, and all of them
        when there are no more than that. `rnd` gives the random numbers. */
    method GetAddr_(maxAddresses: nat, maxPct: nat, wanted: NetAddr -> bool, now: int, rnd: nat -> nat)
      returns (picked: seq<int>)
      requires Valid()
      modifies this`mapInfo, this`vRandom
      ensures Valid() && Abs() == old(Abs())
      ensures forall id :: id in picked ==> id in Abs().info && Presentable(Abs().info[id], wanted, now)
      ensures forall i, j :: 0 <= i < j < |picked| ==> picked[i] != picked[j]
      ensures |picked| <= Limit(|old(mapInfo)|, maxAddresses, maxPct)
      ensures |picked| < Limit(|old(mapInfo)|, maxAddresses, maxPct) ==>
        forall id :: id in Abs().info && Presentable(Abs().info[id], wanted, now) ==> id in picked
    {
      hide RandomOk;
      hide Entries;
      hide NewIds;
      hide TriedIds;
      hide Consistent;
      hide Picked;
      hide Presentable;
      hide Limit;
      RandomCount(mapInfo, vRandom);
      var n;
      picked, n := Shuffle(Limit(|vRandom|, maxAddresses, maxPct), wanted, now, rnd);
      RandomLists(mapInfo, vRandom, n);
      PickedProps(Abs().info, vRandom[..n], wanted, now);
      assert n == |vRandom| ==> vRandom[..n] == vRandom;
    }

    /** The one count in Check_ that the invariant does not spell out. */
    lemma RandomListsAll()
      requires Valid()
      ensures |vRandom| == nTried + nNew == |mapInfo|
    {
      RandomCount(mapInfo, vRandom);
      var info := Entries(mapInfo);
      assert info.Keys == mapInfo.Keys;
      assert NewIds(info) + TriedIds(info) == info.Keys && NewIds(info) !! TriedIds(info);
    }

    // -------------------------------------------------------------------
    // Serialize
    // -------------------------------------------------------------------

    /** The first loop over mapInfo, which iterates in `order`; mapUnkIds is left for every entry. */
    method SaveNew(order: seq<int>) returns (infos: seq<Saved>, mapUnkIds: map<int, int>)
      requires Enumerates(order, Entries(mapInfo))
      ensures var info := Entries(mapInfo);
        && infos == SaveAll(info, NewOrder(info, order))
        && Indexes(NewOrder(info, order), mapUnkIds)
    {
      ghost var info := Entries(mapInfo);
      infos, mapUnkIds := [], map[];
      var nIds := 0;
      for k := 0 to |order|
        invariant infos == SaveAll(info, NewOrder(info, order[..k])) && nIds == |infos|
        invariant Indexes(NewOrder(info, order[..k]), mapUnkIds)
      {
        hide NewOrder;
        hide SaveAll;
        hide Indexes;
        hide Entries;
        hide Enumerates;
        var id := order[k];
        NewOrderNext(info, order, k);
        EntryAt(mapInfo, id);
        IndexesNext(NewOrder(info, order[..k]), mapUnkIds, id);
        mapUnkIds := mapUnkIds[id := nIds];
        if mapInfo[id].e.nRefCount != 0 {
          infos := infos + [Save(mapInfo[id].e)];
          nIds := nIds + 1;
        }
      }
      assert order[..|order|] == order;
    }

    method SaveTried(order: seq<int>) returns (infos: seq<Saved>)
      requires Enumerates(order, Entries(mapInfo))
      ensures infos == SaveAll(Entries(mapInfo), TriedOrder(Entries(mapInfo), order))
    {
      ghost var info := Entries(mapInfo);
      infos := [];
      for k := 0 to |order|
        invariant infos == SaveAll(info, TriedOrder(info, order[..k]))
      {
        hide TriedOrder;
        hide SaveAll;
        var id := order[k];
        TriedOrderNext(info, order, k);
        if mapInfo[id].e.fInTried {
          infos := infos + [Save(mapInfo[id].e)];
        }
      }
      assert order[..|order|] == order;
    }

    /** The bucket lists, by the indexes of the entries in the file. */
    method SaveBuckets(ghost news: seq<int>, mapUnkIds: map<int, int>) returns (rows: seq<seq<int>>)
      requires forall s :: s in vvNew ==> vvNew[s] in news
      requires Indexes(news, mapUnkIds)
      ensures rows == Rows(vvNew, news, NEW_BUCKET_COUNT)
    {
      rows := [];
      for bucket := 0 to NEW_BUCKET_COUNT
        invariant rows == Rows(vvNew, news, bucket)
      {
        var row := [];
        for i := 0 to BUCKET_SIZE
          invariant row == Row(vvNew, news, bucket, i)
        {
          var s := Slot(bucket, i);
          if s in vvNew {
            Indexed(news, mapUnkIds, vvNew[s]);
            row := row + [mapUnkIds[vvNew[s]]];
          }
        }
        rows := rows + [row];
      }
    }

    /** The counts written to the file are the numbers of entries that follow them. */
    method Serialize(order: seq<int>, asmapChecksum: nat) returns (nNewSaved: int, nTriedSaved: int, file: File)
      requires Valid() && Enumerates(order, Entries(mapInfo))
      ensures file == SavedFile(Abs(), order, asmapChecksum)
      ensures nNewSaved == |file.newInfos| && nTriedSaved == |file.triedInfos|
    {
      hide RandomOk;
      hide Entries;
      hide NewIds;
      hide TriedIds;
      hide Consistent;
      hide CountsOk;
      hide PlacesOk;
      hide AddrOk;
      hide NewOrder;
      hide TriedOrder;
      hide SaveAll;
      hide Rows;
      hide Indexes;
      ConsistentAddr(config, Abs());
      ghost var info := Entries(mapInfo);
      nNewSaved, nTriedSaved := nNew, nTried;
      var newInfos, mapUnkIds := SaveNew(order);
      var triedInfos := SaveTried(order);
      OrdersCoverTable(config, Abs(), order);
      var rows := SaveBuckets(NewOrder(info, order), mapUnkIds);
      file := File(Flip30(NEW_BUCKET_COUNT), newInfos, triedInfos, rows, asmapChecksum);
      OrderCounts(config, Abs(), order);
    }

    // -------------------------------------------------------------------
    // Unserialize
    // -------------------------------------------------------------------

    /** One entry read for the new table, under the id `n`. */
    method ReadNew(n: int, s: Saved)
      requires RandomOk(mapInfo, vRandom) && n !in mapInfo
      modifies this`mapInfo, this`mapAddr, this`vRandom
      ensures RandomOk(mapInfo, vRandom) && mapAddr == old(mapAddr)[s.addr.ip := n]
      ensures Entries(mapInfo) == old(Entries(mapInfo))[n := Restore(s)]
      ensures NewLead() == old(NewLead()) - 1 && TriedLead() == old(TriedLead())
    {
      CountsNew(Entries(mapInfo), n, Restore(s));
      EntriesPut(mapInfo, n, AddrInfo(Restore(s), |vRandom|));
      RandomAppend(mapInfo, vRandom, n, Restore(s));
      mapInfo := mapInfo[n := AddrInfo(Restore(s), |vRandom|)];
      mapAddr := mapAddr[s.addr.ip := n];
      vRandom := vRandom + [n];
    }

    method ReadAllNew(infos: seq<Saved>)
      requires RandomOk(mapInfo, vRandom) && Abs() == EMPTY
      modifies this`mapInfo, this`mapAddr, this`vRandom, this`nIdCount
      ensures RandomOk(mapInfo, vRandom) && Abs() == LoadAllNew(EMPTY, infos)
      ensures nIdCount == |infos| && Numbered(Entries(mapInfo), nIdCount)
      ensures NewLead() == old(NewLead()) - |infos| && TriedLead() == old(TriedLead())
    {
      hide RandomOk;
      hide Entries;
      hide NewIds;
      hide TriedIds;
      hide Numbered;
      hide LoadAllNew;
      NoneNumbered(infos);
      for n := 0 to |infos|
        invariant RandomOk(mapInfo, vRandom) && nIdCount == 0 && Numbered(Entries(mapInfo), n)
        invariant Abs().(nIdCount := n) == LoadAllNew(EMPTY, infos[..n])
        invariant NewLead() == old(NewLead()) - n && TriedLead() == old(TriedLead())
      {
        NumberedNext(Entries(mapInfo), n, Restore(infos[n]));
        EntryAt(mapInfo, n);
        LoadAllNewNext(infos, n);
        ReadNew(n, infos[n]);
      }
      nIdCount := |infos|;
      assert infos[..|infos|] == infos;
    }

    /** One entry read for the tried table; it is lost when its slot is taken. */
    method ReadTried(s: Saved) returns (lost: bool)
      requires RandomOk(mapInfo, vRandom) && IdsBelow(Entries(mapInfo), nIdCount)
      modifies this`mapInfo, this`mapAddr, this`vRandom, this`vvTried, this`nIdCount
      ensures RandomOk(mapInfo, vRandom) && Abs() == LoadTried(config, old(Abs()), s)
      ensures IdsBelow(Entries(mapInfo), nIdCount) && old(Entries(mapInfo)).Keys <= Entries(mapInfo).Keys
      ensures NewLead() == old(NewLead()) && TriedLead() == old(TriedLead()) - if lost then 0 else 1
    {
      var slot := config.TriedSlot(s.addr);
      lost := slot in vvTried;
      if !lost {
        var e := Restore(s).(fInTried := true);
        CountsTried(Entries(mapInfo), nIdCount, e);
        EntriesPut(mapInfo, nIdCount, AddrInfo(e, |vRandom|));
        RandomAppend(mapInfo, vRandom, nIdCount, e);
        mapInfo := mapInfo[nIdCount := AddrInfo(e, |vRandom|)];
        vRandom := vRandom + [nIdCount];
        mapAddr := mapAddr[s.addr.ip := nIdCount];
        vvTried := vvTried[slot := nIdCount];
        nIdCount := nIdCount + 1;
      }
    }

    method ReadAllTried(infos: seq<Saved>)
      requires RandomOk(mapInfo, vRandom) && IdsBelow(Entries(mapInfo), nIdCount)
      modifies this`mapInfo, this`mapAddr, this`vRandom, this`vvTried, this`nIdCount, this`nTried
      ensures RandomOk(mapInfo, vRandom) && Abs() == LoadAllTried(config, old(Abs()), infos)
      ensures NewLead() == old(NewLead()) && TriedLead() == old(TriedLead()) - |infos|
      ensures old(Entries(mapInfo)).Keys <= Entries(mapInfo).Keys
    {
      var nLost := 0;
      for n := 0 to |infos|
        invariant RandomOk(mapInfo, vRandom) && IdsBelow(Entries(mapInfo), nIdCount)
        invariant old(Entries(mapInfo)).Keys <= Entries(mapInfo).Keys
        invariant Abs() == LoadAllTried(config, old(Abs()), infos[..n])
        invariant NewLead() == old(NewLead()) && TriedLead() == old(TriedLead()) - n + nLost && nTried == old(nTried)
      {
        hide LoadTried;
        hide RandomOk;
        hide Entries;
        hide NewIds;
        hide TriedIds;
        hide IdsBelow;
        assert infos[..n + 1][..n] == infos[..n];
        var lost := ReadTried(infos[n]);
        if lost {
          nLost := nLost + 1;
        }
      }
      nTried := nTried - nLost;
      assert infos[..|infos|] == infos;
    }

    method ReadReference(bucket: nat, index: int, restore: bool)
      requires RandomOk(mapInfo, vRandom) && index in Entries(mapInfo)
      modifies this`mapInfo, this`vvNew
      ensures RandomOk(mapInfo, vRandom) && Abs() == LoadReference(config, old(Abs()), bucket, index, restore)
      ensures mapInfo.Keys == old(mapInfo).Keys && NewLead() == old(NewLead()) && TriedLead() == old(TriedLead())
    {
      hide RandomOk;
      hide Entries;
      hide NewIds;
      hide TriedIds;
      hide Config.Position;
      hide Config.NewSlot;
      EntryAt(mapInfo, index);
      var e := mapInfo[index].e;
      if e.nRefCount >= NEW_BUCKETS_PER_ADDRESS {
        return;
      }
      var s := Slot(bucket, config.Position(e.addr, true, bucket));
      if !restore || s in vvNew {
        s := config.NewSlot(e.addr, e.source);
        if s in vvNew {
          return;
        }
      }
      vvNew := vvNew[s := index];
      KeysSame(mapInfo);
      SetEntry(index, e.(nRefCount := e.nRefCount + 1));
      KeysSame(mapInfo);
    }

    method ReadReferences(refs: seq<Ref>, restore: bool)
      requires RandomOk(mapInfo, vRandom) && forall i :: 0 <= i < |refs| ==> refs[i].index in mapInfo
      modifies this`mapInfo, this`vvNew
      ensures RandomOk(mapInfo, vRandom) && Abs() == LoadRefs(config, old(Abs()), refs, restore)
      ensures NewLead() == old(NewLead()) && TriedLead() == old(TriedLead())
    {
      for n := 0 to |refs|
        invariant RandomOk(mapInfo, vRandom) && mapInfo.Keys == old(mapInfo).Keys
        invariant Abs() == LoadRefs(config, old(Abs()), refs[..n], restore)
        invariant NewLead() == old(NewLead()) && TriedLead() == old(TriedLead())
      {
        assert refs[..n + 1][..n] == refs[..n];
        assert refs[n].index in mapInfo.Keys;
        ReadReference(refs[n].bucket, refs[n].index, restore);
      }
      assert refs[..|refs|] == refs;
    }

    /** Entries that found no place are deleted; only those below `n` can be such. */
    method Prune(n: nat)
      requires RandomOk(mapInfo, vRandom)
      modifies this`mapInfo, this`vRandom, this`mapAddr, this`nNew
      ensures RandomOk(mapInfo, vRandom) && Abs() == Pruned(old(Abs()), n)
      ensures NewLead() == old(NewLead()) && TriedLead() == old(TriedLead())
    {
      for k := 0 to n
        invariant RandomOk(mapInfo, vRandom) && Abs() == Pruned(old(Abs()), k)
        invariant NewLead() == old(NewLead()) && TriedLead() == old(TriedLead())
      {
        assert k in mapInfo <==> k in Entries(mapInfo);
        if k in mapInfo && !mapInfo[k].e.fInTried && mapInfo[k].e.nRefCount == 0 {
          Delete(k);
        }
      }
    }

    method DropTried(s: Slot)
      requires RandomOk(mapInfo, vRandom) && s in vvTried && vvTried[s] in mapInfo && mapInfo[vvTried[s]].e.fInTried
      modifies this`mapInfo, this`vRandom, this`mapAddr, this`vvTried, this`nTried, this`collisions
      ensures RandomOk(mapInfo, vRandom)
      ensures var id := old(vvTried)[s];
        Abs() == Deleted(old(Abs()), id).(vvTried := old(vvTried) - {s}, collisions := old(collisions) - {id})
      ensures NewLead() == old(NewLead()) && TriedLead() == old(TriedLead())
    {
      hide RandomOk;
      hide Entries;
      hide NewIds;
      hide TriedIds;
      var id := vvTried[s];
      vvTried := vvTried - {s};
      nTried := nTried - 1;
      EntryAt(mapInfo, id);
      RandomAt(mapInfo, vRandom, id);
      SwapRandom(mapInfo[id].nRandomPos, |vRandom| - 1);
      EntryAt(mapInfo, id);
      CountsRemove(Entries(mapInfo), id);
      RandomRemove(mapInfo, vRandom, id);
      EntriesRemove(mapInfo, id);
      vRandom := vRandom[..|vRandom| - 1];
      mapAddr := mapAddr - {mapInfo[id].e.addr.ip};
      mapInfo := mapInfo - {id};
      collisions := collisions - {id};
    }

    method RemoveInvalid()
      requires RandomOk(mapInfo, vRandom) && Shelved(config, Abs(), {})
      modifies this
      ensures RandomOk(mapInfo, vRandom) && Abs() == Filtered(config, old(Abs()))
      ensures NewLead() == old(NewLead()) && TriedLead() == old(TriedLead())
    {
      hide Shelved;
      hide Filtered;
      hide WithoutInvalid;
      hide RandomOk;
      FilteredIs(config, Abs());
      RemoveInvalidNew();
      RemoveInvalidTried(old(Abs()));
    }

    method RemoveInvalidNew()
      requires RandomOk(mapInfo, vRandom) && Shelved(config, Abs(), {})
      modifies this`mapInfo, this`vRandom, this`mapAddr, this`nNew, this`vvNew
      ensures RandomOk(mapInfo, vRandom) && Shelved(config, Abs(), {})
      ensures Abs() == WithoutInvalid(config, old(Abs()), NEW_SLOTS, 0)
      ensures NewLead() == old(NewLead()) && TriedLead() == old(TriedLead())
    {
      hide Shelved;
      hide DropInvalidNew;
      hide RandomOk;
      hide Entries;
      hide NewIds;
      hide TriedIds;
      hide WithoutInvalid;
      hide SlotAt;
      WithoutNothing(config, Abs());
      for bucket := 0 to NEW_BUCKET_COUNT
        invariant RandomOk(mapInfo, vRandom) && Shelved(config, Abs(), {})
        invariant Abs() == WithoutInvalid(config, old(Abs()), bucket * BUCKET_SIZE, 0)
        invariant NewLead() == old(NewLead()) && TriedLead() == old(TriedLead())
      {
        for i := 0 to BUCKET_SIZE
          invariant RandomOk(mapInfo, vRandom) && Shelved(config, Abs(), {})
          invariant Abs() == WithoutInvalid(config, old(Abs()), bucket * BUCKET_SIZE + i, 0)
          invariant NewLead() == old(NewLead()) && TriedLead() == old(TriedLead())
        {
          SlotAtIs(bucket, i);
          WithoutNextNew(config, old(Abs()), bucket * BUCKET_SIZE + i);
          ClearIfInvalid(Slot(bucket, i));
        }
      }
    }

    method ClearIfInvalid(s: Slot)
      requires RandomOk(mapInfo, vRandom) && Shelved(config, Abs(), {})
      modifies this`mapInfo, this`vRandom, this`mapAddr, this`nNew, this`vvNew
      ensures RandomOk(mapInfo, vRandom) && Shelved(config, Abs(), {}) && Abs() == DropInvalidNew(config, old(Abs()), s)
      ensures NewLead() == old(NewLead()) && TriedLead() == old(TriedLead())
    {
      hide Shelved;
      ShelvedHolder(config, Abs(), s);
      DropInvalidNewOk(config, Abs(), s);
      if s in vvNew {
        assert vvNew[s] in Entries(mapInfo) && Entries(mapInfo)[vvNew[s]] == mapInfo[vvNew[s]].e;
        if !config.isValid(mapInfo[vvNew[s]].e.addr.ip) {
          ClearNew(s);
        }
      }
    }

    method RemoveInvalidTried(ghost start: Book)
      requires RandomOk(mapInfo, vRandom) && Shelved(config, Abs(), {})
      requires Abs() == WithoutInvalid(config, start, NEW_SLOTS, 0)
      modifies this`mapInfo, this`vRandom, this`mapAddr, this`vvTried, this`nTried, this`collisions
      ensures RandomOk(mapInfo, vRandom) && Abs() == WithoutInvalid(config, start, NEW_SLOTS, TRIED_SLOTS)
      ensures NewLead() == old(NewLead()) && TriedLead() == old(TriedLead())
    {
      hide Shelved;
      hide DropInvalidTried;
      hide RandomOk;
      hide Entries;
      hide NewIds;
      hide TriedIds;
      hide WithoutInvalid;
      hide SlotAt;
      for bucket := 0 to TRIED_BUCKET_COUNT
        invariant RandomOk(mapInfo, vRandom) && Shelved(config, Abs(), {})
        invariant Abs() == WithoutInvalid(config, start, NEW_SLOTS, bucket * BUCKET_SIZE)
        invariant NewLead() == old(NewLead()) && TriedLead() == old(TriedLead())
      {
        for i := 0 to BUCKET_SIZE
          invariant RandomOk(mapInfo, vRandom) && Shelved(config, Abs(), {})
          invariant Abs() == WithoutInvalid(config, start, NEW_SLOTS, bucket * BUCKET_SIZE + i)
          invariant NewLead() == old(NewLead()) && TriedLead() == old(TriedLead())
        {
          SlotAtIs(bucket, i);
          WithoutNextTried(config, start, NEW_SLOTS, bucket * BUCKET_SIZE + i);
          RemoveIfInvalid(Slot(bucket, i));
        }
      }
    }

    method RemoveIfInvalid(s: Slot)
      requires RandomOk(mapInfo, vRandom) && Shelved(config, Abs(), {})
      modifies this`mapInfo, this`vRandom, this`mapAddr, this`vvTried, this`nTried, this`collisions
      ensures RandomOk(mapInfo, vRandom) && Shelved(config, Abs(), {})
              && Abs() == DropInvalidTried(config, old(Abs()), s)
      ensures NewLead() == old(NewLead()) && TriedLead() == old(TriedLead())
    {
      DropInvalidTriedOk(config, Abs(), s);
      if s in vvTried {
        var id := vvTried[s];
        assert id in Entries(mapInfo) && Entries(mapInfo)[id] == mapInfo[id].e;
        if !config.isValid(mapInfo[id].e.addr.ip) {
          DropTried(s);
        }
      }
    }

    /** Unserialize up to the removal of invalid addresses. */
    method ReadTables(file: File, asmapChecksum: nat)
      requires RandomOk(mapInfo, vRandom) && Abs() == EMPTY
      modifies this
      ensures RandomOk(mapInfo, vRandom) && Abs() == Pruned(LoadedTables(config, file, asmapChecksum), |file.newInfos|)
      ensures NewLead() == old(NewLead()) - |file.newInfos| && TriedLead() == old(TriedLead()) - |file.triedInfos|
    {
      hide RandomOk;
      hide Pruned;
      hide LoadRefs;
      hide LoadRows;
      hide LoadAllTried;
      hide LoadAllNew;
      ReadAllNew(file.newInfos);
      ReadAllTried(file.triedInfos);
      KeysSame(mapInfo);
      var refs := CollectRefs(file.buckets, |file.newInfos|);
      var restore := Flip30(file.nUBuckets) == NEW_BUCKET_COUNT && file.asmapChecksum == asmapChecksum;
      RefsSame(config, Abs(), file.buckets, |file.newInfos|, restore);
      ReadReferences(refs, restore);
      Prune(|file.newInfos|);
    }

    /** False when the counts are out of range. Otherwise the manager is valid if and only if the entries
        that found a place are in order; its random list and counters are right in any case. */
    method Unserialize(file: File, asmapChecksum: nat) returns (ok: bool)
      requires Valid() && Abs() == EMPTY && Shaped(file)
      modifies this
      ensures ok <==> Loaded(config, file, asmapChecksum).Some?
      ensures ok ==> Abs() == Loaded(config, file, asmapChecksum).value
      ensures ok ==> RandomOk(mapInfo, vRandom) && NewLead() == 0 && TriedLead() == 0
      ensures ok ==> (Valid() <==> Loadable(config, file, asmapChecksum))
      ensures ok ==> (Checks() <==> Passable(config, file, asmapChecksum))
    {
      hide Shelved;
      hide RandomOk;
      hide WithoutInvalid;
      hide Pruned;
      hide LoadedTables;
      hide Filtered;
      hide Loadable;
      hide Passable;
      hide Consistent;
      hide BookSound;
      assert NewIds(Entries(mapInfo)) == {} && TriedIds(Entries(mapInfo)) == {};
      nNew, nTried := |file.newInfos|, |file.triedInfos|;
      if nNew > NEW_SLOTS || nTried > TRIED_SLOTS {
        return false;
      }
      ReadTables(file, asmapChecksum);
      HousedOk(config, file, asmapChecksum);
      LoadedIff(config, file, asmapChecksum);
      LoadedSound(config, file, asmapChecksum);
      RemoveInvalid();
      ok := true;
    }
  }
}
