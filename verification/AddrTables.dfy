/** The consistency conditions between the address manager's tables, and how the
    table updates of its operations keep them. */
module AddrTables {
  import opened AddrTypes

  type Infos = map<int, AddrInfo>

  /** `vRandom` and the `nRandomPos` fields are inverse to each other. */
  ghost predicate RandomOk(infos: Infos, vRandom: seq<int>) {
    && (forall i | 0 <= i < |vRandom| :: vRandom[i] in infos && infos[vRandom[i]].nRandomPos == i)
    && (forall id | id in infos :: 0 <= infos[id].nRandomPos < |vRandom| && vRandom[infos[id].nRandomPos] == id)
  }

  /** `mapAddr` is the inverse of the addresses in the entries. */
  ghost predicate AddrOk(infos: Infos, mapAddr: map<NetAddr, int>) {
    && (forall id | id in infos :: infos[id].addr.net in mapAddr && mapAddr[infos[id].addr.net] == id)
    && (forall a | a in mapAddr :: mapAddr[a] in infos && infos[mapAddr[a]].addr.net == a)
  }

  ghost predicate IdsOk(infos: Infos, nIdCount: int) {
    0 <= nIdCount && forall id | id in infos :: 0 <= id < nIdCount
  }

  ghost predicate NoDup(s: seq<int>) {
    forall i, j | 0 <= i < j < |s| :: s[i] != s[j]
  }

  function BucketOf(net: Net, nKey: seq<nat>, info: AddrInfo): (b: nat)
    ensures b < TRIED_BUCKET_COUNT
  {
    TriedBucket(net, nKey, info.addr)
  }

  /** A tried bucket holds at most 64 entries, without repetition, that hash to it. */
  ghost predicate TriedBucketOk(net: Net, nKey: seq<nat>, infos: Infos, b: nat, vTried: seq<int>) {
    && |vTried| <= TRIED_BUCKET_SIZE
    && NoDup(vTried)
    && forall id | id in vTried :: id in infos && infos[id].fInTried && BucketOf(net, nKey, infos[id]) == b
  }

  ghost predicate TriedOk(net: Net, nKey: seq<nat>, infos: Infos, vvTried: seq<seq<int>>) {
    && |vvTried| == TRIED_BUCKET_COUNT
    && (forall b | 0 <= b < TRIED_BUCKET_COUNT :: TriedBucketOk(net, nKey, infos, b, vvTried[b]))
    && (forall id | id in infos && infos[id].fInTried :: id in vvTried[BucketOf(net, nKey, infos[id])])
  }

  /** The new buckets an id occurs in. */
  ghost function Buckets(vvNew: seq<set<int>>, id: int): set<int> {
    set b | 0 <= b < |vvNew| && id in vvNew[b]
  }

  ghost predicate NewBucketOk(infos: Infos, vNew: set<int>) {
    |vNew| <= NEW_BUCKET_SIZE && forall id | id in vNew :: id in infos && !infos[id].fInTried
  }

  /** An entry's reference count is the number of new buckets it is in, plus one if it
      is about to be inserted into another one. */
  ghost predicate RefOk(info: AddrInfo, buckets: set<int>, pending: bool) {
    && info.nRefCount == |buckets| + (if pending then 1 else 0)
    && (if info.fInTried then info.nRefCount == 0 else 1 <= info.nRefCount <= NEW_BUCKETS_PER_ADDRESS)
  }

  ghost predicate NewOk(infos: Infos, vvNew: seq<set<int>>, pending: set<int>) {
    && |vvNew| == NEW_BUCKET_COUNT
    && (forall b | 0 <= b < NEW_BUCKET_COUNT :: NewBucketOk(infos, vvNew[b]))
    && (forall id | id in infos :: RefOk(infos[id], Buckets(vvNew, id), id in pending))
  }

  function NoTriedEntries(): (r: seq<seq<int>>)
    ensures |r| == TRIED_BUCKET_COUNT && forall b | 0 <= b < |r| :: r[b] == []
  {
    seq(TRIED_BUCKET_COUNT, i => [])
  }

  function NoNewEntries(): (r: seq<set<int>>)
    ensures |r| == NEW_BUCKET_COUNT && forall b | 0 <= b < |r| :: r[b] == {}
  {
    seq(NEW_BUCKET_COUNT, i => {})
  }

  ghost function TriedIds(infos: Infos): set<int> { set id | id in infos && infos[id].fInTried }
  ghost function NewIds(infos: Infos): set<int> { set id | id in infos && !infos[id].fInTried }

  ghost predicate TimesOk(infos: Infos) {
    forall id | id in infos ::
      && infos[id].nLastTry >= 0
      && infos[id].nLastSuccess >= 0
      && (infos[id].fInTried ==> infos[id].nLastSuccess != 0)
  }

  /** The consistency of all tables; the ids in `pending` count a reference for a bucket
      they are still to be inserted into. */
  ghost predicate Consistent(net: Net, nKey: seq<nat>, nIdCount: int, infos: Infos,
                             mapAddr: map<NetAddr, int>, vRandom: seq<int>,
                             nTried: int, vvTried: seq<seq<int>>, nNew: int, vvNew: seq<set<int>>,
                             pending: set<int>)
  {
    && RandomOk(infos, vRandom)
    && AddrOk(infos, mapAddr)
    && IdsOk(infos, nIdCount)
    && TriedOk(net, nKey, infos, vvTried)
    && NewOk(infos, vvNew, pending)
    && nTried == |TriedIds(infos)|
    && nNew == |NewIds(infos)|
  }

  /** The entries agree on everything the bucket tables depend on. */
  ghost predicate SameSlots(infos: Infos, infos': Infos) {
    && infos.Keys == infos'.Keys
    && forall id | id in infos ::
        && infos[id].addr.SameService(infos'[id].addr)
        && infos[id].nRefCount == infos'[id].nRefCount
        && infos[id].fInTried == infos'[id].fInTried
  }

  /** The entries of `ids` agree on everything but the position in `vRandom`. */
  ghost predicate SameButPos(infos: Infos, infos': Infos, ids: set<int>) {
    && ids <= infos.Keys && ids <= infos'.Keys
    && forall id | id in ids :: infos'[id] == infos[id].(nRandomPos := infos'[id].nRandomPos)
  }

  lemma SlotsKeepTried(net: Net, nKey: seq<nat>, infos: Infos, infos': Infos, vvTried: seq<seq<int>>)
    requires SameSlots(infos, infos')
    requires TriedOk(net, nKey, infos, vvTried)
    ensures TriedOk(net, nKey, infos', vvTried)
  {
    forall id | id in infos
      ensures BucketOf(net, nKey, infos'[id]) == BucketOf(net, nKey, infos[id])
    {
    }
    forall b | 0 <= b < TRIED_BUCKET_COUNT
      ensures TriedBucketOk(net, nKey, infos', b, vvTried[b])
    {
      assert TriedBucketOk(net, nKey, infos, b, vvTried[b]);
    }
    forall id | id in infos' && infos'[id].fInTried
      ensures id in vvTried[BucketOf(net, nKey, infos'[id])]
    {
      assert id in infos && infos[id].fInTried;
    }
  }

  lemma SlotsKeepNew(infos: Infos, infos': Infos, vvNew: seq<set<int>>, pending: set<int>)
    requires SameSlots(infos, infos')
    requires NewOk(infos, vvNew, pending)
    ensures NewOk(infos', vvNew, pending)
  {
    forall b | 0 <= b < NEW_BUCKET_COUNT
      ensures NewBucketOk(infos', vvNew[b])
    {
      assert NewBucketOk(infos, vvNew[b]);
    }
    forall id | id in infos'
      ensures RefOk(infos'[id], Buckets(vvNew, id), id in pending)
    {
      assert id in infos;
      assert RefOk(infos[id], Buckets(vvNew, id), id in pending);
    }
  }

  lemma SlotsKeep(net: Net, nKey: seq<nat>, infos: Infos, infos': Infos, mapAddr: map<NetAddr, int>,
                  vvTried: seq<seq<int>>, vvNew: seq<set<int>>, pending: set<int>)
    requires SameSlots(infos, infos')
    requires AddrOk(infos, mapAddr)
    requires TriedOk(net, nKey, infos, vvTried)
    requires NewOk(infos, vvNew, pending)
    ensures AddrOk(infos', mapAddr)
    ensures TriedOk(net, nKey, infos', vvTried)
    ensures NewOk(infos', vvNew, pending)
    ensures TriedIds(infos') == TriedIds(infos) && NewIds(infos') == NewIds(infos)
  {
    SlotsKeepTried(net, nKey, infos, infos', vvTried);
    SlotsKeepNew(infos, infos', vvNew, pending);
    SlotsKeepCounts(infos, infos');
  }

  lemma SlotsKeepCounts(infos: Infos, infos': Infos)
    requires SameSlots(infos, infos')
    ensures TriedIds(infos') == TriedIds(infos) && NewIds(infos') == NewIds(infos)
  {
    forall id
      ensures id in TriedIds(infos') <==> id in TriedIds(infos)
      ensures id in NewIds(infos') <==> id in NewIds(infos)
    {
      assert id in infos <==> id in infos';
    }
  }

  /** The entries agree on everything the address index and `vRandom` depend on. */
  ghost predicate SamePlace(infos: Infos, infos': Infos) {
    && (forall id | id in infos' :: id in infos)
    && (forall id | id in infos ::
          && id in infos'
          && infos[id].addr.net == infos'[id].addr.net
          && infos[id].nRandomPos == infos'[id].nRandomPos)
  }

  lemma PlaceKeeps(infos: Infos, infos': Infos, mapAddr: map<NetAddr, int>, vRandom: seq<int>, nIdCount: int)
    requires SamePlace(infos, infos')
    requires RandomOk(infos, vRandom) && AddrOk(infos, mapAddr) && IdsOk(infos, nIdCount)
    ensures RandomOk(infos', vRandom) && AddrOk(infos', mapAddr) && IdsOk(infos', nIdCount)
  {
    forall i | 0 <= i < |vRandom|
      ensures vRandom[i] in infos' && infos'[vRandom[i]].nRandomPos == i
    {
      var id := vRandom[i];
      assert id in infos;
    }
    forall a | a in mapAddr
      ensures mapAddr[a] in infos' && infos'[mapAddr[a]].addr.net == a
    {
      var id := mapAddr[a];
      assert id in infos;
    }
  }

  // ----- Sets of buckets under insertion and removal

  lemma BucketsInsert(vvNew: seq<set<int>>, b: nat, x: int, id: int)
    requires b < |vvNew|
    ensures Buckets(vvNew[b := vvNew[b] + {x}], id) == Buckets(vvNew, id) + (if id == x then {b} else {})
  {
  }

  lemma BucketsErase(vvNew: seq<set<int>>, b: nat, x: int, id: int)
    requires b < |vvNew|
    ensures Buckets(vvNew[b := vvNew[b] - {x}], id) == Buckets(vvNew, id) - (if id == x then {b} else {})
  {
  }

  /** Inserting an id whose reference count already includes the new bucket. */
  lemma InsertKeepsNew(infos: Infos, vvNew: seq<set<int>>, b: nat, x: int, pending: set<int>)
    requires NewOk(infos, vvNew, pending + {x})
    requires b < NEW_BUCKET_COUNT && x in infos && !infos[x].fInTried
    requires x !in vvNew[b] && |vvNew[b]| < NEW_BUCKET_SIZE && x !in pending
    ensures NewOk(infos, vvNew[b := vvNew[b] + {x}], pending)
  {
    var vvNew' := vvNew[b := vvNew[b] + {x}];
    forall id | id in infos
      ensures RefOk(infos[id], Buckets(vvNew', id), id in pending)
    {
      BucketsInsert(vvNew, b, x, id);
    }
    forall c | 0 <= c < NEW_BUCKET_COUNT
      ensures NewBucketOk(infos, vvNew'[c])
    {
      assert NewBucketOk(infos, vvNew[c]);
    }
  }

  /** Dropping an id from one bucket, its entry losing one reference. */
  lemma EraseKeepsNew(infos: Infos, infos': Infos, vvNew: seq<set<int>>, b: nat, x: int, pending: set<int>)
    requires NewOk(infos, vvNew, pending)
    requires b < NEW_BUCKET_COUNT && x in vvNew[b] && x in infos && x !in pending && infos[x].nRefCount > 1
    requires infos' == infos[x := infos[x].(nRefCount := infos[x].nRefCount - 1)]
    ensures NewOk(infos', vvNew[b := vvNew[b] - {x}], pending)
  {
    var vvNew' := vvNew[b := vvNew[b] - {x}];
    assert NewBucketOk(infos, vvNew[b]);
    forall id | id in infos'
      ensures RefOk(infos'[id], Buckets(vvNew', id), id in pending)
    {
      BucketsErase(vvNew, b, x, id);
      assert RefOk(infos[id], Buckets(vvNew, id), id in pending);
    }
    forall c | 0 <= c < NEW_BUCKET_COUNT
      ensures NewBucketOk(infos', vvNew'[c])
    {
      assert NewBucketOk(infos, vvNew[c]);
    }
  }

  /** Dropping an id from its only bucket, and its entry from the table. */
  lemma RemoveKeepsNew(infos: Infos, vvNew: seq<set<int>>, b: nat, x: int, pending: set<int>)
    requires NewOk(infos, vvNew, pending)
    requires b < NEW_BUCKET_COUNT && x in vvNew[b] && x in infos && x !in pending && infos[x].nRefCount == 1
    ensures NewOk(infos - {x}, vvNew[b := vvNew[b] - {x}], pending)
  {
    var infos' := infos - {x};
    var vvNew' := vvNew[b := vvNew[b] - {x}];
    OnlyBucket(vvNew, b, x);
    forall id | id in infos'
      ensures RefOk(infos'[id], Buckets(vvNew', id), id in pending)
    {
      BucketsErase(vvNew, b, x, id);
      assert RefOk(infos[id], Buckets(vvNew, id), id in pending);
    }
    forall c | 0 <= c < NEW_BUCKET_COUNT
      ensures NewBucketOk(infos', vvNew'[c])
    {
      assert NewBucketOk(infos, vvNew[c]);
      assert c != b ==> x !in vvNew[c];
    }
  }

  lemma OnlyBucket(vvNew: seq<set<int>>, b: nat, x: int)
    requires b < |vvNew| && x in vvNew[b] && |Buckets(vvNew, x)| == 1
    ensures forall c | 0 <= c < |vvNew| && x in vvNew[c] :: c == b
  {
    forall c | 0 <= c < |vvNew| && x in vvNew[c]
      ensures c == b
    {
      assert {b, c} <= Buckets(vvNew, x);
      if c != b {
        SubsetCard({b, c}, Buckets(vvNew, x));
      }
    }
  }

  lemma {:induction false} SubsetCard<T>(a: set<T>, b: set<T>)
    requires a <= b
    ensures |a| <= |b|
    decreases a
  {
    if x :| x in a {
      SubsetCard(a - {x}, b - {x});
    }
  }

  // ----- Removing an entry from the other tables

  lemma RemoveKeepsTried(net: Net, nKey: seq<nat>, infos: Infos, vvTried: seq<seq<int>>, x: int)
    requires TriedOk(net, nKey, infos, vvTried)
    requires x in infos && !infos[x].fInTried
    ensures TriedOk(net, nKey, infos - {x}, vvTried)
  {
    var infos' := infos - {x};
    forall b | 0 <= b < TRIED_BUCKET_COUNT
      ensures TriedBucketOk(net, nKey, infos', b, vvTried[b])
    {
      assert TriedBucketOk(net, nKey, infos, b, vvTried[b]);
    }
  }

  lemma RemoveKeepsAddr(infos: Infos, mapAddr: map<NetAddr, int>, x: int)
    requires AddrOk(infos, mapAddr) && x in infos
    ensures AddrOk(infos - {x}, mapAddr - {infos[x].addr.net})
  {
  }

  lemma RemoveLastKeepsRandom(infos: Infos, vRandom: seq<int>, x: int)
    requires RandomOk(infos, vRandom) && x in infos && infos[x].nRandomPos == |vRandom| - 1
    ensures RandomOk(infos - {x}, vRandom[..|vRandom| - 1])
  {
  }

  lemma RemoveCounts(infos: Infos, x: int)
    requires x in infos
    ensures TriedIds(infos - {x}) == TriedIds(infos) - {x}
    ensures NewIds(infos - {x}) == NewIds(infos) - {x}
  {
  }

  /** What remains of the bucket tables after an id left its last new bucket, its entry
      was erased, and another entry may have moved in `vRandom`. */
  lemma RemoveKeepsBuckets(net: Net, nKey: seq<nat>, infos: Infos, infos': Infos,
                           vvTried: seq<seq<int>>, vvNew: seq<set<int>>, b: nat, x: int, pending: set<int>)
    requires TriedOk(net, nKey, infos, vvTried) && NewOk(infos, vvNew, pending)
    requires b < NEW_BUCKET_COUNT && x in vvNew[b] && x in infos && x !in pending && infos[x].nRefCount == 1
    requires !infos[x].fInTried
    requires infos'.Keys == infos.Keys - {x} && SameButPos(infos, infos', infos'.Keys)
    ensures TriedOk(net, nKey, infos', vvTried)
    ensures NewOk(infos', vvNew[b := vvNew[b] - {x}], pending)
    ensures TriedIds(infos') == TriedIds(infos) && NewIds(infos') == NewIds(infos) - {x} && x in NewIds(infos)
  {
    RemoveKeepsTried(net, nKey, infos, vvTried, x);
    RemoveKeepsNew(infos, vvNew, b, x, pending);
    RemoveCounts(infos, x);
    assert SameSlots(infos - {x}, infos');
    SlotsKeepTried(net, nKey, infos - {x}, infos', vvTried);
    SlotsKeepNew(infos - {x}, infos', vvNew[b := vvNew[b] - {x}], pending);
    SlotsKeepCounts(infos - {x}, infos');
  }

  /** What remains of the bucket tables after an id left one of several new buckets. */
  lemma EraseKeepsBuckets(net: Net, nKey: seq<nat>, infos: Infos, infos': Infos,
                          vvTried: seq<seq<int>>, vvNew: seq<set<int>>, b: nat, x: int, pending: set<int>)
    requires TriedOk(net, nKey, infos, vvTried) && NewOk(infos, vvNew, pending)
    requires b < NEW_BUCKET_COUNT && x in vvNew[b] && x in infos && x !in pending && infos[x].nRefCount > 1
    requires infos' == infos[x := infos[x].(nRefCount := infos[x].nRefCount - 1)]
    ensures TriedOk(net, nKey, infos', vvTried)
    ensures NewOk(infos', vvNew[b := vvNew[b] - {x}], pending)
    ensures TriedIds(infos') == TriedIds(infos) && NewIds(infos') == NewIds(infos)
  {
    EraseKeepsNew(infos, infos', vvNew, b, x, pending);
    forall c | 0 <= c < TRIED_BUCKET_COUNT
      ensures TriedBucketOk(net, nKey, infos', c, vvTried[c])
    {
      assert TriedBucketOk(net, nKey, infos, c, vvTried[c]);
    }
    assert forall id :: id in infos <==> id in infos';
  }

  // ----- Moving an entry from the new to the tried buckets

  /** The new buckets with an id dropped from every one of them. */
  function Without(vvNew: seq<set<int>>, x: int): (r: seq<set<int>>)
    ensures |r| == |vvNew|
    ensures forall b | 0 <= b < |vvNew| :: r[b] == vvNew[b] - {x}
  {
    seq(|vvNew|, b requires 0 <= b < |vvNew| => vvNew[b] - {x})
  }

  lemma WithoutKeepsNew(infos: Infos, infos': Infos, vvNew: seq<set<int>>, x: int)
    requires NewOk(infos, vvNew, {}) && x in infos
    requires x in infos' && infos' == infos[x := infos'[x]] && infos'[x].fInTried && infos'[x].nRefCount == 0
    ensures NewOk(infos', Without(vvNew, x), {})
  {
    var vvNew' := Without(vvNew, x);
    forall id | id in infos'
      ensures RefOk(infos'[id], Buckets(vvNew', id), false)
    {
      assert id != x ==> RefOk(infos[id], Buckets(vvNew, id), false);
      assert Buckets(vvNew', id) == if id == x then {} else Buckets(vvNew, id);
    }
    forall c | 0 <= c < NEW_BUCKET_COUNT
      ensures NewBucketOk(infos', vvNew'[c])
    {
      assert NewBucketOk(infos, vvNew[c]);
      SubsetCard(vvNew'[c], vvNew[c]);
    }
  }

  lemma AppendKeepsTried(net: Net, nKey: seq<nat>, infos: Infos, infos': Infos, vvTried: seq<seq<int>>, k: nat, x: int)
    requires TriedOk(net, nKey, infos, vvTried)
    requires x in infos && !infos[x].fInTried && x in infos' && infos' == infos[x := infos'[x]]
    requires infos'[x].fInTried && infos'[x].addr == infos[x].addr
    requires k == BucketOf(net, nKey, infos[x]) && |vvTried[k]| < TRIED_BUCKET_SIZE
    ensures TriedOk(net, nKey, infos', vvTried[k := vvTried[k] + [x]])
  {
    var vvTried' := vvTried[k := vvTried[k] + [x]];
    forall b | 0 <= b < TRIED_BUCKET_COUNT
      ensures TriedBucketOk(net, nKey, infos', b, vvTried'[b])
    {
      assert TriedBucketOk(net, nKey, infos, b, vvTried[b]);
      assert x !in vvTried[b];
    }
  }

  /** Entry `x` takes the place of the entry at position `p` of its tried bucket. */
  lemma ReplaceKeepsTried(net: Net, nKey: seq<nat>, infos: Infos, infos': Infos,
                          vvTried: seq<seq<int>>, k: nat, p: nat, x: int)
    requires TriedOk(net, nKey, infos, vvTried)
    requires x in infos && !infos[x].fInTried
    requires k == BucketOf(net, nKey, infos[x]) && p < |vvTried[k]|
    requires infos'.Keys == infos.Keys
    requires var e := vvTried[k][p];
             && !infos'[e].fInTried
             && forall id | id in infos && id != x && id != e :: infos'[id] == infos[id]
    requires infos'[x].fInTried && infos'[x].addr == infos[x].addr
    ensures TriedOk(net, nKey, infos', vvTried[k := vvTried[k][p := x]])
  {
    var e := vvTried[k][p];
    var vvTried' := vvTried[k := vvTried[k][p := x]];
    assert TriedBucketOk(net, nKey, infos, k, vvTried[k]);
    forall b | 0 <= b < TRIED_BUCKET_COUNT
      ensures TriedBucketOk(net, nKey, infos', b, vvTried'[b])
    {
      assert TriedBucketOk(net, nKey, infos, b, vvTried[b]);
      assert x !in vvTried[b];
      assert b != k ==> e !in vvTried[b];
    }
    forall id | id in infos' && infos'[id].fInTried
      ensures id in vvTried'[BucketOf(net, nKey, infos'[id])]
    {
      if id == x {
        assert vvTried'[k][p] == x;
      } else {
        var b := BucketOf(net, nKey, infos[id]);
        assert id in vvTried[b];
        var i :| 0 <= i < |vvTried[b]| && vvTried[b][i] == id;
        assert vvTried'[b][i] == id;
      }
    }
  }

  lemma PermuteKeepsTried(net: Net, nKey: seq<nat>, infos: Infos, vvTried: seq<seq<int>>, k: nat, w: seq<int>)
    requires TriedOk(net, nKey, infos, vvTried)
    requires k < TRIED_BUCKET_COUNT && multiset(w) == multiset(vvTried[k])
    ensures TriedOk(net, nKey, infos, vvTried[k := w])
  {
    var v := vvTried[k];
    assert TriedBucketOk(net, nKey, infos, k, v);
    forall id
      ensures id in w <==> id in v
    {
      assert id in w <==> id in multiset(w);
      assert id in v <==> id in multiset(v);
    }
    assert |w| == |multiset(w)| && |v| == |multiset(v)|;
    PermuteNoDup(v, w);
    assert TriedBucketOk(net, nKey, infos, k, w);
  }

  lemma PermuteNoDup(v: seq<int>, w: seq<int>)
    requires NoDup(v) && multiset(w) == multiset(v)
    ensures NoDup(w)
  {
    forall i, j | 0 <= i < j < |w|
      ensures w[i] != w[j]
    {
      if w[i] == w[j] {
        assert w == w[..j] + w[j..];
        assert w[..j][i] == w[i] && w[j..][0] == w[i];
        assert w[i] in multiset(w[..j]) && w[i] in multiset(w[j..]);
        OnceEach(v, w[i]);
      }
    }
  }

  lemma {:induction false} OnceEach(v: seq<int>, x: int)
    requires NoDup(v)
    ensures multiset(v)[x] <= 1
  {
    if |v| > 0 {
      var n := |v| - 1;
      OnceEach(v[..n], x);
      assert v == v[..n] + [v[n]];
      assert forall i | 0 <= i < n :: v[..n][i] != v[n];
      assert v[n] !in v[..n];
    }
  }

  /** `nRefCount` does not matter to the tried buckets. */
  lemma SlotsKeepTried'(net: Net, nKey: seq<nat>, infos: Infos, infos': Infos, vvTried: seq<seq<int>>, x: int)
    requires TriedOk(net, nKey, infos, vvTried)
    requires x in infos && x in infos' && infos' == infos[x := infos[x].(nRefCount := infos'[x].nRefCount)]
    ensures TriedOk(net, nKey, infos', vvTried)
  {
    forall b | 0 <= b < TRIED_BUCKET_COUNT
      ensures TriedBucketOk(net, nKey, infos', b, vvTried[b])
    {
      assert TriedBucketOk(net, nKey, infos, b, vvTried[b]);
    }
  }

  /** Moving `x` to a tried bucket with room keeps the tables consistent. */
  lemma MovedKeeps(net: Net, nKey: seq<nat>, infos: Infos, infos': Infos, vvTried: seq<seq<int>>,
                   vvNew: seq<set<int>>, k: nat, x: int)
    requires TriedOk(net, nKey, infos, vvTried) && NewOk(infos, vvNew, {})
    requires x in infos && !infos[x].fInTried
    requires infos' == infos[x := infos[x].(nRefCount := 0, fInTried := true)]
    requires k == BucketOf(net, nKey, infos[x]) && |vvTried[k]| < TRIED_BUCKET_SIZE
    ensures TriedOk(net, nKey, infos', vvTried[k := vvTried[k] + [x]])
    ensures NewOk(infos', Without(vvNew, x), {})
    ensures TriedIds(infos') == TriedIds(infos) + {x} && x !in TriedIds(infos)
    ensures NewIds(infos') == NewIds(infos) - {x} && x in NewIds(infos)
  {
    hide TriedOk, NewOk;
    AppendKeepsTried(net, nKey, infos, infos', vvTried, k, x);
    WithoutKeepsNew(infos, infos', vvNew, x);
    assert forall id :: id in infos <==> id in infos';
  }

  /** Exchanging `x` with the entry at position `p` of a tried bucket, which goes to new
      bucket `c`, keeps the tables consistent. */
  lemma SwappedKeeps(net: Net, nKey: seq<nat>, infos: Infos, infos': Infos, vvTried: seq<seq<int>>,
                     vvNew: seq<set<int>>, k: nat, p: nat, x: int, e: int, c: nat)
    requires TriedOk(net, nKey, infos, vvTried) && NewOk(infos, vvNew, {})
    requires x in infos && !infos[x].fInTried
    requires k == BucketOf(net, nKey, infos[x]) && p < |vvTried[k]| && e == vvTried[k][p]
    requires c < NEW_BUCKET_COUNT && |Without(vvNew, x)[c]| < NEW_BUCKET_SIZE
    requires e in infos && infos[e].fInTried
    requires infos' == infos[x := infos[x].(nRefCount := 0, fInTried := true)]
                            [e := infos[e].(fInTried := false, nRefCount := 1)]
    ensures TriedOk(net, nKey, infos', vvTried[k := vvTried[k][p := x]])
    ensures NewOk(infos', Without(vvNew, x)[c := Without(vvNew, x)[c] + {e}], {})
    ensures |TriedIds(infos')| == |TriedIds(infos)| && |NewIds(infos')| == |NewIds(infos)|
  {
    SwappedKeepsNew(infos, infos', vvNew, x, e, c);
    SwappedKeepsCounts(infos, infos', x, e);
    hide NewOk, TriedIds, NewIds;
    ReplaceKeepsTried(net, nKey, infos, infos', vvTried, k, p, x);
  }

  lemma SwappedKeepsNew(infos: Infos, infos': Infos, vvNew: seq<set<int>>, x: int, e: int, c: nat)
    requires NewOk(infos, vvNew, {})
    requires x in infos && !infos[x].fInTried
    requires c < NEW_BUCKET_COUNT && |Without(vvNew, x)[c]| < NEW_BUCKET_SIZE
    requires e in infos && infos[e].fInTried
    requires infos' == infos[x := infos[x].(nRefCount := 0, fInTried := true)]
                            [e := infos[e].(fInTried := false, nRefCount := 1)]
    ensures NewOk(infos', Without(vvNew, x)[c := Without(vvNew, x)[c] + {e}], {})
  {
    hide NewOk;
    var w := Without(vvNew, x);
    var infos1 := infos[x := infos[x].(nRefCount := 0, fInTried := true)];
    WithoutKeepsNew(infos, infos1, vvNew, x);
    DemoteKeepsNew(infos1, infos', w, e);
    InsertKeepsNew(infos', w, c, e, {});
  }

  lemma SwappedKeepsCounts(infos: Infos, infos': Infos, x: int, e: int)
    requires x in infos && !infos[x].fInTried
    requires e in infos && infos[e].fInTried
    requires infos' == infos[x := infos[x].(nRefCount := 0, fInTried := true)]
                            [e := infos[e].(fInTried := false, nRefCount := 1)]
    ensures |TriedIds(infos')| == |TriedIds(infos)| && |NewIds(infos')| == |NewIds(infos)|
  {
    assert TriedIds(infos') == TriedIds(infos) + {x} - {e};
    assert NewIds(infos') == NewIds(infos) - {x} + {e};
    assert e in TriedIds(infos) && x in NewIds(infos);
  }

  /** A tried entry that becomes new is about to be inserted into one bucket. */
  lemma DemoteKeepsNew(infos: Infos, infos': Infos, vvNew: seq<set<int>>, e: int)
    requires NewOk(infos, vvNew, {})
    requires e in infos && infos[e].fInTried
    requires infos' == infos[e := infos[e].(fInTried := false, nRefCount := 1)]
    ensures NewOk(infos', vvNew, {} + {e})
    ensures forall b | 0 <= b < NEW_BUCKET_COUNT :: e !in vvNew[b]
  {
    forall id | id in infos'
      ensures RefOk(infos'[id], Buckets(vvNew, id), id in {e})
    {
      assert RefOk(infos[id], Buckets(vvNew, id), false);
    }
    forall b | 0 <= b < NEW_BUCKET_COUNT
      ensures NewBucketOk(infos', vvNew[b]) && e !in vvNew[b]
    {
      assert NewBucketOk(infos, vvNew[b]);
    }
  }

  lemma TriedEntry(net: Net, nKey: seq<nat>, infos: Infos, vvTried: seq<seq<int>>, k: nat, p: nat)
    requires TriedOk(net, nKey, infos, vvTried) && k < TRIED_BUCKET_COUNT && p < |vvTried[k]|
    ensures vvTried[k][p] in infos && infos[vvTried[k][p]].fInTried
  {
    assert TriedBucketOk(net, nKey, infos, k, vvTried[k]);
    var id := vvTried[k][p];
    assert id in vvTried[k];
  }

  /** A bucket that just lost an id has room for another. */
  lemma RoomAfterErase(infos: Infos, vvNew: seq<set<int>>, b: nat, x: int)
    requires NewOk(infos, vvNew, {}) && b < NEW_BUCKET_COUNT && x in vvNew[b]
    ensures |Without(vvNew, x)[b]| < NEW_BUCKET_SIZE
  {
    assert NewBucketOk(infos, vvNew[b]);
  }

  /** An entry lost one reference; losing the last one, it left the table, which may have
      moved another entry in `vRandom`. */
  ghost predicate Released(infos: Infos, infos': Infos, v: int) {
    && v in infos
    && if infos[v].nRefCount == 1
       then infos'.Keys == infos.Keys - {v} && SameButPos(infos, infos', infos'.Keys)
       else infos' == infos[v := infos[v].(nRefCount := infos[v].nRefCount - 1)]
  }

  lemma ReleaseKeeps(net: Net, nKey: seq<nat>, nIdCount: int, infos: Infos, infos': Infos,
                     mapAddr: map<NetAddr, int>, mapAddr': map<NetAddr, int>, vRandom: seq<int>, vRandom': seq<int>,
                     nTried: int, vvTried: seq<seq<int>>, nNew: int, vvNew: seq<set<int>>,
                     b: nat, x: int, pending: set<int>)
    requires Consistent(net, nKey, nIdCount, infos, mapAddr, vRandom, nTried, vvTried, nNew, vvNew, pending)
    requires |vvNew| == NEW_BUCKET_COUNT && b < NEW_BUCKET_COUNT && x in vvNew[b] && x in infos && x !in pending
    requires !infos[x].fInTried && infos[x].nRefCount == 1
    requires RandomOk(infos', vRandom') && AddrOk(infos', mapAddr')
    requires infos'.Keys == infos.Keys - {x} && SameButPos(infos, infos', infos'.Keys)
    ensures Consistent(net, nKey, nIdCount, infos', mapAddr', vRandom', nTried, vvTried, nNew - 1,
                       vvNew[b := vvNew[b] - {x}], pending)
  {
    assert forall id | id in infos' :: id in infos'.Keys && id in infos;
    assert IdsOk(infos', nIdCount);
    hide RandomOk, AddrOk, IdsOk, TriedOk, NewOk, TriedIds, NewIds;
    RemoveKeepsBuckets(net, nKey, infos, infos', vvTried, vvNew, b, x, pending);
  }

  lemma EraseKeeps(net: Net, nKey: seq<nat>, nIdCount: int, infos: Infos, infos': Infos,
                   mapAddr: map<NetAddr, int>, vRandom: seq<int>,
                   nTried: int, vvTried: seq<seq<int>>, nNew: int, vvNew: seq<set<int>>,
                   b: nat, x: int, pending: set<int>)
    requires Consistent(net, nKey, nIdCount, infos, mapAddr, vRandom, nTried, vvTried, nNew, vvNew, pending)
    requires |vvNew| == NEW_BUCKET_COUNT && b < NEW_BUCKET_COUNT && x in vvNew[b] && x in infos && x !in pending
    requires infos[x].nRefCount > 1
    requires infos' == infos[x := infos[x].(nRefCount := infos[x].nRefCount - 1)]
    ensures Consistent(net, nKey, nIdCount, infos', mapAddr, vRandom, nTried, vvTried, nNew,
                       vvNew[b := vvNew[b] - {x}], pending)
  {
    hide RandomOk, AddrOk, IdsOk, TriedOk, NewOk, TriedIds, NewIds;
    EraseKeepsBuckets(net, nKey, infos, infos', vvTried, vvNew, b, x, pending);
    PlaceKeeps(infos, infos', mapAddr, vRandom, nIdCount);
  }

  lemma ConsistentCount(net: Net, nKey: seq<nat>, nIdCount: int, infos: Infos, mapAddr: map<NetAddr, int>,
                        vRandom: seq<int>, nTried: int, vvTried: seq<seq<int>>, nNew: int, vvNew: seq<set<int>>,
                        pending: set<int>)
    requires Consistent(net, nKey, nIdCount, infos, mapAddr, vRandom, nTried, vvTried, nNew, vvNew, pending)
    ensures |vRandom| == nTried + nNew
  {
    RandomCount(infos, vRandom);
  }

  /** Reordering `vRandom` touches nothing but the positions. */
  lemma SwapKeeps(net: Net, nKey: seq<nat>, nIdCount: int, infos: Infos, infos': Infos,
                  mapAddr: map<NetAddr, int>, vRandom: seq<int>, vRandom': seq<int>,
                  nTried: int, vvTried: seq<seq<int>>, nNew: int, vvNew: seq<set<int>>, pending: set<int>)
    requires Consistent(net, nKey, nIdCount, infos, mapAddr, vRandom, nTried, vvTried, nNew, vvNew, pending)
    requires infos'.Keys == infos.Keys && SameButPos(infos, infos', infos'.Keys)
    requires RandomOk(infos', vRandom')
    ensures Consistent(net, nKey, nIdCount, infos', mapAddr, vRandom', nTried, vvTried, nNew, vvNew, pending)
  {
    assert forall id | id in infos' :: id in infos'.Keys && id in infos;
    assert IdsOk(infos', nIdCount);
    assert SameSlots(infos, infos');
    hide RandomOk, AddrOk, IdsOk, TriedOk, NewOk, TriedIds, NewIds;
    SlotsKeep(net, nKey, infos, infos', mapAddr, vvTried, vvNew, pending);
  }

  // ----- Adding entries and references

  /** A new entry, with one reference pending, at the end of `vRandom`. */
  lemma CreateKeeps(net: Net, nKey: seq<nat>, nIdCount: int, infos: Infos, mapAddr: map<NetAddr, int>,
                    vRandom: seq<int>, nTried: int, vvTried: seq<seq<int>>, nNew: int, vvNew: seq<set<int>>,
                    info: AddrInfo)
    requires Consistent(net, nKey, nIdCount, infos, mapAddr, vRandom, nTried, vvTried, nNew, vvNew, {})
    requires info.addr.net !in mapAddr && info.nRefCount == 1 && !info.fInTried && info.nRandomPos == |vRandom|
    ensures Consistent(net, nKey, nIdCount + 1, infos[nIdCount := info], mapAddr[info.addr.net := nIdCount],
                       vRandom + [nIdCount], nTried, vvTried, nNew + 1, vvNew, {nIdCount})
    ensures nIdCount !in infos && Buckets(vvNew, nIdCount) == {}
  {
    var x, infos' := nIdCount, infos[nIdCount := info];
    assert x !in infos;
    CreateKeepsPlace(infos, infos', mapAddr, vRandom, nIdCount, info);
    CreateKeepsTried(net, nKey, infos, infos', vvTried, x);
    CreateKeepsNew(infos, infos', vvNew, x);
    hide RandomOk, AddrOk, IdsOk, TriedOk, NewOk;
    CreateCounts(infos, infos', x);
  }

  lemma CreateKeepsPlace(infos: Infos, infos': Infos, mapAddr: map<NetAddr, int>, vRandom: seq<int>,
                         nIdCount: int, info: AddrInfo)
    requires RandomOk(infos, vRandom) && AddrOk(infos, mapAddr) && IdsOk(infos, nIdCount)
    requires info.addr.net !in mapAddr && info.nRandomPos == |vRandom|
    requires infos' == infos[nIdCount := info]
    ensures RandomOk(infos', vRandom + [nIdCount])
    ensures AddrOk(infos', mapAddr[info.addr.net := nIdCount])
    ensures IdsOk(infos', nIdCount + 1)
  {
  }

  lemma CreateCounts(infos: Infos, infos': Infos, x: int)
    requires x !in infos && x in infos' && infos' == infos[x := infos'[x]] && !infos'[x].fInTried
    ensures TriedIds(infos') == TriedIds(infos) && NewIds(infos') == NewIds(infos) + {x} && x !in NewIds(infos)
  {
  }

  lemma CreateKeepsTried(net: Net, nKey: seq<nat>, infos: Infos, infos': Infos, vvTried: seq<seq<int>>, x: int)
    requires TriedOk(net, nKey, infos, vvTried)
    requires x !in infos && x in infos' && infos' == infos[x := infos'[x]] && !infos'[x].fInTried
    ensures TriedOk(net, nKey, infos', vvTried)
  {
    forall b | 0 <= b < TRIED_BUCKET_COUNT
      ensures TriedBucketOk(net, nKey, infos', b, vvTried[b])
    {
      assert TriedBucketOk(net, nKey, infos, b, vvTried[b]);
    }
  }

  lemma CreateKeepsNew(infos: Infos, infos': Infos, vvNew: seq<set<int>>, x: int)
    requires NewOk(infos, vvNew, {})
    requires x !in infos && x in infos' && infos' == infos[x := infos'[x]]
    requires !infos'[x].fInTried && infos'[x].nRefCount == 1
    ensures NewOk(infos', vvNew, {x}) && Buckets(vvNew, x) == {}
  {
    forall b | 0 <= b < NEW_BUCKET_COUNT
      ensures NewBucketOk(infos', vvNew[b]) && x !in vvNew[b]
    {
      assert NewBucketOk(infos, vvNew[b]);
    }
    forall id | id in infos'
      ensures RefOk(infos'[id], Buckets(vvNew, id), id in {x})
    {
      assert id != x ==> RefOk(infos[id], Buckets(vvNew, id), false);
    }
  }

  /** One more reference of a new entry, pending. */
  lemma BumpKeeps(net: Net, nKey: seq<nat>, nIdCount: int, infos: Infos, mapAddr: map<NetAddr, int>,
                  vRandom: seq<int>, nTried: int, vvTried: seq<seq<int>>, nNew: int, vvNew: seq<set<int>>, x: int)
    requires Consistent(net, nKey, nIdCount, infos, mapAddr, vRandom, nTried, vvTried, nNew, vvNew, {})
    requires x in infos && !infos[x].fInTried && infos[x].nRefCount < NEW_BUCKETS_PER_ADDRESS
    ensures Consistent(net, nKey, nIdCount, infos[x := infos[x].(nRefCount := infos[x].nRefCount + 1)],
                       mapAddr, vRandom, nTried, vvTried, nNew, vvNew, {x})
  {
    var infos' := infos[x := infos[x].(nRefCount := infos[x].nRefCount + 1)];
    SlotsKeepTried'(net, nKey, infos, infos', vvTried, x);
    BumpKeepsNew(infos, infos', vvNew, x);
    hide TriedOk, NewOk;
    PlaceKeeps(infos, infos', mapAddr, vRandom, nIdCount);
    assert TriedIds(infos') == TriedIds(infos);
    assert NewIds(infos') == NewIds(infos);
  }

  lemma BumpKeepsNew(infos: Infos, infos': Infos, vvNew: seq<set<int>>, x: int)
    requires NewOk(infos, vvNew, {})
    requires x in infos && !infos[x].fInTried && infos[x].nRefCount < NEW_BUCKETS_PER_ADDRESS
    requires infos' == infos[x := infos[x].(nRefCount := infos[x].nRefCount + 1)]
    ensures NewOk(infos', vvNew, {x})
  {
    forall b | 0 <= b < NEW_BUCKET_COUNT
      ensures NewBucketOk(infos', vvNew[b])
    {
      assert NewBucketOk(infos, vvNew[b]);
    }
    forall id | id in infos'
      ensures RefOk(infos'[id], Buckets(vvNew, id), id in {x})
    {
      assert RefOk(infos[id], Buckets(vvNew, id), false);
    }
  }

  /** Filling in the pending reference. */
  lemma InsertKeeps(net: Net, nKey: seq<nat>, nIdCount: int, infos: Infos, mapAddr: map<NetAddr, int>,
                    vRandom: seq<int>, nTried: int, vvTried: seq<seq<int>>, nNew: int, vvNew: seq<set<int>>,
                    b: nat, x: int)
    requires Consistent(net, nKey, nIdCount, infos, mapAddr, vRandom, nTried, vvTried, nNew, vvNew, {x})
    requires |vvNew| == NEW_BUCKET_COUNT && b < NEW_BUCKET_COUNT && x in infos && !infos[x].fInTried
    requires x !in vvNew[b] && |vvNew[b]| < NEW_BUCKET_SIZE
    ensures Consistent(net, nKey, nIdCount, infos, mapAddr, vRandom, nTried, vvTried, nNew,
                       vvNew[b := vvNew[b] + {x}], {})
  {
    hide RandomOk, AddrOk, IdsOk, TriedOk, NewOk, TriedIds, NewIds;
    assert {} + {x} == {x};
    InsertKeepsNew(infos, vvNew, b, x, {});
  }

  /** Updating the statistics of an entry, none of which the tables depend on. */
  lemma TouchKeeps(net: Net, nKey: seq<nat>, nIdCount: int, infos: Infos, mapAddr: map<NetAddr, int>,
                   vRandom: seq<int>, nTried: int, vvTried: seq<seq<int>>, nNew: int, vvNew: seq<set<int>>,
                   x: int, info: AddrInfo)
    requires Consistent(net, nKey, nIdCount, infos, mapAddr, vRandom, nTried, vvTried, nNew, vvNew, {})
    requires x in infos && infos[x].addr.SameService(info.addr)
    requires infos[x].nRefCount == info.nRefCount && infos[x].fInTried == info.fInTried
    requires infos[x].nRandomPos == info.nRandomPos
    ensures Consistent(net, nKey, nIdCount, infos[x := info], mapAddr, vRandom, nTried, vvTried, nNew, vvNew, {})
  {
    hide RandomOk, AddrOk, IdsOk, TriedOk, NewOk, TriedIds, NewIds;
    PlaceKeeps(infos, infos[x := info], mapAddr, vRandom, nIdCount);
    SlotsKeep(net, nKey, infos, infos[x := info], mapAddr, vvTried, vvNew, {});
  }

  // ----- Counting

  /** Every entry is either new or tried, and `vRandom` lists each of them once. */
  lemma {:induction false} RandomCount(infos: Infos, vRandom: seq<int>)
    requires RandomOk(infos, vRandom)
    ensures |vRandom| == |TriedIds(infos)| + |NewIds(infos)|
    decreases |vRandom|
  {
    if |vRandom| == 0 {
      assert forall id :: id !in infos;
    } else {
      var x := vRandom[|vRandom| - 1];
      assert x in infos;
      RemoveLastKeepsRandom(infos, vRandom, x);
      RandomCount(infos - {x}, vRandom[..|vRandom| - 1]);
      RemoveCounts(infos, x);
    }
  }
}
