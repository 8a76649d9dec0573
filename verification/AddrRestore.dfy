/** What a reader of a serialized address manager has rebuilt after each step. */
module AddrRestore {
  import opened Ordered
  import opened AddrTypes
  import opened AddrTables
  import opened AddrImage

  /** A readable table: consistent, so written with every entry in its place. */
  ghost predicate Readable(net: Net, t: Tables) {
    TablesOk(net, t) && Writable(t) && OrderOk(t)
  }

  /** The written order numbers the entries: new ones first, each once. */
  ghost predicate OrderOk(t: Tables)
  {
    var order := Order(t.mapInfo);
    && |order| == t.nNew + t.nTried && |NewOrder(t.mapInfo)| == t.nNew
    && NoDup(order)
    && (forall id :: id in order <==> id in t.mapInfo)
    && (forall k | 0 <= k < |order| :: order[k] in t.mapInfo && (t.mapInfo[order[k]].fInTried <==> t.nNew <= k))
  }

  lemma KindMembers(net: Net, t: Tables, id: int)
    requires TablesOk(net, t)
    ensures id in NewOrder(t.mapInfo) <==> id in t.mapInfo && !t.mapInfo[id].fInTried
    ensures id in TriedOrder(t.mapInfo) <==> id in t.mapInfo && t.mapInfo[id].fInTried
  {
    assert id in Elements(t.mapInfo.Keys) <==> id in t.mapInfo;
    assert id in t.mapInfo ==> RefOk(t.mapInfo[id], Buckets(t.vvNew, id), false);
  }

  lemma ConsistentReadable(net: Net, t: Tables)
    requires TablesOk(net, t)
    ensures Readable(net, t)
  {
    ConsistentWritable(net, t);
    forall id
      ensures id in NewOrder(t.mapInfo) <==> id in t.mapInfo && !t.mapInfo[id].fInTried
      ensures id in TriedOrder(t.mapInfo) <==> id in t.mapInfo && t.mapInfo[id].fInTried
    {
      KindMembers(net, t, id);
    }
    KindsMakeOrder(t, NewOrder(t.mapInfo), TriedOrder(t.mapInfo));
  }

  lemma KindsMakeOrder(t: Tables, news: seq<int>, trieds: seq<int>)
    requires news == NewOrder(t.mapInfo) && trieds == TriedOrder(t.mapInfo)
    requires |news| == t.nNew && |trieds| == t.nTried && Ascending(news) && Ascending(trieds)
    requires forall id :: id in news <==> id in t.mapInfo && !t.mapInfo[id].fInTried
    requires forall id :: id in trieds <==> id in t.mapInfo && t.mapInfo[id].fInTried
    ensures OrderOk(t)
  {
    hide NewOrder, TriedOrder;
    var order := Order(t.mapInfo);
    assert order == news + trieds;
    forall k | 0 <= k < |order|
      ensures order[k] in t.mapInfo && (t.mapInfo[order[k]].fInTried <==> t.nNew <= k)
    {
      var id := order[k];
      if k < t.nNew {
        assert id == news[k] && id in news;
      } else {
        assert id == trieds[k - t.nNew] && id in trieds;
      }
    }
    forall i, j | 0 <= i < j < |order|
      ensures order[i] != order[j]
    {
      if i < t.nNew <= j {
        assert t.mapInfo[order[i]].fInTried != t.mapInfo[order[j]].fInTried;
      }
    }
    forall id
      ensures id in order <==> id in t.mapInfo
    {
      assert id in order <==> id in news || id in trieds;
    }
  }

  /** The entry a reader gives id `k`, before it counts references. */
  ghost function LoadedAt(t: Tables, k: nat): (r: AddrInfo)
    requires OrderOk(t) && k < t.nNew + t.nTried
  {
    Load(Save(t.mapInfo[Order(t.mapInfo)[k]])).(nRandomPos := k, fInTried := t.nNew <= k)
  }

  /** The first `n` entries are in the tables. */
  ghost predicate Loaded(t: Tables, n: nat, infos: Infos, mapAddr: map<NetAddr, int>, vRandom: seq<int>)
    requires OrderOk(t)
  {
    && n <= t.nNew + t.nTried
    && (forall k :: k in infos <==> 0 <= k < n)
    && (forall k | 0 <= k < n :: infos[k] == LoadedAt(t, k))
    && |vRandom| == n
    && RandomOk(infos, vRandom)
    && AddrOk(infos, mapAddr)
  }

  lemma LoadStep(net: Net, t: Tables, n: nat, infos: Infos, mapAddr: map<NetAddr, int>, vRandom: seq<int>)
    requires Readable(net, t) && n < t.nNew + t.nTried
    requires Loaded(t, n, infos, mapAddr, vRandom)
    ensures var info := LoadedAt(t, n);
            Loaded(t, n + 1, infos[n := info], mapAddr[info.addr.net := n], vRandom + [n])
  {
    var info := LoadedAt(t, n);
    LoadFresh(net, t, n, infos, mapAddr, vRandom);
    hide *;
    hide Loaded;
    LoadPlace(t, n, infos, mapAddr, vRandom);
  }

  /** No loaded entry has the address of the next one. */
  lemma LoadFresh(net: Net, t: Tables, n: nat, infos: Infos, mapAddr: map<NetAddr, int>, vRandom: seq<int>)
    requires Readable(net, t) && n < t.nNew + t.nTried
    requires Loaded(t, n, infos, mapAddr, vRandom)
    ensures LoadedAt(t, n).addr.net !in mapAddr
  {
    var a := LoadedAt(t, n).addr.net;
    forall j | 0 <= j < n
      ensures infos[j].addr.net != a
    {
      LoadedAddr(net, t, j);
      LoadedAddr(net, t, n);
    }
    hide Readable, OrderOk, LoadedAt;
    forall a' | a' in mapAddr
      ensures a' != a
    {
      var j := mapAddr[a'];
      assert j in infos;
    }
  }

  lemma LoadedAddr(net: Net, t: Tables, j: nat)
    requires Readable(net, t) && j < t.nNew + t.nTried
    ensures var a := LoadedAt(t, j).addr.net; a in t.mapAddr && t.mapAddr[a] == Order(t.mapInfo)[j]
  {
    var x := Order(t.mapInfo)[j];
    assert x in t.mapInfo;
  }

  lemma LoadPlace(t: Tables, n: nat, infos: Infos, mapAddr: map<NetAddr, int>, vRandom: seq<int>)
    requires OrderOk(t) && n < t.nNew + t.nTried
    requires Loaded(t, n, infos, mapAddr, vRandom) && LoadedAt(t, n).addr.net !in mapAddr
    ensures var info := LoadedAt(t, n);
            Loaded(t, n + 1, infos[n := info], mapAddr[info.addr.net := n], vRandom + [n])
  {
    hide OrderOk, Order;
    CreateKeepsPlace(infos, infos[n := LoadedAt(t, n)], mapAddr, vRandom, n, LoadedAt(t, n));
  }

  // ----- The tried buckets

  ghost predicate FilledBucket(net: Net, t: Tables, n: nat, b: nat, vTried: seq<int>)
    requires OrderOk(t) && n <= t.nNew + t.nTried
  {
    && |vTried| <= TRIED_BUCKET_SIZE
    && NoDup(vTried)
    && forall k | k in vTried :: t.nNew <= k < n && BucketOf(net, t.nKey, LoadedAt(t, k)) == b
  }

  /** The tried entries among the first `n` are in their buckets. */
  ghost predicate Filled(net: Net, t: Tables, n: nat, vvTried: seq<seq<int>>)
    requires OrderOk(t)
  {
    && n <= t.nNew + t.nTried
    && |vvTried| == TRIED_BUCKET_COUNT
    && (forall b | 0 <= b < TRIED_BUCKET_COUNT :: FilledBucket(net, t, n, b, vvTried[b]))
    && (forall k | t.nNew <= k < n :: k in vvTried[BucketOf(net, t.nKey, LoadedAt(t, k))])
  }

  lemma {:induction false} FewerInside(s: seq<int>, t: seq<int>, y: int)
    requires NoDup(s) && NoDup(t)
    requires forall i | 0 <= i < |s| :: s[i] in t && s[i] != y
    requires y in t
    ensures |s| < |t|
    decreases |s|
  {
    if s != [] {
      var x := s[|s| - 1];
      var i :| 0 <= i < |t| && t[i] == x;
      var t' := t[..i] + t[i + 1..];
      forall z | z in t && z != x
        ensures z in t'
      {
        var j :| 0 <= j < |t| && t[j] == z;
        assert t'[if j < i then j else j - 1] == z;
      }
      FewerInside(s[..|s| - 1], t', y);
    }
  }

  /** The bucket of the next tried entry is never full: nothing is lost. */
  lemma RoomToFill(net: Net, t: Tables, n: nat, vvTried: seq<seq<int>>)
    requires Readable(net, t) && t.nNew <= n < t.nNew + t.nTried
    requires Filled(net, t, n, vvTried)
    ensures |vvTried[BucketOf(net, t.nKey, LoadedAt(t, n))]| < TRIED_BUCKET_SIZE
  {
    var b := BucketOf(net, t.nKey, LoadedAt(t, n));
    SourceBucket(net, t, n);
    SourceBucketNoDup(net, t, b);
    FilledFrom(net, t, n, b, vvTried);
    assert NoDup(Order(t.mapInfo)) && n < |Order(t.mapInfo)|;
    hide *;
    FewerIndices(vvTried[b], Order(t.mapInfo), t.vvTried[b], n);
  }

  lemma FilledFrom(net: Net, t: Tables, n: nat, b: nat, vvTried: seq<seq<int>>)
    requires Readable(net, t) && n <= t.nNew + t.nTried && b < TRIED_BUCKET_COUNT
    requires Filled(net, t, n, vvTried)
    ensures |t.vvTried| == TRIED_BUCKET_COUNT && NoDup(vvTried[b])
    ensures forall i | 0 <= i < |vvTried[b]| ::
              0 <= vvTried[b][i] < n && Order(t.mapInfo)[vvTried[b][i]] in t.vvTried[b]
  {
    assert FilledBucket(net, t, n, b, vvTried[b]);
    SourceBucketNoDup(net, t, b);
    forall i | 0 <= i < |vvTried[b]|
      ensures 0 <= vvTried[b][i] < n && Order(t.mapInfo)[vvTried[b][i]] in t.vvTried[b]
    {
      var k := vvTried[b][i];
      assert k in vvTried[b];
      SourceBucket(net, t, k);
    }
  }

  lemma SourceBucketNoDup(net: Net, t: Tables, b: nat)
    requires Readable(net, t) && b < TRIED_BUCKET_COUNT
    ensures |t.vvTried| == TRIED_BUCKET_COUNT && NoDup(t.vvTried[b]) && |t.vvTried[b]| <= TRIED_BUCKET_SIZE
  {
    assert TriedBucketOk(net, t.nKey, t.mapInfo, b, t.vvTried[b]);
  }

  /** Distinct indices below `n` of members of `t`, itself holding member `n`, are fewer than `t`. */
  lemma FewerIndices(indices: seq<int>, order: seq<int>, t: seq<int>, n: nat)
    requires NoDup(indices) && NoDup(order) && NoDup(t)
    requires n < |order| && order[n] in t
    requires forall i | 0 <= i < |indices| :: 0 <= indices[i] < n && order[indices[i]] in t
    ensures |indices| < |t|
  {
    var ids := seq(|indices|, i requires 0 <= i < |indices| => order[indices[i]]);
    FewerInside(ids, t, order[n]);
  }

  lemma SourceBucket(net: Net, t: Tables, k: nat)
    requires Readable(net, t) && t.nNew <= k < t.nNew + t.nTried
    ensures Order(t.mapInfo)[k] in t.vvTried[BucketOf(net, t.nKey, LoadedAt(t, k))]
    ensures |t.vvTried| == TRIED_BUCKET_COUNT
  {
    var id := Order(t.mapInfo)[k];
    assert id in t.mapInfo && t.mapInfo[id].fInTried;
    assert BucketOf(net, t.nKey, LoadedAt(t, k)) == BucketOf(net, t.nKey, t.mapInfo[id]);
  }

  lemma FillStep(net: Net, t: Tables, n: nat, vvTried: seq<seq<int>>)
    requires Readable(net, t) && t.nNew <= n < t.nNew + t.nTried
    requires Filled(net, t, n, vvTried)
    ensures var b := BucketOf(net, t.nKey, LoadedAt(t, n));
            |vvTried[b]| < TRIED_BUCKET_SIZE && Filled(net, t, n + 1, vvTried[b := vvTried[b] + [n]])
  {
    RoomToFill(net, t, n, vvTried);
    FillMore(net, t, n, vvTried);
  }

  lemma FillMore(net: Net, t: Tables, n: nat, vvTried: seq<seq<int>>)
    requires OrderOk(t) && t.nNew <= n < t.nNew + t.nTried
    requires Filled(net, t, n, vvTried)
    requires |vvTried[BucketOf(net, t.nKey, LoadedAt(t, n))]| < TRIED_BUCKET_SIZE
    ensures var b := BucketOf(net, t.nKey, LoadedAt(t, n));
            Filled(net, t, n + 1, vvTried[b := vvTried[b] + [n]])
  {
    assert 0 <= t.nNew;
    var b := BucketOf(net, t.nKey, LoadedAt(t, n));
    var vvTried' := vvTried[b := vvTried[b] + [n]];
    forall c | 0 <= c < TRIED_BUCKET_COUNT
      ensures FilledBucket(net, t, n + 1, c, vvTried'[c])
    {
      assert FilledBucket(net, t, n, c, vvTried[c]);
      FillMoreBucket(net, t, n, b, c, vvTried[c]);
    }
    FillPlaces(net, t, n, b, vvTried);
  }

  lemma FillPlaces(net: Net, t: Tables, n: nat, b: nat, vvTried: seq<seq<int>>)
    requires OrderOk(t) && 0 <= t.nNew <= n < t.nNew + t.nTried && Filled(net, t, n, vvTried)
    requires b == BucketOf(net, t.nKey, LoadedAt(t, n))
    ensures forall k | t.nNew <= k < n + 1 :: k in vvTried[b := vvTried[b] + [n]][BucketOf(net, t.nKey, LoadedAt(t, k))]
  {
    hide FilledBucket, OrderOk, LoadedAt, BucketOf;
    forall k | t.nNew <= k < n + 1
      ensures k in vvTried[b := vvTried[b] + [n]][BucketOf(net, t.nKey, LoadedAt(t, k))]
    {
      if k == n {
        assert (vvTried[b] + [n])[|vvTried[b]|] == n;
      } else {
        assert k in vvTried[BucketOf(net, t.nKey, LoadedAt(t, k))];
      }
    }
  }

  lemma FillMoreBucket(net: Net, t: Tables, n: nat, b: nat, c: nat, vTried: seq<int>)
    requires OrderOk(t) && t.nNew <= n < t.nNew + t.nTried && b == BucketOf(net, t.nKey, LoadedAt(t, n))
    requires FilledBucket(net, t, n, c, vTried) && (b == c ==> |vTried| < TRIED_BUCKET_SIZE)
    ensures FilledBucket(net, t, n + 1, c, if b == c then vTried + [n] else vTried)
  {
    hide OrderOk, LoadedAt, BucketOf;
    forall i | 0 <= i < |vTried|
      ensures vTried[i] != n
    {
      assert vTried[i] in vTried;
    }
    assert forall k | k in vTried + [n] :: k in vTried || k == n;
  }

  /** Filling the buckets from none but new entries. */
  lemma FillStart(net: Net, t: Tables)
    requires OrderOk(t)
    ensures Filled(net, t, t.nNew, NoTriedEntries())
  {
  }

  // ----- The new buckets

  /** Reference counts equal the number of buckets filled so far. */
  ghost predicate Counted(t: Tables, infos: Infos, vvNew: seq<set<int>>)
    requires OrderOk(t)
  {
    && (forall k :: k in infos <==> 0 <= k < t.nNew + t.nTried)
    && (forall k | 0 <= k < t.nNew + t.nTried :: infos[k] == LoadedAt(t, k).(nRefCount := |Buckets(vvNew, k)|))
  }

  /** The bucket holds the new numbers of the ids in `part`. */
  ghost predicate Renumbered(news: seq<int>, part: set<int>, vNew: set<int>) {
    forall k :: k in vNew <==> 0 <= k < |news| && news[k] in part
  }

  ghost function Taken(s: set<int>, j: nat): (r: set<int>)
    requires j <= |s|
    ensures j == 0 ==> r == {}
    ensures j == |s| ==> r == s
  {
    var e := Elements(s);
    assert e[..|s|] == e;
    set x | x in e[..j]
  }

  ghost function Part(t: Tables, b: nat, j: nat, c: nat): set<int>
    requires c < |t.vvNew| && b <= |t.vvNew| && (if b < |t.vvNew| then j <= |t.vvNew[b]| else j == 0)
  {
    if c < b then t.vvNew[c] else if c == b then Taken(t.vvNew[b], j) else {}
  }

  /** Buckets before `b` are filled, and the first `j` ids of bucket `b` are in it. */
  ghost predicate Refilled(t: Tables, b: nat, j: nat, vvNew: seq<set<int>>) {
    && |t.vvNew| == NEW_BUCKET_COUNT && b <= NEW_BUCKET_COUNT
    && (if b < NEW_BUCKET_COUNT then j <= |t.vvNew[b]| else j == 0)
    && |vvNew| == NEW_BUCKET_COUNT
    && forall c | 0 <= c < NEW_BUCKET_COUNT :: Renumbered(NewOrder(t.mapInfo), Part(t, b, j, c), vvNew[c])
  }

  lemma TakenMore(s: set<int>, j: nat)
    requires j < |s|
    ensures Taken(s, j + 1) == Taken(s, j) + {Elements(s)[j]}
    ensures Elements(s)[j] in s && Elements(s)[j] !in Taken(s, j) && Taken(s, j) <= s
  {
    hide Elements;
    var e := Elements(s);
    assert e[..j + 1] == e[..j] + [e[j]];
    assert e[j] in e;
    assert forall i | 0 <= i < j :: e[i] != e[j];
    assert forall x | x in e[..j] :: x in e;
  }

  lemma RefillNext(t: Tables, b: nat, vvNew: seq<set<int>>)
    requires b < NEW_BUCKET_COUNT && |t.vvNew| == NEW_BUCKET_COUNT
    requires Refilled(t, b, |t.vvNew[b]|, vvNew)
    ensures Refilled(t, b + 1, 0, vvNew)
  {
    forall c | 0 <= c < NEW_BUCKET_COUNT
      ensures Renumbered(NewOrder(t.mapInfo), Part(t, b + 1, 0, c), vvNew[c])
    {
      assert Part(t, b + 1, 0, c) == Part(t, b, |t.vvNew[b]|, c);
    }
  }

  lemma RefillStart(t: Tables, infos: Infos, mapAddr: map<NetAddr, int>, vRandom: seq<int>)
    requires OrderOk(t) && |t.vvNew| == NEW_BUCKET_COUNT
    requires Loaded(t, t.nNew + t.nTried, infos, mapAddr, vRandom)
    ensures var vvNew := NoNewEntries();
            Counted(t, infos, vvNew) && Refilled(t, 0, 0, vvNew)
  {
    var vvNew := NoNewEntries();
    forall k
      ensures Buckets(vvNew, k) == {}
    {
    }
    forall c | 0 <= c < NEW_BUCKET_COUNT
      ensures Renumbered(NewOrder(t.mapInfo), Part(t, 0, 0, c), vvNew[c])
    {
      assert Part(t, 0, 0, c) == {};
    }
  }

  /** The number given to the `j`-th id of bucket `b`. */
  ghost function NumberAt(t: Tables, b: nat, j: nat): (k: nat)
    requires Writable(t) && b < NEW_BUCKET_COUNT && j < |t.vvNew[b]|
    ensures k < t.nNew && NewOrder(t.mapInfo)[k] == Elements(t.vvNew[b])[j]
  {
    assert CoversOne(NewOrder(t.mapInfo), t.vvNew[b]);
    var id := Elements(t.vvNew[b])[j];
    assert id in Elements(t.vvNew[b]);
    IndexOf(NewOrder(t.mapInfo), id)
  }

  /** The next id to be put into bucket `b` is in fewer buckets than its entry's limit. */
  lemma RefsBelowLimit(net: Net, t: Tables, b: nat, j: nat, vvNew: seq<set<int>>)
    requires Readable(net, t) && b < NEW_BUCKET_COUNT && |t.vvNew| == NEW_BUCKET_COUNT && j < |t.vvNew[b]|
    requires Refilled(t, b, j, vvNew)
    ensures var k := NumberAt(t, b, j);
            k !in vvNew[b] && |Buckets(vvNew, k)| < NEW_BUCKETS_PER_ADDRESS
  {
    var k := NumberAt(t, b, j);
    OrderStart(t, k);
    hide *;
    TakenMore(t.vvNew[b], j);
    SourceRefs(net, t, k);
    RefilledSubset(t, b, j, NewOrder(t.mapInfo), k, vvNew);
    FewerBuckets(t.vvNew, vvNew, b, NewOrder(t.mapInfo)[k], k);
  }

  lemma RefilledSubset(t: Tables, b: nat, j: nat, news: seq<int>, k: nat, vvNew: seq<set<int>>)
    requires |t.vvNew| == NEW_BUCKET_COUNT && b < NEW_BUCKET_COUNT && j < |t.vvNew[b]|
    requires news == NewOrder(t.mapInfo) && k < |news| && news[k] !in Taken(t.vvNew[b], j)
    requires Refilled(t, b, j, vvNew)
    ensures |vvNew| == NEW_BUCKET_COUNT
    ensures forall c | 0 <= c < NEW_BUCKET_COUNT && k in vvNew[c] :: news[k] in t.vvNew[c] && c != b
  {
    hide NewOrder, Taken;
    forall c | 0 <= c < NEW_BUCKET_COUNT && k in vvNew[c]
      ensures news[k] in t.vvNew[c] && c != b
    {
      assert Renumbered(news, Part(t, b, j, c), vvNew[c]);
    }
  }

  lemma FewerBuckets(all: seq<set<int>>, some: seq<set<int>>, b: nat, id: int, k: int)
    requires |all| == |some| == NEW_BUCKET_COUNT && b < NEW_BUCKET_COUNT
    requires forall c | 0 <= c < NEW_BUCKET_COUNT && k in some[c] :: id in all[c] && c != b
    requires id in all[b] && |Buckets(all, id)| <= NEW_BUCKETS_PER_ADDRESS
    ensures k !in some[b] && |Buckets(some, k)| < NEW_BUCKETS_PER_ADDRESS
  {
    assert b in Buckets(all, id);
    assert Buckets(some, k) <= Buckets(all, id) - {b};
    SubsetCard(Buckets(some, k), Buckets(all, id) - {b});
  }

  lemma SourceRefs(net: Net, t: Tables, k: nat)
    requires Readable(net, t) && k < t.nNew + t.nTried
    ensures |t.vvNew| == NEW_BUCKET_COUNT
    ensures var id := Order(t.mapInfo)[k];
            && id in t.mapInfo
            && RefOk(t.mapInfo[id], Buckets(t.vvNew, id), false)
            && |Buckets(t.vvNew, id)| <= NEW_BUCKETS_PER_ADDRESS
  {
    var id := Order(t.mapInfo)[k];
    assert id in t.mapInfo;
    assert RefOk(t.mapInfo[id], Buckets(t.vvNew, id), false);
  }

  lemma RefillStep(net: Net, t: Tables, b: nat, j: nat, infos: Infos, vvNew: seq<set<int>>)
    requires Readable(net, t) && b < NEW_BUCKET_COUNT && |t.vvNew| == NEW_BUCKET_COUNT && j < |t.vvNew[b]|
    requires Counted(t, infos, vvNew) && Refilled(t, b, j, vvNew)
    ensures var k := NumberAt(t, b, j);
            && k in infos && infos[k].nRefCount < NEW_BUCKETS_PER_ADDRESS
            && Counted(t, infos[k := infos[k].(nRefCount := infos[k].nRefCount + 1)], vvNew[b := vvNew[b] + {k}])
            && Refilled(t, b, j + 1, vvNew[b := vvNew[b] + {k}])
  {
    var k := NumberAt(t, b, j);
    RefsBelowLimit(net, t, b, j, vvNew);
    RefillCount(t, b, k, infos, vvNew);
    RefillInsert(net, t, b, j, vvNew);
  }

  lemma RefillCount(t: Tables, b: nat, k: nat, infos: Infos, vvNew: seq<set<int>>)
    requires OrderOk(t) && k < t.nNew + t.nTried && b < |vvNew| && k !in vvNew[b]
    requires Counted(t, infos, vvNew)
    ensures k in infos && infos[k].nRefCount == |Buckets(vvNew, k)|
    ensures Counted(t, infos[k := infos[k].(nRefCount := infos[k].nRefCount + 1)], vvNew[b := vvNew[b] + {k}])
  {
    hide OrderOk, LoadedAt;
    forall x
      ensures Buckets(vvNew[b := vvNew[b] + {k}], x) == Buckets(vvNew, x) + (if x == k then {b} else {})
    {
      BucketsInsert(vvNew, b, k, x);
    }
    assert b !in Buckets(vvNew, k);
    assert forall x | x != k :: Buckets(vvNew, x) + {} == Buckets(vvNew, x);
  }

  lemma RefillInsert(net: Net, t: Tables, b: nat, j: nat, vvNew: seq<set<int>>)
    requires Readable(net, t) && b < NEW_BUCKET_COUNT && |t.vvNew| == NEW_BUCKET_COUNT && j < |t.vvNew[b]|
    requires Refilled(t, b, j, vvNew)
    ensures Refilled(t, b, j + 1, vvNew[b := vvNew[b] + {NumberAt(t, b, j)}])
  {
    hide *;
    ReadableWritable(net, t);
    RefilledLength(t, b, j, vvNew);
    var k := NumberAt(t, b, j);
    var vvNew' := vvNew[b := vvNew[b] + {k}];
    forall c | 0 <= c < NEW_BUCKET_COUNT
      ensures Renumbered(NewOrder(t.mapInfo), Part(t, b, j + 1, c), vvNew'[c])
    {
      RefillInsertAt(net, t, b, j, c, vvNew);
    }
    RefilledBy(t, b, j + 1, vvNew');
  }

  lemma ReadableWritable(net: Net, t: Tables)
    requires Readable(net, t)
    ensures TablesOk(net, t) && Writable(t) && OrderOk(t)
  {
    hide TablesOk, Writable, OrderOk;
  }

  lemma RefilledLength(t: Tables, b: nat, j: nat, vvNew: seq<set<int>>)
    requires Refilled(t, b, j, vvNew)
    ensures |vvNew| == |t.vvNew| == NEW_BUCKET_COUNT
  {
    hide Renumbered, Part;
  }

  lemma RefilledBy(t: Tables, b: nat, j: nat, vvNew: seq<set<int>>)
    requires |t.vvNew| == NEW_BUCKET_COUNT && b < NEW_BUCKET_COUNT && j <= |t.vvNew[b]|
    requires |vvNew| == NEW_BUCKET_COUNT
    requires forall c | 0 <= c < NEW_BUCKET_COUNT :: Renumbered(NewOrder(t.mapInfo), Part(t, b, j, c), vvNew[c])
    ensures Refilled(t, b, j, vvNew)
  {
    hide NewOrder, Part, Renumbered;
  }

  lemma RefillInsertAt(net: Net, t: Tables, b: nat, j: nat, c: nat, vvNew: seq<set<int>>)
    requires Readable(net, t) && b < NEW_BUCKET_COUNT && |t.vvNew| == NEW_BUCKET_COUNT && j < |t.vvNew[b]|
    requires Refilled(t, b, j, vvNew) && c < NEW_BUCKET_COUNT
    ensures Renumbered(NewOrder(t.mapInfo), Part(t, b, j + 1, c),
                       vvNew[b := vvNew[b] + {NumberAt(t, b, j)}][c])
  {
    var k, news := NumberAt(t, b, j), NewOrder(t.mapInfo);
    assert Renumbered(news, Part(t, b, j, c), vvNew[c]);
    hide Refilled, Select, Elements, Taken;
    PartMore(t, b, j, c);
    NewsDistinct(t);
    if c == b {
      hide NewOrder, Part, Renumbered;
      RenumberedMore(news, Part(t, b, j, b), vvNew[b], k);
    }
  }

  lemma PartMore(t: Tables, b: nat, j: nat, c: nat)
    requires b < |t.vvNew| && c < |t.vvNew| && j < |t.vvNew[b]|
    ensures Part(t, b, j + 1, c) == if c == b then Part(t, b, j, c) + {Elements(t.vvNew[b])[j]} else Part(t, b, j, c)
  {
    TakenMore(t.vvNew[b], j);
  }

  lemma OrderStart(t: Tables, k: nat)
    requires OrderOk(t) && k < t.nNew
    ensures k < |NewOrder(t.mapInfo)| && Order(t.mapInfo)[k] == NewOrder(t.mapInfo)[k]
  {
  }

  lemma RenumberedMore(news: seq<int>, part: set<int>, vNew: set<int>, k: nat)
    requires Renumbered(news, part, vNew) && k < |news| && NoDup(news)
    ensures Renumbered(news, part + {news[k]}, vNew + {k})
  {
  }

  lemma NewsDistinct(t: Tables)
    requires OrderOk(t)
    ensures NoDup(NewOrder(t.mapInfo)) && |NewOrder(t.mapInfo)| == t.nNew
  {
    var news := NewOrder(t.mapInfo);
    assert forall i | 0 <= i < |news| :: Order(t.mapInfo)[i] == news[i];
  }

  // ----- The result of reading

  /** `t'` is `t` with its ids renumbered in written order: entry for entry and bucket for
      bucket the same, but for the unsaved time of the last try and the order in `vRandom`. */
  ghost predicate Restored(t: Tables, t': Tables)
    requires OrderOk(t)
  {
    var order := Order(t.mapInfo);
    && t'.nKey == t.nKey && t'.nNew == t.nNew && t'.nTried == t.nTried && t'.nIdCount == |order|
    && (forall k :: k in t'.mapInfo <==> 0 <= k < |order|)
    && (forall k | 0 <= k < |order| :: t'.mapInfo[k] == t.mapInfo[order[k]].(nLastTry := 0, nRandomPos := k))
    && SameBuckets(t, t'.vvNew, t'.vvTried)
  }

  ghost predicate SameBuckets(t: Tables, vvNew: seq<set<int>>, vvTried: seq<seq<int>>)
    requires OrderOk(t)
  {
    && |vvNew| == |t.vvNew| && |vvTried| == |t.vvTried|
    && (forall b | 0 <= b < |vvNew| :: SameNew(Order(t.mapInfo), t.vvNew[b], vvNew[b]))
    && (forall b | 0 <= b < |vvTried| :: SameTried(Order(t.mapInfo), t.vvTried[b], vvTried[b]))
  }

  /** `k` is in the bucket just when the `k`-th id was. */
  ghost predicate SameNew(order: seq<int>, vNew: set<int>, vNew': set<int>) {
    forall k | 0 <= k < |order| :: k in vNew' <==> order[k] in vNew
  }

  ghost predicate SameTried(order: seq<int>, vTried: seq<int>, vTried': seq<int>) {
    forall k | 0 <= k < |order| :: k in vTried' <==> order[k] in vTried
  }

  /** Bucket `c`, once all are filled. */
  lemma RefilledBucket(t: Tables, vvNew: seq<set<int>>, c: nat)
    requires OrderOk(t) && Refilled(t, NEW_BUCKET_COUNT, 0, vvNew) && c < NEW_BUCKET_COUNT
    ensures |vvNew| == |t.vvNew| == NEW_BUCKET_COUNT
    ensures forall k :: k in vvNew[c] <==> 0 <= k < t.nNew && Order(t.mapInfo)[k] in t.vvNew[c]
  {
    assert Part(t, NEW_BUCKET_COUNT, 0, c) == t.vvNew[c];
    assert Renumbered(NewOrder(t.mapInfo), Part(t, NEW_BUCKET_COUNT, 0, c), vvNew[c]);
    assert |NewOrder(t.mapInfo)| == t.nNew;
    assert forall k | 0 <= k < t.nNew :: Order(t.mapInfo)[k] == NewOrder(t.mapInfo)[k];
  }

  /** Tried ids are in no new bucket. */
  lemma SourceNotNew(net: Net, t: Tables, k: nat, c: nat)
    requires Readable(net, t) && t.nNew <= k < t.nNew + t.nTried && c < NEW_BUCKET_COUNT
    ensures |t.vvNew| == NEW_BUCKET_COUNT && Order(t.mapInfo)[k] !in t.vvNew[c]
  {
    assert NewBucketOk(t.mapInfo, t.vvNew[c]);
    assert t.mapInfo[Order(t.mapInfo)[k]].fInTried;
  }

  lemma RefilledSame(net: Net, t: Tables, vvNew: seq<set<int>>, c: nat)
    requires Readable(net, t) && Refilled(t, NEW_BUCKET_COUNT, 0, vvNew) && c < NEW_BUCKET_COUNT
    ensures |vvNew| == |t.vvNew| == NEW_BUCKET_COUNT && t.nNew + t.nTried == |Order(t.mapInfo)|
    ensures forall k :: k in vvNew[c] <==> 0 <= k < t.nNew + t.nTried && Order(t.mapInfo)[k] in t.vvNew[c]
  {
    hide *;
    ReadableWritable(net, t);
    OrderSize(t);
    RefilledBucket(t, vvNew, c);
    forall k | t.nNew <= k < t.nNew + t.nTried
      ensures Order(t.mapInfo)[k] !in t.vvNew[c]
    {
      SourceNotNew(net, t, k, c);
    }
  }

  lemma OrderSize(t: Tables)
    requires OrderOk(t)
    ensures forall k | 0 <= k < |Order(t.mapInfo)| :: Order(t.mapInfo)[k] in t.mapInfo
    ensures 0 <= t.nNew && 0 <= t.nTried && |Order(t.mapInfo)| == t.nNew + t.nTried && NoDup(Order(t.mapInfo))
  {
  }

  lemma RefilledCounts(net: Net, t: Tables, vvNew: seq<set<int>>, k: nat)
    requires Readable(net, t) && Refilled(t, NEW_BUCKET_COUNT, 0, vvNew) && k < |Order(t.mapInfo)|
    ensures Buckets(vvNew, k) == Buckets(t.vvNew, Order(t.mapInfo)[k])
  {
    assert 0 <= NEW_BUCKET_COUNT;
    hide *;
    ReadableWritable(net, t);
    OrderSize(t);
    RefilledLength(t, NEW_BUCKET_COUNT, 0, vvNew);
    forall c | 0 <= c < NEW_BUCKET_COUNT
      ensures k in vvNew[c] <==> Order(t.mapInfo)[k] in t.vvNew[c]
    {
      RefilledSame(net, t, vvNew, c);
    }
    SameMembership(vvNew, t.vvNew, k, Order(t.mapInfo)[k]);
  }

  lemma SameMembership(some: seq<set<int>>, all: seq<set<int>>, k: int, id: int)
    requires |some| == |all| && forall c | 0 <= c < |some| :: k in some[c] <==> id in all[c]
    ensures Buckets(some, k) == Buckets(all, id)
  {
  }

  lemma {:induction false} IndexSetCard(s: set<int>, order: seq<int>, t: set<int>)
    requires NoDup(order) && forall k | k in s :: 0 <= k < |order| && order[k] in t
    ensures |s| <= |t|
    decreases s
  {
    if |s| != 0 {
      HasElement(s);
      var k: int :| k in s;
      IndexSetCard(s - {k}, order, t - {order[k]});
    }
  }

  lemma RangeCard(lo: int, hi: int, s: set<int>)
    requires lo <= hi && forall k :: k in s <==> lo <= k < hi
    ensures |s| == hi - lo
    decreases hi - lo
  {
    if lo == hi {
      assert forall k :: k !in s;
    } else {
      RangeCard(lo, hi - 1, s - {hi - 1});
    }
  }

  lemma FilledSame(net: Net, t: Tables, vvTried: seq<seq<int>>, b: nat, k: nat)
    requires Readable(net, t) && Filled(net, t, t.nNew + t.nTried, vvTried)
    requires b < TRIED_BUCKET_COUNT && k < |Order(t.mapInfo)|
    ensures |vvTried| == |t.vvTried| == TRIED_BUCKET_COUNT
    ensures k in vvTried[b] <==> Order(t.mapInfo)[k] in t.vvTried[b]
  {
    var id := Order(t.mapInfo)[k];
    assert FilledBucket(net, t, t.nNew + t.nTried, b, vvTried[b]);
    assert TriedBucketOk(net, t.nKey, t.mapInfo, b, t.vvTried[b]);
    assert id in t.mapInfo && (t.mapInfo[id].fInTried <==> t.nNew <= k);
    assert BucketOf(net, t.nKey, LoadedAt(t, k)) == BucketOf(net, t.nKey, t.mapInfo[id]);
  }

  /** The last entry state: counted references, everything else as loaded. */
  lemma RestoredEntries(net: Net, t: Tables, infos: Infos, vvNew: seq<set<int>>)
    requires Readable(net, t) && Counted(t, infos, vvNew)
    requires forall k | 0 <= k < |Order(t.mapInfo)| :: Buckets(vvNew, k) == Buckets(t.vvNew, Order(t.mapInfo)[k])
    ensures forall k | 0 <= k < |Order(t.mapInfo)| ::
              infos[k] == t.mapInfo[Order(t.mapInfo)[k]].(nLastTry := 0, nRandomPos := k)
    ensures forall k | 0 <= k < |Order(t.mapInfo)| :: RefOk(infos[k], Buckets(vvNew, k), false)
  {
    ReadableWritable(net, t);
    OrderSize(t);
    forall k | 0 <= k < |Order(t.mapInfo)|
      ensures infos[k] == t.mapInfo[Order(t.mapInfo)[k]].(nLastTry := 0, nRandomPos := k)
      ensures RefOk(infos[k], Buckets(vvNew, k), false)
    {
      RestoredEntry(net, t, k);
    }
  }

  lemma RestoredEntry(net: Net, t: Tables, k: nat)
    requires Readable(net, t) && OrderOk(t) && k < t.nNew + t.nTried
    ensures var entry := t.mapInfo[Order(t.mapInfo)[k]];
            && LoadedAt(t, k).(nRefCount := |Buckets(t.vvNew, Order(t.mapInfo)[k])|) == entry.(nLastTry := 0, nRandomPos := k)
            && RefOk(entry, Buckets(t.vvNew, Order(t.mapInfo)[k]), false)
  {
    hide Select, NewOk, TriedOk, RandomOk, AddrOk, Order;
    SourceRefs(net, t, k);
  }

  lemma RestoredNewOk(net: Net, t: Tables, infos: Infos, vvNew: seq<set<int>>)
    requires Readable(net, t) && Counted(t, infos, vvNew) && Refilled(t, NEW_BUCKET_COUNT, 0, vvNew)
    requires forall k | 0 <= k < |Order(t.mapInfo)| :: RefOk(infos[k], Buckets(vvNew, k), false)
    requires forall k | 0 <= k < |Order(t.mapInfo)| ::
               infos[k] == t.mapInfo[Order(t.mapInfo)[k]].(nLastTry := 0, nRandomPos := k)
    ensures NewOk(infos, vvNew, {})
  {
    assert NEW_BUCKET_COUNT == 256;
    hide *;
    ReadableWritable(net, t);
    OrderSize(t);
    RefilledLength(t, NEW_BUCKET_COUNT, 0, vvNew);
    CountedKeys(t, infos, vvNew);
    forall c | 0 <= c < NEW_BUCKET_COUNT
      ensures NewBucketOk(infos, vvNew[c])
    {
      RestoredBucket(net, t, infos, vvNew, c);
    }
    NewOkTogether(infos, vvNew, |Order(t.mapInfo)|);
  }

  lemma CountedKeys(t: Tables, infos: Infos, vvNew: seq<set<int>>)
    requires OrderOk(t) && Counted(t, infos, vvNew)
    ensures forall k :: k in infos <==> 0 <= k < t.nNew + t.nTried
  {
    hide OrderOk, LoadedAt;
  }

  lemma NewOkTogether(infos: Infos, vvNew: seq<set<int>>, n: nat)
    requires |vvNew| == NEW_BUCKET_COUNT
    requires forall c | 0 <= c < NEW_BUCKET_COUNT :: NewBucketOk(infos, vvNew[c])
    requires forall k :: k in infos <==> 0 <= k < n
    requires forall k | 0 <= k < n :: RefOk(infos[k], Buckets(vvNew, k), false)
    ensures NewOk(infos, vvNew, {})
  {
    hide NewBucketOk, RefOk, Buckets;
  }

  lemma RestoredBucket(net: Net, t: Tables, infos: Infos, vvNew: seq<set<int>>, c: nat)
    requires Readable(net, t) && Counted(t, infos, vvNew) && Refilled(t, NEW_BUCKET_COUNT, 0, vvNew)
    requires forall k | 0 <= k < |Order(t.mapInfo)| ::
               infos[k] == t.mapInfo[Order(t.mapInfo)[k]].(nLastTry := 0, nRandomPos := k)
    requires c < NEW_BUCKET_COUNT
    ensures |vvNew| == NEW_BUCKET_COUNT && NewBucketOk(infos, vvNew[c])
  {
    RefilledSame(net, t, vvNew, c);
    ReadableWritable(net, t);
    OrderSize(t);
    SourceNewBucket(net, t, c);
    hide Readable, OrderOk, Order, Refilled, LoadedAt, NewOrder;
    IndexSetCard(vvNew[c], Order(t.mapInfo), t.vvNew[c]);
  }

  lemma SourceNewBucket(net: Net, t: Tables, c: nat)
    requires Readable(net, t) && c < NEW_BUCKET_COUNT
    ensures |t.vvNew| == NEW_BUCKET_COUNT && NewBucketOk(t.mapInfo, t.vvNew[c])
  {
  }

  lemma RestoredTriedOk(net: Net, t: Tables, infos: Infos, vvTried: seq<seq<int>>)
    requires OrderOk(t) && Filled(net, t, t.nNew + t.nTried, vvTried)
    requires forall k :: k in infos <==> 0 <= k < t.nNew + t.nTried
    requires forall k | 0 <= k < t.nNew + t.nTried :: infos[k] == LoadedAt(t, k).(nRefCount := infos[k].nRefCount)
    ensures TriedOk(net, t.nKey, infos, vvTried)
  {
    hide OrderOk, LoadedAt, BucketOf, Order;
    OrderSize(t);
    forall k | 0 <= k < t.nNew + t.nTried
      ensures BucketOf(net, t.nKey, infos[k]) == BucketOf(net, t.nKey, LoadedAt(t, k))
      ensures infos[k].fInTried <==> t.nNew <= k
    {
      RestoredBucketOf(net, t, infos[k], k);
    }
    forall b | 0 <= b < TRIED_BUCKET_COUNT
      ensures TriedBucketOk(net, t.nKey, infos, b, vvTried[b])
    {
      assert FilledBucket(net, t, t.nNew + t.nTried, b, vvTried[b]);
    }
    hide FilledBucket, TriedBucketOk;
  }

  lemma RestoredBucketOf(net: Net, t: Tables, info: AddrInfo, k: nat)
    requires OrderOk(t) && k < t.nNew + t.nTried && info == LoadedAt(t, k).(nRefCount := info.nRefCount)
    ensures BucketOf(net, t.nKey, info) == BucketOf(net, t.nKey, LoadedAt(t, k))
    ensures info.fInTried <==> t.nNew <= k
  {
  }

  lemma RestoredIdCounts(t: Tables, infos: Infos)
    requires OrderOk(t)
    requires forall k :: k in infos <==> 0 <= k < t.nNew + t.nTried
    requires forall k | 0 <= k < t.nNew + t.nTried :: infos[k] == LoadedAt(t, k).(nRefCount := infos[k].nRefCount)
    ensures |NewIds(infos)| == t.nNew && |TriedIds(infos)| == t.nTried
  {
    assert 0 <= t.nNew && 0 <= t.nTried by { OrderSize(t); }
    RangeCard(0, t.nNew, NewIds(infos));
    RangeCard(t.nNew, t.nNew + t.nTried, TriedIds(infos));
  }

  ghost function RestoredTables(t: Tables, infos: Infos, mapAddr: map<NetAddr, int>, vRandom: seq<int>,
                                vvTried: seq<seq<int>>, vvNew: seq<set<int>>): Tables
  {
    Tables(t.nKey, t.nNew + t.nTried, infos, mapAddr, vRandom, t.nTried, vvTried, t.nNew, vvNew)
  }

  lemma RestoreDone(net: Net, t: Tables, infos: Infos, infos0: Infos, mapAddr: map<NetAddr, int>, vRandom: seq<int>,
                    vvTried: seq<seq<int>>, vvNew: seq<set<int>>)
    requires Readable(net, t) && OrderOk(t)
    requires Loaded(t, t.nNew + t.nTried, infos0, mapAddr, vRandom)
    requires Filled(net, t, t.nNew + t.nTried, vvTried)
    requires Counted(t, infos, vvNew) && Refilled(t, NEW_BUCKET_COUNT, 0, vvNew)
    ensures TablesOk(net, RestoredTables(t, infos, mapAddr, vRandom, vvTried, vvNew))
    ensures Restored(t, RestoredTables(t, infos, mapAddr, vRandom, vvTried, vvNew))
  {
    hide *;
    OrderSize(t);
    RestoredPlacement(net, t, infos, infos0, mapAddr, vRandom, vvTried, vvNew);
    RestoredReferences(net, t, infos, vvNew);
    RestoredBuckets(net, t, vvTried, vvNew);
    RestoredTogether(net, t, infos, mapAddr, vRandom, vvTried, vvNew);
  }

  lemma RestoredPlacement(net: Net, t: Tables, infos: Infos, infos0: Infos, mapAddr: map<NetAddr, int>, vRandom: seq<int>,
                          vvTried: seq<seq<int>>, vvNew: seq<set<int>>)
    requires OrderOk(t)
    requires Loaded(t, t.nNew + t.nTried, infos0, mapAddr, vRandom)
    requires Filled(net, t, t.nNew + t.nTried, vvTried)
    requires Counted(t, infos, vvNew)
    ensures RandomOk(infos, vRandom) && AddrOk(infos, mapAddr) && IdsOk(infos, t.nNew + t.nTried)
    ensures TriedOk(net, t.nKey, infos, vvTried)
    ensures |NewIds(infos)| == t.nNew && |TriedIds(infos)| == t.nTried
    ensures forall k :: k in infos <==> 0 <= k < t.nNew + t.nTried
  {
    hide OrderOk, LoadedAt, RandomOk, AddrOk, TriedOk, Filled, Loaded;
    LoadedPlace(t, infos, infos0, mapAddr, vRandom, vvNew);
    RestoredTriedOk(net, t, infos, vvTried);
    RestoredIdCounts(t, infos);
  }

  lemma RestoredReferences(net: Net, t: Tables, infos: Infos, vvNew: seq<set<int>>)
    requires Readable(net, t) && OrderOk(t)
    requires Counted(t, infos, vvNew) && Refilled(t, NEW_BUCKET_COUNT, 0, vvNew)
    ensures forall k | 0 <= k < |Order(t.mapInfo)| ::
              k in infos && infos[k] == t.mapInfo[Order(t.mapInfo)[k]].(nLastTry := 0, nRandomPos := k)
    ensures NewOk(infos, vvNew, {})
  {
    hide Readable, OrderOk, Refilled, NewOk, Order, LoadedAt;
    OrderSize(t);
    forall k | 0 <= k < |Order(t.mapInfo)|
      ensures Buckets(vvNew, k) == Buckets(t.vvNew, Order(t.mapInfo)[k])
    {
      RefilledCounts(net, t, vvNew, k);
    }
    RestoredEntries(net, t, infos, vvNew);
    RestoredNewOk(net, t, infos, vvNew);
  }

  lemma RestoredTogether(net: Net, t: Tables, infos: Infos, mapAddr: map<NetAddr, int>, vRandom: seq<int>,
                         vvTried: seq<seq<int>>, vvNew: seq<set<int>>)
    requires OrderOk(t) && |Order(t.mapInfo)| == t.nNew + t.nTried
    requires RandomOk(infos, vRandom) && AddrOk(infos, mapAddr) && IdsOk(infos, t.nNew + t.nTried)
    requires TriedOk(net, t.nKey, infos, vvTried) && NewOk(infos, vvNew, {})
    requires |NewIds(infos)| == t.nNew && |TriedIds(infos)| == t.nTried
    requires forall k :: k in infos <==> 0 <= k < t.nNew + t.nTried
    requires forall k | 0 <= k < |Order(t.mapInfo)| ::
               k in infos && Order(t.mapInfo)[k] in t.mapInfo
               && infos[k] == t.mapInfo[Order(t.mapInfo)[k]].(nLastTry := 0, nRandomPos := k)
    requires SameBuckets(t, vvNew, vvTried)
    ensures TablesOk(net, RestoredTables(t, infos, mapAddr, vRandom, vvTried, vvNew))
    ensures Restored(t, RestoredTables(t, infos, mapAddr, vRandom, vvTried, vvNew))
  {
    hide RandomOk, AddrOk, IdsOk, TriedOk, NewOk, OrderOk, SameBuckets, Order, NewIds, TriedIds;
  }

  lemma LoadedPlace(t: Tables, infos: Infos, infos0: Infos, mapAddr: map<NetAddr, int>, vRandom: seq<int>,
                    vvNew: seq<set<int>>)
    requires OrderOk(t) && Loaded(t, t.nNew + t.nTried, infos0, mapAddr, vRandom) && Counted(t, infos, vvNew)
    ensures RandomOk(infos, vRandom) && AddrOk(infos, mapAddr) && IdsOk(infos, t.nNew + t.nTried)
  {
    OrderSize(t);
    hide OrderOk, LoadedAt, RandomOk, AddrOk;
    PlaceKeeps(infos0, infos, mapAddr, vRandom, t.nNew + t.nTried);
  }

  lemma RestoredBuckets(net: Net, t: Tables, vvTried: seq<seq<int>>, vvNew: seq<set<int>>)
    requires Readable(net, t) && OrderOk(t)
    requires Filled(net, t, t.nNew + t.nTried, vvTried) && Refilled(t, NEW_BUCKET_COUNT, 0, vvNew)
    ensures SameBuckets(t, vvNew, vvTried)
  {
    assert 0 <= NEW_BUCKET_COUNT == 256 && TRIED_BUCKET_COUNT == 64;
    hide *;
    RefilledLength(t, NEW_BUCKET_COUNT, 0, vvNew);
    FilledLength(net, t, vvTried);
    forall b | 0 <= b < |vvNew|
      ensures SameNew(Order(t.mapInfo), t.vvNew[b], vvNew[b])
    {
      RestoredNewBucket(net, t, vvNew, b);
    }
    forall b | 0 <= b < |vvTried|
      ensures SameTried(Order(t.mapInfo), t.vvTried[b], vvTried[b])
    {
      RestoredTriedBucket(net, t, vvTried, b);
    }
    SameAll(t, vvNew, vvTried);
  }

  lemma SameAll(t: Tables, vvNew: seq<set<int>>, vvTried: seq<seq<int>>)
    requires OrderOk(t) && |vvNew| == |t.vvNew| && |vvTried| == |t.vvTried|
    requires forall b | 0 <= b < |vvNew| :: SameNew(Order(t.mapInfo), t.vvNew[b], vvNew[b])
    requires forall b | 0 <= b < |vvTried| :: SameTried(Order(t.mapInfo), t.vvTried[b], vvTried[b])
    ensures SameBuckets(t, vvNew, vvTried)
  {
    hide OrderOk, Order, SameNew, SameTried;
  }

  lemma RestoredNewBucket(net: Net, t: Tables, vvNew: seq<set<int>>, b: nat)
    requires Readable(net, t) && Refilled(t, NEW_BUCKET_COUNT, 0, vvNew) && b < NEW_BUCKET_COUNT
    ensures |vvNew| == |t.vvNew| == NEW_BUCKET_COUNT && SameNew(Order(t.mapInfo), t.vvNew[b], vvNew[b])
  {
    hide Readable, Refilled, Order;
    RefilledSame(net, t, vvNew, b);
  }

  lemma RestoredTriedBucket(net: Net, t: Tables, vvTried: seq<seq<int>>, b: nat)
    requires Readable(net, t) && OrderOk(t) && Filled(net, t, t.nNew + t.nTried, vvTried) && b < TRIED_BUCKET_COUNT
    ensures |vvTried| == |t.vvTried| == TRIED_BUCKET_COUNT
    ensures SameTried(Order(t.mapInfo), t.vvTried[b], vvTried[b])
  {
    FilledLength(net, t, vvTried);
    hide Readable, Filled, OrderOk, Order;
    forall k | 0 <= k < |Order(t.mapInfo)|
      ensures k in vvTried[b] <==> Order(t.mapInfo)[k] in t.vvTried[b]
    {
      FilledSame(net, t, vvTried, b, k);
    }
  }

  lemma FilledLength(net: Net, t: Tables, vvTried: seq<seq<int>>)
    requires Readable(net, t) && OrderOk(t) && Filled(net, t, t.nNew + t.nTried, vvTried)
    ensures |vvTried| == |t.vvTried| == TRIED_BUCKET_COUNT
  {
    SourceBucketNoDup(net, t, 0);
  }
}
