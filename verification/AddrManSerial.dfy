/** Writing the address manager to a stream and reading it back. Ids are renumbered and
    `mapAddr`, `vRandom` and the tried buckets are rebuilt by the reader. */
module AddrManSerial {
  import opened Ordered
  import opened AddrTypes
  import opened AddrTables
  import opened AddrImage
  import opened AddrMan
  import opened AddrRestore

  function TablesOf(am: CAddrman): Tables
    reads am
  {
    Tables(am.nKey, am.nIdCount, am.mapInfo, am.mapAddr, am.vRandom, am.nTried, am.vvTried, am.nNew, am.vvNew)
  }

  // ----- Writing

  /** `out` holds the entries of one kind among `ids`, and `index` the position of each. */
  ghost predicate Chosen(infos: Infos, ids: seq<int>, tried: bool, out: seq<Item>, index: map<int, int>) {
    && (forall i | 0 <= i < |ids| :: ids[i] in infos)
    && (forall id | id in ids :: id in infos)
    && var order := Select(infos, ids, tried);
    && (forall i | 0 <= i < |order| :: order[i] in infos)
    && out == Entries(infos, order)
    && Indexed(order, index)
  }

  ghost predicate Indexed(order: seq<int>, index: map<int, int>) {
    forall k | 0 <= k < |order| :: order[k] in index && index[order[k]] == k
  }

  lemma IndexedAt(order: seq<int>, index: map<int, int>, id: int)
    requires Indexed(order, index) && id in order
    ensures id in index && index[id] == IndexOf(order, id)
  {
    var k := IndexOf(order, id);
    assert order[k] == id;
  }

  /** The entries of one kind, in ascending order of ids, and the position of each. Stops
      early once `limit` of them are written. */
  method WriteEntries(infos: Infos, tried: bool, limit: int) returns (out: seq<Item>, index: map<int, int>)
    requires limit == |Select(infos, Elements(infos.Keys), tried)|
    ensures Chosen(infos, Elements(infos.Keys), tried, out, index)
  {
    var ids := Elements(infos.Keys);
    out, index := [], map[];
    var i := 0;
    ChosenStart(infos, tried);
    hide *;
    while i < |ids| && |out| != limit
      invariant 0 <= i <= |ids|
      invariant Chosen(infos, ids[..i], tried, out, index)
    {
      var id := ids[i];
      ChosenStep(infos, ids, i, tried, out, index);
      index := index[id := |out|];
      var info := infos[id];
      if (if tried then info.fInTried else info.nRefCount != 0) {
        out := out + [Entry(Save(info))];
      }
      i := i + 1;
    }
    ChosenEnd(infos, ids, i, tried, out, index);
  }

  lemma ChosenStart(infos: Infos, tried: bool)
    ensures var ids := Elements(infos.Keys);
            && (forall i | 0 <= i < |ids| :: ids[i] in infos)
            && (forall id | id in ids :: id in infos)
            && Chosen(infos, ids[..0], tried, [], map[])
  {
    var ids := Elements(infos.Keys);
    forall i | 0 <= i < |ids|
      ensures ids[i] in infos
    {
      assert ids[i] in ids;
    }
    assert ids[..0] == [];
  }

  lemma ChosenEnd(infos: Infos, ids: seq<int>, i: nat, tried: bool, out: seq<Item>, index: map<int, int>)
    requires i <= |ids| && Chosen(infos, ids[..i], tried, out, index)
    requires forall j | 0 <= j < |ids| :: ids[j] in infos
    requires forall id | id in ids :: id in infos
    requires i == |ids| || |out| == |Select(infos, ids, tried)|
    ensures Chosen(infos, ids, tried, out, index)
  {
    SelectPrefix(infos, ids, i, tried);
    if i == |ids| {
      assert ids[..i] == ids;
    }
  }

  lemma ChosenStep(infos: Infos, ids: seq<int>, i: nat, tried: bool, out: seq<Item>, index: map<int, int>)
    requires Ascending(ids) && i < |ids| && ids[i] in infos
    requires Chosen(infos, ids[..i], tried, out, index)
    ensures var info := infos[ids[i]];
            var out' := if (if tried then info.fInTried else info.nRefCount != 0)
                        then out + [Entry(Save(info))] else out;
            Chosen(infos, ids[..i + 1], tried, out', index[ids[i] := |out|])
  {
    var before, id := ids[..i], ids[i];
    assert ids[..i + 1] == before + [id];
    assert id !in before;
    hide *;
    NotYetChosen(infos, before, tried, id, out, index);
    ChosenWith(infos, before, id, tried, out, index);
  }

  lemma ChosenWith(infos: Infos, before: seq<int>, id: int, tried: bool, out: seq<Item>, index: map<int, int>)
    requires Chosen(infos, before, tried, out, index) && id in infos
    requires forall x | x in before :: x in infos
    requires forall k | 0 <= k < |Select(infos, before, tried)| :: Select(infos, before, tried)[k] != id
    ensures var out' := if (if tried then infos[id].fInTried else infos[id].nRefCount != 0)
                        then out + [Entry(Save(infos[id]))] else out;
            Chosen(infos, before + [id], tried, out', index[id := |out|])
  {
    hide Select, Entries, Save;
    SelectNext(infos, before, tried, id);
    EntriesNext(infos, Select(infos, before, tried), id);
    assert Select(infos, before, tried) + [] == Select(infos, before, tried);
  }

  /** A new id is not among those chosen before. */
  lemma NotYetChosen(infos: Infos, ids: seq<int>, tried: bool, id: int, out: seq<Item>, index: map<int, int>)
    requires Chosen(infos, ids, tried, out, index) && id !in ids
    ensures forall x | x in ids :: x in infos
    ensures forall k | 0 <= k < |Select(infos, ids, tried)| :: Select(infos, ids, tried)[k] != id
  {
    var order := Select(infos, ids, tried);
    assert forall x | x in order :: x in ids;
  }

  lemma SelectNext(infos: Infos, ids: seq<int>, tried: bool, id: int)
    requires (forall x | x in ids :: x in infos) && id in infos
    ensures forall x | x in ids + [id] :: x in infos
    ensures Select(infos, ids + [id], tried)
            == Select(infos, ids, tried) + if (if tried then infos[id].fInTried else infos[id].nRefCount != 0) then [id] else []
  {
    assert (ids + [id])[..|ids|] == ids;
  }

  lemma EntriesNext(infos: Infos, order: seq<int>, id: int)
    requires (forall k | 0 <= k < |order| :: order[k] in infos) && id in infos
    ensures Entries(infos, order + [id]) == Entries(infos, order) + [Entry(Save(infos[id]))]
  {
  }

  /** The image of one bucket: its size and the index of each of its ids. */
  method WriteBucket(vNew: set<int>, index: map<int, int>, ghost order: seq<int>) returns (out: seq<Item>)
    requires CoversOne(order, vNew) && Indexed(order, index)
    ensures out == BucketImage(order, vNew)
  {
    var ids := Elements(vNew);
    hide Indexed, BucketImage, Elements, IndexOf;
    out := [Num(|vNew|)];
    for j := 0 to |ids|
      invariant |out| == 1 + j
      invariant out == BucketImage(order, vNew)[..1 + j]
    {
      var id := ids[j];
      assert id in ids;
      IndexedAt(order, index, id);
      out := out + [Num(index[id])];
    }
  }

  /** The images of all buckets. */
  method WriteBuckets(vvNew: seq<set<int>>, index: map<int, int>, ghost order: seq<int>) returns (out: seq<Item>)
    requires Covers(order, vvNew) && Indexed(order, index)
    ensures out == BucketImages(order, vvNew)
  {
    out := [];
    for b := 0 to |vvNew|
      invariant out == BucketImages(order, vvNew[..b])
    {
      assert CoversOne(order, vvNew[b]);
      var image := WriteBucket(vvNew[b], index, order);
      BucketImagesAt(order, vvNew, b);
      out := out + image;
    }
    assert vvNew[..|vvNew|] == vvNew;
  }

  lemma ImageParts(t: Tables, news: seq<Item>, mapUnkIds: map<int, int>, trieds: seq<Item>, index: map<int, int>)
    requires Writable(t)
    requires Chosen(t.mapInfo, Elements(t.mapInfo.Keys), false, news, mapUnkIds)
    requires Chosen(t.mapInfo, Elements(t.mapInfo.Keys), true, trieds, index)
    ensures Indexed(NewOrder(t.mapInfo), mapUnkIds)
    ensures Covers(NewOrder(t.mapInfo), t.vvNew)
    ensures Image(t) == Header(t.nKey, t.nNew, t.nTried) + news + trieds + BucketImages(NewOrder(t.mapInfo), t.vvNew)
  {
    hide Select, BucketImages, Indexed, Elements, Covers;
    var order := Order(t.mapInfo);
    assert Entries(t.mapInfo, order) == news + trieds;
    hide Entries, Order, NewOrder, Header;
    Regroup(Header(t.nKey, t.nNew, t.nTried), news, trieds, BucketImages(NewOrder(t.mapInfo), t.vvNew));
  }

  lemma Regroup(head: seq<Item>, a: seq<Item>, b: seq<Item>, rest: seq<Item>)
    ensures head + (a + b) + rest == head + a + b + rest
  {
  }

  lemma Limits(t: Tables)
    requires Writable(t)
    ensures t.nNew == |Select(t.mapInfo, Elements(t.mapInfo.Keys), false)|
    ensures t.nTried == |Select(t.mapInfo, Elements(t.mapInfo.Keys), true)|
  {
  }

  method Serialize(am: CAddrman) returns (s: seq<Item>)
    requires am.Valid()
    ensures Writable(TablesOf(am)) && s == Image(TablesOf(am))
  {
    ghost var t := TablesOf(am);
    ConsistentWritable(am.net, t);
    Limits(t);
    hide *;
    s := Header(am.nKey, am.nNew, am.nTried);
    var news, mapUnkIds := WriteEntries(am.mapInfo, false, am.nNew);
    var trieds, index := WriteEntries(am.mapInfo, true, am.nTried);
    ImageParts(t, news, mapUnkIds, trieds, index);
    var buckets := WriteBuckets(am.vvNew, mapUnkIds, NewOrder(am.mapInfo));
    s := s + news + trieds + buckets;
  }

  // ----- Reading

  /** The stream is what a consistent manager writes. */
  ghost predicate Written(net: Net, t: Tables, s: seq<Item>) {
    Readable(net, t) && s == Image(t)
  }

  lemma WrittenHeader(net: Net, t: Tables, s: seq<Item>)
    requires Written(net, t, s)
    ensures Readable(net, t) && TablesOk(net, t) && Writable(t) && OrderOk(t)
    ensures |s| >= 5 && s[0] == Num(0) && s[1] == Bytes(t.nKey) && s[2] == Num(t.nNew)
    ensures s[3] == Num(t.nTried) && s[4] == Num(NEW_BUCKET_COUNT)
    ensures 0 <= t.nNew && 0 <= t.nTried
  {
    ReadableWritable(net, t);
    HeaderAt(t);
    OrderSize(t);
  }

  /** The next entry, and the tables after taking it in. */
  lemma WrittenEntry(net: Net, t: Tables, s: seq<Item>, n: nat, infos: Infos, mapAddr: map<NetAddr, int>, vRandom: seq<int>)
    requires Written(net, t, s) && OrderOk(t) && n < t.nNew + t.nTried
    requires Loaded(t, n, infos, mapAddr, vRandom)
    ensures 5 + n < |s| && s[5 + n].Entry? && |vRandom| == n
    ensures var info := Load(s[5 + n].saved).(nRandomPos := n, fInTried := t.nNew <= n);
            && info == LoadedAt(t, n)
            && (n < t.nNew ==> info == Load(s[5 + n].saved).(nRandomPos := n))
            && Loaded(t, n + 1, infos[n := info], mapAddr[info.addr.net := n], vRandom + [n])
  {
    assert |vRandom| == n;
    hide Readable, OrderOk, Image, Order, Loaded;
    WrittenHeader(net, t, s);
    EntryAt(t, n);
    LoadStep(net, t, n, infos, mapAddr, vRandom);
  }

  lemma LoadedNone(t: Tables)
    requires OrderOk(t)
    ensures Loaded(t, 0, map[], map[], [])
  {
    OrderSize(t);
  }

  // What holds of every stream that can be read, whoever wrote it.

  /** The entries of `vRandom` are numbered in their order, and say so. */
  ghost predicate Numbered(infos: Infos, vRandom: seq<int>) {
    forall i | 0 <= i < |vRandom| :: vRandom[i] == i && i in infos && infos[i].nRandomPos == i
  }

  ghost predicate NoneOverfull(vvTried: seq<seq<int>>) {
    |vvTried| == TRIED_BUCKET_COUNT && forall b | 0 <= b < |vvTried| :: |vvTried[b]| <= TRIED_BUCKET_SIZE
  }

  /** Entry `i` of the table has the address of that in the stream. */
  ghost predicate ReadAt(s: seq<Item>, infos: Infos, i: nat) {
    5 + i < |s| && s[5 + i].Entry? && i in infos && infos[i].addr == Load(s[5 + i].saved).addr
  }

  ghost predicate AsRead(s: seq<Item>, n: int, infos: Infos) {
    forall i: nat | i < n :: ReadAt(s, infos, i)
  }

  lemma AsReadNext(s: seq<Item>, n: nat, infos: Infos, info: AddrInfo)
    requires AsRead(s, n, infos) && 5 + n < |s| && s[5 + n].Entry? && info.addr == Load(s[5 + n].saved).addr
    ensures AsRead(s, n + 1, infos[n := info])
  {
    var next := infos[n := info];
    forall i: nat | i < n + 1
      ensures ReadAt(s, next, i)
    {
      if i < n {
        ReadElsewhere(s, infos, n, info, i);
      }
    }
  }

  lemma ReadElsewhere(s: seq<Item>, infos: Infos, k: int, info: AddrInfo, i: nat)
    requires ReadAt(s, infos, i) && (i == k ==> info.addr == infos[i].addr)
    ensures ReadAt(s, infos[k := info], i)
  {
    hide Load;
  }

  lemma AsReadKeep(s: seq<Item>, n: int, infos: Infos, k: int, info: AddrInfo)
    requires AsRead(s, n, infos) && (k >= n || (k in infos ==> info.addr == infos[k].addr))
    ensures AsRead(s, n, infos[k := info])
  {
    var next := infos[k := info];
    forall i: nat | i < n
      ensures ReadAt(s, next, i)
    {
      assert ReadAt(s, infos, i);
      ReadElsewhere(s, infos, k, info, i);
    }
  }

  lemma NoneRead(s: seq<Item>, n: int, infos: Infos)
    requires n <= 0
    ensures AsRead(s, n, infos)
  {
  }

  lemma AsReadNone(s: seq<Item>, infos: Infos)
    ensures AsRead(s, 0, infos)
  {
  }

  /** Of a consistent manager these are different. */
  lemma DifferentAddresses(am: CAddrman, s: seq<Item>, i: nat, j: nat)
    requires am.Valid() && AsRead(s, am.nNew, am.mapInfo) && i < j < am.nNew
    ensures 5 + j < |s| && s[5 + i].Entry? && s[5 + j].Entry?
    ensures Load(s[5 + i].saved).addr.net != Load(s[5 + j].saved).addr.net
  {
    assert AddrOk(am.mapInfo, am.mapAddr);
    hide Load;
    assert ReadAt(s, am.mapInfo, i) && ReadAt(s, am.mapInfo, j);
  }

  lemma NumberedNone(infos: Infos)
    ensures Numbered(infos, []) && NoneOverfull(NoTriedEntries())
  {
  }

  lemma NumberedNext(infos: Infos, vRandom: seq<int>, info: AddrInfo)
    requires Numbered(infos, vRandom) && info.nRandomPos == |vRandom|
    ensures Numbered(infos[|vRandom| := info], vRandom + [|vRandom|])
  {
  }

  lemma NumberedKeep(infos: Infos, vRandom: seq<int>, k: int, info: AddrInfo)
    requires Numbered(infos, vRandom) && (k in infos ==> info.nRandomPos == infos[k].nRandomPos)
    ensures Numbered(infos[k := info], vRandom)
  {
  }

  lemma NoneOverfullNext(vvTried: seq<seq<int>>, b: nat, id: int)
    requires NoneOverfull(vvTried) && b < TRIED_BUCKET_COUNT && |vvTried[b]| < TRIED_BUCKET_SIZE
    ensures NoneOverfull(vvTried[b := vvTried[b] + [id]])
  {
  }

  /** Reads the new entries, which get the ids from 0 on. */
  method ReadNewEntries(am: CAddrman, s: seq<Item>, nUBuckets: int, ghost t: Tables) returns (ok: bool)
    requires |am.vvNew| == NEW_BUCKET_COUNT && am.mapInfo == map[] && am.mapAddr == map[] && am.vRandom == []
    modifies am`mapInfo, am`mapAddr, am`vRandom, am`vvNew
    ensures |am.vvNew| == NEW_BUCKET_COUNT
    ensures ok ==> |s| >= 5 && |s| >= 5 + am.nNew
    ensures ok ==> |am.vRandom| == Nat(am.nNew) && Numbered(am.mapInfo, am.vRandom) && AsRead(s, am.nNew, am.mapInfo)
    ensures OrderOk(t) && Written(am.net, t, s) && am.nNew == t.nNew && nUBuckets == NEW_BUCKET_COUNT ==>
              ok && t.nNew >= 0 && Loaded(t, t.nNew, am.mapInfo, am.mapAddr, am.vRandom) && am.vvNew == old(am.vvNew)
  {
    hide *;
    ghost var good := OrderOk(t) && Written(am.net, t, s) && am.nNew == t.nNew && nUBuckets == NEW_BUCKET_COUNT;
    if good {
      LoadedNone(t);
      WrittenHeader(am.net, t, s);
    }
    if |s| < 5 {
      return false;
    }
    NumberedNone(am.mapInfo);
    AsReadNone(s, am.mapInfo);
    var n := 0;
    while n < am.nNew
      invariant 0 <= n && 5 + n <= |s| && (n == 0 || n <= am.nNew)
      invariant |am.vRandom| == n && Numbered(am.mapInfo, am.vRandom) && AsRead(s, n, am.mapInfo)
      invariant |am.vvNew| == NEW_BUCKET_COUNT
      invariant good ==> Loaded(t, n, am.mapInfo, am.mapAddr, am.vRandom) && am.vvNew == old(am.vvNew)
    {
      if good {
        WrittenEntry(am.net, t, s, n, am.mapInfo, am.mapAddr, am.vRandom);
      }
      if 5 + n >= |s| || !s[5 + n].Entry? {
        return false;
      }
      var info := Load(s[5 + n].saved);
      am.mapAddr := am.mapAddr[info.addr.net := n];
      info := info.(nRandomPos := |am.vRandom|);
      ghost var vRandom0 := am.vRandom;
      am.vRandom := am.vRandom + [n];
      if nUBuckets != NEW_BUCKET_COUNT {
        var b := NewBucket(am.net, am.nKey, info.addr, info.source);
        am.vvNew := am.vvNew[b := am.vvNew[b] + {n}];
        info := info.(nRefCount := info.nRefCount + 1);
      }
      NumberedNext(am.mapInfo, vRandom0, info);
      AsReadNext(s, n, am.mapInfo, info);
      am.mapInfo := am.mapInfo[n := info];
      n := n + 1;
    }
    if am.nNew < 0 {
      NoneRead(s, am.nNew, am.mapInfo);
    }
    return true;
  }

  lemma WrittenTried(net: Net, t: Tables, s: seq<Item>, n: nat, infos: Infos, mapAddr: map<NetAddr, int>,
                     vRandom: seq<int>, vvTried: seq<seq<int>>)
    requires Written(net, t, s) && OrderOk(t) && t.nNew <= n < t.nNew + t.nTried
    requires Loaded(t, n, infos, mapAddr, vRandom) && Filled(net, t, n, vvTried)
    ensures 5 + n < |s| && s[5 + n].Entry? && |vRandom| == n
    ensures var info := Load(s[5 + n].saved);
            var info' := info.(nRandomPos := n, fInTried := true);
            var b := BucketOf(net, t.nKey, info);
            && |vvTried| == TRIED_BUCKET_COUNT && |vvTried[b]| < TRIED_BUCKET_SIZE
            && Loaded(t, n + 1, infos[n := info'], mapAddr[info'.addr.net := n], vRandom + [n])
            && Filled(net, t, n + 1, vvTried[b := vvTried[b] + [n]])
  {
    assert |vvTried| == TRIED_BUCKET_COUNT;
    hide Readable, OrderOk, Image, Order, Loaded, Filled, LoadedAt, TriedBucket;
    WrittenEntry(net, t, s, n, infos, mapAddr, vRandom);
    WrittenHeader(net, t, s);
    FillStep(net, t, n, vvTried);
  }

  /** Gives a tried entry the next id and a place in its bucket, if that has room. */
  method PlaceTried(am: CAddrman, info: AddrInfo) returns (placed: bool)
    requires |am.vvTried| == TRIED_BUCKET_COUNT
    modifies am`mapInfo, am`mapAddr, am`vRandom, am`vvTried, am`nIdCount
    ensures |am.vvTried| == TRIED_BUCKET_COUNT
    ensures var b := BucketOf(am.net, am.nKey, info);
            var info' := info.(nRandomPos := |old(am.vRandom)|, fInTried := true);
            var id := old(am.nIdCount);
            && (placed <==> |old(am.vvTried)[b]| < TRIED_BUCKET_SIZE)
            && if placed
               then && am.nIdCount == id + 1
                    && am.mapInfo == old(am.mapInfo)[id := info']
                    && am.mapAddr == old(am.mapAddr)[info'.addr.net := id]
                    && am.vRandom == old(am.vRandom) + [id]
                    && am.vvTried == old(am.vvTried)[b := old(am.vvTried)[b] + [id]]
               else unchanged(am)
  {
    var b := BucketOf(am.net, am.nKey, info);
    placed := |am.vvTried[b]| < TRIED_BUCKET_SIZE;
    if placed {
      var info := info.(nRandomPos := |am.vRandom|, fInTried := true);
      am.vRandom := am.vRandom + [am.nIdCount];
      am.mapInfo := am.mapInfo[am.nIdCount := info];
      am.mapAddr := am.mapAddr[info.addr.net := am.nIdCount];
      am.vvTried := am.vvTried[b := am.vvTried[b] + [am.nIdCount]];
      am.nIdCount := am.nIdCount + 1;
    }
  }

  /** Reads the tried entries, each into its bucket if that has room. */
  method ReadTriedEntries(am: CAddrman, s: seq<Item>, ghost t: Tables) returns (ok: bool)
    requires |s| >= 5 && |s| >= 5 + am.nNew && |am.vvTried| == TRIED_BUCKET_COUNT
    modifies am`mapInfo, am`mapAddr, am`vRandom, am`vvTried, am`nIdCount, am`nTried
    ensures am.nTried <= old(am.nTried)
    ensures ok && NoneOverfull(old(am.vvTried)) ==> NoneOverfull(am.vvTried)
    ensures ok ==> |am.vRandom| == |old(am.vRandom)| + Nat(am.nTried)
    ensures ok && am.nNew == |old(am.vRandom)| && Numbered(old(am.mapInfo), old(am.vRandom)) ==> Numbered(am.mapInfo, am.vRandom)
    ensures ok && AsRead(s, am.nNew, old(am.mapInfo)) ==> AsRead(s, am.nNew, am.mapInfo)
    ensures ok ==> |s| >= 5 + Nat(am.nNew) + Nat(old(am.nTried))
    ensures && OrderOk(t) && Written(am.net, t, s) && am.nKey == t.nKey
            && am.nNew == t.nNew && old(am.nTried) == t.nTried && t.nNew >= 0
            && Loaded(t, t.nNew, old(am.mapInfo), old(am.mapAddr), old(am.vRandom))
            && Filled(am.net, t, t.nNew, old(am.vvTried))
            ==>
            && ok && t.nTried >= 0 && am.nTried == t.nTried && am.nIdCount == t.nNew + t.nTried
            && Loaded(t, t.nNew + t.nTried, am.mapInfo, am.mapAddr, am.vRandom)
            && Filled(am.net, t, t.nNew + t.nTried, am.vvTried)
  {
    hide *;
    ghost var good := && OrderOk(t) && Written(am.net, t, s) && am.nKey == t.nKey
                      && am.nNew == t.nNew && am.nTried == t.nTried && t.nNew >= 0
                      && Loaded(t, t.nNew, am.mapInfo, am.mapAddr, am.vRandom)
                      && Filled(am.net, t, t.nNew, am.vvTried);
    var base := 5 + Nat(am.nNew);
    if good {
      WrittenHeader(am.net, t, s);
    }
    am.nIdCount := am.nNew;
    ghost var numbered := am.nNew == |am.vRandom| && Numbered(am.mapInfo, am.vRandom);
    var nLost := 0;
    var n := 0;
    while n < am.nTried
      invariant 0 <= n && base + n <= |s| && (n == 0 || n <= am.nTried) && nLost >= 0
      invariant am.nTried == old(am.nTried)
      invariant NoneOverfull(old(am.vvTried)) ==> NoneOverfull(am.vvTried)
      invariant nLost <= n && |am.vRandom| == |old(am.vRandom)| + n - nLost
      invariant numbered ==> am.nIdCount == |am.vRandom| && Numbered(am.mapInfo, am.vRandom)
      invariant am.nIdCount >= am.nNew && (AsRead(s, am.nNew, old(am.mapInfo)) ==> AsRead(s, am.nNew, am.mapInfo))
      invariant |am.vvTried| == TRIED_BUCKET_COUNT
      invariant good ==>
                  && nLost == 0 && am.nIdCount == t.nNew + n && base == 5 + t.nNew
                  && Loaded(t, t.nNew + n, am.mapInfo, am.mapAddr, am.vRandom)
                  && Filled(am.net, t, t.nNew + n, am.vvTried)
    {
      if good {
        WrittenTried(am.net, t, s, t.nNew + n, am.mapInfo, am.mapAddr, am.vRandom, am.vvTried);
      }
      if base + n >= |s| || !s[base + n].Entry? {
        return false;
      }
      var info := Load(s[base + n].saved);
      if |am.vvTried[BucketOf(am.net, am.nKey, info)]| < TRIED_BUCKET_SIZE {
        if NoneOverfull(am.vvTried) {
          NoneOverfullNext(am.vvTried, BucketOf(am.net, am.nKey, info), am.nIdCount);
        }
        if AsRead(s, am.nNew, am.mapInfo) {
          AsReadKeep(s, am.nNew, am.mapInfo, am.nIdCount, info.(nRandomPos := |am.vRandom|, fInTried := true));
        }
        if numbered {
          NumberedNext(am.mapInfo, am.vRandom, info.(nRandomPos := |am.vRandom|, fInTried := true));
        }
      }
      var placed := PlaceTried(am, info);
      if !placed {
        nLost := nLost + 1;
      }
      n := n + 1;
    }
    am.nTried := am.nTried - nLost;
    return true;
  }

  function Nat(n: int): (r: nat)
    ensures r == if n < 0 then 0 else n
  {
    if n < 0 then 0 else n
  }

  lemma WrittenBucketSize(net: Net, t: Tables, s: seq<Item>, b: nat, vvNew: seq<set<int>>)
    requires Written(net, t, s) && Writable(t) && b < NEW_BUCKET_COUNT && Refilled(t, b, 0, vvNew)
    ensures |t.vvNew| == NEW_BUCKET_COUNT && Offset(t, b) < |s| && s[Offset(t, b)] == Num(|t.vvNew[b]|)
  {
    BucketItemAt(t, b, 0);
  }

  /** The next index of bucket `b`, and the tables after taking it in. */
  lemma WrittenIndex(net: Net, t: Tables, s: seq<Item>, b: nat, j: nat, infos: Infos, vvNew: seq<set<int>>)
    requires Written(net, t, s) && Writable(t) && OrderOk(t) && b < NEW_BUCKET_COUNT
    requires |t.vvNew| == NEW_BUCKET_COUNT && j < |t.vvNew[b]|
    requires Counted(t, infos, vvNew) && Refilled(t, b, j, vvNew)
    ensures Offset(t, b) + 1 + j < |s| && s[Offset(t, b) + 1 + j].Num? && |vvNew| == NEW_BUCKET_COUNT
    ensures var k := s[Offset(t, b) + 1 + j].n;
            && k in infos && infos[k].nRefCount < NEW_BUCKETS_PER_ADDRESS
            && Counted(t, infos[k := infos[k].(nRefCount := infos[k].nRefCount + 1)], vvNew[b := vvNew[b] + {k}])
            && Refilled(t, b, j + 1, vvNew[b := vvNew[b] + {k}])
  {
    hide *;
    hide Readable;
    RefilledLength(t, b, j, vvNew);
    IndexWritten(net, t, s, b, j);
    WrittenReadable(net, t, s);
    RefillStep(net, t, b, j, infos, vvNew);
  }

  lemma WrittenReadable(net: Net, t: Tables, s: seq<Item>)
    requires Written(net, t, s)
    ensures Readable(net, t)
  {
    hide Readable;
  }

  lemma IndexWritten(net: Net, t: Tables, s: seq<Item>, b: nat, j: nat)
    requires Written(net, t, s) && Writable(t) && b < NEW_BUCKET_COUNT
    requires |t.vvNew| == NEW_BUCKET_COUNT && j < |t.vvNew[b]|
    ensures Offset(t, b) + 1 + j < |s| && s[Offset(t, b) + 1 + j] == Num(NumberAt(t, b, j))
  {
    hide *;
    ItemIsNumber(t, b, j);
    WrittenImage(net, t, s);
    BucketItemAt(t, b, 1 + j);
  }

  lemma WrittenImage(net: Net, t: Tables, s: seq<Item>)
    requires Written(net, t, s)
    ensures Writable(t) && s == Image(t)
  {
    hide Image, Writable, TablesOk, OrderOk;
  }

  lemma ItemIsNumber(t: Tables, b: nat, j: nat)
    requires Writable(t) && b < NEW_BUCKET_COUNT && j < |t.vvNew[b]|
    ensures CoversOne(NewOrder(t.mapInfo), t.vvNew[b])
    ensures BucketImage(NewOrder(t.mapInfo), t.vvNew[b])[1 + j] == Num(NumberAt(t, b, j))
  {
    hide NewOrder, Elements, CoversOne, Indices, IndexOf;
    assert CoversOne(NewOrder(t.mapInfo), t.vvNew[b]);
  }

  /** Reads the indices of one bucket, from position `pos` on. */
  method ReadBucket(am: CAddrman, s: seq<Item>, pos: nat, b: nat, nUBuckets: int, ghost t: Tables)
    returns (ok: bool, pos': nat)
    requires b < NEW_BUCKET_COUNT && |am.vvNew| == NEW_BUCKET_COUNT
    modifies am`mapInfo, am`vvNew
    ensures |am.vvNew| == NEW_BUCKET_COUNT
    ensures Numbered(old(am.mapInfo), am.vRandom) ==> Numbered(am.mapInfo, am.vRandom)
    ensures AsRead(s, am.nNew, old(am.mapInfo)) ==> AsRead(s, am.nNew, am.mapInfo)
    ensures && Writable(t) && OrderOk(t) && Written(am.net, t, s) && nUBuckets == NEW_BUCKET_COUNT && |t.vvNew| == NEW_BUCKET_COUNT && pos == Offset(t, b)
            && Counted(t, old(am.mapInfo), old(am.vvNew)) && Refilled(t, b, 0, old(am.vvNew))
            ==>
            && ok && pos' == Offset(t, b + 1)
            && Counted(t, am.mapInfo, am.vvNew) && Refilled(t, b + 1, 0, am.vvNew)
  {
    hide *;
    ghost var good := && Writable(t) && OrderOk(t) && Written(am.net, t, s) && nUBuckets == NEW_BUCKET_COUNT
                      && |t.vvNew| == NEW_BUCKET_COUNT && pos == Offset(t, b) && Counted(t, am.mapInfo, am.vvNew) && Refilled(t, b, 0, am.vvNew);
    pos' := pos;
    if good {
      WrittenBucketSize(am.net, t, s, b, am.vvNew);
    }
    if pos >= |s| || !s[pos].Num? {
      return false, pos;
    }
    var nSize := s[pos].n;
    var n := 0;
    while n < nSize
      invariant 0 <= n
      invariant |am.vvNew| == NEW_BUCKET_COUNT
      invariant Numbered(old(am.mapInfo), am.vRandom) ==> Numbered(am.mapInfo, am.vRandom)
      invariant AsRead(s, am.nNew, old(am.mapInfo)) ==> AsRead(s, am.nNew, am.mapInfo)
      invariant good ==>
                  && |t.vvNew| == NEW_BUCKET_COUNT && nSize == |t.vvNew[b]| && n <= nSize
                  && Counted(t, am.mapInfo, am.vvNew) && Refilled(t, b, n, am.vvNew)
    {
      if good {
        WrittenIndex(am.net, t, s, b, n, am.mapInfo, am.vvNew);
      }
      if pos + 1 + n >= |s| || !s[pos + 1 + n].Num? {
        return false, pos;
      }
      var nIndex := s[pos + 1 + n].n;
      // Looking up an id that is not in the table makes an empty entry for it.
      if nIndex !in am.mapInfo {
        if Numbered(am.mapInfo, am.vRandom) {
          NumberedKeep(am.mapInfo, am.vRandom, nIndex, EmptyInfo());
        }
        if AsRead(s, am.nNew, am.mapInfo) {
          AsReadKeep(s, am.nNew, am.mapInfo, nIndex, EmptyInfo());
        }
        am.mapInfo := am.mapInfo[nIndex := EmptyInfo()];
      }
      var info := am.mapInfo[nIndex];
      if nUBuckets == NEW_BUCKET_COUNT && info.nRefCount < NEW_BUCKETS_PER_ADDRESS {
        if Numbered(am.mapInfo, am.vRandom) {
          NumberedKeep(am.mapInfo, am.vRandom, nIndex, info.(nRefCount := info.nRefCount + 1));
        }
        if AsRead(s, am.nNew, am.mapInfo) {
          AsReadKeep(s, am.nNew, am.mapInfo, nIndex, info.(nRefCount := info.nRefCount + 1));
        }
        am.mapInfo := am.mapInfo[nIndex := info.(nRefCount := info.nRefCount + 1)];
        am.vvNew := am.vvNew[b := am.vvNew[b] + {nIndex}];
      }
      n := n + 1;
    }
    if good {
      OffsetNext(t, b);
      RefillNext(t, b, am.vvNew);
    }
    return true, pos + 1 + Nat(nSize);
  }

  function EmptyInfo(): AddrInfo {
    NewInfo(Address(NetAddr(seq(16, i => 0)), 0, {}, 0), NetAddr(seq(16, i => 0)))
  }

  lemma OffsetNext(t: Tables, b: nat)
    requires Writable(t) && b < NEW_BUCKET_COUNT
    ensures |t.vvNew| == NEW_BUCKET_COUNT && Offset(t, b + 1) == Offset(t, b) + 1 + |t.vvNew[b]|
  {
    BucketItemAt(t, b, 0);
  }

  lemma OffsetStart(t: Tables)
    requires Writable(t)
    ensures Offset(t, 0) == 5 + t.nNew + t.nTried
  {
    EndAt(t);
  }

  /** Reads all buckets. The source has no bucket beyond the 256th to read into. */
  method ReadBuckets(am: CAddrman, s: seq<Item>, pos: nat, nUBuckets: int, ghost t: Tables) returns (ok: bool)
    requires |am.vvNew| == NEW_BUCKET_COUNT
    modifies am`mapInfo, am`vvNew
    ensures Numbered(old(am.mapInfo), am.vRandom) ==> Numbered(am.mapInfo, am.vRandom)
    ensures AsRead(s, am.nNew, old(am.mapInfo)) ==> AsRead(s, am.nNew, am.mapInfo)
    ensures && Writable(t) && OrderOk(t) && Written(am.net, t, s) && nUBuckets == NEW_BUCKET_COUNT && pos == Offset(t, 0)
            && Counted(t, old(am.mapInfo), old(am.vvNew)) && Refilled(t, 0, 0, old(am.vvNew))
            ==>
            ok && Counted(t, am.mapInfo, am.vvNew) && Refilled(t, NEW_BUCKET_COUNT, 0, am.vvNew)
  {
    hide *;
    ghost var good := && Writable(t) && OrderOk(t) && Written(am.net, t, s) && nUBuckets == NEW_BUCKET_COUNT
                      && pos == Offset(t, 0) && Counted(t, am.mapInfo, am.vvNew) && Refilled(t, 0, 0, am.vvNew);
    var at := pos;
    var b := 0;
    ok := true;
    if good {
      RefilledLength(t, 0, 0, am.vvNew);
    }
    while b < nUBuckets && ok
      invariant 0 <= b
      invariant |am.vvNew| == NEW_BUCKET_COUNT
      invariant Numbered(old(am.mapInfo), am.vRandom) ==> Numbered(am.mapInfo, am.vRandom)
      invariant AsRead(s, am.nNew, old(am.mapInfo)) ==> AsRead(s, am.nNew, am.mapInfo)
      invariant good ==>
                  && ok && b <= NEW_BUCKET_COUNT && |t.vvNew| == NEW_BUCKET_COUNT && at == Offset(t, b)
                  && Counted(t, am.mapInfo, am.vvNew) && Refilled(t, b, 0, am.vvNew)
      decreases nUBuckets - b, ok
    {
      if b >= NEW_BUCKET_COUNT {
        return false;
      }
      ok, at := ReadBucket(am, s, at, b, nUBuckets, t);
      b := b + 1;
    }
  }

  /** Reads a manager from a stream; `ok` is false where the source's stream throws, and where the source
      goes past the last of its 256 new buckets. From any stream,
      written by a manager or not, `vRandom` and its counts come out right, and no tried bucket
      holds too much. */
  method Unserialize(am: CAddrman, s: seq<Item>, ghost t: Tables) returns (ok: bool)
    modifies am
    ensures OrderOk(t) && Written(am.net, t, s) ==> ok && am.Valid() && Restored(t, TablesOf(am))
    ensures ok ==> NoneOverfull(am.vvTried) && |am.vRandom| == Nat(am.nNew) + Nat(am.nTried)
    ensures ok && am.nNew >= 0 ==> Numbered(am.mapInfo, am.vRandom)
    ensures ok ==> AsRead(s, am.nNew, am.mapInfo)
  {
    hide *;
    ghost var good := OrderOk(t) && Written(am.net, t, s);
    if good {
      WrittenHeader(am.net, t, s);
      WrittenReadable(am.net, t, s);
    }
    if |s| < 5 || !s[0].Num? || !s[1].Bytes? || !s[2].Num? || !s[3].Num? || !s[4].Num? {
      return false;
    }
    am.nKey := s[1].bytes;
    am.nNew := s[2].n;
    am.nTried := s[3].n;
    var nUBuckets := s[4].n;
    am.nIdCount := 0;
    am.mapInfo := map[];
    am.mapAddr := map[];
    am.vRandom := [];
    am.vvTried := NoTriedEntries();
    am.vvNew := NoNewEntries();
    NumberedNone(am.mapInfo);
    ok := ReadNewEntries(am, s, nUBuckets, t);
    if !ok {
      return;
    }
    if good {
      FillStart(am.net, t);
    }
    var nBase := 5 + Nat(am.nNew) + Nat(am.nTried);
    ok := ReadTriedEntries(am, s, t);
    if !ok {
      return;
    }
    ghost var infos0 := am.mapInfo;
    if good {
      OffsetStart(t);
      RefillStart(t, am.mapInfo, am.mapAddr, am.vRandom);
    }
    ok := ReadBuckets(am, s, nBase, nUBuckets, t);
    if good {
      RestoreDone(am.net, t, am.mapInfo, infos0, am.mapAddr, am.vRandom, am.vvTried, am.vvNew);
      RestoredValid(am, t);
    }
  }

  /** Two new entries with one address: what is read is not consistent. */
  method ReadSameAddress(am: CAddrman, s: seq<Item>, ghost t: Tables, ghost i: nat, ghost j: nat) returns (ok: bool)
    requires i < j < |s| - 5 && s[5 + i].Entry? && s[5 + j].Entry?
    requires Load(s[5 + i].saved).addr.net == Load(s[5 + j].saved).addr.net
    modifies am
    ensures ok && j < am.nNew ==> !am.Valid()
  {
    hide *;
    ok := Unserialize(am, s, t);
    if ok && am.Valid() && j < am.nNew {
      DifferentAddresses(am, s, i, j);
    }
  }

  lemma RestoredValid(am: CAddrman, t: Tables)
    requires var t' := RestoredTables(t, am.mapInfo, am.mapAddr, am.vRandom, am.vvTried, am.vvNew);
             OrderOk(t) && TablesOk(am.net, t') && Restored(t, t')
    requires am.nKey == t.nKey && am.nNew == t.nNew && am.nTried == t.nTried && am.nIdCount == t.nNew + t.nTried
    ensures am.Valid() && Restored(t, TablesOf(am))
  {
  }

  /** Writing any consistent manager and reading it back gives the same manager, up to the
      ids of its entries. */
  method RoundTrip(am: CAddrman, am': CAddrman) returns (ok: bool)
    requires am.Valid() && am' != am && am'.net == am.net
    modifies am'
    ensures ok && am'.Valid() && Readable(am.net, TablesOf(am)) && Restored(TablesOf(am), TablesOf(am'))
    ensures am'.nNew == am.nNew && am'.nTried == am.nTried && am'.nKey == am.nKey
  {
    ghost var t := TablesOf(am);
    ConsistentReadable(am.net, t);
    hide Readable, TablesOk, Writable, Image;
    var s := Serialize(am);
    ok := Unserialize(am', s, t);
    hide OrderOk;
  }
}
