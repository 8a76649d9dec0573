/** The serialized form of the address manager: which items are written, in which order,
    and where a reader finds them. */
module AddrImage {
  import opened Ordered
  import opened AddrTypes
  import opened AddrTables

  /** The part of an entry that is written out. */
  datatype Saved = Saved(addr: Address, source: NetAddr, nLastSuccess: int, nAttempts: int)

  datatype Item = Num(n: int) | Bytes(bytes: seq<nat>) | Entry(saved: Saved)

  function Save(info: AddrInfo): Saved {
    Saved(info.addr, info.source, info.nLastSuccess, info.nAttempts)
  }

  function Load(r: Saved): AddrInfo {
    AddrInfo(r.addr, r.source, r.nLastSuccess, r.nAttempts, 0, 0, false, -1)
  }

  /** All tables of a manager. */
  datatype Tables = Tables(
    nKey: seq<nat>, nIdCount: int, mapInfo: Infos, mapAddr: map<NetAddr, int>, vRandom: seq<int>,
    nTried: int, vvTried: seq<seq<int>>, nNew: int, vvNew: seq<set<int>>)

  ghost predicate TablesOk(net: Net, t: Tables) {
    Consistent(net, t.nKey, t.nIdCount, t.mapInfo, t.mapAddr, t.vRandom, t.nTried, t.vvTried, t.nNew, t.vvNew, {})
  }

  // ----- The order of the entries

  /** The ids of a sequence whose entries are tried, or are in some new bucket. */
  function Select(infos: Infos, ids: seq<int>, tried: bool): (r: seq<int>)
    requires forall id | id in ids :: id in infos
    ensures |r| <= |ids|
    ensures forall id :: id in r <==> id in ids && (if tried then infos[id].fInTried else infos[id].nRefCount != 0)
  {
    if ids == [] then []
    else
      var last := ids[|ids| - 1];
      var rest := Select(infos, ids[..|ids| - 1], tried);
      if (if tried then infos[last].fInTried else infos[last].nRefCount != 0) then rest + [last] else rest
  }

  /** All new ids, ascending. */
  function NewOrder(infos: Infos): (r: seq<int>) {
    Select(infos, Elements(infos.Keys), false)
  }

  /** All tried ids, ascending. */
  function TriedOrder(infos: Infos): (r: seq<int>) {
    Select(infos, Elements(infos.Keys), true)
  }

  /** The order in which entries are written, hence the ids a reader gives them. */
  function Order(infos: Infos): seq<int> {
    NewOrder(infos) + TriedOrder(infos)
  }

  function IndexOf(s: seq<int>, x: int): (i: nat)
    requires x in s
    ensures i < |s| && s[i] == x
    ensures forall j | 0 <= j < i :: s[j] != x
  {
    if s[0] == x then 0 else 1 + IndexOf(s[1..], x)
  }

  function Entries(infos: Infos, ids: seq<int>): (r: seq<Item>)
    requires forall i | 0 <= i < |ids| :: ids[i] in infos
    ensures |r| == |ids|
    ensures forall i | 0 <= i < |ids| :: r[i] == Entry(Save(infos[ids[i]]))
  {
    seq(|ids|, i requires 0 <= i < |ids| => Entry(Save(infos[ids[i]])))
  }

  function Indices(order: seq<int>, ids: seq<int>): (r: seq<Item>)
    requires forall id | id in ids :: id in order
    ensures |r| == |ids|
    ensures forall i | 0 <= i < |ids| :: r[i] == Num(IndexOf(order, ids[i]))
  {
    seq(|ids|, i requires 0 <= i < |ids| => Num(IndexOf(order, ids[i])))
  }

  predicate CoversOne(order: seq<int>, vNew: set<int>) {
    forall id | id in vNew :: id in order
  }

  predicate Covers(order: seq<int>, vvNew: seq<set<int>>) {
    forall b | 0 <= b < |vvNew| :: CoversOne(order, vvNew[b])
  }

  function BucketImage(order: seq<int>, vNew: set<int>): (r: seq<Item>)
    requires CoversOne(order, vNew)
    ensures |r| == 1 + |vNew| && r[0] == Num(|vNew|)
    ensures forall j | 0 <= j < |vNew| :: r[1 + j] == Num(IndexOf(order, Elements(vNew)[j]))
  {
    [Num(|vNew|)] + Indices(order, Elements(vNew))
  }

  function BucketImages(order: seq<int>, vvNew: seq<set<int>>): (r: seq<Item>)
    requires Covers(order, vvNew)
  {
    if vvNew == [] then []
    else BucketImages(order, vvNew[..|vvNew| - 1]) + BucketImage(order, vvNew[|vvNew| - 1])
  }

  /** All new buckets hold entries that are written as new ones. */
  ghost predicate Writable(t: Tables) {
    && |t.vvNew| == NEW_BUCKET_COUNT
    && Covers(NewOrder(t.mapInfo), t.vvNew)
    && |NewOrder(t.mapInfo)| == t.nNew
    && |TriedOrder(t.mapInfo)| == t.nTried
  }

  function Header(nKey: seq<nat>, nNew: int, nTried: int): (r: seq<Item>)
    ensures |r| == 5
  {
    [Num(0), Bytes(nKey), Num(nNew), Num(nTried), Num(NEW_BUCKET_COUNT)]
  }

  ghost function Image(t: Tables): seq<Item>
    requires Writable(t)
  {
    Header(t.nKey, t.nNew, t.nTried) + Entries(t.mapInfo, Order(t.mapInfo))
    + BucketImages(NewOrder(t.mapInfo), t.vvNew)
  }

  // ----- Facts about the order

  lemma {:induction false} SelectAscending(infos: Infos, ids: seq<int>, tried: bool)
    requires forall id | id in ids :: id in infos
    requires Ascending(ids)
    ensures Ascending(Select(infos, ids, tried))
  {
    if ids != [] {
      SelectAscending(infos, ids[..|ids| - 1], tried);
      var rest := Select(infos, ids[..|ids| - 1], tried);
      forall i | 0 <= i < |rest|
        ensures rest[i] < ids[|ids| - 1]
      {
        assert rest[i] in ids[..|ids| - 1];
      }
    }
  }

  lemma {:induction false} SelectPrefix(infos: Infos, ids: seq<int>, n: nat, tried: bool)
    requires forall id | id in ids :: id in infos
    requires n <= |ids|
    ensures Select(infos, ids[..n], tried) <= Select(infos, ids, tried)
    decreases |ids|
  {
    if n == |ids| {
      assert ids[..n] == ids;
    } else {
      assert ids[..|ids| - 1][..n] == ids[..n];
      SelectPrefix(infos, ids[..|ids| - 1], n, tried);
    }
  }

  lemma {:induction false} AscendingCard(s: seq<int>, t: set<int>)
    requires Ascending(s)
    requires forall x :: x in s <==> x in t
    ensures |s| == |t|
    decreases |s|
  {
    if s == [] {
      assert forall x :: x !in t;
    } else {
      var last := s[|s| - 1];
      forall x
        ensures x in s[..|s| - 1] <==> x in t - {last}
      {
        assert x in s <==> x in s[..|s| - 1] || x == last;
        if x in s[..|s| - 1] {
          var i :| 0 <= i < |s| - 1 && s[i] == x;
        }
      }
      AscendingCard(s[..|s| - 1], t - {last});
    }
  }

  lemma ConsistentWritable(net: Net, t: Tables)
    requires TablesOk(net, t)
    ensures Writable(t)
    ensures Ascending(NewOrder(t.mapInfo)) && Ascending(TriedOrder(t.mapInfo))
  {
    var ids := Elements(t.mapInfo.Keys);
    SelectAscending(t.mapInfo, ids, false);
    SelectAscending(t.mapInfo, ids, true);
    forall id
      ensures id in NewOrder(t.mapInfo) <==> id in NewIds(t.mapInfo)
      ensures id in TriedOrder(t.mapInfo) <==> id in TriedIds(t.mapInfo)
    {
      assert id in ids <==> id in t.mapInfo.Keys;
      assert id in t.mapInfo ==> RefOk(t.mapInfo[id], Buckets(t.vvNew, id), false);
    }
    AscendingCard(NewOrder(t.mapInfo), NewIds(t.mapInfo));
    AscendingCard(TriedOrder(t.mapInfo), TriedIds(t.mapInfo));
    forall b | 0 <= b < |t.vvNew|
      ensures CoversOne(NewOrder(t.mapInfo), t.vvNew[b])
    {
      assert NewBucketOk(t.mapInfo, t.vvNew[b]);
      assert forall id | id in t.vvNew[b] :: id in NewIds(t.mapInfo);
    }
  }

  // ----- Where a reader finds the items

  /** The position of the image of bucket `b`. */
  ghost function Offset(t: Tables, b: nat): (r: nat)
    requires Writable(t) && b <= |t.vvNew|
  {
    5 + t.nNew + t.nTried + |BucketImages(NewOrder(t.mapInfo), t.vvNew[..b])|
  }

  lemma {:induction false} BucketImagesAt(order: seq<int>, vvNew: seq<set<int>>, b: nat)
    requires Covers(order, vvNew)
    requires b < |vvNew|
    ensures BucketImages(order, vvNew[..b]) + BucketImage(order, vvNew[b]) <= BucketImages(order, vvNew)
    ensures BucketImages(order, vvNew[..b + 1]) == BucketImages(order, vvNew[..b]) + BucketImage(order, vvNew[b])
    decreases |vvNew|
  {
    assert vvNew[..b + 1][..b] == vvNew[..b];
    if b == |vvNew| - 1 {
      assert vvNew[..b + 1] == vvNew;
    } else {
      var init := vvNew[..|vvNew| - 1];
      assert init[..b] == vvNew[..b];
      BucketImagesAt(order, init, b);
    }
  }

  lemma ConcatAt(head: seq<Item>, body: seq<Item>, rest: seq<Item>, k: nat)
    requires k < |body|
    ensures |head + body + rest| > |head| + k && (head + body + rest)[|head| + k] == body[k]
  {
  }

  lemma EntryAt(t: Tables, i: nat)
    requires Writable(t) && i < t.nNew + t.nTried
    ensures |Image(t)| > 5 + i
    ensures Order(t.mapInfo)[i] in t.mapInfo
    ensures Image(t)[5 + i] == Entry(Save(t.mapInfo[Order(t.mapInfo)[i]]))
  {
    var order := Order(t.mapInfo);
    OrderKnown(t.mapInfo);
    hide Select, BucketImages, Covers;
    ConcatAt(Header(t.nKey, t.nNew, t.nTried), Entries(t.mapInfo, order),
             BucketImages(NewOrder(t.mapInfo), t.vvNew), i);
  }

  lemma OrderKnown(infos: Infos)
    ensures forall i | 0 <= i < |Order(infos)| :: Order(infos)[i] in infos
  {
    var ids := Elements(infos.Keys);
    forall i | 0 <= i < |Order(infos)|
      ensures Order(infos)[i] in infos
    {
      var id := Order(infos)[i];
      assert id in NewOrder(infos) || id in TriedOrder(infos);
      assert id in ids;
    }
  }

  lemma HeaderAt(t: Tables)
    requires Writable(t)
    ensures |Image(t)| >= 5
    ensures Image(t)[0] == Num(0) && Image(t)[1] == Bytes(t.nKey) && Image(t)[2] == Num(t.nNew)
    ensures Image(t)[3] == Num(t.nTried) && Image(t)[4] == Num(NEW_BUCKET_COUNT)
  {
    OrderKnown(t.mapInfo);
    hide Entries, BucketImages, Order, NewOrder, TriedOrder, Covers;
    var head := Header(t.nKey, t.nNew, t.nTried);
    assert head <= Image(t);
  }

  lemma SliceAt(head: seq<Item>, all: seq<Item>, before: seq<Item>, here: seq<Item>, k: nat)
    requires before + here <= all && k < |here|
    ensures |head + all| > |head| + |before| + k && (head + all)[|head| + |before| + k] == here[k]
  {
    assert (before + here)[|before| + k] == here[k];
  }

  /** Item `k` of the image of bucket `b`. */
  lemma BucketItemAt(t: Tables, b: nat, k: nat)
    requires Writable(t) && b < NEW_BUCKET_COUNT && k <= |t.vvNew[b]|
    ensures Offset(t, b + 1) == Offset(t, b) + 1 + |t.vvNew[b]|
    ensures |Image(t)| > Offset(t, b) + k
    ensures Image(t)[Offset(t, b) + k] == BucketImage(NewOrder(t.mapInfo), t.vvNew[b])[k]
  {
    hide NewOrder, BucketImages, BucketImage, Covers, Order, Entries;
    OrderKnown(t.mapInfo);
    var order := NewOrder(t.mapInfo);
    BucketItemIn(Header(t.nKey, t.nNew, t.nTried) + Entries(t.mapInfo, Order(t.mapInfo)), order, t.vvNew, b, k);
    OrderLength(t);
  }

  lemma OrderLength(t: Tables)
    requires Writable(t)
    ensures |Order(t.mapInfo)| == t.nNew + t.nTried
  {
    hide Select;
  }

  lemma CoversAt(order: seq<int>, vvNew: seq<set<int>>, b: nat)
    requires Covers(order, vvNew) && b < |vvNew|
    ensures CoversOne(order, vvNew[b]) && Covers(order, vvNew[..b]) && Covers(order, vvNew[..b + 1])
  {
    hide CoversOne;
  }

  lemma BucketItemIn(head: seq<Item>, order: seq<int>, vvNew: seq<set<int>>, b: nat, k: nat)
    requires Covers(order, vvNew) && b < |vvNew| && k <= |vvNew[b]|
    ensures |BucketImages(order, vvNew[..b + 1])| == |BucketImages(order, vvNew[..b])| + 1 + |vvNew[b]|
    ensures var at := |head| + |BucketImages(order, vvNew[..b])| + k;
            && |head + BucketImages(order, vvNew)| > at
            && (head + BucketImages(order, vvNew))[at] == BucketImage(order, vvNew[b])[k]
  {
    hide *;
    CoversAt(order, vvNew, b);
    BucketImagesAt(order, vvNew, b);
    var before, here := BucketImages(order, vvNew[..b]), BucketImage(order, vvNew[b]);
    SliceAt(head, BucketImages(order, vvNew), before, here, k);
  }

  lemma EndAt(t: Tables)
    requires Writable(t)
    ensures Offset(t, 0) == 5 + t.nNew + t.nTried
    ensures Offset(t, NEW_BUCKET_COUNT) == |Image(t)|
  {
    assert t.vvNew[..NEW_BUCKET_COUNT] == t.vvNew;
  }
}
