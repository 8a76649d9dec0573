/** The self-check of the address manager: it passes on every consistent manager, and what it
    passes has the references, positions and counts of one. */
module AddrCheck {
  import opened AddrTypes
  import opened AddrTables
  import opened Ordered
  import opened Basics
  import AddrMan

  /** An entry agrees with the index, with `vRandom`, and with the range of its fields. */
  ghost predicate EntryOk(infos: Infos, mapAddr: map<NetAddr, int>, vRandom: seq<int>, id: int)
    requires id in infos
  {
    var info := infos[id];
    && (if info.fInTried then info.nLastSuccess != 0 && info.nRefCount == 0
        else 1 <= info.nRefCount <= NEW_BUCKETS_PER_ADDRESS)
    && info.addr.net in mapAddr && mapAddr[info.addr.net] == id
    && 0 <= info.nRandomPos < |vRandom| && vRandom[info.nRandomPos] == id
    && info.nLastTry >= 0 && info.nLastSuccess >= 0
  }

  lemma ConsistentEntry(net: Net, nKey: seq<nat>, nIdCount: int, infos: Infos, mapAddr: map<NetAddr, int>, vRandom: seq<int>,
                        nTried: int, vvTried: seq<seq<int>>, nNew: int, vvNew: seq<set<int>>, id: int)
    requires Consistent(net, nKey, nIdCount, infos, mapAddr, vRandom, nTried, vvTried, nNew, vvNew, {})
    requires TimesOk(infos) && id in infos
    ensures EntryOk(infos, mapAddr, vRandom, id)
  {
    assert RefOk(infos[id], Buckets(vvNew, id), false);
  }

  // ----- The tried buckets

  /** The ids in the first `n` buckets. */
  ghost function TriedSeen(vvTried: seq<seq<int>>, n: nat): set<int>
    requires n <= |vvTried|
  {
    set b, i | 0 <= b < n && 0 <= i < |vvTried[b]| :: vvTried[b][i]
  }

  /** No id is twice in the first `n` buckets. */
  ghost predicate TriedOnce(vvTried: seq<seq<int>>, n: nat)
    requires n <= |vvTried|
  {
    && (forall b | 0 <= b < n :: NoDup(vvTried[b]))
    && forall b, c, id | 0 <= b < c < n && id in vvTried[b] :: id !in vvTried[c]
  }

  lemma ConsistentTried(net: Net, nKey: seq<nat>, infos: Infos, vvTried: seq<seq<int>>)
    requires TriedOk(net, nKey, infos, vvTried)
    ensures TriedOnce(vvTried, |vvTried|) && TriedSeen(vvTried, |vvTried|) == TriedIds(infos)
  {
    forall b | 0 <= b < |vvTried|
      ensures NoDup(vvTried[b]) && forall id | id in vvTried[b] :: id in infos && infos[id].fInTried && BucketOf(net, nKey, infos[id]) == b
    {
      assert TriedBucketOk(net, nKey, infos, b, vvTried[b]);
    }
    forall id
      ensures id in TriedSeen(vvTried, |vvTried|) <==> id in TriedIds(infos)
    {
      if id in TriedIds(infos) {
        var b := BucketOf(net, nKey, infos[id]);
        assert id in vvTried[b];
        var i :| 0 <= i < |vvTried[b]| && vvTried[b][i] == id;
      }
    }
  }

  /** Takes the ids of one bucket out of the set; false when one is not there. */
  method TakeBucket(vTried: seq<int>, setTried: set<int>) returns (ok: bool, rest: set<int>)
    ensures ok <==> NoDup(vTried) && forall id | id in vTried :: id in setTried
    ensures ok ==> rest == setTried - (set i | 0 <= i < |vTried| :: vTried[i])
  {
    rest := setTried;
    for i := 0 to |vTried|
      invariant NoDup(vTried[..i]) && forall j | 0 <= j < i :: vTried[j] in setTried
      invariant rest == setTried - (set j | 0 <= j < i :: vTried[j])
    {
      if vTried[i] !in rest {
        assert vTried[i] in vTried;
        assert vTried[i] in setTried ==> exists j :: 0 <= j < i && vTried[j] == vTried[i];
        return false, rest;
      }
      rest := rest - {vTried[i]};
    }
    assert vTried[..|vTried|] == vTried;
    ok := true;
  }

  lemma SeenNext(vvTried: seq<seq<int>>, n: nat)
    requires n < |vvTried|
    ensures TriedSeen(vvTried, n + 1) == TriedSeen(vvTried, n) + (set i | 0 <= i < |vvTried[n]| :: vvTried[n][i])
  {
    var more := set i | 0 <= i < |vvTried[n]| :: vvTried[n][i];
    forall id
      ensures id in TriedSeen(vvTried, n + 1) <==> id in TriedSeen(vvTried, n) + more
    {
      if id in TriedSeen(vvTried, n + 1) {
        var b, i :| 0 <= b < n + 1 && 0 <= i < |vvTried[b]| && vvTried[b][i] == id;
        if b == n {
          assert id in more;
        }
      }
      if id in more {
        var i :| 0 <= i < |vvTried[n]| && vvTried[n][i] == id;
      }
    }
  }

  /** -11 or -13: every tried id is in exactly one place of the buckets, and nothing else is. */
  method CheckTried(vvTried: seq<seq<int>>, tried: set<int>) returns (code: int)
    ensures code == 0 <==> TriedOnce(vvTried, |vvTried|) && TriedSeen(vvTried, |vvTried|) == tried
  {
    var setTried := tried;
    assert TriedSeen(vvTried, 0) == {};
    for n := 0 to |vvTried|
      invariant TriedOnce(vvTried, n) && TriedSeen(vvTried, n) <= tried
      invariant setTried == tried - TriedSeen(vvTried, n)
    {
      var ok;
      SeenNext(vvTried, n);
      ghost var before := setTried;
      ok, setTried := TakeBucket(vvTried[n], setTried);
      if !ok {
        if TriedOnce(vvTried, |vvTried|) && TriedSeen(vvTried, |vvTried|) == tried {
          TakenIf(vvTried, n, tried);
          assert false;
        }
        return -11;
      }
      forall i | 0 <= i < |vvTried[n]|
        ensures vvTried[n][i] in before
      {
        assert vvTried[n][i] in vvTried[n];
      }
      TakenOnce(vvTried, n);
    }
    code := if setTried != {} then -13 else 0;
  }

  lemma TakenOnce(vvTried: seq<seq<int>>, n: nat)
    requires n < |vvTried| && TriedOnce(vvTried, n) && NoDup(vvTried[n])
    requires forall id | id in vvTried[n] :: id !in TriedSeen(vvTried, n)
    ensures TriedOnce(vvTried, n + 1)
  {
    forall b, id | 0 <= b < n && id in vvTried[b]
      ensures id !in vvTried[n]
    {
      var i :| 0 <= i < |vvTried[b]| && vvTried[b][i] == id;
      assert id in TriedSeen(vvTried, n);
    }
  }

  lemma TakenIf(vvTried: seq<seq<int>>, n: nat, tried: set<int>)
    requires n < |vvTried| && TriedOnce(vvTried, |vvTried|) && TriedSeen(vvTried, |vvTried|) == tried
    ensures NoDup(vvTried[n]) && forall id | id in vvTried[n] :: id in tried - TriedSeen(vvTried, n)
  {
    forall id | id in vvTried[n]
      ensures id in tried - TriedSeen(vvTried, n)
    {
      var i :| 0 <= i < |vvTried[n]| && vvTried[n][i] == id;
      assert id in TriedSeen(vvTried, |vvTried|);
      forall b, j | 0 <= b < n && 0 <= j < |vvTried[b]|
        ensures vvTried[b][j] != id
      {
        assert vvTried[b][j] in vvTried[b];
      }
    }
  }

  // ----- The new buckets

  /** The references of an id that the first `n` buckets and the ids `part` of the next one give. */
  ghost function Seen(vvNew: seq<set<int>>, n: nat, part: set<int>, id: int): nat
    requires n <= |vvNew|
  {
    |Buckets(vvNew[..n], id)| + if id in part then 1 else 0
  }

  /** What is left to account for: the references not seen yet, and no entry for none. */
  ghost predicate Left(infos: Infos, mapNew: map<int, int>, vvNew: seq<set<int>>, n: nat, part: set<int>)
    requires n <= |vvNew|
  {
    && (forall id | id in NewIds(infos) :: Seen(vvNew, n, part, id) <= infos[id].nRefCount)
    && (forall id :: id in mapNew <==> id in NewIds(infos) && Seen(vvNew, n, part, id) < infos[id].nRefCount)
    && (forall id | id in mapNew :: id in infos && mapNew[id] == infos[id].nRefCount - Seen(vvNew, n, part, id))
  }

  /** The references of every new entry are the buckets it is in, and buckets hold new entries only. */
  ghost predicate RefsExact(infos: Infos, vvNew: seq<set<int>>) {
    && (forall id | id in NewIds(infos) :: infos[id].nRefCount == |Buckets(vvNew, id)|)
    && (forall b, id | 0 <= b < |vvNew| && id in vvNew[b] :: id in NewIds(infos))
  }

  lemma ConsistentNew(infos: Infos, vvNew: seq<set<int>>)
    requires NewOk(infos, vvNew, {})
    ensures RefsExact(infos, vvNew)
  {
    forall b, id | 0 <= b < |vvNew| && id in vvNew[b]
      ensures id in NewIds(infos)
    {
      assert NewBucketOk(infos, vvNew[b]);
    }
    forall id | id in NewIds(infos)
      ensures infos[id].nRefCount == |Buckets(vvNew, id)|
    {
      assert RefOk(infos[id], Buckets(vvNew, id), false);
    }
  }

  lemma BucketsUpTo(vvNew: seq<set<int>>, n: nat, id: int)
    requires n < |vvNew|
    ensures Buckets(vvNew[..n + 1], id) == Buckets(vvNew[..n], id) + (if id in vvNew[n] then {n} else {})
    ensures |Buckets(vvNew[..n + 1], id)| == |Buckets(vvNew[..n], id)| + if id in vvNew[n] then 1 else 0
    ensures Buckets(vvNew[..n + 1], id) <= Buckets(vvNew, id)
  {
    var a, b := vvNew[..n], vvNew[..n + 1];
    assert forall c | 0 <= c < n :: b[c] == a[c];
    assert Buckets(b, id) == Buckets(a, id) + (if id in vvNew[n] then {n} else {});
  }

  /** A bucket all accounted for counts for one reference of each of its ids. */
  lemma LeftNext(infos: Infos, mapNew: map<int, int>, vvNew: seq<set<int>>, n: nat)
    requires n < |vvNew| && Left(infos, mapNew, vvNew, n, vvNew[n])
    ensures Left(infos, mapNew, vvNew, n + 1, {})
  {
    hide NewIds, Buckets;
    forall id
      ensures Seen(vvNew, n + 1, {}, id) == Seen(vvNew, n, vvNew[n], id)
    {
      BucketsUpTo(vvNew, n, id);
    }
  }

  lemma LeftOne(infos: Infos, mapNew: map<int, int>, vvNew: seq<set<int>>, n: nat, part: set<int>, id: int)
    requires n < |vvNew| && Left(infos, mapNew, vvNew, n, part) && id !in part && id in mapNew
    ensures Left(infos, if mapNew[id] == 1 then mapNew - {id} else mapNew[id := mapNew[id] - 1], vvNew, n, part + {id})
  {
    hide NewIds, Buckets;
  }

  /** When the references are exact, an id of a bucket still has one left. */
  lemma StillLeft(infos: Infos, mapNew: map<int, int>, vvNew: seq<set<int>>, n: nat, part: set<int>, id: int)
    requires n < |vvNew| && Left(infos, mapNew, vvNew, n, part) && RefsExact(infos, vvNew)
    requires id in vvNew[n] && id !in part
    ensures id in mapNew
  {
    hide NewIds;
    BucketsUpTo(vvNew, n, id);
    SubsetCard(Buckets(vvNew[..n + 1], id), Buckets(vvNew, id));
  }

  method CheckBucket(infos: Infos, map0: map<int, int>, vvNew: seq<set<int>>, n: nat) returns (ok: bool, mapNew: map<int, int>)
    requires n < |vvNew| && Left(infos, map0, vvNew, n, {})
    ensures RefsExact(infos, vvNew) ==> ok
    ensures ok ==> Left(infos, mapNew, vvNew, n + 1, {}) && forall id | id in vvNew[n] :: id in NewIds(infos)
  {
    hide Left, RefsExact, NewIds, Buckets, Elements;
    mapNew := map0;
    var order := Elements(vvNew[n]);
    ghost var part: set<int> := {};
    for i := 0 to |order|
      invariant Left(infos, mapNew, vvNew, n, part)
      invariant part == (set j | 0 <= j < i :: order[j]) && part <= NewIds(infos)
    {
      var id := order[i];
      assert id in vvNew[n];
      assert forall j | 0 <= j < i :: order[j] < id;
      if id !in mapNew {
        if RefsExact(infos, vvNew) {
          StillLeft(infos, mapNew, vvNew, n, part, id);
          assert false;
        }
        return false, mapNew;
      }
      LeftKnown(infos, mapNew, vvNew, n, part, id);
      LeftOne(infos, mapNew, vvNew, n, part, id);
      if mapNew[id] - 1 == 0 {
        mapNew := mapNew - {id};
      } else {
        mapNew := mapNew[id := mapNew[id] - 1];
      }
      part := part + {id};
    }
    AllListed(vvNew[n], order, part);
    LeftNext(infos, mapNew, vvNew, n);
    ok := true;
  }

  lemma AllListed(s: set<int>, order: seq<int>, part: set<int>)
    requires (forall x :: x in order <==> x in s) && part == set j | 0 <= j < |order| :: order[j]
    ensures part == s
  {
    forall x
      ensures x in part <==> x in s
    {
      if x in s {
        assert x in order;
      }
      if x in part {
        assert x in order;
      }
    }
  }

  lemma LeftKnown(infos: Infos, mapNew: map<int, int>, vvNew: seq<set<int>>, n: nat, part: set<int>, id: int)
    requires n <= |vvNew| && Left(infos, mapNew, vvNew, n, part) && id in mapNew
    ensures id in NewIds(infos)
  {
  }

  lemma LeftEnd(infos: Infos, mapNew: map<int, int>, vvNew: seq<set<int>>)
    requires Left(infos, mapNew, vvNew, |vvNew|, {}) && forall b, id | 0 <= b < |vvNew| && id in vvNew[b] :: id in NewIds(infos)
    ensures mapNew == map[] <==> RefsExact(infos, vvNew)
  {
    hide Buckets;
    assert vvNew[..|vvNew|] == vvNew;
    if RefsExact(infos, vvNew) {
      assert forall id :: id !in mapNew;
    }
    if mapNew == map[] {
      forall id | id in NewIds(infos)
        ensures infos[id].nRefCount == |Buckets(vvNew, id)|
      {
        assert id !in mapNew;
      }
    }
  }

  /** -12 or -15: the references of the new entries are the buckets they are in. */
  method CheckNew(infos: Infos, map0: map<int, int>, vvNew: seq<set<int>>) returns (code: int)
    requires Left(infos, map0, vvNew, 0, {})
    ensures code == 0 <==> RefsExact(infos, vvNew)
  {
    hide Left, RefsExact, NewIds, Buckets;
    var mapNew := map0;
    for n := 0 to |vvNew|
      invariant Left(infos, mapNew, vvNew, n, {})
      invariant forall b, id | 0 <= b < n && id in vvNew[b] :: id in NewIds(infos)
    {
      var ok;
      ok, mapNew := CheckBucket(infos, mapNew, vvNew, n);
      if !ok {
        return -12;
      }
    }
    LeftEnd(infos, mapNew, vvNew);
    code := if mapNew != map[] then -15 else 0;
  }

  // ----- The check

  /** What the check passes. */
  ghost predicate Passes(infos: Infos, mapAddr: map<NetAddr, int>, vRandom: seq<int>,
                         nTried: int, vvTried: seq<seq<int>>, nNew: int, vvNew: seq<set<int>>) {
    && |vRandom| == nTried + nNew
    && (forall id | id in infos :: EntryOk(infos, mapAddr, vRandom, id))
    && |TriedIds(infos)| == nTried && |NewIds(infos)| == nNew
    && TriedOnce(vvTried, |vvTried|) && TriedSeen(vvTried, |vvTried|) == TriedIds(infos)
    && RefsExact(infos, vvNew)
  }

  method CheckEntry(infos: Infos, mapAddr: map<NetAddr, int>, vRandom: seq<int>, n: int) returns (code: int)
    requires n in infos
    ensures code == 0 <==> EntryOk(infos, mapAddr, vRandom, n)
  {
    var info := infos[n];
    if info.fInTried {
      if info.nLastSuccess == 0 {
        return -1;
      }
      if info.nRefCount != 0 {
        return -2;
      }
    } else {
      if info.nRefCount < 0 || info.nRefCount > NEW_BUCKETS_PER_ADDRESS {
        return -3;
      }
      if info.nRefCount == 0 {
        return -4;
      }
    }
    if info.addr.net !in mapAddr || mapAddr[info.addr.net] != n {
      return -5;
    }
    if info.nRandomPos < 0 || info.nRandomPos >= |vRandom| || vRandom[info.nRandomPos] != n {
      return -14;
    }
    if info.nLastTry < 0 {
      return -6;
    }
    if info.nLastSuccess < 0 {
      return -8;
    }
    code := 0;
  }

  /** The tried ids of `part`, and the reference counts of the new ones. */
  ghost predicate Listed(infos: Infos, part: set<int>, setTried: set<int>, mapNew: map<int, int>) {
    && part <= infos.Keys
    && (forall id :: id in setTried <==> id in part && infos[id].fInTried)
    && (forall id :: id in mapNew <==> id in part && !infos[id].fInTried)
    && (forall id | id in mapNew :: mapNew[id] == infos[id].nRefCount)
  }

  lemma ListedAll(infos: Infos, setTried: set<int>, mapNew: map<int, int>)
    requires Listed(infos, infos.Keys, setTried, mapNew)
    ensures setTried == TriedIds(infos) && mapNew == map id | id in infos && !infos[id].fInTried :: infos[id].nRefCount
  {
    assert forall id :: id in infos.Keys <==> id in infos;
    assert forall id :: id in setTried <==> id in TriedIds(infos);
    var expected := map id | id in infos && !infos[id].fInTried :: infos[id].nRefCount;
    assert forall id :: id in mapNew <==> id in expected;
    assert forall id | id in expected :: mapNew[id] == expected[id];
  }

  /** The first loop: the entries one by one, in the order of their ids. */
  method CheckEntries(infos: Infos, mapAddr: map<NetAddr, int>, vRandom: seq<int>)
    returns (code: int, setTried: set<int>, mapNew: map<int, int>)
    ensures code == 0 <==> forall id | id in infos :: EntryOk(infos, mapAddr, vRandom, id)
    ensures code == 0 ==> setTried == TriedIds(infos)
                          && mapNew == map id | id in infos && !infos[id].fInTried :: infos[id].nRefCount
  {
    hide EntryOk, Listed, TriedIds, Elements;
    setTried, mapNew := {}, map[];
    var order := Elements(infos.Keys);
    ghost var part: set<int> := {};
    ListedNone(infos);
    for i := 0 to |order|
      invariant part == set j | 0 <= j < i :: order[j]
      invariant part <= infos.Keys && forall id | id in part :: EntryOk(infos, mapAddr, vRandom, id)
      invariant Listed(infos, part, setTried, mapNew)
    {
      var n := order[i];
      assert n in infos.Keys;
      code := CheckEntry(infos, mapAddr, vRandom, n);
      if code != 0 {
        return;
      }
      ListedNext(infos, part, setTried, mapNew, n);
      if infos[n].fInTried {
        setTried := setTried + {n};
      } else {
        mapNew := mapNew[n := infos[n].nRefCount];
      }
      part := part + {n};
    }
    AllListed(infos.Keys, order, part);
    ListedAll(infos, setTried, mapNew);
    code := 0;
  }

  lemma ListedNone(infos: Infos)
    ensures Listed(infos, {}, {}, map[])
  {
  }

  lemma ListedNext(infos: Infos, part: set<int>, setTried: set<int>, mapNew: map<int, int>, n: int)
    requires Listed(infos, part, setTried, mapNew) && n in infos
    ensures infos[n].fInTried ==> Listed(infos, part + {n}, setTried + {n}, mapNew)
    ensures !infos[n].fInTried ==> Listed(infos, part + {n}, setTried, mapNew[n := infos[n].nRefCount])
  {
  }

  lemma LeftStart(infos: Infos, mapNew: map<int, int>, vvNew: seq<set<int>>)
    requires mapNew == map id | id in infos && !infos[id].fInTried :: infos[id].nRefCount
    requires forall id | id in infos && !infos[id].fInTried :: infos[id].nRefCount >= 1
    ensures Left(infos, mapNew, vvNew, 0, {}) && mapNew.Keys == NewIds(infos)
  {
    assert vvNew[..0] == [];
    assert forall id :: Buckets([], id) == {};
  }

  method Check(infos: Infos, mapAddr: map<NetAddr, int>, vRandom: seq<int>,
               nTried: int, vvTried: seq<seq<int>>, nNew: int, vvNew: seq<set<int>>) returns (code: int)
    ensures code == 0 <==> Passes(infos, mapAddr, vRandom, nTried, vvTried, nNew, vvNew)
  {
    hide EntryOk, TriedOnce, TriedSeen, RefsExact, Left, TriedIds, NewIds;
    if |vRandom| != nTried + nNew {
      return -7;
    }
    var setTried, mapNew;
    code, setTried, mapNew := CheckEntries(infos, mapAddr, vRandom);
    if code != 0 {
      return;
    }
    EntriesPositive(infos, mapAddr, vRandom);
    LeftStart(infos, mapNew, vvNew);
    assert |mapNew| == |mapNew.Keys|;
    if |setTried| != nTried {
      return -9;
    }
    if |mapNew| != nNew {
      return -10;
    }
    code := CheckTried(vvTried, setTried);
    if code != 0 {
      return;
    }
    code := CheckNew(infos, mapNew, vvNew);
  }

  lemma EntriesPositive(infos: Infos, mapAddr: map<NetAddr, int>, vRandom: seq<int>)
    requires forall id | id in infos :: EntryOk(infos, mapAddr, vRandom, id)
    ensures forall id | id in infos && !infos[id].fInTried :: infos[id].nRefCount >= 1
  {
  }

  /** A consistent manager passes its own check just when its times are positive. */
  lemma ConsistentPasses(net: Net, nKey: seq<nat>, nIdCount: int, infos: Infos, mapAddr: map<NetAddr, int>, vRandom: seq<int>,
                         nTried: int, vvTried: seq<seq<int>>, nNew: int, vvNew: seq<set<int>>)
    requires Consistent(net, nKey, nIdCount, infos, mapAddr, vRandom, nTried, vvTried, nNew, vvNew, {})
    ensures Passes(infos, mapAddr, vRandom, nTried, vvTried, nNew, vvNew) <==> TimesOk(infos)
  {
    hide TriedOnce, TriedSeen, RefsExact, RandomOk, AddrOk, IdsOk, TriedOk, NewOk, TriedIds, NewIds;
    if TimesOk(infos) {
      hide EntryOk, TimesOk;
      ConsistentCount(net, nKey, nIdCount, infos, mapAddr, vRandom, nTried, vvTried, nNew, vvNew, {});
      ConsistentTried(net, nKey, infos, vvTried);
      ConsistentNew(infos, vvNew);
      forall id | id in infos
        ensures EntryOk(infos, mapAddr, vRandom, id)
      {
        ConsistentEntry(net, nKey, nIdCount, infos, mapAddr, vRandom, nTried, vvTried, nNew, vvNew, id);
      }
    }
  }

  /** After a known service was reached, the check passes just when the time of it is positive. */
  method CheckAfterGood(m: AddrMan.CAddrman, addr: Address, nTime: int) returns (code: int)
    requires m.Valid() && TimesOk(m.mapInfo) && m.FindService(addr).Some?
    modifies m`mapInfo, m`vvNew, m`vvTried, m`nNew, m`nTried
    ensures code == 0 <==> nTime > 0
  {
    hide Passes, TimesOk;
    var _, _ := m.Good(addr, nTime);
    ConsistentPasses(m.net, m.nKey, m.nIdCount, m.mapInfo, m.mapAddr, m.vRandom, m.nTried, m.vvTried, m.nNew, m.vvNew);
    code := Check(m.mapInfo, m.mapAddr, m.vRandom, m.nTried, m.vvTried, m.nNew, m.vvNew);
  }
}
