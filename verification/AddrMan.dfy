/** The stochastic address manager: a table of known network addresses, kept in "new"
    and "tried" buckets. Random draws are nondeterministic choices; the clock and the
    bucket hash come from outside (`nNow`, `net`). */
module AddrMan {
  import opened Basics
  import opened Ordered
  import opened AddrTypes
  import opened AddrTables

  /** Any number below `nMax`, or 0 if there is none. */
  method GetRandInt(nMax: nat) returns (r: nat)
    ensures nMax == 0 ==> r == 0
    ensures nMax > 0 ==> r < nMax
  {
    if nMax == 0 {
      return 0;
    }
    r :| r < nMax by { assert 0 < nMax; }
  }

  class CAddrman {
    const net: Net
    var nKey: seq<nat>
    var nIdCount: int
    var mapInfo: map<int, AddrInfo>
    var mapAddr: map<NetAddr, int>
    var vRandom: seq<int>
    var nTried: int
    var vvTried: seq<seq<int>>
    var nNew: int
    var vvNew: seq<set<int>>

    ghost predicate Inv(pending: set<int>)
      reads this
    {
      Consistent(net, nKey, nIdCount, mapInfo, mapAddr, vRandom, nTried, vvTried, nNew, vvNew, pending)
    }

    ghost predicate Valid()
      reads this
    {
      Inv({})
    }

    constructor (net: Net, nKey: seq<nat>)
      ensures Valid() && TimesOk(mapInfo)
      ensures this.net == net && this.nKey == nKey
      ensures mapInfo == map[] && vRandom == []
    {
      this.net := net;
      this.nKey := nKey;
      nIdCount := 0;
      mapInfo := map[];
      mapAddr := map[];
      vRandom := [];
      nTried := 0;
      vvTried := NoTriedEntries();
      nNew := 0;
      vvNew := NoNewEntries();
    }

    method SwapRandom(nRndPos1: nat, nRndPos2: nat)
      requires RandomOk(mapInfo, vRandom)
      requires nRndPos1 == nRndPos2 || (nRndPos1 < |vRandom| && nRndPos2 < |vRandom|)
      modifies `mapInfo, `vRandom
      ensures RandomOk(mapInfo, vRandom)
      ensures mapInfo.Keys == old(mapInfo).Keys
      ensures SameButPos(old(mapInfo), mapInfo, mapInfo.Keys)
      ensures vRandom == if nRndPos1 == nRndPos2 then old(vRandom)
                         else old(vRandom)[nRndPos1 := old(vRandom)[nRndPos2]][nRndPos2 := old(vRandom)[nRndPos1]]
    {
      if nRndPos1 == nRndPos2 {
        return;
      }
      var nId1 := vRandom[nRndPos1];
      var nId2 := vRandom[nRndPos2];
      assert nId1 in mapInfo;
      assert nId2 in mapInfo;
      mapInfo := mapInfo[nId1 := mapInfo[nId1].(nRandomPos := nRndPos2)];
      mapInfo := mapInfo[nId2 := mapInfo[nId2].(nRandomPos := nRndPos1)];
      vRandom := vRandom[nRndPos1 := nId2];
      vRandom := vRandom[nRndPos2 := nId1];
    }

    /** Erases an entry from the table, its address from the index, and its id from `vRandom`. */
    method EraseEntry(nId: int)
      requires RandomOk(mapInfo, vRandom) && AddrOk(mapInfo, mapAddr) && nId in mapInfo
      modifies `mapInfo, `mapAddr, `vRandom
      ensures RandomOk(mapInfo, vRandom) && AddrOk(mapInfo, mapAddr)
      ensures mapInfo.Keys == old(mapInfo).Keys - {nId}
      ensures SameButPos(old(mapInfo), mapInfo, mapInfo.Keys)
      ensures mapAddr == old(mapAddr) - {old(mapInfo)[nId].addr.net}
    {
      var info := mapInfo[nId];
      SwapRandom(info.nRandomPos, |vRandom| - 1);
      RemoveLastKeepsRandom(mapInfo, vRandom, nId);
      RemoveKeepsAddr(mapInfo, mapAddr, nId);
      vRandom := vRandom[..|vRandom| - 1];
      mapAddr := mapAddr - {info.addr.net};
      mapInfo := mapInfo - {nId};
    }

    /** Drops `nId` from a new bucket, and from the table if that was its last one. */
    method Release(nUBucket: nat, nId: int, ghost pending: set<int>)
      requires Inv(pending)
      requires nUBucket < NEW_BUCKET_COUNT && nId in vvNew[nUBucket] && nId !in pending
      modifies `mapInfo, `mapAddr, `vRandom, `nNew, `vvNew
      ensures Inv(pending)
      ensures vvNew == old(vvNew)[nUBucket := old(vvNew)[nUBucket] - {nId}]
      ensures Released(old(mapInfo), mapInfo, nId)
    {
      ghost var infos, mapAddr0, vRandom0 := mapInfo, mapAddr, vRandom;
      assert |vvNew| == NEW_BUCKET_COUNT;
      hide Consistent, Released, RandomOk, AddrOk, SameButPos;
      InBucketFacts(net, nKey, nIdCount, mapInfo, mapAddr, vRandom, nTried, vvTried, nNew, vvNew, pending, nUBucket, nId);
      var info := mapInfo[nId];
      var nRefCount := info.nRefCount - 1;
      mapInfo := mapInfo[nId := info.(nRefCount := nRefCount)];
      if nRefCount == 0 {
        ghost var infos1 := mapInfo;
        EraseEntry(nId);
        nNew := nNew - 1;
        ChainSameButPos(infos, infos1, mapInfo, nId);
        ReleaseKeeps(net, nKey, nIdCount, infos, mapInfo, mapAddr0, mapAddr, vRandom0, vRandom, nTried, vvTried,
                     nNew + 1, vvNew, nUBucket, nId, pending);
      } else {
        EraseKeeps(net, nKey, nIdCount, infos, mapInfo, mapAddr, vRandom, nTried, vvTried, nNew, vvNew,
                   nUBucket, nId, pending);
        ReleasedOne(infos, mapInfo, nId);
      }
      vvNew := vvNew[nUBucket := vvNew[nUBucket] - {nId}];
    }

    /** Makes room in a new bucket. `n` are the four positions drawn from it, for the case
        that no entry of the bucket is terrible. */
    method ShrinkNew(nUBucket: int, nNow: int, n: seq<nat>, ghost pending: set<int>)
      returns (r: int, ghost victim: int)
      requires Inv(pending)
      requires 0 <= nUBucket < NEW_BUCKET_COUNT && vvNew[nUBucket] != {} && vvNew[nUBucket] !! pending
      requires AreDraws(n, |vvNew[nUBucket]|)
      modifies `mapInfo, `mapAddr, `vRandom, `nNew, `vvNew
      ensures Inv(pending)
      ensures victim in old(vvNew)[nUBucket]
      ensures vvNew == old(vvNew)[nUBucket := old(vvNew)[nUBucket] - {victim}]
      ensures Released(old(mapInfo), mapInfo, victim)
      ensures r == if NoneTerrible(old(mapInfo), old(vvNew)[nUBucket], nNow) then 1 else 0
      ensures IsVictim(old(mapInfo), old(vvNew)[nUBucket], victim, nNow, n)
    {
      assert NewBucketOk(mapInfo, vvNew[nUBucket]);
      forall id | id in vvNew[nUBucket] ensures id in mapInfo.Keys {}
      var nTerrible := FindTerrible(mapInfo, vvNew[nUBucket], nNow);
      if nTerrible.Some? {
        victim := nTerrible.value;
        Release(nUBucket, nTerrible.value, pending);
        return 0, victim;
      }
      var nOldest := PickOldest(mapInfo, vvNew[nUBucket], n);
      victim := nOldest;
      Release(nUBucket, nOldest, pending);
      return 1, victim;
    }

    /** A position of a tried bucket whose entry is to be replaced; the bucket's first few
        elements are shuffled on the way, as the draws `d` say. The position is that from which the first
        least recently successful one of these was drawn, where it no longer is unless the draw was zero. */
    method SelectTried(nKBucket: nat, d: seq<nat>) returns (nPos: nat)
      requires TriedOk(net, nKey, mapInfo, vvTried)
      requires nKBucket < TRIED_BUCKET_COUNT && vvTried[nKBucket] != [] && AreSwaps(d, |vvTried[nKBucket]|)
      modifies `vvTried
      ensures TriedOk(net, nKey, mapInfo, vvTried)
      ensures vvTried == old(vvTried)[nKBucket := vvTried[nKBucket]]
      ensures multiset(vvTried[nKBucket]) == multiset(old(vvTried)[nKBucket])
      ensures vvTried[nKBucket] == Shuffled(old(vvTried)[nKBucket], d, Inspected(old(vvTried)[nKBucket]))
      ensures nPos < |vvTried[nKBucket]|
      ensures IsSelected(mapInfo, vvTried[nKBucket], d, Inspected(old(vvTried)[nKBucket]), nPos)
    {
      TriedKnown(net, nKey, mapInfo, vvTried, nKBucket);
      var vTried;
      vTried, nPos := ShuffleAndSelect(mapInfo, vvTried[nKBucket], d);
      PermuteKeepsTried(net, nKey, mapInfo, vvTried, nKBucket, vTried);
      vvTried := vvTried[nKBucket := vTried];
    }

    /** Drops `nId` from every new bucket, counting its references down to zero. */
    method LeaveNewBuckets(nId: int)
      requires NewOk(mapInfo, vvNew, {}) && nId in mapInfo
      modifies `mapInfo, `vvNew
      ensures vvNew == Without(old(vvNew), nId)
      ensures mapInfo == old(mapInfo)[nId := old(mapInfo)[nId].(nRefCount := 0)]
    {
      assert RefOk(mapInfo[nId], Buckets(vvNew, nId), false);
      ghost var infos, vvNew0 := mapInfo, vvNew;
      assert |vvNew| == NEW_BUCKET_COUNT && infos[nId].nRefCount == |Buckets(vvNew, nId)|;
      hide NewOk, RefOk, Buckets;
      for b := 0 to |vvNew|
        invariant |vvNew| == NEW_BUCKET_COUNT
        invariant forall c | 0 <= c < b :: vvNew[c] == vvNew0[c] - {nId}
        invariant forall c | b <= c < NEW_BUCKET_COUNT :: vvNew[c] == vvNew0[c]
        invariant mapInfo == infos[nId := infos[nId].(nRefCount := |Buckets(vvNew, nId)|)]
      {
        BucketsLess(vvNew, b, nId);
        if nId in vvNew[b] {
          mapInfo := mapInfo[nId := mapInfo[nId].(nRefCount := mapInfo[nId].nRefCount - 1)];
        }
        vvNew := vvNew[b := vvNew[b] - {nId}];
      }
      NoBuckets(vvNew, nId);
    }

    /** Moves a new entry to its tried bucket. If that is full, another entry of it goes
        back to a new bucket: its own if that has room, else the one `nId` came from. */
    method MakeTried(nId: int, nOrigin: nat) returns (ghost evicted: Option<int>)
      requires Valid()
      requires nOrigin < NEW_BUCKET_COUNT && nId in vvNew[nOrigin]
      modifies `mapInfo, `vvNew, `vvTried, `nNew, `nTried
      ensures Valid()
      ensures nId in old(mapInfo)
      ensures TriedMove(net, nKey, old(mapInfo), mapInfo, old(vvTried), vvTried, old(vvNew), vvNew, nId, nOrigin, evicted)
    {
      ghost var infos := mapInfo;
      ghost var vvTried0, vvNew0 := vvTried, vvNew;
      assert NewBucketOk(mapInfo, vvNew[nOrigin]);
      ghost var k := BucketOf(net, nKey, mapInfo[nId]);
      assert TriedBucketOk(net, nKey, mapInfo, k, vvTried[k]);
      assert TriedOk(net, nKey, infos, vvTried);
      hide *;
      LeaveNewBuckets(nId);
      nNew := nNew - 1;
      assert mapInfo[nId].nRefCount == 0;

      var nKBucket := BucketOf(net, nKey, mapInfo[nId]);
      if |vvTried[nKBucket]| < TRIED_BUCKET_SIZE {
        vvTried := vvTried[nKBucket := vvTried[nKBucket] + [nId]];
        nTried := nTried + 1;
        mapInfo := mapInfo[nId := mapInfo[nId].(fInTried := true)];
        AppendStep(net, nKey, nIdCount, infos, mapInfo, mapAddr, vRandom, nTried, vvTried0, vvTried,
                   nNew, vvNew0, vvNew, nId, nOrigin, nKBucket);
        return None;
      }
      evicted := SwapWithTried(nId, nOrigin, nKBucket, infos, vvNew0);
    }

    /** The position of an entry of the full tried bucket `nKBucket` that makes room for `nId`. */
    method ChooseEvicted(nId: int, nKBucket: nat, ghost infos: Infos) returns (nPos: nat)
      requires TriedOk(net, nKey, infos, vvTried) && nId in infos && !infos[nId].fInTried
      requires mapInfo == infos[nId := infos[nId].(nRefCount := 0)]
      requires nKBucket < TRIED_BUCKET_COUNT && |vvTried| == TRIED_BUCKET_COUNT && vvTried[nKBucket] != []
      modifies `vvTried
      ensures TriedOk(net, nKey, infos, vvTried) && |vvTried| == TRIED_BUCKET_COUNT
      ensures vvTried == old(vvTried)[nKBucket := vvTried[nKBucket]]
      ensures multiset(vvTried[nKBucket]) == multiset(old(vvTried)[nKBucket]) && nPos < |vvTried[nKBucket]|
      ensures var e := vvTried[nKBucket][nPos];
              && e in infos && infos[e].fInTried && e != nId && mapInfo[e] == infos[e]
    {
      hide TriedOk, Shuffled, IsSelected, AreSwaps;
      SlotsKeepTried'(net, nKey, infos, mapInfo, vvTried, nId);
      var d := DrawSwaps(|vvTried[nKBucket]|);
      nPos := SelectTried(nKBucket, d);
      TriedEntry(net, nKey, mapInfo, vvTried, nKBucket, nPos);
      SlotsKeepTried'(net, nKey, mapInfo, infos, vvTried, nId);
    }

    /** Puts `nId`, just taken out of the new buckets, in place of an entry of a full tried bucket. */
    method SwapWithTried(nId: int, nOrigin: nat, nKBucket: nat, ghost infos: Infos, ghost vvNew0: seq<set<int>>)
      returns (ghost evicted: Option<int>)
      requires Consistent(net, nKey, nIdCount, infos, mapAddr, vRandom, nTried, vvTried, nNew + 1, vvNew0, {})
      requires TriedOk(net, nKey, infos, vvTried) && nId in infos && !infos[nId].fInTried
      requires mapInfo == infos[nId := infos[nId].(nRefCount := 0)] && vvNew == Without(vvNew0, nId)
      requires |vvTried| == TRIED_BUCKET_COUNT && |vvNew0| == NEW_BUCKET_COUNT
      requires nOrigin < NEW_BUCKET_COUNT && nId in vvNew0[nOrigin]
      requires nKBucket == BucketOf(net, nKey, infos[nId]) && |vvTried[nKBucket]| == TRIED_BUCKET_SIZE
      modifies `mapInfo, `vvNew, `vvTried, `nNew
      ensures Valid()
      ensures TriedMove(net, nKey, infos, mapInfo, old(vvTried), vvTried, vvNew0, vvNew, nId, nOrigin, evicted)
    {
      ghost var vvTried0 := vvTried;
      hide Consistent, TriedOk, TriedMove, Without, BucketOf, NewBucket;
      var nPos := ChooseEvicted(nId, nKBucket, infos);
      var nEvict := vvTried[nKBucket][nPos];
      var infoOld := mapInfo[nEvict];
      var nUBucket := NewBucket(net, nKey, infoOld.addr, infoOld.source);
      var nTarget := if |vvNew[nUBucket]| < NEW_BUCKET_SIZE then nUBucket else nOrigin;
      var info' := mapInfo[nId := mapInfo[nId].(fInTried := true)][nEvict := infoOld.(fInTried := false, nRefCount := 1)];
      SwapStep(net, nKey, nIdCount, infos, info', mapAddr, vRandom, nTried, vvTried0, vvTried,
               nNew + 1, vvNew0, nId, nOrigin, nKBucket, nPos, nEvict, nTarget);
      mapInfo := info';
      vvNew := vvNew[nTarget := vvNew[nTarget] + {nEvict}];
      nNew := nNew + 1;
      vvTried := vvTried[nKBucket := vvTried[nKBucket][nPos := nId]];
      return Some(nEvict);
    }

    /** A new bucket holding `nId`, searched from a random one on; -1 if there is none. */
    method FindNewBucket(nId: int) returns (nUBucket: int)
      requires |vvNew| == NEW_BUCKET_COUNT
      ensures -1 <= nUBucket < NEW_BUCKET_COUNT
      ensures nUBucket != -1 ==> nId in vvNew[nUBucket]
      ensures nUBucket == -1 ==> Buckets(vvNew, nId) == {}
    {
      var nRnd := GetRandInt(|vvNew|);
      for n := 0 to |vvNew|
        invariant forall b | 0 <= b < |vvNew| && nId in vvNew[b] :: n <= StepsFrom(nRnd, b)
      {
        var nB := (n + nRnd) % |vvNew|;
        assert nB == if n + nRnd < NEW_BUCKET_COUNT then n + nRnd else n + nRnd - NEW_BUCKET_COUNT;
        if nId in vvNew[nB] {
          return nB;
        }
      }
      assert forall b | 0 <= b < |vvNew| :: StepsFrom(nRnd, b) < NEW_BUCKET_COUNT;
      return -1;
    }

    /** The id of the entry of a service, address and port: the only one with it, or none has it. */
    function FindService(addr: Address): (r: Option<int>)
      reads this
      ensures r.Some? ==> addr.net in mapAddr && r.value == mapAddr[addr.net] && r.value in mapInfo
                          && mapInfo[r.value].addr.SameService(addr)
      ensures AddrOk(mapInfo, mapAddr) ==>
                forall id :: r == Some(id) <==> id in mapInfo && mapInfo[id].addr.SameService(addr)
    {
      if addr.net in mapAddr && mapAddr[addr.net] in mapInfo && mapInfo[mapAddr[addr.net]].addr.SameService(addr)
      then Some(mapAddr[addr.net])
      else None
    }

    /** A service was connected to: updates its statistics and puts it into the tried table. */
    method Good(addr: Address, nTime: int) returns (ghost origin: int, ghost evicted: Option<int>)
      requires Valid()
      modifies `mapInfo, `vvNew, `vvTried, `nNew, `nTried
      ensures Valid()
      ensures old(FindService(addr)).None? ==> unchanged(this)
      ensures old(FindService(addr)).Some? ==>
                var id := old(FindService(addr)).value;
                var infos := old(mapInfo)[id := Reached(old(mapInfo)[id], nTime)];
                && id in mapInfo && mapInfo[id].fInTried
                && if old(mapInfo)[id].fInTried
                   then mapInfo == infos && vvTried == old(vvTried) && vvNew == old(vvNew)
                   else 0 <= origin < |old(vvNew)| && id in old(vvNew)[origin]
                        && TriedMove(net, nKey, infos, mapInfo, old(vvTried), vvTried, old(vvNew), vvNew, id, origin, evicted)
      ensures nTime > 0 && TimesOk(old(mapInfo)) ==> TimesOk(mapInfo)
      ensures nTime <= 0 && old(FindService(addr)).Some? ==> !TimesOk(mapInfo)
      ensures nNew + nTried == old(nNew + nTried)
    {
      origin, evicted := -1, None;
      var found := FindService(addr);
      if found.None? {
        return;
      }
      var nId := found.value;
      ghost var infos0 := mapInfo;
      var info := Reached(mapInfo[nId], nTime);
      assert RefOk(mapInfo[nId], Buckets(vvNew, nId), false);
      assert |vvNew| == NEW_BUCKET_COUNT;
      ConsistentCount(net, nKey, nIdCount, mapInfo, mapAddr, vRandom, nTried, vvTried, nNew, vvNew, {});
      hide *;
      TouchKeeps(net, nKey, nIdCount, mapInfo, mapAddr, vRandom, nTried, vvTried, nNew, vvNew, nId, info);
      mapInfo := mapInfo[nId := info];
      ghost var infos1 := mapInfo;
      ReachedTimes(infos0, nId, nTime);
      if info.fInTried {
        return;
      }
      var nUBucket := FindNewBucket(nId);
      if nUBucket == -1 {
        assert false;
      }
      origin := nUBucket;
      ghost var vvTried0, vvNew0 := vvTried, vvNew;
      evicted := MakeTried(nId, nUBucket);
      MoveFacts(net, nKey, infos1, mapInfo, vvTried0, vvTried, vvNew0, vvNew, nId, nUBucket, evicted);
      ConsistentCount(net, nKey, nIdCount, mapInfo, mapAddr, vRandom, nTried, vvTried, nNew, vvNew, {});
    }

    /** Puts an entry into one more new bucket, making room there first if it is full; `n` are the
        draws for that case. */
    method InsertNew(nUBucket: nat, nId: int, nNow: int, n: seq<nat>) returns (ghost victim: Option<int>)
      requires AreDraws(n, NEW_BUCKET_SIZE)
      requires nUBucket < NEW_BUCKET_COUNT && |vvNew| == NEW_BUCKET_COUNT && nId in mapInfo && !mapInfo[nId].fInTried
      requires nId in vvNew[nUBucket] ==> Valid()
      requires nId !in vvNew[nUBucket] ==>
                 Consistent(net, nKey, nIdCount, MoreRefs(mapInfo, nId), mapAddr, vRandom,
                            nTried, vvTried, nNew, vvNew, {nId})
      modifies `mapInfo, `mapAddr, `vRandom, `nNew, `vvNew
      ensures Valid()
      ensures nId in old(vvNew)[nUBucket] ==> unchanged(this) && victim.None?
      ensures nId !in old(vvNew)[nUBucket] ==>
                Inserted(old(mapInfo), mapInfo, old(vvNew), vvNew, nUBucket, nId, victim, nNow, n)
    {
      victim := None;
      if nId in vvNew[nUBucket] {
        return;
      }
      assert NewBucketOk(MoreRefs(mapInfo, nId), vvNew[nUBucket]);
      hide *;
      ghost var infos0, vvNew0 := mapInfo, vvNew;
      mapInfo := MoreRefs(mapInfo, nId);
      if |vvNew[nUBucket]| == NEW_BUCKET_SIZE {
        assert |vvNew[nUBucket]| != 0;
        var r;
        ghost var v;
        r, v := ShrinkNew(nUBucket, nNow, n, {nId});
        victim := Some(v);
        ReleasedKeepsOthers(MoreRefs(infos0, nId), mapInfo, v, nId);
      }
      InsertKeeps(net, nKey, nIdCount, mapInfo, mapAddr, vRandom, nTried, vvTried, nNew, vvNew, nUBucket, nId);
      InsertedBy(infos0, mapInfo, vvNew0, vvNew, nUBucket, nId, victim, nNow, n);
      vvNew := vvNew[nUBucket := vvNew[nUBucket] + {nId}];
    }

    /** A fresh entry at the end of `vRandom`, in no bucket yet. */
    method Create(addr: Address, addrSource: NetAddr) returns (nId: int)
      modifies `nIdCount, `mapInfo, `mapAddr, `vRandom
      ensures nId == old(nIdCount) && nIdCount == nId + 1
      ensures mapInfo == old(mapInfo)[nId := NewInfo(addr, addrSource).(nRandomPos := |old(vRandom)|)]
      ensures mapAddr == old(mapAddr)[addr.net := nId]
      ensures vRandom == old(vRandom) + [nId]
    {
      nId := nIdCount;
      nIdCount := nIdCount + 1;
      mapInfo := mapInfo[nId := NewInfo(addr, addrSource)];
      mapAddr := mapAddr[addr.net := nId];
      mapInfo := mapInfo[nId := mapInfo[nId].(nRandomPos := |vRandom|)];
      vRandom := vRandom + [nId];
    }

    /** Learns of an address from `source`: refreshes or creates its entry, and possibly
        puts it into one more new bucket. `nDraw` is the random number for the draw against the
        number of references, and `n` the four positions for ShrinkNew. */
    method Add(addr: Address, source: NetAddr, nTimePenalty: int, nNow: int, nDraw: nat, n: seq<nat>)
      returns (fNew: bool, ghost victim: Option<int>)
      requires Valid() && AreDraws(n, NEW_BUCKET_SIZE)
      modifies `nIdCount, `mapInfo, `mapAddr, `vRandom, `nNew, `vvNew
      ensures Valid()
      ensures !net.routable(addr.net) ==> unchanged(this)
      ensures fNew <==> net.routable(addr.net) && addr.net !in old(mapAddr)
      ensures fNew ==>
                var nId, b := old(nIdCount), NewBucket(net, nKey, addr, source);
                && nId !in old(mapInfo) && nId in mapInfo
                && Inserted(old(mapInfo)[nId := FirstSeen(addr, source, nTimePenalty, |old(vRandom)|)], mapInfo,
                            old(vvNew), vvNew, b, nId, victim, nNow, n)
      ensures net.routable(addr.net) && !fNew ==>
                && old(mapAddr)[addr.net] in old(mapInfo)
                && var nId := old(mapAddr)[addr.net];
                   var info := Refreshed(old(mapInfo)[nId], addr, nTimePenalty, nNow);
                   var infos, b := old(mapInfo)[nId := info], NewBucket(net, nKey, info.addr, source);
                   if HasNews(info, addr) && !info.fInTried && info.nRefCount < NEW_BUCKETS_PER_ADDRESS
                      && nDraw % Factor(info.nRefCount) == 0 && nId !in old(vvNew)[b]
                   then Inserted(infos, mapInfo, old(vvNew), vvNew, b, nId, victim, nNow, n)
                   else mapInfo == infos && vvNew == old(vvNew)
      ensures TimesOk(old(mapInfo)) ==> TimesOk(mapInfo)
    {
      fNew, victim := false, None;
      if !net.routable(addr.net) {
        return;
      }
      ghost var vvNew0 := vvNew;
      assert |vvNew| == NEW_BUCKET_COUNT;
      var nId;
      if addr.net in mapAddr {
        nId := mapAddr[addr.net];
        assert nId in mapInfo;
        hide *;
        var go := Refresh(nId, addr, nTimePenalty, nNow, nDraw);
        if !go {
          return;
        }
      } else {
        hide *;
        nId := CreateNew(addr, source, nTimePenalty);
        fNew := true;
      }
      var nUBucket := NewBucket(net, nKey, mapInfo[nId].addr, source);
      ghost var infos := mapInfo;
      victim := InsertNew(nUBucket, nId, nNow, n);
      if nId !in vvNew0[nUBucket] {
        InsertedFacts(infos, mapInfo, vvNew0, vvNew, nUBucket, nId, victim, nNow, n);
      }
    }

    /** Updates an entry announced again; decides whether it may get one more new bucket. */
    method Refresh(nId: int, addr: Address, nTimePenalty: int, nNow: int, nDraw: nat) returns (go: bool)
      requires Valid() && nId in mapInfo
      modifies `mapInfo
      ensures Valid()
      ensures mapInfo == old(mapInfo)[nId := Refreshed(old(mapInfo)[nId], addr, nTimePenalty, nNow)]
      ensures TimesOk(old(mapInfo)) ==> TimesOk(mapInfo)
      ensures go <==> && HasNews(mapInfo[nId], addr) && !mapInfo[nId].fInTried
                      && mapInfo[nId].nRefCount < NEW_BUCKETS_PER_ADDRESS && nDraw % Factor(mapInfo[nId].nRefCount) == 0
      ensures go ==> Consistent(net, nKey, nIdCount, MoreRefs(mapInfo, nId), mapAddr, vRandom,
                                nTried, vvTried, nNew, vvNew, {nId})
    {
      assert Consistent(net, nKey, nIdCount, mapInfo, mapAddr, vRandom, nTried, vvTried, nNew, vvNew, {});
      hide *;
      EntryRefs(net, nKey, nIdCount, mapInfo, mapAddr, vRandom, nTried, vvTried, nNew, vvNew, nId);
      var info := Refreshed(mapInfo[nId], addr, nTimePenalty, nNow);
      TouchKeeps(net, nKey, nIdCount, mapInfo, mapAddr, vRandom, nTried, vvTried, nNew, vvNew, nId, info);
      TouchTimes(mapInfo, nId, info);
      mapInfo := mapInfo[nId := info];
      go := GoesOn(info, addr, nDraw);
      if !go {
        return;
      }
      BumpKeeps(net, nKey, nIdCount, mapInfo, mapAddr, vRandom, nTried, vvTried, nNew, vvNew, nId);
    }

    /** Whether an entry may get one more reference; `nDraw` is the random number. */
    static method GoesOn(info: AddrInfo, addr: Address, nDraw: nat) returns (go: bool)
      requires 0 <= info.nRefCount <= NEW_BUCKETS_PER_ADDRESS
      ensures go <==> && HasNews(info, addr) && !info.fInTried
                      && info.nRefCount < NEW_BUCKETS_PER_ADDRESS && nDraw % Factor(info.nRefCount) == 0
    {
      if !HasNews(info, addr) {
        return false;
      }
      if info.fInTried {
        return false;
      }
      if info.nRefCount == NEW_BUCKETS_PER_ADDRESS {
        return false;
      }
      var nFactor := 1;
      for n := 0 to info.nRefCount
        invariant nFactor == Factor(n)
      {
        nFactor := nFactor * 2;
      }
      if nFactor > 1 && nDraw % nFactor != 0 {
        return false;
      }
      return true;
    }

    /** Enters an address announced for the first time, in no bucket yet. */
    method CreateNew(addr: Address, source: NetAddr, nTimePenalty: int) returns (nId: int)
      requires Valid() && addr.net !in mapAddr && |vvNew| == NEW_BUCKET_COUNT
      modifies `nIdCount, `mapInfo, `mapAddr, `vRandom, `nNew
      ensures nId == old(nIdCount) && nId !in old(mapInfo)
      ensures mapInfo == old(mapInfo)[nId := FirstSeen(addr, source, nTimePenalty, |old(vRandom)|)]
      ensures Consistent(net, nKey, nIdCount, MoreRefs(mapInfo, nId), mapAddr, vRandom,
                         nTried, vvTried, nNew, vvNew, {nId})
      ensures forall b | 0 <= b < NEW_BUCKET_COUNT :: nId !in vvNew[b]
      ensures TimesOk(old(mapInfo)) ==> TimesOk(mapInfo)
    {
      ghost var infos0, mapAddr0, vRandom0 := mapInfo, mapAddr, vRandom;
      assert Consistent(net, nKey, nIdCount, mapInfo, mapAddr, vRandom, nTried, vvTried, nNew, vvNew, {});
      hide *;
      nId := Create(addr, source);
      var nTime := U32(Max(0, addr.nTime - nTimePenalty));
      mapInfo := mapInfo[nId := mapInfo[nId].(addr := addr.(nTime := nTime))];
      nNew := nNew + 1;
      ghost var info := FirstSeen(addr, source, nTimePenalty, |vRandom0|);
      assert mapInfo == infos0[nId := info];
      assert MoreRefs(mapInfo, nId) == infos0[nId := info.(nRefCount := 1)];
      CreateKeeps(net, nKey, nId, infos0, mapAddr0, vRandom0, nTried, vvTried, nNew - 1, vvNew, info.(nRefCount := 1));
      TouchTimes(infos0, nId, info);
      NotInBuckets(vvNew, nId);
    }

    /** A connection to a service was attempted. */
    method Attempt(addr: Address, nTime: int)
      requires Valid()
      modifies `mapInfo
      ensures Valid()
      ensures mapInfo == match old(FindService(addr)) {
                           case None => old(mapInfo)
                           case Some(id) => old(mapInfo)[id := old(mapInfo)[id].(nLastTry := nTime,
                                                               nAttempts := old(mapInfo)[id].nAttempts + 1)]
                         }
      ensures nTime >= 0 && TimesOk(old(mapInfo)) ==> TimesOk(mapInfo)
    {
      var found := FindService(addr);
      if found.None? {
        return;
      }
      assert Consistent(net, nKey, nIdCount, mapInfo, mapAddr, vRandom, nTried, vvTried, nNew, vvNew, {});
      hide Consistent;
      var info := mapInfo[found.value];
      info := info.(nLastTry := nTime, nAttempts := info.nAttempts + 1);
      TouchKeeps(net, nKey, nIdCount, mapInfo, mapAddr, vRandom, nTried, vvTried, nNew, vvNew, found.value, info);
      mapInfo := mapInfo[found.value := info];
    }

    /** A service is connected; its time is renewed every 20 minutes. */
    method Connected(addr: Address, nTime: int)
      requires Valid()
      modifies `mapInfo
      ensures Valid()
      ensures mapInfo == match old(FindService(addr)) {
                           case None => old(mapInfo)
                           case Some(id) =>
                             var info := old(mapInfo)[id];
                             if nTime - info.addr.nTime > 20 * 60
                             then old(mapInfo)[id := info.(addr := info.addr.(nTime := U32(nTime)))]
                             else old(mapInfo)
                         }
      ensures TimesOk(old(mapInfo)) ==> TimesOk(mapInfo)
    {
      var found := FindService(addr);
      if found.None? {
        return;
      }
      assert Consistent(net, nKey, nIdCount, mapInfo, mapAddr, vRandom, nTried, vvTried, nNew, vvNew, {});
      hide Consistent;
      var info := mapInfo[found.value];
      var nUpdateInterval := 20 * 60;
      if nTime - info.addr.nTime > nUpdateInterval {
        info := info.(addr := info.addr.(nTime := U32(nTime)));
        TouchKeeps(net, nKey, nIdCount, mapInfo, mapAddr, vRandom, nTried, vvTried, nNew, vvNew, found.value, info);
        mapInfo := mapInfo[found.value := info];
      }
    }

    /** A random selection of distinct entries: 23 percent of them, but at most 2500. */
    method GetAddr() returns (vAddr: seq<Address>)
      requires Valid()
      modifies `mapInfo, `vRandom
      ensures Valid()
      ensures |vAddr| == Min(GETADDR_MAX_PCT * |old(vRandom)| / 100, GETADDR_MAX)
      ensures forall a | a in vAddr :: a.net in mapAddr && mapAddr[a.net] in mapInfo && mapInfo[mapAddr[a.net]].addr == a
      ensures forall i, j | 0 <= i < j < |vAddr| :: vAddr[i].net != vAddr[j].net
      ensures multiset(vRandom) == multiset(old(vRandom))
      ensures mapInfo.Keys == old(mapInfo).Keys && SameButPos(old(mapInfo), mapInfo, mapInfo.Keys)
    {
      var nNodes := GETADDR_MAX_PCT * |vRandom| / 100;
      if nNodes > GETADDR_MAX {
        nNodes := GETADDR_MAX;
      }
      vAddr := [];
      assert Listed(mapInfo, vRandom, vAddr);
      assert SameButPos(mapInfo, mapInfo, mapInfo.Keys);
      hide *;
      for n := 0 to nNodes
        invariant Valid()
        invariant |vAddr| == n && |vRandom| == |old(vRandom)|
        invariant Listed(mapInfo, vRandom, vAddr)
        invariant multiset(vRandom) == multiset(old(vRandom))
        invariant mapInfo.Keys == old(mapInfo).Keys && SameButPos(old(mapInfo), mapInfo, mapInfo.Keys)
      {
        var r := GetRandInt(|vRandom| - n);
        var nRndPos := r + n;
        Shuffle(n, nRndPos, old(mapInfo), vAddr);
        vAddr := vAddr + [mapInfo[vRandom[n]].addr];
      }
      ListedDistinct(net, nKey, nIdCount, mapInfo, mapAddr, vRandom, nTried, vvTried, nNew, vvNew, vAddr);
    }

    /** One step of the shuffle: a later position of `vRandom` trades places with position `n`. */
    method Shuffle(n: nat, nRndPos: nat, ghost infos: Infos, ghost vAddr: seq<Address>)
      requires Valid() && n <= nRndPos < |vRandom| && n == |vAddr|
      requires Listed(mapInfo, vRandom, vAddr)
      requires infos.Keys == mapInfo.Keys && SameButPos(infos, mapInfo, mapInfo.Keys)
      modifies `mapInfo, `vRandom
      ensures Valid() && |vRandom| == |old(vRandom)| && multiset(vRandom) == multiset(old(vRandom))
      ensures mapInfo.Keys == infos.Keys && SameButPos(infos, mapInfo, mapInfo.Keys)
      ensures vRandom[n] in mapInfo && Listed(mapInfo, vRandom, vAddr + [mapInfo[vRandom[n]].addr])
    {
      ghost var infos0, vRandom0 := mapInfo, vRandom;
      hide AddrOk, IdsOk, TriedOk, NewOk, TriedIds, NewIds;
      SwapRandom(n, nRndPos);
      SwapKeeps(net, nKey, nIdCount, infos0, mapInfo, mapAddr, vRandom0, vRandom, nTried, vvTried, nNew, vvNew, {});
      var id := vRandom[n];
      assert id in mapInfo;
      ShuffledListed(infos0, mapInfo, vRandom0, vRandom, vAddr);
      SameButPosChain(infos, infos0, mapInfo);
      hide Consistent;
    }
  }

  /** `vAddr` lists the addresses of the first entries of `vRandom`. */
  ghost predicate Listed(infos: Infos, vRandom: seq<int>, vAddr: seq<Address>) {
    |vAddr| <= |vRandom| && forall i | 0 <= i < |vAddr| :: vRandom[i] in infos && infos[vRandom[i]].addr == vAddr[i]
  }

  lemma ShuffledListed(infos: Infos, infos': Infos, vRandom: seq<int>, vRandom': seq<int>, vAddr: seq<Address>)
    requires Listed(infos, vRandom, vAddr) && |vRandom'| == |vRandom|
    requires vRandom'[..|vAddr|] == vRandom[..|vAddr|]
    requires infos'.Keys == infos.Keys && SameButPos(infos, infos', infos'.Keys)
    ensures Listed(infos', vRandom', vAddr)
  {
    forall i | 0 <= i < |vAddr|
      ensures vRandom'[i] in infos' && infos'[vRandom'[i]].addr == vAddr[i]
    {
      assert vRandom'[i] == vRandom'[..|vAddr|][i] == vRandom[i];
      var id := vRandom[i];
      assert id in infos && id in infos'.Keys;
    }
  }

  lemma SameButPosChain(infos: Infos, infos1: Infos, infos': Infos)
    requires infos.Keys == infos1.Keys == infos'.Keys
    requires SameButPos(infos, infos1, infos1.Keys) && SameButPos(infos1, infos', infos'.Keys)
    ensures SameButPos(infos, infos', infos'.Keys)
  {
    assert forall id | id in infos'.Keys :: id in infos1.Keys;
  }

  lemma ListedDistinct(net: Net, nKey: seq<nat>, nIdCount: int, infos: Infos, mapAddr: map<NetAddr, int>,
                       vRandom: seq<int>, nTried: int, vvTried: seq<seq<int>>, nNew: int, vvNew: seq<set<int>>,
                       vAddr: seq<Address>)
    requires Consistent(net, nKey, nIdCount, infos, mapAddr, vRandom, nTried, vvTried, nNew, vvNew, {})
    requires Listed(infos, vRandom, vAddr)
    ensures forall a | a in vAddr :: a.net in mapAddr && mapAddr[a.net] in infos && infos[mapAddr[a.net]].addr == a
    ensures forall i, j | 0 <= i < j < |vAddr| :: vAddr[i].net != vAddr[j].net
  {
    forall i | 0 <= i < |vAddr|
      ensures var a := vAddr[i];
              a.net in mapAddr && mapAddr[a.net] == vRandom[i] && vRandom[i] in infos && infos[vRandom[i]].addr == a
    {
      var id := vRandom[i];
      assert id in infos;
    }
  }

  /** Whether an entry's recorded time is behind the time an address was announced with. */
  predicate HasNews(info: AddrInfo, addr: Address) {
    addr.nTime != 0 && (info.addr.nTime == 0 || addr.nTime > info.addr.nTime)
  }

  /** With `n` references already, one more is as many times harder to get. */
  function Factor(n: int): (f: nat)
    ensures f >= 1
  {
    if n <= 0 then 1 else Factor(n - 1) * 2
  }

  /** An entry after its address was announced again. */
  function Refreshed(info: AddrInfo, addr: Address, nTimePenalty: int, nNow: int): (r: AddrInfo)
    ensures r.addr.SameService(info.addr) && r.nRefCount == info.nRefCount && r.fInTried == info.fInTried
    ensures r.nRandomPos == info.nRandomPos && r.nLastTry == info.nLastTry && r.nLastSuccess == info.nLastSuccess
  {
    var fCurrentlyOnline := nNow - addr.nTime < 24 * 60 * 60;
    var nUpdateInterval := if fCurrentlyOnline then 60 * 60 else 24 * 60 * 60;
    var stale := addr.nTime != 0
                 && (info.addr.nTime == 0 || info.addr.nTime < addr.nTime - nUpdateInterval - nTimePenalty);
    var nTime := if stale then U32(Max(0, addr.nTime - nTimePenalty)) else info.addr.nTime;
    info.(addr := info.addr.(nTime := nTime, nServices := info.addr.nServices + addr.nServices))
  }

  /** The entry of an address announced for the first time, before it is in a bucket. */
  function FirstSeen(addr: Address, source: NetAddr, nTimePenalty: int, nRandomPos: nat): (r: AddrInfo)
    ensures r.addr.SameService(addr) && r.nRefCount == 0 && !r.fInTried && r.nRandomPos == nRandomPos
    ensures r.nLastTry == 0 && r.nLastSuccess == 0
    ensures r == NewInfo(addr, source).(nRandomPos := nRandomPos,
                                        addr := addr.(nTime := U32(Max(0, addr.nTime - nTimePenalty))))
  {
    NewInfo(addr.(nTime := U32(Max(0, addr.nTime - nTimePenalty))), source).(nRandomPos := nRandomPos)
  }

  /** Entry `x` gained a reference for new bucket `b`; if that was full, `victim` left it. */
  ghost predicate Inserted(infos: Infos, infos': Infos, vvNew: seq<set<int>>, vvNew': seq<set<int>>,
                           b: nat, x: int, victim: Option<int>, nNow: int, n: seq<nat>)
  {
    && x in infos && b < |vvNew| && x !in vvNew[b]
    && vvNew' == vvNew[b := vvNew[b] - Ids(victim) + {x}]
    && (victim.Some? <==> |vvNew[b]| == NEW_BUCKET_SIZE)
    && match victim {
         case None => infos' == MoreRefs(infos, x)
         case Some(v) => && v in vvNew[b] && Released(MoreRefs(infos, x), infos', v)
                         && IsVictim(MoreRefs(infos, x), vvNew[b], v, nNow, n)
       }
  }

  lemma InsertedBy(infos: Infos, infos': Infos, vvNew: seq<set<int>>, vvNew1: seq<set<int>>,
                   b: nat, x: int, victim: Option<int>, nNow: int, n: seq<nat>)
    requires x in infos && b < |vvNew| && x !in vvNew[b]
    requires victim.Some? <==> |vvNew[b]| == NEW_BUCKET_SIZE
    requires match victim {
               case None => infos' == MoreRefs(infos, x) && vvNew1 == vvNew
               case Some(v) => && v in vvNew[b] && Released(MoreRefs(infos, x), infos', v)
                               && IsVictim(MoreRefs(infos, x), vvNew[b], v, nNow, n)
                               && vvNew1 == vvNew[b := vvNew[b] - {v}]
             }
    ensures |vvNew1| == |vvNew|
    ensures Inserted(infos, infos', vvNew, vvNew1[b := vvNew1[b] + {x}], b, x, victim, nNow, n)
  {
    assert victim.None? ==> vvNew[b] - {} == vvNew[b];
  }

  /** The reference count of an entry is in range. */
  lemma EntryRefs(net: Net, nKey: seq<nat>, nIdCount: int, infos: Infos, mapAddr: map<NetAddr, int>, vRandom: seq<int>,
                  nTried: int, vvTried: seq<seq<int>>, nNew: int, vvNew: seq<set<int>>, x: int)
    requires Consistent(net, nKey, nIdCount, infos, mapAddr, vRandom, nTried, vvTried, nNew, vvNew, {}) && x in infos
    ensures RefOk(infos[x], Buckets(vvNew, x), false)
    ensures 0 <= infos[x].nRefCount <= NEW_BUCKETS_PER_ADDRESS
    ensures !infos[x].fInTried ==> infos[x].nRefCount >= 1
  {
    hide RandomOk, AddrOk, IdsOk, TriedOk, TriedIds, NewIds;
    assert RefOk(infos[x], Buckets(vvNew, x), false);
  }

  lemma InsertedFacts(infos: Infos, infos': Infos, vvNew: seq<set<int>>, vvNew': seq<set<int>>,
                      b: nat, x: int, victim: Option<int>, nNow: int, n: seq<nat>)
    requires Inserted(infos, infos', vvNew, vvNew', b, x, victim, nNow, n)
    ensures x in infos'
    ensures TimesOk(infos) ==> TimesOk(infos')
  {
    if victim.Some? {
      ReleasedKeepsOthers(MoreRefs(infos, x), infos', victim.value, x);
      assert forall id | id in infos'.Keys :: id in infos;
    }
  }

  lemma TouchTimes(infos: Infos, x: int, info: AddrInfo)
    requires || (info.nLastTry >= 0 && info.nLastSuccess >= 0 && !info.fInTried)
             || (&& x in infos && infos[x].nLastTry == info.nLastTry
                 && infos[x].nLastSuccess == info.nLastSuccess && infos[x].fInTried == info.fInTried)
    ensures TimesOk(infos) ==> TimesOk(infos[x := info])
  {
  }

  lemma BucketsLess(vvNew: seq<set<int>>, b: nat, x: int)
    requires b < |vvNew|
    ensures |Buckets(vvNew[b := vvNew[b] - {x}], x)| == |Buckets(vvNew, x)| - if x in vvNew[b] then 1 else 0
  {
    BucketsErase(vvNew, b, x, x);
    assert x in vvNew[b] ==> b in Buckets(vvNew, x);
    assert x !in vvNew[b] ==> vvNew[b] - {x} == vvNew[b];
  }

  lemma NoBuckets(vvNew: seq<set<int>>, x: int)
    requires forall b | 0 <= b < |vvNew| :: x !in vvNew[b]
    ensures |Buckets(vvNew, x)| == 0
  {
    assert Buckets(vvNew, x) == {};
  }

  lemma NotInBuckets(vvNew: seq<set<int>>, x: int)
    requires Buckets(vvNew, x) == {}
    ensures forall b | 0 <= b < |vvNew| :: x !in vvNew[b]
  {
    forall b | 0 <= b < |vvNew|
      ensures x !in vvNew[b]
    {
      assert x in vvNew[b] ==> b in Buckets(vvNew, x);
    }
  }

  function MoreRefs(infos: Infos, x: int): (r: Infos)
    requires x in infos
    ensures r == infos[x := infos[x].(nRefCount := infos[x].nRefCount + 1)]
  {
    infos[x := infos[x].(nRefCount := infos[x].nRefCount + 1)]
  }

  ghost function Ids(o: Option<int>): (r: set<int>)
    ensures r == if o.Some? then {o.value} else {}
  {
    if o.Some? then {o.value} else {}
  }

  lemma ReleasedKeepsOthers(infos: Infos, infos': Infos, v: int, x: int)
    requires Released(infos, infos', v) && x in infos && x != v
    ensures x in infos' && infos'[x].fInTried == infos[x].fInTried
  {
    if infos[v].nRefCount == 1 {
      assert x in infos'.Keys;
    }
  }

  /** How far bucket `b` lies ahead of bucket `from`, going round. */
  function StepsFrom(from: nat, b: nat): int {
    if from <= b then b - from else b - from + NEW_BUCKET_COUNT
  }

  /** What a consistent manager has of an entry in a new bucket, with one reference less. */
  lemma InBucketFacts(net: Net, nKey: seq<nat>, nIdCount: int, infos: Infos, mapAddr: map<NetAddr, int>,
                      vRandom: seq<int>, nTried: int, vvTried: seq<seq<int>>, nNew: int, vvNew: seq<set<int>>,
                      pending: set<int>, b: nat, x: int)
    requires Consistent(net, nKey, nIdCount, infos, mapAddr, vRandom, nTried, vvTried, nNew, vvNew, pending)
    requires b < NEW_BUCKET_COUNT && b < |vvNew| && x in vvNew[b] && x !in pending
    ensures |vvNew| == NEW_BUCKET_COUNT && x in infos && !infos[x].fInTried && infos[x].nRefCount >= 1
    ensures var infos' := infos[x := infos[x].(nRefCount := infos[x].nRefCount - 1)];
            RandomOk(infos', vRandom) && AddrOk(infos', mapAddr)
  {
    assert NewBucketOk(infos, vvNew[b]);
    assert RefOk(infos[x], Buckets(vvNew, x), x in pending);
    hide RandomOk, AddrOk, IdsOk, TriedOk, NewOk;
    PlaceKeeps(infos, infos[x := infos[x].(nRefCount := infos[x].nRefCount - 1)], mapAddr, vRandom, nIdCount);
  }

  lemma ChainSameButPos(infos: Infos, infos1: Infos, infos': Infos, x: int)
    requires x in infos && infos[x].nRefCount == 1 && infos1 == infos[x := infos[x].(nRefCount := 0)]
    requires infos'.Keys == infos1.Keys - {x} && SameButPos(infos1, infos', infos'.Keys)
    ensures infos'.Keys == infos.Keys - {x} && SameButPos(infos, infos', infos'.Keys)
    ensures Released(infos, infos', x)
  {
    assert forall id | id in infos'.Keys :: id in infos1.Keys && id != x && infos1[id] == infos[id];
  }

  lemma ReleasedOne(infos: Infos, infos': Infos, x: int)
    requires x in infos && infos[x].nRefCount > 1
    requires infos' == infos[x := infos[x].(nRefCount := infos[x].nRefCount - 1)]
    ensures Released(infos, infos', x)
  {
  }

  lemma ReachedTimes(infos: Infos, x: int, nTime: int)
    requires x in infos
    ensures nTime > 0 && TimesOk(infos) ==> TimesOk(infos[x := Reached(infos[x], nTime)])
    ensures nTime <= 0 && infos[x].fInTried ==> !TimesOk(infos[x := Reached(infos[x], nTime)])
    ensures Reached(infos[x], nTime).nLastSuccess == nTime
    ensures Reached(infos[x], nTime).fInTried == infos[x].fInTried
  {
    assert infos[x := Reached(infos[x], nTime)][x] == Reached(infos[x], nTime);
  }

  lemma MoveFacts(net: Net, nKey: seq<nat>, infos: Infos, infos': Infos,
                  vvTried: seq<seq<int>>, vvTried': seq<seq<int>>,
                  vvNew: seq<set<int>>, vvNew': seq<set<int>>, x: int, origin: nat, evicted: Option<int>)
    requires TriedMove(net, nKey, infos, infos', vvTried, vvTried', vvNew, vvNew', x, origin, evicted)
    ensures x in infos && x in infos' && infos'[x].fInTried
    ensures TimesOk(infos) && infos[x].nLastSuccess > 0 ==> TimesOk(infos')
    ensures infos[x].nLastSuccess <= 0 ==> !TimesOk(infos')
  {
    assert forall id | id in infos' :: id in infos'.Keys && id in infos;
  }

  /** The statistics of an entry after a successful connection. */
  function Reached(info: AddrInfo, nTime: int): AddrInfo {
    info.(nLastSuccess := nTime, nLastTry := nTime, nAttempts := 0, addr := info.addr.(nTime := U32(nTime)))
  }

  /** The effect of moving new entry `x` to its tried bucket on the entries and buckets. */
  ghost predicate TriedMove(net: Net, nKey: seq<nat>, infos: Infos, infos': Infos,
                            vvTried: seq<seq<int>>, vvTried': seq<seq<int>>,
                            vvNew: seq<set<int>>, vvNew': seq<set<int>>,
                            x: int, origin: nat, evicted: Option<int>)
  {
    && x in infos && infos'.Keys == infos.Keys
    && infos'[x] == infos[x].(nRefCount := 0, fInTried := true)
    && (forall id | id in infos && id != x && evicted != Some(id) :: infos'[id] == infos[id])
    && var k := BucketOf(net, nKey, infos[x]);
    && |vvTried| == |vvTried'| == TRIED_BUCKET_COUNT
    && (forall b | 0 <= b < TRIED_BUCKET_COUNT && b != k :: vvTried'[b] == vvTried[b])
    && match evicted {
      case None =>
        && |vvTried[k]| < TRIED_BUCKET_SIZE
        && vvTried'[k] == vvTried[k] + [x]
        && vvNew' == Without(vvNew, x)
      case Some(e) =>
        && |vvTried[k]| == TRIED_BUCKET_SIZE
        && e in vvTried[k] && e in infos && e != x
        && multiset(vvTried'[k]) == multiset(vvTried[k]) - multiset{e} + multiset{x}
        && infos'[e] == infos[e].(fInTried := false, nRefCount := 1)
        && |vvNew| == NEW_BUCKET_COUNT && origin < NEW_BUCKET_COUNT
        && var b := NewBucket(net, nKey, infos[e].addr, infos[e].source);
        && var target := if |Without(vvNew, x)[b]| < NEW_BUCKET_SIZE then b else origin;
        && vvNew' == Without(vvNew, x)[target := Without(vvNew, x)[target] + {e}]
    }
  }

  lemma AppendEffect(net: Net, nKey: seq<nat>, infos: Infos, infos': Infos,
                     vvTried: seq<seq<int>>, vvTried': seq<seq<int>>,
                     vvNew: seq<set<int>>, vvNew': seq<set<int>>, x: int, origin: nat)
    requires |vvTried| == TRIED_BUCKET_COUNT && x in infos
    requires infos' == infos[x := infos[x].(nRefCount := 0, fInTried := true)]
    requires var k := BucketOf(net, nKey, infos[x]);
             |vvTried[k]| < TRIED_BUCKET_SIZE && vvTried' == vvTried[k := vvTried[k] + [x]]
    requires vvNew' == Without(vvNew, x)
    ensures TriedMove(net, nKey, infos, infos', vvTried, vvTried', vvNew, vvNew', x, origin, None)
  {
  }

  lemma SwapEffect(net: Net, nKey: seq<nat>, infos: Infos, infos': Infos,
                   vvTried: seq<seq<int>>, vvTried1: seq<seq<int>>,
                   vvNew: seq<set<int>>, x: int, origin: nat, k: nat, p: nat)
    requires |vvTried| == TRIED_BUCKET_COUNT && |vvNew| == NEW_BUCKET_COUNT && origin < NEW_BUCKET_COUNT
    requires x in infos && k == BucketOf(net, nKey, infos[x])
    requires |vvTried[k]| == TRIED_BUCKET_SIZE
    requires |vvTried1| == TRIED_BUCKET_COUNT && vvTried1 == vvTried[k := vvTried1[k]]
    requires multiset(vvTried1[k]) == multiset(vvTried[k]) && p < |vvTried1[k]|
    requires var e := vvTried1[k][p];
             && e in infos && e != x
             && infos' == infos[x := infos[x].(nRefCount := 0, fInTried := true)]
                               [e := infos[e].(fInTried := false, nRefCount := 1)]
    ensures var e, w := vvTried1[k][p], Without(vvNew, x);
            var b := NewBucket(net, nKey, infos[e].addr, infos[e].source);
            var target := if |w[b]| < NEW_BUCKET_SIZE then b else origin;
            TriedMove(net, nKey, infos, infos', vvTried, vvTried1[k := vvTried1[k][p := x]],
                      vvNew, w[target := w[target] + {e}], x, origin, Some(e))
  {
    var e := vvTried1[k][p];
    assert e in multiset(vvTried1[k]);
    assert e in vvTried[k];
  }

  lemma AppendStep(net: Net, nKey: seq<nat>, nIdCount: int, infos: Infos, infos': Infos,
                   mapAddr: map<NetAddr, int>, vRandom: seq<int>,
                   nTried: int, vvTried: seq<seq<int>>, vvTried': seq<seq<int>>,
                   nNew: int, vvNew: seq<set<int>>, vvNew': seq<set<int>>, x: int, origin: nat, k: nat)
    requires Consistent(net, nKey, nIdCount, infos, mapAddr, vRandom, nTried - 1, vvTried, nNew + 1, vvNew, {})
    requires x in infos && !infos[x].fInTried
    requires infos' == infos[x := infos[x].(nRefCount := 0, fInTried := true)]
    requires k == BucketOf(net, nKey, infos[x]) && |vvTried| == TRIED_BUCKET_COUNT
    requires |vvTried[k]| < TRIED_BUCKET_SIZE && vvTried' == vvTried[k := vvTried[k] + [x]]
    requires vvNew' == Without(vvNew, x)
    ensures Consistent(net, nKey, nIdCount, infos', mapAddr, vRandom, nTried, vvTried', nNew, vvNew', {})
    ensures TriedMove(net, nKey, infos, infos', vvTried, vvTried', vvNew, vvNew', x, origin, None)
  {
    hide RandomOk, AddrOk, IdsOk, TriedOk, NewOk, TriedMove;
    PlaceKeeps(infos, infos', mapAddr, vRandom, nIdCount);
    MovedKeeps(net, nKey, infos, infos', vvTried, vvNew, k, x);
    AppendEffect(net, nKey, infos, infos', vvTried, vvTried', vvNew, vvNew', x, origin);
  }

  lemma SwapStep(net: Net, nKey: seq<nat>, nIdCount: int, infos: Infos, infos': Infos,
                 mapAddr: map<NetAddr, int>, vRandom: seq<int>,
                 nTried: int, vvTried: seq<seq<int>>, vvTried1: seq<seq<int>>,
                 nNew: int, vvNew: seq<set<int>>, x: int, origin: nat, k: nat, p: nat, e: int, c: nat)
    requires Consistent(net, nKey, nIdCount, infos, mapAddr, vRandom, nTried, vvTried, nNew, vvNew, {})
    requires TriedOk(net, nKey, infos, vvTried1)
    requires x in infos && !infos[x].fInTried
    requires origin < NEW_BUCKET_COUNT && |vvNew| == NEW_BUCKET_COUNT && x in vvNew[origin]
    requires k == BucketOf(net, nKey, infos[x]) && |vvTried| == TRIED_BUCKET_COUNT
    requires |vvTried[k]| == TRIED_BUCKET_SIZE
    requires |vvTried1| == TRIED_BUCKET_COUNT && vvTried1 == vvTried[k := vvTried1[k]]
    requires multiset(vvTried1[k]) == multiset(vvTried[k]) && p < |vvTried1[k]| && e == vvTried1[k][p]
    requires e in infos && infos[e].fInTried
    requires c == var b := NewBucket(net, nKey, infos[e].addr, infos[e].source);
                  if |Without(vvNew, x)[b]| < NEW_BUCKET_SIZE then b else origin
    requires infos' == infos[x := infos[x].(nRefCount := 0, fInTried := true)]
                            [e := infos[e].(fInTried := false, nRefCount := 1)]
    ensures var w := Without(vvNew, x);
            var vvTried', vvNew' := vvTried1[k := vvTried1[k][p := x]], w[c := w[c] + {e}];
            && Consistent(net, nKey, nIdCount, infos', mapAddr, vRandom, nTried, vvTried', nNew, vvNew', {})
            && TriedMove(net, nKey, infos, infos', vvTried, vvTried', vvNew, vvNew', x, origin, Some(e))
  {
    hide RandomOk, AddrOk, IdsOk, TriedOk, NewOk, TriedMove;
    RoomAfterErase(infos, vvNew, origin, x);
    PlaceKeeps(infos, infos', mapAddr, vRandom, nIdCount);
    SwappedKeeps(net, nKey, infos, infos', vvTried1, vvNew, k, p, x, e, c);
    SwapEffect(net, nKey, infos, infos', vvTried, vvTried1, vvNew, x, origin, k, p);
  }

  /** The first entry of a bucket, in ascending order of ids, that can be deleted. */
  method FindTerrible(infos: map<int, AddrInfo>, vNew: set<int>, nNow: int) returns (r: Option<int>)
    requires vNew <= infos.Keys
    ensures r.Some? ==> IsLeastTerrible(infos, vNew, r.value, nNow)
    ensures r.None? ==> NoneTerrible(infos, vNew, nNow)
  {
    var order := Elements(vNew);
    for i := 0 to |order|
      invariant forall j | 0 <= j < i :: order[j] in infos && !IsTerrible(infos[order[j]], nNow)
    {
      assert order[i] in vNew;
      if IsTerrible(infos[order[i]], nNow) {
        forall x | x in vNew && x < order[i]
          ensures !IsTerrible(infos[x], nNow)
        {
          assert x in order;
        }
        return Some(order[i]);
      }
    }
    assert forall x | x in vNew :: x in order;
    return None;
  }

  // ----- Choosing a tried entry

  /** Four draws, each from what the shuffle has not passed yet. */
  predicate AreSwaps(d: seq<nat>, size: nat) {
    |d| == TRIED_ENTRIES_INSPECT_ON_EVICT && forall i | 0 <= i < |d| && i < size :: d[i] < size - i
  }

  method DrawSwaps(size: nat) returns (d: seq<nat>)
    ensures AreSwaps(d, size)
  {
    d := [];
    for i := 0 to TRIED_ENTRIES_INSPECT_ON_EVICT
      invariant |d| == i && forall j | 0 <= j < i && j < size :: d[j] < size - j
    {
      var r := GetRandInt(if i < size then size - i else 0);
      d := d + [r];
    }
  }

  function Inspected(v: seq<int>): nat {
    if |v| < TRIED_ENTRIES_INSPECT_ON_EVICT then |v| else TRIED_ENTRIES_INSPECT_ON_EVICT
  }

  /** The bucket after the first `n` trades of places. */
  function Shuffled(v: seq<int>, d: seq<nat>, n: nat): (r: seq<int>)
    requires AreSwaps(d, |v|) && n <= Inspected(v)
    ensures |r| == |v|
  {
    if n == 0 then v
    else
      var u := Shuffled(v, d, n - 1);
      var pos := d[n - 1] + (n - 1);
      u[pos := u[n - 1]][n - 1 := u[pos]]
  }

  lemma ShuffledNone(v: seq<int>, d: seq<nat>)
    requires AreSwaps(d, |v|)
    ensures Shuffled(v, d, 0) == v
  {
  }

  lemma ShuffledNext(v: seq<int>, d: seq<nat>, n: nat)
    requires AreSwaps(d, |v|) && n < Inspected(v)
    ensures var u, pos := Shuffled(v, d, n), d[n] + n;
            && pos < |v| && Shuffled(v, d, n + 1) == u[pos := u[n]][n := u[pos]]
            && multiset(Shuffled(v, d, n + 1)) == multiset(u)
  {
  }

  lemma DrawInside(d: seq<nat>, size: nat, i: nat)
    requires AreSwaps(d, size) && i < size && i < TRIED_ENTRIES_INSPECT_ON_EVICT
    ensures i < |d| && d[i] + i < size
  {
  }

  lemma TriedKnown(net: Net, nKey: seq<nat>, infos: Infos, vvTried: seq<seq<int>>, k: nat)
    requires TriedOk(net, nKey, infos, vvTried) && k < TRIED_BUCKET_COUNT
    ensures |vvTried| == TRIED_BUCKET_COUNT && forall id | id in vvTried[k] :: id in infos
  {
    assert TriedBucketOk(net, nKey, infos, k, vvTried[k]);
  }

  /** The first of the `n` shuffled entries that has the least time of success. */
  ghost predicate IsFirstLeast(infos: Infos, w: seq<int>, n: nat, i: nat) {
    && i < n <= |w| && (forall j | 0 <= j < n :: w[j] in infos)
    && forall j | 0 <= j < n ::
         if j < i then infos[w[i]].nLastSuccess < infos[w[j]].nLastSuccess
         else infos[w[i]].nLastSuccess <= infos[w[j]].nLastSuccess
  }

  ghost predicate IsSelected(infos: Infos, w: seq<int>, d: seq<nat>, n: nat, nPos: nat) {
    exists i: nat :: i < |d| && IsFirstLeast(infos, w, n, i) && nPos == i + d[i]
  }

  ghost predicate IsFirstId(infos: Infos, w: seq<int>, d: seq<nat>, n: nat, nPos: nat, id: int) {
    exists i: nat :: i < |d| && IsFirstLeast(infos, w, n, i) && nPos == i + d[i] && w[i] == id
  }

  /** After `n` rounds of the loop: the bucket, and the first least recently successful entry so far with
      the position it was drawn from. */
  ghost predicate Picked(infos: Infos, v: seq<int>, d: seq<nat>, n: nat, w: seq<int>, best: Option<int>, p: nat)
    requires AreSwaps(d, |v|) && n <= Inspected(v)
  {
    && |w| == |v| && multiset(w) == multiset(v) && w == Shuffled(v, d, n)
    && (best.None? <==> n == 0)
    && (n > 0 ==> best.value in infos && p < |v| && IsFirstId(infos, w, d, n, p, best.value))
  }

  /** The loop of SelectTried, on a bucket. */
  method ShuffleAndSelect(infos: Infos, v: seq<int>, d: seq<nat>) returns (vTried: seq<int>, nPos: nat)
    requires v != [] && AreSwaps(d, |v|) && forall id | id in v :: id in infos
    ensures multiset(vTried) == multiset(v) && vTried == Shuffled(v, d, Inspected(v))
    ensures nPos < |v| && IsSelected(infos, vTried, d, Inspected(v), nPos)
  {
    hide Shuffled, IsSelected, IsFirstId, AreSwaps;
    ShuffledNone(v, d);
    assert Picked(infos, v, d, 0, v, None, 0);
    hide Picked;
    vTried, nPos := v, 0;
    var nOldest, i := None, 0;
    while i < TRIED_ENTRIES_INSPECT_ON_EVICT && i < |vTried|
      invariant |vTried| == |v| && 0 <= i <= Inspected(v) && Picked(infos, v, d, i, vTried, nOldest, nPos)
    {
      PickedStep(infos, v, d, i, vTried, nOldest, nPos);
      var pos := d[i] + i;
      var nTemp := vTried[pos];
      vTried := vTried[pos := vTried[i]][i := nTemp];
      if nOldest.None? || infos[nTemp].nLastSuccess < infos[nOldest.value].nLastSuccess {
        nOldest := Some(nTemp);
        nPos := pos;
      }
      i := i + 1;
    }
    PickedEnd(infos, v, d, i, vTried, nOldest, nPos);
  }

  lemma PickedStep(infos: Infos, v: seq<int>, d: seq<nat>, n: nat, w: seq<int>, best: Option<int>, p: nat)
    requires AreSwaps(d, |v|) && n < Inspected(v) && |w| == |v| && Picked(infos, v, d, n, w, best, p)
    requires forall id | id in v :: id in infos
    ensures n < |d| && d[n] + n < |w| && w[d[n] + n] in infos && (best.Some? ==> best.value in infos)
    ensures var pos := d[n] + n;
            var id := w[pos];
            var newer := best.None? || infos[id].nLastSuccess < infos[best.value].nLastSuccess;
            Picked(infos, v, d, n + 1, w[pos := w[n]][n := id], if newer then Some(id) else best, if newer then pos else p)
  {
    DrawInside(d, |w|, n);
    ShuffledNext(v, d, n);
    SameMembers(v, w);
    assert w[d[n] + n] in w;
    SelectStep(infos, w, d, n, best, p);
    hide Shuffled, IsFirstId, AreSwaps;
  }

  lemma PickedEnd(infos: Infos, v: seq<int>, d: seq<nat>, n: nat, w: seq<int>, best: Option<int>, p: nat)
    requires AreSwaps(d, |v|) && 0 < n <= Inspected(v) && Picked(infos, v, d, n, w, best, p)
    ensures multiset(w) == multiset(v) && w == Shuffled(v, d, n) && p < |v| && IsSelected(infos, w, d, n, p)
  {
    hide Shuffled, AreSwaps, IsFirstLeast;
  }

  lemma SameMembers(v: seq<int>, w: seq<int>)
    requires multiset(v) == multiset(w)
    ensures forall id :: id in w <==> id in v
  {
    forall id
      ensures id in w <==> id in v
    {
      assert id in w <==> id in multiset(w);
      assert id in v <==> id in multiset(v);
    }
  }

  lemma SelectStep(infos: Infos, v: seq<int>, d: seq<nat>, n: nat, best: Option<int>, p: nat)
    requires AreSwaps(d, |v|) && n < Inspected(v) && forall id | id in v :: id in infos
    requires best.None? <==> n == 0
    requires n > 0 ==> best.value in infos && IsFirstId(infos, v, d, n, p, best.value)
    ensures var pos := d[n] + n;
            var w, id := v[pos := v[n]][n := v[pos]], v[pos];
            var newer := best.None? || infos[id].nLastSuccess < infos[best.value].nLastSuccess;
            IsFirstId(infos, w, d, n + 1, if newer then pos else p, if newer then id else best.value)
  {
    var pos := d[n] + n;
    var w, id := v[pos := v[n]][n := v[pos]], v[pos];
    assert forall j | 0 <= j < n :: w[j] == v[j];
    assert w[n] == id;
    assert forall j | 0 <= j < |v| :: v[j] in v;
    if best.None? {
      assert IsFirstLeast(infos, w, n + 1, n);
    } else {
      var i: nat :| i < |d| && IsFirstLeast(infos, v, n, i) && p == i + d[i] && v[i] == best.value;
      if infos[id].nLastSuccess < infos[best.value].nLastSuccess {
        assert IsFirstLeast(infos, w, n + 1, n);
      } else {
        assert IsFirstLeast(infos, w, n + 1, i);
      }
    }
  }

  /** The entry at the selected position is the first least recently successful one of those
      inspected just when the draw for that one was zero. */
  lemma SelectsOldest(infos: Infos, w: seq<int>, d: seq<nat>, n: nat, i: nat)
    requires NoDup(w) && IsFirstLeast(infos, w, n, i) && i < |d| && i + d[i] < |w|
    ensures w[i + d[i]] == w[i] <==> d[i] == 0
  {
  }

  /** Of two entries, the second one drawn first and the older one: the position that is selected holds
      the other one. */
  lemma SelectsYounger(infos: Infos)
    requires 0 in infos && 1 in infos && infos[1].nLastSuccess < infos[0].nLastSuccess
    ensures var d := [1, 0, 0, 0];
            && AreSwaps(d, 2) && Shuffled([0, 1], d, 2) == [1, 0]
            && IsSelected(infos, [1, 0], d, 2, 1) && [1, 0][1] == 0
            && forall nPos | IsSelected(infos, [1, 0], d, 2, nPos) :: nPos == 1
  {
    var d := [1, 0, 0, 0];
    assert Shuffled([0, 1], d, 1) == [1, 0];
    assert IsFirstLeast(infos, [1, 0], 2, 0);
  }

  /** The least recently seen of the entries at four positions of the bucket; the first one, if
      several were last seen at the same time. */
  method PickOldest(infos: map<int, AddrInfo>, vNew: set<int>, n: seq<nat>) returns (r: int)
    requires vNew <= infos.Keys && AreDraws(n, |vNew|)
    ensures IsOldestPick(infos, vNew, r, n)
  {
    var order := Elements(vNew);
    var nOldest := None;
    forall i | 0 <= i < |order|
      ensures order[i] in infos
    {
      assert order[i] in order;
    }
    hide Elements, OldestBelow;
    for nI := 0 to |order|
      invariant nOldest.None? ==> forall p | p in n :: nI <= p
      invariant nOldest.Some? ==> OldestBelow(infos, order, n, nI, nOldest.value)
    {
      if nI == n[0] || nI == n[1] || nI == n[2] || nI == n[3] {
        var nId := order[nI];
        OldestStep(infos, order, n, nI, nOldest);
        if nOldest.None? || infos[nId].addr.nTime < infos[nOldest.value].addr.nTime {
          nOldest := Some(nId);
        }
      } else if nOldest.Some? {
        OldestSkip(infos, order, n, nI, nOldest.value);
      }
    }
    assert n[0] in n;
    r := nOldest.value;
  }

  lemma OldestStep(infos: map<int, AddrInfo>, order: seq<int>, picks: seq<nat>, nI: nat, best: Option<int>)
    requires nI < |order| && nI in picks && order[nI] in infos
    requires best.None? ==> forall p | p in picks :: nI <= p
    requires best.Some? ==> OldestBelow(infos, order, picks, nI, best.value)
    ensures best.Some? ==> best.value in infos
    ensures var nId := order[nI];
            var r := if best.None? || infos[nId].addr.nTime < infos[best.value].addr.nTime then nId else best.value;
            OldestBelow(infos, order, picks, nI + 1, r)
  {
    if best.None? || infos[order[nI]].addr.nTime < infos[best.value].addr.nTime {
      assert IsFirstOldest(infos, order, picks, nI + 1, nI);
    } else {
      var p :| p in picks && p < nI && order[p] == best.value && IsFirstOldest(infos, order, picks, nI, p);
      assert IsFirstOldest(infos, order, picks, nI + 1, p);
    }
  }

  lemma OldestSkip(infos: map<int, AddrInfo>, order: seq<int>, picks: seq<nat>, nI: nat, r: int)
    requires nI !in picks && OldestBelow(infos, order, picks, nI, r)
    ensures OldestBelow(infos, order, picks, nI + 1, r)
  {
    var p :| p in picks && p < nI && p < |order| && order[p] == r && IsFirstOldest(infos, order, picks, nI, p);
    assert IsFirstOldest(infos, order, picks, nI + 1, p);
  }

  /** The entry at position `p` was last seen before those at earlier positions of `picks`, and not
      after those at later ones, as far as these are below `bound`. */
  ghost predicate IsFirstOldest(infos: map<int, AddrInfo>, order: seq<int>, picks: seq<nat>, bound: nat, p: nat) {
    && p < |order| && order[p] in infos
    && forall q | q in picks && q < bound && q < |order| ::
         && order[q] in infos
         && (if q < p then infos[order[p]].addr.nTime < infos[order[q]].addr.nTime
             else infos[order[p]].addr.nTime <= infos[order[q]].addr.nTime)
  }

  /** `r` is the least recently seen entry at those positions of `picks` that are below `bound`. */
  ghost predicate OldestBelow(infos: map<int, AddrInfo>, order: seq<int>, picks: seq<nat>, bound: nat, r: int) {
    r in infos && exists p | p in picks :: p < bound && p < |order| && order[p] == r && IsFirstOldest(infos, order, picks, bound, p)
  }

  /** Four positions of a bucket of `size` entries. */
  predicate AreDraws(n: seq<nat>, size: nat) {
    |n| == 4 && forall p | p in n :: p < size
  }

  /** The entry that leaves a bucket to make room: the first terrible one, or else the least
      recently seen at the four drawn positions. */
  ghost predicate IsVictim(infos: map<int, AddrInfo>, vNew: set<int>, victim: int, nNow: int, n: seq<nat>) {
    if NoneTerrible(infos, vNew, nNow) then IsOldestPick(infos, vNew, victim, n)
    else IsLeastTerrible(infos, vNew, victim, nNow)
  }

  /** The draws leave one victim. */
  lemma VictimUnique(infos: map<int, AddrInfo>, vNew: set<int>, v: int, w: int, nNow: int, n: seq<nat>)
    requires IsVictim(infos, vNew, v, nNow, n) && IsVictim(infos, vNew, w, nNow, n)
    ensures v == w
  {
    hide Elements, IsTerrible;
    if NoneTerrible(infos, vNew, nNow) {
      var order := Elements(vNew);
      var p :| p in n && p < |vNew| && p < |order| && order[p] == v && IsFirstOldest(infos, order, n, |vNew|, p);
      var q :| q in n && q < |vNew| && q < |order| && order[q] == w && IsFirstOldest(infos, order, n, |vNew|, q);
    }
  }

  ghost predicate IsLeastTerrible(infos: map<int, AddrInfo>, vNew: set<int>, victim: int, nNow: int)
  {
    && vNew <= infos.Keys
    && victim in vNew
    && IsTerrible(infos[victim], nNow)
    && forall x | x in vNew && x < victim :: !IsTerrible(infos[x], nNow)
  }

  ghost predicate NoneTerrible(infos: map<int, AddrInfo>, vNew: set<int>, nNow: int)
  {
    vNew <= infos.Keys && forall x | x in vNew :: !IsTerrible(infos[x], nNow)
  }

  /** Among the entries at four positions of the bucket's ascending order, one last seen earliest. */
  ghost predicate IsOldestPick(infos: map<int, AddrInfo>, vNew: set<int>, victim: int, picks: seq<nat>)
  {
    && vNew <= infos.Keys
    && AreDraws(picks, |vNew|)
    && OldestBelow(infos, Elements(vNew), picks, |vNew|, victim)
  }
}
