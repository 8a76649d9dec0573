/** What the choice of buckets and the statistics of entries come to: how far one range of addresses can
    spread, and when an entry is given up. */
module AddrRules {
  import opened Basics
  import opened AddrTypes
  import opened AddrTables
  import opened AddrMan

  // ----- Buckets of a range of addresses

  /** The addresses of one range have at most four tried buckets. */
  lemma TriedGroup(net: Net, nKey: seq<nat>, group: seq<nat>) returns (buckets: set<nat>)
    ensures |buckets| <= 4
    ensures forall a: Address | net.group(a.net) == group :: TriedBucket(net, nKey, a) in buckets
  {
    var b0, b1, b2, b3 := TriedOf(net, nKey, group, 0), TriedOf(net, nKey, group, 1), TriedOf(net, nKey, group, 2), TriedOf(net, nKey, group, 3);
    buckets := {b0} + {b1} + {b2} + {b3};
    forall a: Address | net.group(a.net) == group
      ensures TriedBucket(net, nKey, a) in buckets
    {
      var i := net.hash64([nKey, a.GetKey()]) % 4;
      assert TriedBucket(net, nKey, a) == TriedOf(net, nKey, group, i);
    }
  }

  /** The tried bucket for one of four numbers. */
  function TriedOf(net: Net, nKey: seq<nat>, group: seq<nat>, i: nat): nat {
    net.hash64([nKey, group, [i]]) % 64
  }

  /** So in a consistent manager the tried entries of one range are in at most four buckets. */
  lemma TriedRange(net: Net, nKey: seq<nat>, nIdCount: int, infos: Infos, mapAddr: map<NetAddr, int>,
                   vRandom: seq<int>, nTried: int, vvTried: seq<seq<int>>, nNew: int, vvNew: seq<set<int>>,
                   group: seq<nat>) returns (buckets: set<nat>)
    requires Consistent(net, nKey, nIdCount, infos, mapAddr, vRandom, nTried, vvTried, nNew, vvNew, {})
    ensures |buckets| <= 4
    ensures forall b, id | 0 <= b < |vvTried| && id in vvTried[b] ::
              id in infos && (net.group(infos[id].addr.net) == group ==> b in buckets)
  {
    hide TriedBucket, RandomOk, AddrOk, IdsOk, NewOk;
    buckets := TriedGroup(net, nKey, group);
    forall b, id | 0 <= b < |vvTried| && id in vvTried[b]
      ensures id in infos && (net.group(infos[id].addr.net) == group ==> b in buckets)
    {
      assert TriedBucketOk(net, nKey, infos, b, vvTried[b]);
    }
  }

  /** What the sources of one range announce has at most 32 new buckets. */
  lemma NewGroup(net: Net, nKey: seq<nat>, group: seq<nat>) returns (buckets: set<nat>)
    ensures |buckets| <= 32
    ensures forall a: Address, src | net.group(src) == group :: NewBucket(net, nKey, a, src) in buckets
  {
    buckets := FirstOf(net, nKey, group, 32);
    forall a: Address, src | net.group(src) == group
      ensures NewBucket(net, nKey, a, src) in buckets
    {
      var i := net.hash64([nKey, net.group(a.net), net.group(src)]) % 32;
      assert NewBucket(net, nKey, a, src) == net.hash64([nKey, group, [i]]) % 256;
    }
  }

  lemma {:induction false} FirstOf(net: Net, nKey: seq<nat>, group: seq<nat>, n: nat) returns (buckets: set<nat>)
    ensures |buckets| <= n
    ensures forall i: nat | i < n :: net.hash64([nKey, group, [i]]) % 256 in buckets
  {
    buckets := {};
    if n > 0 {
      buckets := FirstOf(net, nKey, group, n - 1);
      buckets := buckets + {net.hash64([nKey, group, [n - 1]]) % 256};
    }
  }

  /** And it depends on nothing but the two ranges and the key. */
  lemma NewByRanges(net: Net, nKey: seq<nat>, a: Address, src: NetAddr, a': Address, src': NetAddr)
    requires net.group(a.net) == net.group(a'.net) && net.group(src) == net.group(src')
    ensures NewBucket(net, nKey, a, src) == NewBucket(net, nKey, a', src')
  {
  }

  // ----- The limits are met

  /** A hash of two strings is the last number of the second one, and that of three the number of the
      third, after the first number of the key. */
  function LastNumber(ss: seq<seq<nat>>): nat {
    if |ss| == 2 && |ss[1]| > 0 then ss[1][|ss[1]| - 1]
    else if |ss| == 3 && |ss[0]| > 0 && |ss[2]| == 1 then ss[0][0] + ss[2][0]
    else if |ss| == 3 && |ss[1]| > 0 then ss[1][0]
    else 0
  }

  const COUNTING: Net := Net(LastNumber, (a: NetAddr) => a.ip, a => true)

  /** The port of an address counts: for some hash one range has four tried buckets, which the key moves. */
  lemma TriedSpread(nKey: seq<nat>, ip: NetAddr, port: nat, nTime: nat)
    requires |nKey| > 0 && port < 4
    ensures TriedBucket(COUNTING, nKey, Address(ip, port, {}, nTime)) == (nKey[0] + port) % 64
  {
    var key := Address(ip, port, {}, nTime).GetKey();
    assert key[|key| - 1] == port;
    assert LastNumber([nKey, key]) == port;
    assert LastNumber([nKey, ip.ip, [port]]) == nKey[0] + port;
  }

  /** The range of an announced address counts: so does the source have 32 new ones. */
  lemma NewSpread(nKey: seq<nat>, i: nat, port: nat, nTime: nat)
    requires |nKey| > 0 && i < 32
    ensures NewBucket(COUNTING, nKey, Address(NetAddr([i]), port, {}, nTime), NetAddr([])) == (nKey[0] + i) % 256
  {
    assert LastNumber([nKey, [i], []]) == i;
    assert LastNumber([nKey, [], [i]]) == nKey[0] + i;
  }

  /** The key of a service tells services apart. */
  lemma KeyTells(a: Address, b: Address)
    requires |a.net.ip| == |b.net.ip| && a.port < 0x10000 && b.port < 0x10000
    ensures a.GetKey() == b.GetKey() <==> a.SameService(b)
  {
    if a.GetKey() == b.GetKey() {
      var n := |a.net.ip|;
      assert a.net.ip == a.GetKey()[..n] == b.GetKey()[..n] == b.net.ip;
      assert a.GetKey()[n] == a.port / 0x100 && b.GetKey()[n] == b.port / 0x100;
      assert a.GetKey()[n + 1] == a.port % 0x100 && b.GetKey()[n + 1] == b.port % 0x100;
    }
  }

  // ----- Giving up entries

  /** An entry is given up unless it was tried in the last minute, for five reasons: its time is more than ten
      minutes ahead, is unknown, or is more than 30 days ago; or it failed three times and never
      succeeded, or ten times and not succeeded for a week. */
  lemma TerribleExactly(info: AddrInfo, nNow: int)
    ensures IsTerrible(info, nNow) <==>
              && (info.nLastTry == 0 || nNow - info.nLastTry > 60)
              && (|| info.addr.nTime > nNow + 600
                  || info.addr.nTime == 0
                  || nNow - info.addr.nTime > 2592000
                  || (info.nLastSuccess == 0 && info.nAttempts >= 3)
                  || (nNow - info.nLastSuccess > 604800 && info.nAttempts >= 10))
  {
  }

  /** An entry that was reached is kept for 30 days, and no longer unless it is heard of again. */
  lemma ReachedIsKept(info: AddrInfo, nTime: int, nNow: int)
    requires 0 < nTime < 0x1_0000_0000 && nTime <= nNow
    ensures IsTerrible(Reached(info, nTime), nNow) <==> nNow - nTime > 2592000
    ensures Reached(info, nTime).(nLastSuccess := info.nLastSuccess, nLastTry := info.nLastTry, nAttempts := info.nAttempts,
                                  addr := info.addr) == info
    ensures Reached(info, nTime).addr.(nTime := info.addr.nTime) == info.addr
  {
    TerribleExactly(Reached(info, nTime), nNow);
  }

  /** Reaching it starts the count anew: ten attempts in vain after that, with a week gone by, and it is
      given up a minute after the last. */
  lemma InVain(info: AddrInfo, nTime: int, attempts: nat, nLastTry: int, nNow: int)
    requires 0 < nTime < 0x1_0000_0000 && nTime + 604800 < nNow <= nTime + 2592000 && nTime <= nLastTry <= nNow
    ensures var tried := Reached(info, nTime).(nLastTry := nLastTry, nAttempts := Reached(info, nTime).nAttempts + attempts);
            IsTerrible(tried, nNow) <==> attempts >= 10 && nNow - nLastTry > 60
  {
  }

  // ----- Hearing of an entry again

  /** An announcement renews the time when it is later than the recorded one by more than the penalty and an
      hour, or a day if it is itself a day old; it never sets it back. It brings news when it is later,
      unless there is no penalty and it just renewed the time. */
  lemma RefreshedExactly(info: AddrInfo, addr: Address, nTimePenalty: int, nNow: int)
    ensures var r := Refreshed(info, addr, nTimePenalty, nNow);
            var wait := nTimePenalty + if nNow - addr.nTime < 86400 then 3600 else 86400;
            var due := addr.nTime != 0 && (info.addr.nTime == 0 || addr.nTime - info.addr.nTime > wait);
            && (!due ==> r.addr.nTime == info.addr.nTime)
            && (due && 0 <= nTimePenalty && addr.nTime < 0x1_0000_0000 ==>
                  r.addr.nTime == (if nTimePenalty <= addr.nTime then addr.nTime - nTimePenalty else 0))
            && (0 <= nTimePenalty && addr.nTime < 0x1_0000_0000 ==>
                  && info.addr.nTime <= r.addr.nTime
                  && (HasNews(r, addr) <==> addr.nTime > info.addr.nTime && (due ==> nTimePenalty > 0)))
            && r.addr.nServices == info.addr.nServices + addr.nServices
            && r.(addr := info.addr) == info
  {
  }

  /** One more reference is got at once, or with one random number in two, four or eight. */
  lemma FactorTable()
    ensures Factor(0) == 1 && Factor(1) == 2 && Factor(2) == 4 && Factor(3) == 8
  {
  }

  /** A time that does not fit 32 bits wraps around. */
  lemma WrappedTime(t: int)
    ensures exists k: int :: t == U32(t) + k * 0x1_0000_0000
  {
    assert t == U32(t) + t / 0x1_0000_0000 * 0x1_0000_0000;
  }
}
