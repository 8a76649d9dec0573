/** Network addresses and address-table entries of the address manager. */
module AddrTypes {

  const TRIED_BUCKET_COUNT := 64
  const TRIED_BUCKET_SIZE := 64
  const NEW_BUCKET_COUNT := 256
  const NEW_BUCKET_SIZE := 64
  const TRIED_BUCKETS_PER_GROUP := 4
  const NEW_BUCKETS_PER_SOURCE_GROUP := 32
  const NEW_BUCKETS_PER_ADDRESS := 4
  const TRIED_ENTRIES_INSPECT_ON_EVICT := 4
  const HORIZON_DAYS := 30
  const RETRIES := 3
  const MAX_FAILURES := 10
  const MIN_FAIL_DAYS := 7
  const GETADDR_MAX_PCT := 23
  const GETADDR_MAX := 2500

  /** The bytes of an IP address, without a port. */
  datatype NetAddr = NetAddr(ip: seq<nat>)

  /** An IP address with port, the numbers of the set service bits, and the (32-bit) time
      it was last seen. */
  datatype Address = Address(net: NetAddr, port: nat, nServices: set<nat>, nTime: nat) {
    // Equality of the `CService` part.
    predicate SameService(other: Address) {
      net == other.net && port == other.port
    }

    function GetKey(): seq<nat> {
      net.ip + [port / 0x100, port % 0x100]
    }
  }

  datatype AddrInfo = AddrInfo(
    addr: Address,
    source: NetAddr,
    nLastSuccess: int,
    nAttempts: int,
    nLastTry: int,
    nRefCount: int,
    fInTried: bool,
    nRandomPos: int)

  function NewInfo(addr: Address, source: NetAddr): AddrInfo {
    AddrInfo(addr, source, 0, 0, 0, 0, false, -1)
  }

  /** What the manager takes from code outside this model: the first 64 bits of the
      double hash of a list of byte strings, the group of an address, and routability. */
  datatype Net = Net(
    hash64: seq<seq<nat>> -> nat,
    group: NetAddr -> seq<nat>,
    routable: NetAddr -> bool)

  function TriedBucket(net: Net, nKey: seq<nat>, a: Address): (b: nat)
    ensures b < TRIED_BUCKET_COUNT
  {
    var hash1 := net.hash64([nKey, a.GetKey()]);
    var hash2 := net.hash64([nKey, net.group(a.net), [hash1 % TRIED_BUCKETS_PER_GROUP]]);
    hash2 % TRIED_BUCKET_COUNT
  }

  function NewBucket(net: Net, nKey: seq<nat>, a: Address, src: NetAddr): (b: nat)
    ensures b < NEW_BUCKET_COUNT
  {
    var hash1 := net.hash64([nKey, net.group(a.net), net.group(src)]);
    var hash2 := net.hash64([nKey, net.group(src), [hash1 % NEW_BUCKETS_PER_SOURCE_GROUP]]);
    hash2 % NEW_BUCKET_COUNT
  }

  /** Conversion of a 64-bit time to the 32-bit field that stores it. */
  function U32(t: int): (r: nat)
    ensures r < 0x1_0000_0000
    ensures 0 <= t < 0x1_0000_0000 ==> r == t
  {
    t % 0x1_0000_0000
  }

  predicate IsTerrible(info: AddrInfo, nNow: int) {
    if info.nLastTry != 0 && info.nLastTry >= nNow - 60 then false
    else if info.addr.nTime > nNow + 10 * 60 then true
    else if info.addr.nTime == 0 || nNow - info.addr.nTime > HORIZON_DAYS * 86400 then true
    else if info.nLastSuccess == 0 && info.nAttempts >= RETRIES then true
    else nNow - info.nLastSuccess > MIN_FAIL_DAYS * 86400 && info.nAttempts >= MAX_FAILURES
  }
}
