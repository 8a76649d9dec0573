/** The heap of candidates: what make_heap, push_heap and pop_heap do under one of the two comparers. */
module PriorityQueue {
  import opened BlockSpec

  /** No entry is above its parent. */
  predicate IsHeap(v: seq<Entry>, byFee: bool) {
    forall j | 0 < j < |v| :: !Less(byFee, v[Up(j)], v[j])
  }

  function Up(j: nat): nat
    requires j > 0
  {
    (j - 1) / 2
  }

  /** No entry is above entry `k`. */
  predicate IsTop(v: seq<Entry>, k: int, byFee: bool) {
    0 <= k < |v| && forall j | 0 <= j < |v| :: !Less(byFee, v[k], v[j])
  }

  lemma NotLess(byFee: bool, a: Entry, b: Entry, c: Entry)
    requires !Less(byFee, a, b) && !Less(byFee, b, c)
    ensures !Less(byFee, a, c)
  {
  }

  /** The front of a heap is a top entry. */
  lemma FrontIsTop(v: seq<Entry>, byFee: bool)
    requires IsHeap(v, byFee) && |v| > 0
    ensures IsTop(v, 0, byFee)
  {
    forall j: nat | j < |v|
      ensures !Less(byFee, v[0], v[j])
    {
      FrontAbove(v, byFee, j);
    }
  }

  lemma {:induction false} FrontAbove(v: seq<Entry>, byFee: bool, j: nat)
    requires IsHeap(v, byFee) && j < |v|
    ensures !Less(byFee, v[0], v[j])
  {
    if j > 0 {
      FrontAbove(v, byFee, Up(j));
      NotLess(byFee, v[0], v[Up(j)], v[j]);
    }
  }

  function Swapped(v: seq<Entry>, i: nat, j: nat): (r: seq<Entry>)
    requires i < |v| && j < |v|
    ensures |r| == |v| && multiset(r) == multiset(v)
  {
    v[i := v[j]][j := v[i]]
  }

  // ----- Up

  /** A heap but for entry `i`, which may be above its parent. */
  ghost predicate HeapBelow(v: seq<Entry>, byFee: bool, i: nat) {
    && (forall j | 0 < j < |v| && j != i :: !Less(byFee, v[Up(j)], v[j]))
    && (forall j | 0 < i && 0 < j < |v| && Up(j) == i :: !Less(byFee, v[Up(i)], v[j]))
  }

  lemma RiseKeeps(v: seq<Entry>, byFee: bool, i: nat)
    requires 0 < i < |v| && HeapBelow(v, byFee, i) && Less(byFee, v[Up(i)], v[i])
    ensures HeapBelow(Swapped(v, i, Up(i)), byFee, Up(i))
  {
    hide Less;
    var p, r := Up(i), Swapped(v, i, Up(i));
    LessLaws(byFee);
    forall j | 0 < j < |r| && j != p
      ensures !Less(byFee, r[Up(j)], r[j])
    {
    }
    forall j | 0 < p && 0 < j < |r| && Up(j) == p
      ensures !Less(byFee, r[Up(p)], r[j])
    {
    }
  }

  lemma LessLaws(byFee: bool)
    ensures forall a, b, c | !Less(byFee, a, b) && !Less(byFee, b, c) :: !Less(byFee, a, c)
    ensures forall a, b | Less(byFee, a, b) :: !Less(byFee, b, a)
  {
  }

  /** The last entry finds its place among the others, which are a heap. */
  method PushHeap(v: seq<Entry>, byFee: bool) returns (r: seq<Entry>)
    requires |v| > 0 && IsHeap(v[..|v| - 1], byFee)
    ensures IsHeap(r, byFee) && multiset(r) == multiset(v) && |r| == |v|
  {
    hide Less;
    r := v;
    var i := |v| - 1;
    assert forall j | 0 < j < |v| - 1 :: v[..|v| - 1][j] == v[j] && v[..|v| - 1][Up(j)] == v[Up(j)];
    while i > 0 && Less(byFee, r[Up(i)], r[i])
      invariant 0 <= i < |r| == |v| && multiset(r) == multiset(v)
      invariant HeapBelow(r, byFee, i)
    {
      RiseKeeps(r, byFee, i);
      r := Swapped(r, i, Up(i));
      i := Up(i);
    }
  }

  /** A heap of the entries of `v`. */
  method MakeHeap(v: seq<Entry>, byFee: bool) returns (r: seq<Entry>)
    ensures IsHeap(r, byFee) && multiset(r) == multiset(v) && |r| == |v|
  {
    r := [];
    for n := 0 to |v|
      invariant IsHeap(r, byFee) && multiset(r) == multiset(v[..n]) && |r| == n
    {
      assert (r + [v[n]])[..n] == r && v[..n + 1] == v[..n] + [v[n]];
      r := PushHeap(r + [v[n]], byFee);
    }
    assert v[..|v|] == v;
  }

  // ----- Down

  /** A heap but for entry `i`, whose children may be above it. */
  ghost predicate HeapAbove(v: seq<Entry>, byFee: bool, i: nat) {
    && (forall j | 0 < j < |v| && Up(j) != i :: !Less(byFee, v[Up(j)], v[j]))
    && (forall j | 0 < i && 0 < j < |v| && Up(j) == i && i < |v| :: !Less(byFee, v[Up(i)], v[j]))
  }

  /** `c` is a child of `i` that its other child is not above. */
  predicate IsLargerChild(v: seq<Entry>, byFee: bool, i: nat, c: nat) {
    && 0 < c < |v| && Up(c) == i
    && forall j | 0 < j < |v| && Up(j) == i :: !Less(byFee, v[c], v[j])
  }

  lemma SinkKeeps(v: seq<Entry>, byFee: bool, i: nat, c: nat)
    requires HeapAbove(v, byFee, i) && i < |v| && IsLargerChild(v, byFee, i, c) && Less(byFee, v[i], v[c])
    ensures HeapAbove(Swapped(v, i, c), byFee, c)
  {
    hide Less;
    var r := Swapped(v, i, c);
    LessLaws(byFee);
    forall j | 0 < j < |r| && Up(j) != c
      ensures !Less(byFee, r[Up(j)], r[j])
    {
    }
    forall j | 0 < j < |r| && Up(j) == c
      ensures !Less(byFee, r[Up(c)], r[j])
    {
    }
  }

  method LargerChild(v: seq<Entry>, byFee: bool, i: nat) returns (c: nat)
    requires 2 * i + 1 < |v|
    ensures IsLargerChild(v, byFee, i, c)
  {
    hide Less;
    LessLaws(byFee);
    c := if 2 * i + 2 < |v| && Less(byFee, v[2 * i + 1], v[2 * i + 2]) then 2 * i + 2 else 2 * i + 1;
    assert forall j | 0 < j < |v| && Up(j) == i :: j == 2 * i + 1 || j == 2 * i + 2;
    NotBelowItself(byFee, v[2 * i + 1]);
    if 2 * i + 2 < |v| {
      NotBelowItself(byFee, v[2 * i + 2]);
    }
  }

  lemma NotBelowItself(byFee: bool, a: Entry)
    ensures !Less(byFee, a, a)
  {
  }

  /** The front of the heap, an entry that no other one is above, and a heap of the rest. */
  method PopHeap(v: seq<Entry>, byFee: bool) returns (e: Entry, rest: seq<Entry>)
    requires |v| > 0 && IsHeap(v, byFee)
    ensures e == v[0] && IsTop(v, 0, byFee)
    ensures IsHeap(rest, byFee) && multiset(rest) == multiset(v[1..]) && |rest| == |v| - 1
  {
    hide Less;
    FrontIsTop(v, byFee);
    e := v[0];
    var n := |v| - 1;
    if n == 0 {
      return e, [];
    }
    rest := v[..n][0 := v[n]];
    LastToFront(v);
    var i := 0;
    while 2 * i + 1 < n
      invariant 0 <= i < n == |rest| && multiset(rest) == multiset(v[1..])
      invariant HeapAbove(rest, byFee, i)
      decreases n - i
    {
      var c := LargerChild(rest, byFee, i);
      if !Less(byFee, rest[i], rest[c]) {
        SunkEnough(rest, byFee, i, c);
        return;
      }
      SinkKeeps(rest, byFee, i, c);
      rest := Swapped(rest, i, c);
      i := c;
    }
  }

  lemma SunkEnough(v: seq<Entry>, byFee: bool, i: nat, c: nat)
    requires HeapAbove(v, byFee, i) && i < |v| && IsLargerChild(v, byFee, i, c) && !Less(byFee, v[i], v[c])
    ensures IsHeap(v, byFee)
  {
    hide Less;
    LessLaws(byFee);
  }

  lemma LastToFront(v: seq<Entry>)
    requires |v| > 1
    ensures multiset(v[..|v| - 1][0 := v[|v| - 1]]) == multiset(v[1..])
  {
    var n := |v| - 1;
    var r := v[..n][0 := v[n]];
    assert r == [v[n]] + v[1..n] && v[1..] == v[1..n] + [v[n]];
  }
}
