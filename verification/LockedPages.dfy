/** Locked memory pages: a count per page stands for the ranges that are locked on it. */
module LockedPages {
  import opened Words
  import Modular

  const WIDTH: nat := 64

  // ----- Masks

  /** The bits of a number, the least significant first. */
  function Bin(n: nat, w: nat): (b: Bits)
    ensures |b| == w
  {
    if w == 0 then [] else [n % 2 == 1] + Bin(n / 2, w - 1)
  }

  function Value(b: Bits): nat {
    if |b| == 0 then 0 else (if b[0] then 1 else 0) + 2 * Value(b[1..])
  }

  /** a & b, on words of `w` bits. */
  function AndWord(a: nat, b: nat, w: nat): nat {
    Value(And(Bin(a, w), Bin(b, w)))
  }

  /** a & ~b. */
  function AndNot(a: nat, b: nat, w: nat): nat {
    Value(And(Bin(a, w), Not(Bin(b, w))))
  }

  lemma AndTail(a: Bits, b: Bits)
    requires |a| == |b| > 0
    ensures And(a, b) == [a[0] && b[0]] + And(a[1..], b[1..])
    ensures Not(b) == [!b[0]] + Not(b[1..])
  {
  }

  lemma AndWordStep(a: nat, b: nat, w: nat)
    requires w > 0
    ensures AndWord(a, b, w) == (if a % 2 == 1 && b % 2 == 1 then 1 else 0) + 2 * AndWord(a / 2, b / 2, w - 1)
    ensures AndNot(a, b, w) == (if a % 2 == 1 && b % 2 == 0 then 1 else 0) + 2 * AndNot(a / 2, b / 2, w - 1)
  {
    hide And, Not;
    var x, y := Bin(a, w), Bin(b, w);
    AndTail(x, y);
    AndTail(x, Not(y));
    assert x[1..] == Bin(a / 2, w - 1) && y[1..] == Bin(b / 2, w - 1);
    assert Not(y)[1..] == Not(y[1..]);
    var s, t := And(x, y), And(x, Not(y));
    assert s[1..] == And(x[1..], y[1..]) && t[1..] == And(x[1..], Not(y[1..]));
  }

  lemma {:induction false} AndNotNone(a: nat, w: nat)
    requires a < Modular.Pow2(w)
    ensures AndNot(a, 0, w) == a
  {
    hide AndNot;
    if w > 0 {
      AndWordStep(a, 0, w);
      AndNotNone(a / 2, w - 1);
    } else {
      NoBits(a, 0);
    }
  }

  lemma NoBits(a: nat, b: nat)
    ensures AndWord(a, b, 0) == 0 && AndNot(a, b, 0) == 0
  {
  }

  /** The multiple of `size` at or below an address. */
  function Down(a: nat, size: nat): (p: nat)
    requires size > 0
    ensures p <= a
  {
    a - a % size
  }

  lemma DownIs(a: nat, size: nat)
    requires size > 0
    ensures Down(a, size) == a / size * size && a < Down(a, size) + size
  {
    assert a == a / size * size + a % size;
  }

  /** Masking with ~(2^k - 1) rounds down to a multiple of 2^k. */
  lemma {:induction false} MaskRounds(a: nat, k: nat, w: nat)
    requires k <= w && a < Modular.Pow2(w)
    ensures AndNot(a, Modular.Pow2(k) - 1, w) == Down(a, Modular.Pow2(k))
  {
    hide AndNot, Down;
    if k == 0 {
      AndNotNone(a, w);
      DownOne(a);
    } else {
      var b := Modular.Pow2(k) - 1;
      assert b % 2 == 1 && b / 2 == Modular.Pow2(k - 1) - 1;
      AndWordStep(a, b, w);
      MaskRounds(a / 2, k - 1, w - 1);
      DownHalf(a, Modular.Pow2(k - 1));
    }
  }

  lemma DownOne(a: nat)
    ensures Down(a, Modular.Pow2(0)) == a
  {
  }

  lemma DownHalf(a: nat, p: nat)
    requires p > 0
    ensures 2 * Down(a / 2, p) == Down(a, 2 * p)
  {
    hide Down;
    DownIs(a / 2, p);
    DownIs(a, 2 * p);
    Modular.HalfDiv(a, p);
    assert a / (2 * p) * (2 * p) == 2 * (a / (2 * p) * p);
  }

  ghost predicate IsPower(p: nat) {
    exists k: nat :: p == Modular.Pow2(k)
  }

  lemma HalfPower(p: nat)
    requires p > 0 && p % 2 == 0
    ensures IsPower(p) <==> IsPower(p / 2)
  {
    if k: nat :| p / 2 == Modular.Pow2(k) {
      assert p == Modular.Pow2(k + 1);
    }
    if k: nat :| p == Modular.Pow2(k) {
      OddPower(k);
      assert Modular.Pow2(k) == 2 * Modular.Pow2(k - 1);
      assert p / 2 == Modular.Pow2(k - 1);
    }
  }

  lemma OddIsPower(p: nat)
    requires p % 2 == 1
    ensures IsPower(p) <==> p == 1
  {
    assert Modular.Pow2(0) == 1;
    if k: nat :| p == Modular.Pow2(k) {
      OddPower(k);
    }
  }

  /** The test of the constructor: a size has no bit in common with its predecessor just when it
      is a power of two. */
  lemma {:induction false} PowerTest(p: nat, w: nat)
    requires 0 < p < Modular.Pow2(w)
    ensures AndWord(p, p - 1, w) == 0 <==> IsPower(p)
  {
    hide AndWord, IsPower;
    AndWordStep(p, p - 1, w);
    if p % 2 == 1 {
      assert (p - 1) / 2 == p / 2;
      AndSelf(p / 2, w - 1);
      OddIsPower(p);
    } else {
      assert (p - 1) / 2 == p / 2 - 1;
      PowerTest(p / 2, w - 1);
      HalfPower(p);
    }
  }

  lemma {:induction false} OddPower(k: nat)
    ensures Modular.Pow2(k) % 2 == 1 <==> k == 0
    ensures k == 0 ==> Modular.Pow2(k) == 1
  {
  }

  lemma {:induction false} AndSelf(a: nat, w: nat)
    requires a < Modular.Pow2(w)
    ensures AndWord(a, a, w) == a
  {
    hide AndWord;
    if w > 0 {
      AndWordStep(a, a, w);
      AndSelf(a / 2, w - 1);
    } else {
      NoBits(a, a);
    }
  }

  // ----- Counts

  datatype Range = Range(base: nat, size: nat)

  /** The range has a byte on the page. */
  predicate Touches(r: Range, page: nat, pageSize: nat)
    requires pageSize > 0
  {
    r.size > 0 && page % pageSize == 0 && Down(r.base, pageSize) <= page <= Down(r.base + r.size - 1, pageSize)
  }

  /** And that is what it says: an address of the range rounds down to the page. */
  lemma TouchesMeans(r: Range, page: nat, pageSize: nat)
    requires pageSize > 0
    ensures Touches(r, page, pageSize) <==> exists a: nat :: r.base <= a < r.base + r.size && Down(a, pageSize) == page
  {
    if Touches(r, page, pageSize) {
      var a := if r.base <= page then page else r.base;
      DownIs(r.base, pageSize);
      DownIs(r.base + r.size - 1, pageSize);
      assert r.base <= a < r.base + r.size;
      if r.base <= page {
        assert Down(a, pageSize) == page;
      } else {
        SamePage(r.base, page, pageSize);
        assert Down(a, pageSize) == page;
      }
    }
    if a: nat :| r.base <= a < r.base + r.size && Down(a, pageSize) == page {
      DownMonotone(r.base, a, pageSize);
      DownMonotone(a, r.base + r.size - 1, pageSize);
      DownIs(a, pageSize);
      Modular.MultipleMod(a / pageSize, pageSize);
    }
  }

  lemma DownMonotone(a: nat, b: nat, size: nat)
    requires size > 0 && a <= b
    ensures Down(a, size) <= Down(b, size)
  {
    DownIs(a, size);
    DownIs(b, size);
    assert (b / size + 1) * size == b / size * size + size;
    if b / size < a / size {
      Modular.MulAtMost(b / size + 1, a / size, size);
      assert false;
    }
    Modular.MulAtMost(a / size, b / size, size);
  }

  lemma SamePage(a: nat, page: nat, size: nat)
    requires size > 0 && page % size == 0 && Down(a, size) <= page < a
    ensures Down(a, size) == page
  {
    DownIs(a, size);
    assert page == page / size * size;
    Modular.DivModUnique(a, size, page / size, a - page);
  }

  /** How many of the live ranges touch the page. */
  function Count(live: seq<Range>, page: nat, pageSize: nat): nat
    requires pageSize > 0
  {
    if |live| == 0 then 0
    else Count(live[..|live| - 1], page, pageSize) + if Touches(live[|live| - 1], page, pageSize) then 1 else 0
  }

  lemma {:induction false} CountWithout(live: seq<Range>, i: nat, page: nat, pageSize: nat)
    requires i < |live| && pageSize > 0
    ensures Count(live, page, pageSize)
            == Count(live[..i] + live[i + 1..], page, pageSize) + if Touches(live[i], page, pageSize) then 1 else 0
  {
    hide Touches;
    var n := |live| - 1;
    if i < n {
      CountWithout(live[..n], i, page, pageSize);
      var rest := live[..i] + live[i + 1..];
      assert rest[..|rest| - 1] == live[..n][..i] + live[..n][i + 1..];
      assert rest[|rest| - 1] == live[n];
    } else {
      assert live[..i] + live[i + 1..] == live[..n];
    }
  }

  lemma CountWith(live: seq<Range>, r: Range, page: nat, pageSize: nat)
    requires pageSize > 0
    ensures Count(live + [r], page, pageSize) == Count(live, page, pageSize) + if Touches(r, page, pageSize) then 1 else 0
  {
    assert (live + [r])[..|live|] == live;
  }

  function Held(histogram: map<nat, nat>, page: nat): nat {
    if page in histogram then histogram[page] else 0
  }

  /** The histogram holds the count of every page that a live range touches, and no others. */
  ghost predicate Exact(histogram: map<nat, nat>, live: seq<Range>, pageSize: nat)
    requires pageSize > 0
  {
    && (forall page: nat :: Held(histogram, page) == Count(live, page, pageSize))
    && (forall page | page in histogram :: histogram[page] > 0)
  }

  /** The histogram in the middle of a pass over the pages of a range: those before `at` are changed. */
  ghost predicate Partly(before: map<nat, nat>, now: map<nat, nat>, start: nat, at: nat, pageSize: nat, change: int)
    requires pageSize > 0
  {
    && (forall page: nat :: Held(now, page) == Held(before, page) + if page % pageSize == 0 && start <= page < at then change else 0)
    && (forall page | page in now :: now[page] > 0)
  }

  lemma NextPage(page: nat, at: nat, pageSize: nat)
    requires pageSize > 0 && at % pageSize == 0 && page % pageSize == 0
    ensures (at + pageSize) % pageSize == 0 && (page < at + pageSize ==> page <= at)
  {
    Modular.OneMore(at, pageSize);
    var p, q := at / pageSize, page / pageSize;
    assert page == q * pageSize && at == p * pageSize;
    assert (p + 1) * pageSize == p * pageSize + pageSize;
    if q <= p {
      Modular.MulAtMost(q, p, pageSize);
    } else {
      Modular.MulAtMost(p + 1, q, pageSize);
    }
  }

  lemma PartlyNext(before: map<nat, nat>, now: map<nat, nat>, next: map<nat, nat>, start: nat, at: nat, pageSize: nat, change: int)
    requires pageSize > 0 && at % pageSize == 0 && start <= at && Partly(before, now, start, at, pageSize, change)
    requires forall page: nat :: Held(next, page) == if page == at then Held(now, at) + change else Held(now, page)
    requires forall page | page in next :: next[page] > 0
    ensures Partly(before, next, start, at + pageSize, pageSize, change)
  {
    hide Held;
    forall page: nat
      ensures Held(next, page) == Held(before, page) + if page % pageSize == 0 && start <= page < at + pageSize then change else 0
    {
      if page % pageSize == 0 {
        NextPage(page, at, pageSize);
      }
    }
  }

  /** A whole pass changes the count of every page of the range. */
  lemma PartlyAll(before: map<nat, nat>, now: map<nat, nat>, r: Range, at: nat, pageSize: nat, change: int, page: nat)
    requires pageSize > 0 && r.size > 0 && Partly(before, now, Down(r.base, pageSize), at, pageSize, change)
    requires at % pageSize == 0 && Down(r.base + r.size - 1, pageSize) < at
    requires at <= Down(r.base + r.size - 1, pageSize) + pageSize
    ensures Held(now, page) == Held(before, page) + if Touches(r, page, pageSize) then change else 0
  {
    hide Held, Down;
    var end := Down(r.base + r.size - 1, pageSize);
    DownIs(r.base + r.size - 1, pageSize);
    Modular.MultipleMod((r.base + r.size - 1) / pageSize, pageSize);
    if page % pageSize == 0 {
      NextPage(page, end, pageSize);
    }
  }

  // ----- When the loop over the pages ends

  /** Where the loop is after `n` additions of the page size to a word. */
  function Walk(start: nat, pageSize: nat, n: nat): nat {
    (start + n * pageSize) % Modular.Pow2(WIDTH)
  }

  /** The loop passes the last page of a range just when the end of that page is an address. */
  lemma LoopEnds(start: nat, end: nat, k: nat)
    requires k <= WIDTH && start <= end < Modular.Pow2(WIDTH)
    requires start % Modular.Pow2(k) == 0 && end % Modular.Pow2(k) == 0
    ensures (exists n: nat :: Walk(start, Modular.Pow2(k), n) > end) <==> end + Modular.Pow2(k) < Modular.Pow2(WIDTH)
  {
    var size, space := Modular.Pow2(k), Modular.Pow2(WIDTH);
    hide Modular.Pow2, Walk;
    if end + size < space {
      var a, b := start / size, end / size;
      assert start == a * size && end == b * size;
      assert (b + 1) * size == b * size + size;
      if a > b {
        Modular.MulAtMost(b + 1, a, size);
      }
      assert (b + 1 - a) * size == b * size + size - a * size;
      WalkTo(start, size, b + 1 - a, end + size);
    } else {
      forall n: nat
        ensures Walk(start, size, n) <= end
      {
        NeverPast(start, end, k, n);
      }
    }
  }

  lemma WalkTo(start: nat, size: nat, n: nat, at: nat)
    requires start + n * size == at < Modular.Pow2(WIDTH)
    ensures Walk(start, size, n) == at
  {
    hide Modular.Pow2;
  }

  lemma NeverPast(start: nat, end: nat, k: nat, n: nat)
    requires k <= WIDTH && end < Modular.Pow2(WIDTH) <= end + Modular.Pow2(k)
    requires start % Modular.Pow2(k) == 0
    ensures Walk(start, Modular.Pow2(k), n) <= end
  {
    hide Modular.Pow2;
    var size, pages, m := Modular.Pow2(k), Modular.Pow2(WIDTH - k), start + n * Modular.Pow2(k);
    Modular.Pow2Sum(WIDTH - k, k);
    Modular.AddMultiple(start, size, n);
    assert Walk(start, size, n) == m % (pages * size);
    hide Walk;
    Modular.MultipleModMultiple(m, size, pages);
  }

  /** The last address of a range, as a word. */
  function EndAddress(p: nat, size: nat): nat
    requires size > 0
  {
    (p + size - 1) % Modular.Pow2(WIDTH)
  }

  /** The passes over the pages of a range come to an end. */
  predicate Ends(p: nat, size: nat, pageSize: nat)
    requires pageSize > 0
  {
    size > 0 ==>
      var start, end := Down(p, pageSize), Down(EndAddress(p, size), pageSize);
      start > end || end + pageSize < Modular.Pow2(WIDTH)
  }

  /** The part of a range whose pages are counted: all of it, unless it wraps around the address space. Then
      it is one page if the range ends on the page on which it starts, and nothing otherwise. */
  function Counted(p: nat, size: nat, pageSize: nat): Range
    requires pageSize > 0
  {
    if size == 0 || p + size - 1 < Modular.Pow2(WIDTH) then Range(p, size)
    else if Down(p, pageSize) <= Down(EndAddress(p, size), pageSize) then Range(p, 1)
    else Range(p, 0)
  }

  lemma CountedNone(p: nat, pageSize: nat)
    requires pageSize > 0
    ensures Counted(p, 0, pageSize) == Range(p, 0)
  {
  }

  lemma CountedPages(p: nat, size: nat, pageSize: nat)
    requires pageSize > 0 && 0 < size < Modular.Pow2(WIDTH) && p < Modular.Pow2(WIDTH)
    ensures var r, start, end := Counted(p, size, pageSize), Down(p, pageSize), Down(EndAddress(p, size), pageSize);
            && EndAddress(p, size) < Modular.Pow2(WIDTH)
            && (r.size == 0 <==> start > end)
            && (r.size > 0 ==> Down(r.base, pageSize) == start && Down(r.base + r.size - 1, pageSize) == end)
  {
    hide Modular.Pow2, Down;
    var space := Modular.Pow2(WIDTH);
    if p + size - 1 < space {
      Modular.SmallMod(p + size - 1, space);
      DownMonotone(p, p + size - 1, pageSize);
    } else {
      Modular.DivModUnique(p + size - 1, space, 1, p + size - 1 - space);
      DownMonotone(EndAddress(p, size), p, pageSize);
    }
  }

  /** A range that does not wrap around counts as it is. */
  lemma CountedWhole(p: nat, size: nat, pageSize: nat)
    requires pageSize > 0 && p < Modular.Pow2(WIDTH)
    ensures Counted(p, size, pageSize) == Range(p, size) <==> p + size <= Modular.Pow2(WIDTH)
  {
    hide Modular.Pow2, Down;
    if p + size > Modular.Pow2(WIDTH) && size == 1 {
      assert false;
    }
  }

  // ----- The manager

  class LockedPageManager {
    const k: nat
    const pageSize: nat
    var histogram: map<nat, nat>
    /** The pages that the operating system keeps locked. */
    var locked: set<nat>
    ghost var live: seq<Range>

    ghost predicate Valid()
      reads this
    {
      k < WIDTH && pageSize == Modular.Pow2(k) && Exact(histogram, live, pageSize) && locked == histogram.Keys
    }

    constructor (k: nat)
      requires k < WIDTH
      ensures Valid() && live == [] && this.k == k
    {
      this.k := k;
      pageSize := Modular.Pow2(k);
      histogram, locked, live := map[], {}, [];
    }

    /** address & page_mask. */
    method Page(address: nat) returns (page: nat)
      requires k < WIDTH && pageSize == Modular.Pow2(k) && address < Modular.Pow2(WIDTH)
      ensures page == Down(address, pageSize) && page % pageSize == 0
    {
      hide Modular.Pow2, AndNot;
      page := AndNot(address, pageSize - 1, WIDTH);
      MaskRounds(address, k, WIDTH);
      DownIs(address, pageSize);
      Modular.MultipleMod(address / pageSize, pageSize);
    }

    /** The body of the loop of LockRange. */
    method Increase(page: nat)
      requires locked == histogram.Keys && forall q | q in histogram :: histogram[q] > 0
      modifies this`histogram, this`locked
      ensures locked == histogram.Keys && forall q | q in histogram :: histogram[q] > 0
      ensures forall q: nat :: Held(histogram, q) == if q == page then old(Held(histogram, page)) + 1 else old(Held(histogram, q))
    {
      if page !in histogram {
        locked := locked + {page};
        histogram := histogram[page := 1];
      } else {
        histogram := histogram[page := histogram[page] + 1];
      }
    }

    /** The body of the loop of UnlockRange. */
    method Decrease(page: nat)
      requires page in histogram // cannot unlock an area that was not locked
      requires locked == histogram.Keys && forall q | q in histogram :: histogram[q] > 0
      modifies this`histogram, this`locked
      ensures locked == histogram.Keys && forall q | q in histogram :: histogram[q] > 0
      ensures forall q: nat :: Held(histogram, q) == if q == page then old(Held(histogram, page)) - 1 else old(Held(histogram, q))
    {
      histogram := histogram[page := histogram[page] - 1];
      if histogram[page] == 0 {
        locked := locked - {page};
        histogram := histogram - {page};
      }
    }

    /** One more live range. False stands for a loop over the pages that does not end. */
    method LockRange(p: nat, size: nat) returns (ended: bool)
      requires Valid() && p < Modular.Pow2(WIDTH) && size < Modular.Pow2(WIDTH)
      modifies this`histogram, this`locked, this`live
      ensures Valid() && (ended <==> Ends(p, size, pageSize))
      ensures live == if ended then old(live) + [Counted(p, size, pageSize)] else old(live)
    {
      hide Modular.Pow2, Down, Held, Partly, Exact, Touches, Counted;
      ghost var r, was := Counted(p, size, pageSize), live;
      if size == 0 {
        CountedNone(p, pageSize);
        live := live + [r];
        NoTouch(was, r, histogram, pageSize);
        return true;
      }
      CountedPages(p, size, pageSize);
      var startPage := Page(p);
      var endPage := Page((p + size - 1) % Modular.Pow2(WIDTH));
      if startPage <= endPage && endPage + pageSize >= Modular.Pow2(WIDTH) {
        // the page wraps around before it is past the last one
        return false;
      }
      live := live + [r];
      if startPage > endPage {
        NoTouch(was, r, histogram, pageSize);
        return true;
      }
      var page := startPage;
      StartPartly(histogram, was, startPage, pageSize, 1);
      while page <= endPage
        invariant startPage <= page <= endPage + pageSize && page % pageSize == 0
        invariant Partly(old(histogram), histogram, startPage, page, pageSize, 1)
        invariant locked == histogram.Keys && live == was + [r]
        decreases endPage + pageSize - page
      {
        ghost var now := histogram;
        PositiveCounts(old(histogram), histogram, startPage, page, pageSize, 1);
        Increase(page);
        PartlyNext(old(histogram), now, histogram, startPage, page, pageSize, 1);
        NextPage(endPage, page, pageSize);
        page := page + pageSize;
      }
      forall q: nat
        ensures Held(histogram, q) == Count(live, q, pageSize)
      {
        PartlyAll(old(histogram), histogram, r, page, pageSize, 1, q);
        ExactAt(old(histogram), was, pageSize, q);
        CountWith(was, r, q, pageSize);
      }
      PositiveCounts(old(histogram), histogram, startPage, page, pageSize, 1);
      IsExact(histogram, live, pageSize);
      ended := true;
    }

    /** One live range less. */
    method UnlockRange(p: nat, size: nat, ghost i: nat) returns (ended: bool)
      requires Valid() && p < Modular.Pow2(WIDTH) && size < Modular.Pow2(WIDTH)
      requires i < |live| && live[i] == Counted(p, size, pageSize)
      modifies this`histogram, this`locked, this`live
      ensures Valid() && (ended <==> Ends(p, size, pageSize))
      ensures live == if ended then old(live[..i] + live[i + 1..]) else old(live)
    {
      hide Modular.Pow2, Down, Held, Partly, Exact, Touches, Counted;
      ghost var r, was := live[i], live;
      if size == 0 {
        CountedNone(p, pageSize);
        live := live[..i] + live[i + 1..];
        NoTouchWithout(was, i, histogram, pageSize);
        return true;
      }
      CountedPages(p, size, pageSize);
      var startPage := Page(p);
      var endPage := Page((p + size - 1) % Modular.Pow2(WIDTH));
      if startPage <= endPage && endPage + pageSize >= Modular.Pow2(WIDTH) {
        // the page wraps around before it is past the last one
        return false;
      }
      live := live[..i] + live[i + 1..];
      if startPage > endPage {
        NoTouchWithout(was, i, histogram, pageSize);
        return true;
      }
      var page := startPage;
      StartPartly(histogram, was, startPage, pageSize, -1);
      while page <= endPage
        invariant startPage <= page <= endPage + pageSize && page % pageSize == 0
        invariant Partly(old(histogram), histogram, startPage, page, pageSize, -1)
        invariant locked == histogram.Keys && live == was[..i] + was[i + 1..]
        decreases endPage + pageSize - page
      {
        ghost var now := histogram;
        StillLocked(old(histogram), histogram, was, i, startPage, endPage, page, pageSize);
        PositiveCounts(old(histogram), histogram, startPage, page, pageSize, -1);
        Decrease(page);
        PartlyNext(old(histogram), now, histogram, startPage, page, pageSize, -1);
        NextPage(endPage, page, pageSize);
        page := page + pageSize;
      }
      forall q: nat
        ensures Held(histogram, q) == Count(live, q, pageSize)
      {
        PartlyAll(old(histogram), histogram, r, page, pageSize, -1, q);
        ExactAt(old(histogram), was, pageSize, q);
        CountWithout(was, i, q, pageSize);
      }
      PositiveCounts(old(histogram), histogram, startPage, page, pageSize, -1);
      IsExact(histogram, live, pageSize);
      ended := true;
    }

    /** The number of pages that some live range touches. */
    method GetLockedPageCount() returns (n: nat)
      requires Valid()
      ensures n == |locked|
    {
      n := |histogram|;
    }
  }

  lemma ExactAt(histogram: map<nat, nat>, live: seq<Range>, pageSize: nat, page: nat)
    requires pageSize > 0 && Exact(histogram, live, pageSize)
    ensures Held(histogram, page) == Count(live, page, pageSize)
  {
    hide Held, Count;
  }

  lemma IsExact(histogram: map<nat, nat>, live: seq<Range>, pageSize: nat)
    requires pageSize > 0 && (forall page: nat :: Held(histogram, page) == Count(live, page, pageSize))
    requires forall page | page in histogram :: histogram[page] > 0
    ensures Exact(histogram, live, pageSize)
  {
    hide Held, Count;
  }

  lemma NoTouch(live: seq<Range>, r: Range, histogram: map<nat, nat>, pageSize: nat)
    requires pageSize > 0 && r.size == 0 && Exact(histogram, live, pageSize)
    ensures Exact(histogram, live + [r], pageSize)
  {
    hide Held, Count;
    forall page: nat
      ensures Held(histogram, page) == Count(live + [r], page, pageSize)
    {
      CountWith(live, r, page, pageSize);
    }
  }

  lemma NoTouchWithout(live: seq<Range>, i: nat, histogram: map<nat, nat>, pageSize: nat)
    requires pageSize > 0 && i < |live| && live[i].size == 0 && Exact(histogram, live, pageSize)
    ensures Exact(histogram, live[..i] + live[i + 1..], pageSize)
  {
    hide Held, Count;
    forall page: nat
      ensures Held(histogram, page) == Count(live[..i] + live[i + 1..], page, pageSize)
    {
      CountWithout(live, i, page, pageSize);
    }
  }

  lemma StartPartly(histogram: map<nat, nat>, live: seq<Range>, start: nat, pageSize: nat, change: int)
    requires pageSize > 0 && Exact(histogram, live, pageSize)
    ensures Partly(histogram, histogram, start, start, pageSize, change)
  {
    hide Held, Count;
  }

  lemma PositiveCounts(before: map<nat, nat>, now: map<nat, nat>, start: nat, at: nat, pageSize: nat, change: int)
    requires pageSize > 0 && Partly(before, now, start, at, pageSize, change)
    ensures forall page | page in now :: now[page] > 0
  {
    hide Held;
  }

  /** A page of a live range is in the histogram until the pass comes to it. */
  lemma StillLocked(before: map<nat, nat>, now: map<nat, nat>, live: seq<Range>, i: nat, start: nat, end: nat, at: nat, pageSize: nat)
    requires pageSize > 0 && i < |live| && Exact(before, live, pageSize) && live[i].size > 0
    requires start == Down(live[i].base, pageSize) && end == Down(live[i].base + live[i].size - 1, pageSize)
    requires start <= at <= end && at % pageSize == 0 && Partly(before, now, start, at, pageSize, -1)
    ensures at in now
  {
    hide Down, Count;
    ExactAt(before, live, pageSize, at);
    CountWithout(live, i, at, pageSize);
    assert Held(now, at) == Held(before, at);
  }
}
