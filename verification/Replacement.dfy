/** Which of two versions of a transaction replaces the other. */
module Replacement {
  const MAX_SEQUENCE: nat := 0xFFFF_FFFF

  type Sequence = n: nat | n <= MAX_SEQUENCE

  datatype TxIn = TxIn(prevout: int, nSequence: Sequence)

  /** The inputs are the same ones, in the same order. */
  predicate SamePrevouts(vin: seq<TxIn>, was: seq<TxIn>) {
    |vin| == |was| && forall i | 0 <= i < |vin| :: vin[i].prevout == was[i].prevout
  }

  predicate Differs(vin: seq<TxIn>, was: seq<TxIn>, i: int)
    requires |vin| == |was|
  {
    0 <= i < |vin| && vin[i].nSequence != was[i].nSequence
  }

  /** The least sequence number of the old version, over the inputs whose numbers differ, is
      below all those of the new version. */
  ghost predicate Newer(vin: seq<TxIn>, was: seq<TxIn>) {
    SamePrevouts(vin, was) && exists i :: Lowest(vin, was, i, |vin|)
  }

  ghost predicate Lowest(vin: seq<TxIn>, was: seq<TxIn>, i: int, n: nat)
    requires |vin| == |was| && n <= |vin|
  {
    Differs(vin, was, i) && i < n
    && forall j | 0 <= j < n && Differs(vin, was, j) :: was[i].nSequence < vin[j].nSequence
  }

  /** All the differing numbers before `n` are at least `low`. */
  ghost predicate AtLeast(vin: seq<TxIn>, was: seq<TxIn>, low: nat, n: nat)
    requires |vin| == |was| && n <= |vin|
  {
    forall j | 0 <= j < n && Differs(vin, was, j) :: low <= vin[j].nSequence && low <= was[j].nSequence
  }

  method IsNewerThan(vin: seq<TxIn>, was: seq<TxIn>) returns (fNewer: bool)
    ensures fNewer <==> Newer(vin, was)
  {
    if |vin| != |was| {
      return false;
    }
    for i := 0 to |vin|
      invariant forall j | 0 <= j < i :: vin[j].prevout == was[j].prevout
    {
      if vin[i].prevout != was[i].prevout {
        return false;
      }
    }
    fNewer := false;
    var nLowest := MAX_SEQUENCE;
    for i := 0 to |vin|
      invariant AtLeast(vin, was, nLowest, i)
      invariant fNewer ==> exists k :: Lowest(vin, was, k, i) && was[k].nSequence == nLowest
      invariant !fNewer ==> nLowest == MAX_SEQUENCE || exists k :: 0 <= k < i && Differs(vin, was, k) && vin[k].nSequence == nLowest
    {
      if vin[i].nSequence != was[i].nSequence {
        ghost var low, newer := nLowest, fNewer;
        if vin[i].nSequence <= nLowest {
          fNewer := false;
          nLowest := vin[i].nSequence;
        }
        if was[i].nSequence < nLowest {
          fNewer := true;
          nLowest := was[i].nSequence;
        }
        assert Differs(vin, was, i);
        if fNewer {
          if was[i].nSequence == nLowest && was[i].nSequence < low {
            assert Lowest(vin, was, i, i + 1);
          } else {
            ghost var k :| Lowest(vin, was, k, i) && was[k].nSequence == low;
            assert Lowest(vin, was, k, i + 1);
          }
        }
      } else if fNewer {
        ghost var k :| Lowest(vin, was, k, i) && was[k].nSequence == nLowest;
        assert Lowest(vin, was, k, i + 1);
      }
    }
  }

  lemma NewerIrreflexive(a: seq<TxIn>)
    ensures !Newer(a, a)
  {
  }

  lemma NewerAsymmetric(a: seq<TxIn>, b: seq<TxIn>)
    requires Newer(a, b)
    ensures !Newer(b, a)
  {
    var i :| Lowest(a, b, i, |a|);
    if Newer(b, a) {
      var k :| Lowest(b, a, k, |b|);
      assert Differs(a, b, k) && Differs(b, a, i);
      assert false;
    }
  }

  /** The order is transitive: whatever the numbers in between, no input need differ in both steps. */
  lemma NewerTransitive(a: seq<TxIn>, b: seq<TxIn>, c: seq<TxIn>)
    requires Newer(a, b) && Newer(b, c)
    ensures Newer(a, c)
  {
    var p :| Lowest(a, b, p, |a|);
    var q :| Lowest(b, c, q, |b|);
    forall j | Differs(a, c, j)
      ensures Differs(a, b, j) || (Differs(b, c, j) && a[j].nSequence == b[j].nSequence)
    {
    }
    if c[q].nSequence <= b[p].nSequence {
      assert Differs(a, b, q) ==> b[p].nSequence < a[q].nSequence;
      assert Lowest(a, c, q, |a|);
    } else {
      assert !Differs(b, c, p);
      assert Lowest(a, c, p, |a|);
    }
  }

  /** A transaction that goes through replacements never comes back to an earlier version. */
  lemma {:induction false} ReplacementsNeverReturn(versions: seq<seq<TxIn>>)
    requires |versions| > 1
    requires forall k | 0 < k < |versions| :: Newer(versions[k], versions[k - 1])
    ensures Newer(versions[|versions| - 1], versions[0])
    ensures versions[|versions| - 1] != versions[0]
  {
    var n := |versions| - 1;
    if n > 1 {
      var before := versions[..n];
      ReplacementsNeverReturn(before);
      NewerTransitive(versions[n], versions[n - 1], versions[0]);
    }
    NewerIrreflexive(versions[0]);
  }

  /** A version replaces another when it spends the same outputs in the same order, and of the numbers that
      differ some old one is below all the new ones. */
  lemma NewerExactly(vin: seq<TxIn>, was: seq<TxIn>)
    ensures Newer(vin, was) <==>
              && |vin| == |was| && (forall i | 0 <= i < |vin| :: vin[i].prevout == was[i].prevout)
              && exists i | 0 <= i < |vin| ::
                   vin[i].nSequence != was[i].nSequence
                   && forall j | 0 <= j < |vin| && vin[j].nSequence != was[j].nSequence :: was[i].nSequence < vin[j].nSequence
  {
    if SamePrevouts(vin, was) {
      forall i | 0 <= i < |vin|
        ensures Lowest(vin, was, i, |vin|) <==>
                  && vin[i].nSequence != was[i].nSequence
                  && forall j | 0 <= j < |vin| && vin[j].nSequence != was[j].nSequence :: was[i].nSequence < vin[j].nSequence
      {
      }
    }
  }
}
