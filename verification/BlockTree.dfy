/** The block index: blocks linked to their predecessors. */
module BlockTree {
  import opened Basics

  /** A pointer to a block of the index, with what it leads back to. */
  datatype Pointer = Null | Block(hash: Uint256, pprev: Pointer)

  type Index = p: Pointer | p.Block? witness Block(0, Null)

  function Height(b: Index): nat {
    if b.pprev.Null? then 0 else 1 + Height(b.pprev)
  }

  /** The pointer `n` steps of pprev back. */
  function Back(b: Pointer, n: nat): Pointer {
    if n == 0 || b.Null? then b else Back(b.pprev, n - 1)
  }

  lemma {:induction false} BackHeight(b: Index, n: nat)
    ensures Back(b, n).Block? <==> n <= Height(b)
    ensures n <= Height(b) ==> Height(Back(b, n)) == Height(b) - n
  {
    if n > 0 {
      if b.pprev.Block? {
        BackHeight(b.pprev, n - 1);
      } else {
        BackNull(n - 1);
      }
    }
  }

  lemma BackNull(n: nat)
    ensures Back(Null, n) == Null
  {
  }

  lemma {:induction false} BackBack(b: Pointer, m: nat, n: nat)
    ensures Back(Back(b, m), n) == Back(b, m + n)
  {
    if b.Null? {
      BackNull(m);
      BackNull(n);
    } else if m > 0 {
      BackBack(b.pprev, m - 1, n);
    }
  }

  /** The block that `b` leads back to in the end. */
  function Origin(b: Index): Index {
    if b.pprev.Null? then b else Origin(b.pprev)
  }

  lemma {:induction false} OriginIsLast(b: Index)
    ensures Back(b, Height(b)) == Origin(b)
  {
    if b.pprev.Block? {
      OriginIsLast(b.pprev);
    }
  }

  /** `a` is `b` or a block that `b` leads back to. */
  predicate IsAncestor(a: Index, b: Index) {
    a == b || (b.pprev.Block? && IsAncestor(a, b.pprev))
  }

  lemma {:induction false} AncestorHeight(a: Index, b: Index)
    requires IsAncestor(a, b)
    ensures Height(a) <= Height(b) && (Height(a) == Height(b) ==> a == b)
  {
    if a != b {
      AncestorHeight(a, b.pprev);
    }
  }

  lemma {:induction false} AncestorTrans(a: Index, b: Index, c: Index)
    requires IsAncestor(a, b) && IsAncestor(b, c)
    ensures IsAncestor(a, c)
  {
    if b != c {
      AncestorTrans(a, b, c.pprev);
    }
  }

  /** The one ancestor at a height is the block that many steps back. */
  lemma {:induction false} AncestorAt(a: Index, b: Index)
    requires Height(a) <= Height(b)
    ensures Back(b, Height(b) - Height(a)).Block?
    ensures IsAncestor(a, b) <==> Back(b, Height(b) - Height(a)) == a
  {
    BackHeight(b, Height(b) - Height(a));
    if Height(a) < Height(b) {
      AncestorAt(a, b.pprev);
    } else if a != b && b.pprev.Block? && IsAncestor(a, b.pprev) {
      AncestorHeight(a, b.pprev);
    }
  }

  /** `b` and all it leads back to are in the index, each under its own hash. */
  ghost predicate InIndex(b: Index, index: map<Uint256, Index>) {
    b.hash in index && index[b.hash] == b && (b.pprev.Block? ==> InIndex(b.pprev, index))
  }

  ghost predicate TreeOk(index: map<Uint256, Index>) {
    forall h | h in index :: index[h].hash == h && InIndex(index[h], index)
  }

  lemma {:induction false} InIndexBack(b: Index, index: map<Uint256, Index>, n: nat)
    requires InIndex(b, index) && n <= Height(b)
    ensures Back(b, n).Block? && InIndex(Back(b, n), index)
  {
    BackHeight(b, n);
    if n > 0 {
      InIndexBack(b.pprev, index, n - 1);
    }
  }

  lemma {:induction false} InIndexGrows(b: Index, index: map<Uint256, Index>, more: map<Uint256, Index>)
    requires InIndex(b, index) && forall h | h in index :: h in more && more[h] == index[h]
    ensures InIndex(b, more)
  {
    if b.pprev.Block? {
      InIndexGrows(b.pprev, index, more);
    }
  }

  /** An index stays a tree when a block on top of one of its blocks is added. */
  lemma AddBlockOk(index: map<Uint256, Index>, b: Index)
    requires TreeOk(index) && b.hash !in index
    requires b.pprev.Block? ==> b.pprev.hash in index && index[b.pprev.hash] == b.pprev
    ensures TreeOk(index[b.hash := b])
  {
    var more := index[b.hash := b];
    forall h | h in more
      ensures more[h].hash == h && InIndex(more[h], more)
    {
      if h == b.hash {
        if b.pprev.Block? {
          InIndexGrows(b.pprev, index, more);
        }
      } else {
        InIndexGrows(index[h], index, more);
      }
    }
  }
}
