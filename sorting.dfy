/**
 * In-place reordering of a slice: a sort by a caller-supplied order (what
 * Rust's `sort_unstable_by_key` promises) and the Fisher-Yates shuffle of
 * rand's `SliceRandom::shuffle`, with the random draws passed in.
 */
module Sorting {

  /** `le` is total and transitive, as the order a derived `Ord` key gives. */
  ghost predicate TotalPreorder<T(!new)>(le: (T, T) -> bool)
  {
    && (forall x, y :: le(x, y) || le(y, x))
    && (forall x, y, z :: le(x, y) && le(y, z) ==> le(x, z))
  }

  predicate SortedBy<T>(s: seq<T>, le: (T, T) -> bool)
  {
    forall i, j :: 0 <= i < j < |s| ==> le(s[i], s[j])
  }

  /** Exchanges two elements of `a`, as Rust's `slice::swap`. */
  method Swap<T>(a: array<T>, i: nat, j: nat)
    requires i < a.Length && j < a.Length
    modifies a
    ensures a[..] == old(a[..])[i := old(a[j])][j := old(a[i])]
    ensures multiset(a[..]) == old(multiset(a[..]))
  {
    a[i], a[j] := a[j], a[i];
  }

  /**
   * Sorts `a` in place by `le`. Nothing is promised about the relative
   * order of elements that `le` ranks equal.
   */
  method SortBy<T(!new)>(a: array<T>, le: (T, T) -> bool)
    requires TotalPreorder(le)
    modifies a
    ensures SortedBy(a[..], le)
    ensures multiset(a[..]) == old(multiset(a[..]))
  {
    var i := 0;
    while i < a.Length
      invariant 0 <= i <= a.Length
      invariant SortedBy(a[..i], le)
      invariant multiset(a[..]) == old(multiset(a[..]))
    {
      Insert(a, i, le);
      i := i + 1;
    }
    assert a[..] == a[..a.Length];
  }

  /** Moves a[i] down into the sorted prefix a[..i], so that a[..i + 1] is sorted. */
  method Insert<T(!new)>(a: array<T>, i: nat, le: (T, T) -> bool)
    requires TotalPreorder(le)
    requires i < a.Length && SortedBy(a[..i], le)
    modifies a
    ensures SortedBy(a[..i + 1], le)
    ensures multiset(a[..]) == old(multiset(a[..]))
  {
    InsertStart(a[..], i, le);
    var j := i;
    while j > 0 && !le(a[j - 1], a[j])
      invariant 0 <= j <= i
      invariant Inserting(a[..], j, i, le)
      invariant multiset(a[..]) == old(multiset(a[..]))
    {
      InsertStep(a[..], j, i, le);
      Swap(a, j - 1, j);
      j := j - 1;
    }
    InsertDone(a[..], j, i, le);
  }

  /**
   * The state of an insertion into s[..i + 1]: the element being moved
   * sits at j, everything else in s[..i + 1] is in order, and the
   * element at j ranks no higher than what follows it.
   */
  ghost predicate Inserting<T>(s: seq<T>, j: nat, i: nat, le: (T, T) -> bool)
    requires j <= i < |s|
  {
    && (forall p, q :: 0 <= p < q <= i && q != j ==> le(s[p], s[q]))
    && (forall p, q :: 0 <= p < j < q <= i ==> le(s[p], s[q]))
  }

  /** An insertion starts with the moving element at i and the prefix before it sorted. */
  lemma InsertStart<T>(s: seq<T>, i: nat, le: (T, T) -> bool)
    requires i < |s| && SortedBy(s[..i], le)
    ensures Inserting(s, i, i, le)
  {
  }

  /** Exchanging the moving element with a predecessor it ranks below keeps the insertion state. */
  lemma InsertStep<T(!new)>(s: seq<T>, j: nat, i: nat, le: (T, T) -> bool)
    requires TotalPreorder(le)
    requires 0 < j <= i < |s| && Inserting(s, j, i, le) && !le(s[j - 1], s[j])
    ensures Inserting(s[j - 1 := s[j]][j := s[j - 1]], j - 1, i, le)
  {
  }

  /** Once the moving element ranks no lower than its predecessor, s[..i + 1] is sorted. */
  lemma InsertDone<T(!new)>(s: seq<T>, j: nat, i: nat, le: (T, T) -> bool)
    requires TotalPreorder(le)
    requires j <= i < |s| && Inserting(s, j, i, le) && (j == 0 || le(s[j - 1], s[j]))
    ensures SortedBy(s[..i + 1], le)
  {
  }

  /**
   * Fisher-Yates: for i from |a| - 1 down to 1, exchange a[i] with a[j]
   * where j is drawn from 0..=i. `draw(i)` is the random number produced
   * for step i; the random source itself is not modelled.
   */
  method Shuffle<T>(a: array<T>, draw: nat -> nat)
    modifies a
    ensures multiset(a[..]) == old(multiset(a[..]))
  {
    var i := a.Length;
    while i > 1
      invariant 0 <= i <= a.Length
      invariant multiset(a[..]) == old(multiset(a[..]))
    {
      i := i - 1;
      Swap(a, i, draw(i) % (i + 1));
    }
  }

  /** Removing one element keeps a sequence sorted. */
  lemma RemoveAtSorted<T>(b: seq<T>, j: nat, le: (T, T) -> bool)
    requires j < |b| && SortedBy(b, le)
    ensures SortedBy(b[..j] + b[j + 1..], le)
  {
  }

  /** Removing element j takes one copy of it out of the multiset. */
  lemma RemoveAtMultiset<T>(b: seq<T>, j: nat)
    requires j < |b|
    ensures multiset(b[..j] + b[j + 1..]) == multiset(b) - multiset{b[j]}
  {
    assert b == b[..j] + [b[j]] + b[j + 1..];
  }

  /** An element of a multiset sits at some index of the sequence. */
  lemma IndexOf<T>(s: seq<T>, x: T) returns (j: nat)
    requires x in multiset(s)
    ensures j < |s| && s[j] == x
  {
    assert x in s;
    j :| 0 <= j < |s| && s[j] == x;
  }

  /** The first element of a sorted sequence ranks no higher than any element of it. */
  lemma FirstIsLeast<T(!new)>(s: seq<T>, x: T, le: (T, T) -> bool)
    requires TotalPreorder(le) && SortedBy(s, le) && x in multiset(s)
    ensures le(s[0], x)
  {
  }

  /** When b[j] ranks no higher than b[0], all of b[..j + 1] is one run of ties. */
  lemma TieRun<T(!new)>(b: seq<T>, j: nat, i: nat, le: (T, T) -> bool)
    requires TotalPreorder(le) && SortedBy(b, le)
    requires 0 < i <= j < |b| && le(b[j], b[0])
    ensures le(b[i], b[i - 1])
  {
  }

  /**
   * The inductive step of SortedPermutationsAgree: a[0] was found at b[j],
   * and the rest of `a` agrees with `b` without its element j.
   */
  lemma ExtendAgreement<T(!new)>(a: seq<T>, b: seq<T>, j: nat, rest: seq<T>, le: (T, T) -> bool)
    requires TotalPreorder(le) && SortedBy(b, le)
    requires 0 < |a| == |b| && j < |b| && b[j] == a[0] && le(a[0], b[0])
    requires rest == b[..j] + b[j + 1..]
    requires forall i :: 0 <= i < |a[1..]| ==> le(a[1..][i], rest[i]) && le(rest[i], a[1..][i])
    ensures forall i :: 0 <= i < |a| ==> le(a[i], b[i]) && le(b[i], a[i])
  {
    forall i | 0 <= i < |a| ensures le(a[i], b[i]) && le(b[i], a[i]) {
      if i == 0 {
        assert j == 0 || le(b[0], b[j]);
      } else {
        assert a[1..][i - 1] == a[i];
        if i <= j {
          assert rest[i - 1] == b[i - 1];
          TieRun(b, j, i, le);
          assert le(a[i], b[i - 1]) && le(b[i - 1], a[i]);
          assert le(b[i - 1], b[i]);
        } else {
          assert rest[i - 1] == b[i];
        }
      }
    }
  }

  /**
   * Takes a[0] out of both sides: it sits at some index j of b, ranks no
   * higher than b[0], and what remains of each side is again sorted and
   * holds the same elements.
   */
  lemma DropFirst<T(!new)>(a: seq<T>, b: seq<T>, le: (T, T) -> bool) returns (j: nat, rest: seq<T>)
    requires TotalPreorder(le)
    requires SortedBy(a, le) && SortedBy(b, le) && multiset(a) == multiset(b) && |a| > 0
    ensures j < |b| && b[j] == a[0] && le(a[0], b[0]) && rest == b[..j] + b[j + 1..]
    ensures SortedBy(a[1..], le) && SortedBy(rest, le) && multiset(a[1..]) == multiset(rest)
  {
    assert a[0] in multiset(b);
    j := IndexOf(b, a[0]);
    rest := b[..j] + b[j + 1..];
    assert le(a[0], b[0]) by {
      FirstIsLeast(a, b[0], le);
    }
    assert SortedBy(a[1..], le) && SortedBy(rest, le) by {
      RemoveAtSorted(b, j, le);
      RemoveAtSorted(a, 0, le);
      assert a[..0] + a[1..] == a[1..];
    }
    assert multiset(a[1..]) == multiset(rest) by {
      calc {
        multiset(a[1..]);
        { assert a == [a[0]] + a[1..]; }
        multiset(a) - multiset{a[0]};
        multiset(b) - multiset{b[j]};
        { RemoveAtMultiset(b, j); }
        multiset(rest);
      }
    }
  }

  /**
   * A sort by a total preorder is determined up to ties: two sorted
   * permutations of the same elements have, position by position,
   * elements that `le` ranks equal.
   */
  lemma {:induction false} SortedPermutationsAgree<T(!new)>(a: seq<T>, b: seq<T>, le: (T, T) -> bool)
    requires TotalPreorder(le)
    requires SortedBy(a, le) && SortedBy(b, le) && multiset(a) == multiset(b)
    ensures |a| == |b|
    ensures forall i :: 0 <= i < |a| ==> le(a[i], b[i]) && le(b[i], a[i])
    decreases |a|
  {
    assert |a| == |b| by {
      assert |a| == |multiset(a)| == |multiset(b)| == |b|;
    }
    if |a| > 0 {
      var j, rest := DropFirst(a, b, le);
      SortedPermutationsAgree(a[1..], rest, le);
      ExtendAgreement(a, b, j, rest, le);
    }
  }
}
