/**
 * The change-spend policy: which of the wallet's unspent outputs coin
 * selection may consider, decided only by whether an output is change.
 */
module ChangeSpend {
  import opened Bitcoin

  datatype ChangeSpendPolicy = ChangeAllowed | OnlyChange | ChangeForbidden
  {
    /** Whether the policy lets coin selection consider `u`. */
    predicate Admits(u: Utxo)
      ensures ChangeAllowed? ==> Admits(u)
      ensures !ChangeAllowed? ==> (Admits(u) <==> (u.isInternal <==> OnlyChange?))
    {
      match this
      case ChangeAllowed => true
      case OnlyChange => u.isInternal
      case ChangeForbidden => !u.isInternal
    }

    /**
     * Keeps the admitted outputs, every copy of each, in their original
     * order, and nothing else.
     */
    function FilterUtxos(utxos: seq<Utxo>): (r: seq<Utxo>)
      ensures ChangeAllowed? ==> r == utxos
      ensures forall u :: u in r ==> Admits(u)
      ensures forall u :: multiset(r)[u] == if Admits(u) then multiset(utxos)[u] else 0
      ensures IsSubsequence(r, utxos)
    {
      match this
      case ChangeAllowed => SubsequenceReflexive(utxos); utxos
      case OnlyChange => WithFlag(utxos, true)
      case ChangeForbidden => WithFlag(utxos, false)
    }
  }

  /** The policy a builder starts with. */
  function DefaultPolicy(): (p: ChangeSpendPolicy)
    ensures p.ChangeAllowed?
  {
    ChangeAllowed
  }

  /** `r` can be obtained from `s` by deleting elements. */
  predicate IsSubsequence<T(==)>(r: seq<T>, s: seq<T>)
    decreases |s|
  {
    r == [] || (s != [] && if r[0] == s[0] then IsSubsequence(r[1..], s[1..]) else IsSubsequence(r, s[1..]))
  }

  lemma {:induction false} SubsequenceReflexive<T>(s: seq<T>)
    ensures IsSubsequence(s, s)
    decreases |s|
  {
    if s != [] {
      SubsequenceReflexive(s[1..]);
    }
  }

  /** A subsequence holds no element more often than the sequence does. */
  lemma {:induction false} SubsequenceMultiset<T>(r: seq<T>, s: seq<T>)
    requires IsSubsequence(r, s)
    ensures multiset(r) <= multiset(s)
    decreases |s|
  {
    if r != [] {
      assert s == [s[0]] + s[1..];
      if r[0] == s[0] {
        SubsequenceMultiset(r[1..], s[1..]);
        assert r == [r[0]] + r[1..];
      } else {
        SubsequenceMultiset(r, s[1..]);
      }
    }
  }

  /** The outputs of `utxos` whose change flag equals `internal`, in order. */
  function WithFlag(utxos: seq<Utxo>, internal: bool): (r: seq<Utxo>)
    ensures forall u :: u in r ==> u.isInternal == internal
    ensures forall u :: multiset(r)[u] == if u.isInternal == internal then multiset(utxos)[u] else 0
    ensures IsSubsequence(r, utxos)
    decreases |utxos|
  {
    if utxos == [] then []
    else
      var rest := WithFlag(utxos[1..], internal);
      assert utxos == [utxos[0]] + utxos[1..];
      if utxos[0].isInternal == internal then
        assert ([utxos[0]] + rest)[1..] == rest;
        [utxos[0]] + rest
      else
        rest
  }

  /**
   * The contract of WithFlag pins its result down: a subsequence of
   * `utxos` holding exactly the outputs with the flag, with their
   * multiplicities, is WithFlag's result.
   */
  lemma {:induction false} WithFlagIsUnique(r: seq<Utxo>, utxos: seq<Utxo>, internal: bool)
    requires IsSubsequence(r, utxos)
    requires forall u :: u in r ==> u.isInternal == internal
    requires forall u :: multiset(r)[u] == if u.isInternal == internal then multiset(utxos)[u] else 0
    ensures r == WithFlag(utxos, internal)
    decreases |utxos|
  {
    if utxos != [] {
      var x, s' := utxos[0], utxos[1..];
      assert utxos == [x] + s';
      if r != [] && r[0] == x {
        assert r == [x] + r[1..];
        assert forall u :: multiset(r[1..])[u] == if u.isInternal == internal then multiset(s')[u] else 0 by {
          forall u ensures multiset(r[1..])[u] == if u.isInternal == internal then multiset(s')[u] else 0 {
            assert multiset(r)[u] == multiset(r[1..])[u] + (if u == x then 1 else 0);
          }
        }
        WithFlagIsUnique(r[1..], s', internal);
      } else {
        assert IsSubsequence(r, s');
        SubsequenceMultiset(r, s');
        // r keeps every flagged copy but skipped x, so x is not flagged
        assert x.isInternal != internal by {
          assert multiset(utxos)[x] == multiset(s')[x] + 1;
        }
        WithFlagIsUnique(r, s', internal);
      }
    }
  }

  /**
   * FilterUtxos's contract characterises it completely: any order-keeping
   * selection of exactly the admitted outputs is its result.
   */
  lemma FilterUtxosIsUnique(p: ChangeSpendPolicy, r: seq<Utxo>, utxos: seq<Utxo>)
    requires IsSubsequence(r, utxos)
    requires forall u :: u in r ==> p.Admits(u)
    requires forall u :: multiset(r)[u] == if p.Admits(u) then multiset(utxos)[u] else 0
    ensures r == p.FilterUtxos(utxos)
  {
    match p
    case ChangeAllowed =>
      assert multiset(r) == multiset(utxos);
      SubsequenceOfSameSize(r, utxos);
    case OnlyChange =>
      WithFlagIsUnique(r, utxos, true);
    case ChangeForbidden =>
      WithFlagIsUnique(r, utxos, false);
  }

  lemma {:induction false} SubsequenceLength<T>(r: seq<T>, s: seq<T>)
    requires IsSubsequence(r, s)
    ensures |r| <= |s|
    decreases |s|
  {
    if r != [] {
      if r[0] == s[0] {
        SubsequenceLength(r[1..], s[1..]);
      } else {
        SubsequenceLength(r, s[1..]);
      }
    }
  }

  /** A subsequence as long as the sequence is the sequence itself. */
  lemma {:induction false} SubsequenceOfSameSize<T>(r: seq<T>, s: seq<T>)
    requires IsSubsequence(r, s) && |r| == |s|
    ensures r == s
    decreases |s|
  {
    if r != [] {
      if r[0] == s[0] {
        SubsequenceOfSameSize(r[1..], s[1..]);
        assert r == [r[0]] + r[1..] && s == [s[0]] + s[1..];
      } else {
        SubsequenceLength(r, s[1..]);
        assert false;
      }
    }
  }

  /**
   * OnlyChange and ChangeForbidden split the outputs between them: no
   * output passes both, their lengths add up to the input's, and together
   * they hold what ChangeAllowed keeps.
   */
  lemma PoliciesPartition(utxos: seq<Utxo>)
    ensures var change, nonChange := OnlyChange.FilterUtxos(utxos), ChangeForbidden.FilterUtxos(utxos);
      && (forall u :: !(u in change && u in nonChange))
      && multiset(change) + multiset(nonChange) == multiset(ChangeAllowed.FilterUtxos(utxos))
      && |change| + |nonChange| == |utxos|
  {
  }

  /** The outputs of the repository's change-policy tests: one external, one change. */
  const TEST_UTXOS: seq<Utxo> := [
    Utxo(OutPoint(seq(32, _ => 0), 0), TxOut(0xFFFF_FFFF_FFFF_FFFF, []), false),
    Utxo(OutPoint(seq(32, _ => 0), 1), TxOut(0xFFFF_FFFF_FFFF_FFFF, []), true)]

  /**
   * The repository's tests: the default policy keeps both outputs, each
   * restrictive policy keeps one, of the expected kind.
   */
  lemma FilterTestVectors()
    ensures |DefaultPolicy().FilterUtxos(TEST_UTXOS)| == 2
    ensures var r := ChangeForbidden.FilterUtxos(TEST_UTXOS); |r| == 1 && !r[0].isInternal
    ensures var r := OnlyChange.FilterUtxos(TEST_UTXOS); |r| == 1 && r[0].isInternal
  {
    PoliciesPartition(TEST_UTXOS);
  }
}
