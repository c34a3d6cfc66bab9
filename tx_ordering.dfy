/**
 * The strategies for ordering an assembled transaction's inputs and
 * outputs: leave them, shuffle the outputs, or sort both by the keys that
 * BIP 69 ("Lexicographical Indexing of Transaction Inputs and Outputs")
 * names: (previous txid, previous vout) for inputs and (value, script)
 * for outputs.
 */
module TxOrder {
  import opened Bitcoin
  import opened Sorting

  datatype TxOrdering = Shuffle | Untouched | BIP69Lexicographic
  {
    /**
     * Rearranges `tx` in place. `draw` stands for the random source the
     * shuffle consumes (one draw per step, see Sorting.Shuffle).
     */
    method SortTx(tx: Transaction, draw: nat -> nat)
      modifies tx.input, tx.output
      ensures Untouched? ==> tx.input[..] == old(tx.input[..]) && tx.output[..] == old(tx.output[..])
      ensures Shuffle? ==> tx.input[..] == old(tx.input[..])
      ensures Shuffle? ==> multiset(tx.output[..]) == old(multiset(tx.output[..]))
      ensures BIP69Lexicographic? ==>
        && SortedBy(tx.input[..], InputLe) && multiset(tx.input[..]) == old(multiset(tx.input[..]))
        && SortedBy(tx.output[..], OutputLe) && multiset(tx.output[..]) == old(multiset(tx.output[..]))
    {
      match this
      case Untouched =>
      case Shuffle =>
        Sorting.Shuffle(tx.output, draw);
      case BIP69Lexicographic =>
        InputOrderIsTotalPreorder();
        OutputOrderIsTotalPreorder();
        SortBy(tx.input, InputLe);
        SortBy(tx.output, OutputLe);
    }
  }

  /** The ordering a builder starts with. */
  function DefaultOrdering(): (o: TxOrdering)
    ensures o.Shuffle?
  {
    Shuffle
  }

  /**
   * The order of the input sort key (previous txid, previous vout): the
   * txids compared byte by byte in serialized order, the first differing
   * byte deciding, and only equal txids compared by vout.
   */
  predicate InputLe(x: TxIn, y: TxIn)
    ensures InputLe(x, y) <==>
      var p, q := x.previousOutput, y.previousOutput;
      (exists k: nat :: FirstDifferenceIsSmaller(p.txid, q.txid, k)) || (p.txid == q.txid && p.vout <= q.vout)
  {
    var p, q := x.previousOutput, y.previousOutput;
    LexLeIsLexicographic(p.txid, q.txid);
    LexLt(p.txid, q.txid) || (p.txid == q.txid && p.vout <= q.vout)
  }

  /**
   * The order of the output sort key (value, script): values compared as
   * numbers, and only equal values compared by script, lexicographically
   * with a proper prefix first.
   */
  predicate OutputLe(x: TxOut, y: TxOut)
    ensures OutputLe(x, y) <==>
      var a, b := x.scriptPubkey, y.scriptPubkey;
      x.value < y.value || (x.value == y.value && (IsPrefix(a, b) || exists k: nat :: FirstDifferenceIsSmaller(a, b, k)))
  {
    LexLeIsLexicographic(x.scriptPubkey, y.scriptPubkey);
    x.value < y.value || (x.value == y.value && LexLe(x.scriptPubkey, y.scriptPubkey))
  }

  lemma LexLtTransitive(a: seq<Byte>, b: seq<Byte>, c: seq<Byte>)
    requires LexLt(a, b) && LexLt(b, c)
    ensures LexLt(a, c)
  {
    LexLeTransitive(a, b, c);
    if a == c {
      LexLeAntisymmetric(b, c);
    }
  }

  lemma InputOrderIsTotalPreorder()
    ensures TotalPreorder(InputLe)
  {
    forall x, y ensures InputLe(x, y) || InputLe(y, x) {
      LexLeTotal(x.previousOutput.txid, y.previousOutput.txid);
    }
    forall x, y, z | InputLe(x, y) && InputLe(y, z) ensures InputLe(x, z) {
      var a, b, c := x.previousOutput.txid, y.previousOutput.txid, z.previousOutput.txid;
      if LexLt(a, b) && LexLt(b, c) {
        LexLtTransitive(a, b, c);
      }
    }
  }

  lemma OutputOrderIsTotalPreorder()
    ensures TotalPreorder(OutputLe)
  {
    forall x, y ensures OutputLe(x, y) || OutputLe(y, x) {
      LexLeTotal(x.scriptPubkey, y.scriptPubkey);
    }
    forall x, y, z | OutputLe(x, y) && OutputLe(y, z) ensures OutputLe(x, z) {
      if x.value == y.value == z.value {
        LexLeTransitive(x.scriptPubkey, y.scriptPubkey, z.scriptPubkey);
      }
    }
  }

  /** Two inputs tie under BIP 69 exactly when they spend the same outpoint. */
  lemma InputTiesShareOutpoint(x: TxIn, y: TxIn)
    ensures InputLe(x, y) && InputLe(y, x) <==> x.previousOutput == y.previousOutput
  {
    var a, b := x.previousOutput.txid, y.previousOutput.txid;
    if LexLt(a, b) && LexLt(b, a) {
      LexLeAntisymmetric(a, b);
    }
    if a == b {
      LexLeReflexive(a);
    }
  }

  /** Outputs tie under BIP 69 only when they are identical. */
  lemma OutputTiesAreEqual(x: TxOut, y: TxOut)
    ensures OutputLe(x, y) && OutputLe(y, x) <==> x == y
  {
    if OutputLe(x, y) && OutputLe(y, x) {
      LexLeAntisymmetric(x.scriptPubkey, y.scriptPubkey);
    }
    LexLeReflexive(x.scriptPubkey);
  }

  /**
   * The BIP 69 input order is determined by the inputs alone: any two
   * orderings that are sorted and hold the same inputs spend the same
   * outpoints in the same order. So sorting twice changes no outpoint's
   * position; only inputs spending one outpoint may trade places.
   */
  lemma Bip69InputOrderDetermined(a: seq<TxIn>, b: seq<TxIn>)
    requires SortedBy(a, InputLe) && SortedBy(b, InputLe) && multiset(a) == multiset(b)
    ensures |a| == |b|
    ensures forall i :: 0 <= i < |a| ==> a[i].previousOutput == b[i].previousOutput
  {
    InputOrderIsTotalPreorder();
    SortedPermutationsAgree(a, b, InputLe);
    forall i | 0 <= i < |a| ensures a[i].previousOutput == b[i].previousOutput {
      InputTiesShareOutpoint(a[i], b[i]);
    }
  }

  /**
   * The BIP 69 output order is fully determined: any two sorted orderings
   * of the same outputs are equal, so sorting is idempotent on outputs.
   */
  lemma Bip69OutputOrderDetermined(a: seq<TxOut>, b: seq<TxOut>)
    requires SortedBy(a, OutputLe) && SortedBy(b, OutputLe) && multiset(a) == multiset(b)
    ensures a == b
  {
    OutputOrderIsTotalPreorder();
    SortedPermutationsAgree(a, b, OutputLe);
    forall i | 0 <= i < |a| ensures a[i] == b[i] {
      OutputTiesAreEqual(a[i], b[i]);
    }
  }

  const TXID_C26F: Txid := [
    0xC2, 0x6F, 0x3E, 0xB7, 0x93, 0x2F, 0x7A, 0xCD, 0xDC, 0x5D, 0xDD, 0x26, 0x60, 0x2B, 0x77, 0xE7,
    0x51, 0x60, 0x79, 0xB0, 0x30, 0x90, 0xA1, 0x6E, 0x2C, 0x2F, 0x54, 0x85, 0xD1, 0xFD, 0x60, 0x0F]
  const TXID_571F: Txid := [
    0x57, 0x1F, 0xB3, 0xE0, 0x22, 0x78, 0x21, 0x78, 0x52, 0xDD, 0x5D, 0x29, 0x99, 0x47, 0xE2, 0xB7,
    0x35, 0x4A, 0x63, 0x9A, 0xDC, 0x32, 0xEC, 0x1F, 0xA7, 0xB8, 0x2C, 0xFB, 0x5D, 0xEC, 0x53, 0x0E]

  /** The inputs and outputs of the repository's BIP 69 test transaction. */
  const TEST_INPUTS: seq<TxIn> := [
    TxIn(OutPoint(TXID_C26F, 1), [], 0xFFFF_FFFF, []),
    TxIn(OutPoint(TXID_C26F, 0), [], 0xFFFF_FFFF, []),
    TxIn(OutPoint(TXID_571F, 5), [], 0xFFFF_FFFF, [])]
  const TEST_OUTPUTS: seq<TxOut> := [TxOut(1000, [0xAA, 0xEE]), TxOut(1000, [0xAA]), TxOut(800, [0xFF])]

  /** The order the test expects is a sorted permutation of the test inputs. */
  lemma ExpectedInputsSorted()
    ensures var e := [TEST_INPUTS[2], TEST_INPUTS[1], TEST_INPUTS[0]];
      SortedBy(e, InputLe) && multiset(e) == multiset(TEST_INPUTS)
  {
    assert LexLt(TXID_571F, TXID_C26F) by {
      assert TXID_571F[0] < TXID_C26F[0];
    }
  }

  /** The order the test expects is a sorted permutation of the test outputs. */
  lemma ExpectedOutputsSorted()
    ensures var e := [TEST_OUTPUTS[2], TEST_OUTPUTS[1], TEST_OUTPUTS[0]];
      SortedBy(e, OutputLe) && multiset(e) == multiset(TEST_OUTPUTS)
  {
    assert LexLe([0xAA], [0xAA, 0xEE]) by {
      assert LexLe([], [0xEE]);
    }
  }

  /**
   * Any BIP 69-sorted arrangement of the test transaction's inputs and
   * outputs is the one the repository's test expects.
   */
  lemma Bip69TestOrder(ins: seq<TxIn>, outs: seq<TxOut>)
    requires SortedBy(ins, InputLe) && multiset(ins) == multiset(TEST_INPUTS)
    requires SortedBy(outs, OutputLe) && multiset(outs) == multiset(TEST_OUTPUTS)
    ensures |ins| == 3
    ensures [ins[0].previousOutput, ins[1].previousOutput, ins[2].previousOutput]
         == [OutPoint(TXID_571F, 5), OutPoint(TXID_C26F, 0), OutPoint(TXID_C26F, 1)]
    ensures outs == [TxOut(800, [0xFF]), TxOut(1000, [0xAA]), TxOut(1000, [0xAA, 0xEE])]
  {
    ExpectedInputsSorted();
    ExpectedOutputsSorted();
    Bip69InputOrderDetermined(ins, [TEST_INPUTS[2], TEST_INPUTS[1], TEST_INPUTS[0]]);
    Bip69OutputOrderDetermined(outs, [TEST_OUTPUTS[2], TEST_OUTPUTS[1], TEST_OUTPUTS[0]]);
  }

  /**
   * The repository's BIP 69 test: after sorting, the inputs spend
   * 571f..:5, c26f..:0, c26f..:1 (txids in serialized byte order) and the
   * outputs are (800, FF), (1000, AA), (1000, AA EE).
   */
  method Bip69TestVector() returns (prevouts: seq<OutPoint>, outputs: seq<TxOut>)
    ensures prevouts == [OutPoint(TXID_571F, 5), OutPoint(TXID_C26F, 0), OutPoint(TXID_C26F, 1)]
    ensures outputs == [TxOut(800, [0xFF]), TxOut(1000, [0xAA]), TxOut(1000, [0xAA, 0xEE])]
  {
    var tx := new Transaction(2, 0, TEST_INPUTS, TEST_OUTPUTS);
    BIP69Lexicographic.SortTx(tx, _ => 0);
    Bip69TestOrder(tx.input[..], tx.output[..]);
    prevouts := [tx.input[0].previousOutput, tx.input[1].previousOutput, tx.input[2].previousOutput];
    outputs := tx.output[..];
  }
}
