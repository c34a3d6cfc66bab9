/**
 * The Bitcoin value types the wallet's ordering and change-policy code
 * works on (they come from rust-bitcoin and from the crate's `types`
 * module), with the fixed-width integers written out as bounded subset
 * types, and the byte-string order that Rust derives for scripts and
 * transaction ids.
 */
module Bitcoin {

  type Byte = x: int | 0 <= x < 0x100
  type U32 = x: int | 0 <= x < 0x1_0000_0000
  type U64 = x: int | 0 <= x < 0x1_0000_0000_0000_0000
  type I32 = x: int | -0x8000_0000 <= x < 0x8000_0000

  /** A transaction id: the 32 bytes of a double SHA-256 hash. */
  type Txid = s: seq<Byte> | |s| == 32 witness seq(32, _ => 0)

  /** A script is an arbitrary byte string. */
  type Script = seq<Byte>

  /** A reference to output `vout` of the transaction `txid`. */
  datatype OutPoint = OutPoint(txid: Txid, vout: U32)

  datatype TxIn = TxIn(previousOutput: OutPoint, scriptSig: Script, sequence: U32, witnessStack: seq<seq<Byte>>)

  datatype TxOut = TxOut(value: U64, scriptPubkey: Script)

  /** An unspent output of the wallet; `isInternal` marks change outputs. */
  datatype Utxo = Utxo(outpoint: OutPoint, txout: TxOut, isInternal: bool)

  /**
   * An assembled transaction. Its input and output vectors are reordered
   * in place by the ordering strategies, so they are arrays here.
   */
  class Transaction {
    var version: I32
    var lockTime: U32
    var input: array<TxIn>
    var output: array<TxOut>

    constructor (version: I32, lockTime: U32, input: seq<TxIn>, output: seq<TxOut>)
      ensures this.version == version && this.lockTime == lockTime
      ensures this.input[..] == input && this.output[..] == output
      ensures fresh(this.input) && fresh(this.output)
    {
      this.version := version;
      this.lockTime := lockTime;
      this.input := new TxIn[|input|](i requires 0 <= i < |input| => input[i]);
      this.output := new TxOut[|output|](i requires 0 <= i < |output| => output[i]);
    }
  }

  /**
   * Lexicographic order on byte strings, as Rust orders byte slices: the
   * first differing byte decides, and a proper prefix comes first.
   */
  predicate LexLe(a: seq<Byte>, b: seq<Byte>)
  {
    a == [] || (b != [] && (a[0] < b[0] || (a[0] == b[0] && LexLe(a[1..], b[1..]))))
  }

  /** The strict version of `LexLe`. */
  predicate LexLt(a: seq<Byte>, b: seq<Byte>)
  {
    LexLe(a, b) && a != b
  }

  predicate IsPrefix(a: seq<Byte>, b: seq<Byte>)
  {
    |a| <= |b| && a == b[..|a|]
  }

  /** `a` and `b` agree on their first `k` bytes and differ upwards at byte `k`. */
  predicate FirstDifferenceIsSmaller(a: seq<Byte>, b: seq<Byte>, k: nat)
  {
    k < |a| && k < |b| && a[..k] == b[..k] && a[k] < b[k]
  }

  /**
   * `LexLe` agrees with the textbook definition of lexicographic order:
   * either `a` is a prefix of `b`, or at the first position where they
   * differ `a` has the smaller byte.
   */
  lemma {:induction false} LexLeIsLexicographic(a: seq<Byte>, b: seq<Byte>)
    ensures LexLe(a, b) <==> IsPrefix(a, b) || exists k: nat :: FirstDifferenceIsSmaller(a, b, k)
    decreases |a|
  {
    if a != [] && b != [] {
      LexLeIsLexicographic(a[1..], b[1..]);
      if a[0] < b[0] {
        assert FirstDifferenceIsSmaller(a, b, 0);
      }
      if LexLe(a, b) && a[0] == b[0] && !IsPrefix(a, b) {
        var k: nat :| FirstDifferenceIsSmaller(a[1..], b[1..], k);
        assert a[..k + 1] == [a[0]] + a[1..][..k] && b[..k + 1] == [b[0]] + b[1..][..k];
        assert FirstDifferenceIsSmaller(a, b, k + 1);
      }
      if IsPrefix(a, b) {
        assert a[0] == b[0] && IsPrefix(a[1..], b[1..]);
      }
      if k: nat :| FirstDifferenceIsSmaller(a, b, k) {
        if k > 0 {
          assert a[0] == a[..k][0] == b[..k][0] == b[0];
          assert a[1..][..k - 1] == a[..k][1..] && b[1..][..k - 1] == b[..k][1..];
          assert FirstDifferenceIsSmaller(a[1..], b[1..], k - 1);
        }
      }
    } else if a != [] {
      assert !IsPrefix(a, b) && forall k: nat :: !FirstDifferenceIsSmaller(a, b, k);
    }
  }

  lemma {:induction false} LexLeReflexive(a: seq<Byte>)
    ensures LexLe(a, a)
    decreases |a|
  {
    if a != [] {
      LexLeReflexive(a[1..]);
    }
  }

  lemma {:induction false} LexLeTotal(a: seq<Byte>, b: seq<Byte>)
    ensures LexLe(a, b) || LexLe(b, a)
    decreases |a|
  {
    if a != [] && b != [] && a[0] == b[0] {
      LexLeTotal(a[1..], b[1..]);
    }
  }

  lemma {:induction false} LexLeTransitive(a: seq<Byte>, b: seq<Byte>, c: seq<Byte>)
    requires LexLe(a, b) && LexLe(b, c)
    ensures LexLe(a, c)
    decreases |a|
  {
    if a != [] && a[0] == b[0] && b[0] == c[0] {
      LexLeTransitive(a[1..], b[1..], c[1..]);
    }
  }

  lemma {:induction false} LexLeAntisymmetric(a: seq<Byte>, b: seq<Byte>)
    requires LexLe(a, b) && LexLe(b, a)
    ensures a == b
    decreases |a|
  {
    if a != [] {
      LexLeAntisymmetric(a[1..], b[1..]);
      assert a == [a[0]] + a[1..] && b == [b[0]] + b[1..];
    }
  }
}
