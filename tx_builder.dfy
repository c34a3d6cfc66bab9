/**
 * The transaction builder: a record of every parameter the wallet needs
 * to assemble a transaction. Each setter consumes the builder and returns
 * it with one field replaced or appended to; the coin-selection strategy
 * can be swapped for one of another type.
 *
 * Types the builder only carries are type parameters: `Addr` (a
 * recipient address), `Rate` (a fee rate), `Path` (a policy-path map),
 * `SigHash` (a signature-hash mode) and `Cs` (the coin-selection strategy).
 */
module Builder {
  import opened Bitcoin
  import opened TxOrder
  import opened ChangeSpend

  datatype Option<T> = None | Some(value: T)
  {
    function GetOr(default: T): T
    {
      match this
      case Some(v) => v
      case None => default
    }
  }

  /** A transaction version number. */
  datatype Version = Version(n: U32)

  function DefaultVersion(): (v: Version)
    ensures v.n == 1
  {
    Version(1)
  }

  /**
   * The input sequence number EnableRbf uses: 0xFFFFFFFD, two below the
   * final value 0xFFFFFFFF, which signals replace-by-fee as BIP 125 defines it.
   */
  const RBF_DEFAULT_SEQUENCE: U32 := 0xFFFF_FFFD

  /** The fields of a builder other than its coin-selection strategy. */
  datatype Field =
    | Recipients | SendAll | FeeRate | PolicyPath | Utxos | Unspendable | Sighash
    | Ordering | LockTime | Rbf | TxVersion | ChangePolicy | ForceNonWitnessUtxo

  datatype TxBuilder<Addr, Rate, Path, SigHash, Cs> = TxBuilder(
    recipients: seq<(Addr, U64)>,
    sendAll: bool,
    feeRate: Option<Rate>,
    policyPath: Option<Path>,
    /** outpoints that must be spent; they win over `unspendable` */
    utxos: Option<seq<OutPoint>>,
    /** outpoints that must not be spent */
    unspendable: Option<seq<OutPoint>>,
    sighash: Option<SigHash>,
    ordering: TxOrdering,
    locktime: Option<U32>,
    /** the nSequence to put on inputs when replace-by-fee is enabled */
    rbf: Option<U32>,
    version: Option<Version>,
    changePolicy: ChangeSpendPolicy,
    forceNonWitnessUtxo: bool,
    coinSelection: Cs)
  {
    function SetRecipients(recipients: seq<(Addr, U64)>): (b: TxBuilder<Addr, Rate, Path, SigHash, Cs>)
      ensures b.recipients == recipients && AgreeExcept(this, b, Field.Recipients)
    {
      this.(recipients := recipients)
    }

    /** Appends one recipient after the existing ones. */
    function AddRecipient(address: Addr, amount: U64): (b: TxBuilder<Addr, Rate, Path, SigHash, Cs>)
      ensures |b.recipients| == |recipients| + 1
      ensures b.recipients[..|recipients|] == recipients && b.recipients[|recipients|] == (address, amount)
      ensures AgreeExcept(this, b, Field.Recipients)
    {
      this.(recipients := recipients + [(address, amount)])
    }

    function SendAll(): (b: TxBuilder<Addr, Rate, Path, SigHash, Cs>)
      ensures b.sendAll && AgreeExcept(this, b, Field.SendAll)
    {
      this.(sendAll := true)
    }

    function FeeRate(feeRate: Rate): (b: TxBuilder<Addr, Rate, Path, SigHash, Cs>)
      ensures b.feeRate == Some(feeRate) && AgreeExcept(this, b, Field.FeeRate)
    {
      this.(feeRate := Some(feeRate))
    }

    function PolicyPath(policyPath: Path): (b: TxBuilder<Addr, Rate, Path, SigHash, Cs>)
      ensures b.policyPath == Some(policyPath) && AgreeExcept(this, b, Field.PolicyPath)
    {
      this.(policyPath := Some(policyPath))
    }

    function Utxos(utxos: seq<OutPoint>): (b: TxBuilder<Addr, Rate, Path, SigHash, Cs>)
      ensures b.utxos == Some(utxos) && AgreeExcept(this, b, Field.Utxos)
    {
      this.(utxos := Some(utxos))
    }

    /** Appends to the must-spend list, starting it if it was unset. */
    function AddUtxo(utxo: OutPoint): (b: TxBuilder<Addr, Rate, Path, SigHash, Cs>)
      ensures utxos.None? ==> b.utxos == Some([utxo])
      ensures utxos.Some? ==> b.utxos == Some(utxos.value + [utxo])
      ensures AgreeExcept(this, b, Field.Utxos)
    {
      assert [] + [utxo] == [utxo];
      this.(utxos := Some(utxos.GetOr([]) + [utxo]))
    }

    function Unspendable(unspendable: seq<OutPoint>): (b: TxBuilder<Addr, Rate, Path, SigHash, Cs>)
      ensures b.unspendable == Some(unspendable) && AgreeExcept(this, b, Field.Unspendable)
    {
      this.(unspendable := Some(unspendable))
    }

    /** Appends to the must-not-spend list, starting it if it was unset. */
    function AddUnspendable(outpoint: OutPoint): (b: TxBuilder<Addr, Rate, Path, SigHash, Cs>)
      ensures unspendable.None? ==> b.unspendable == Some([outpoint])
      ensures unspendable.Some? ==> b.unspendable == Some(unspendable.value + [outpoint])
      ensures AgreeExcept(this, b, Field.Unspendable)
    {
      assert [] + [outpoint] == [outpoint];
      this.(unspendable := Some(unspendable.GetOr([]) + [outpoint]))
    }

    function Sighash(sighash: SigHash): (b: TxBuilder<Addr, Rate, Path, SigHash, Cs>)
      ensures b.sighash == Some(sighash) && AgreeExcept(this, b, Field.Sighash)
    {
      this.(sighash := Some(sighash))
    }

    function Ordering(ordering: TxOrdering): (b: TxBuilder<Addr, Rate, Path, SigHash, Cs>)
      ensures b.ordering == ordering && AgreeExcept(this, b, Field.Ordering)
    {
      this.(ordering := ordering)
    }

    function NLockTime(locktime: U32): (b: TxBuilder<Addr, Rate, Path, SigHash, Cs>)
      ensures b.locktime == Some(locktime) && AgreeExcept(this, b, Field.LockTime)
    {
      this.(locktime := Some(locktime))
    }

    /** Enables replace-by-fee with the default sequence number. */
    function EnableRbf(): (b: TxBuilder<Addr, Rate, Path, SigHash, Cs>)
      ensures b.rbf == Some(0xFFFF_FFFD) && AgreeExcept(this, b, Field.Rbf)
    {
      EnableRbfWithSequence(RBF_DEFAULT_SEQUENCE)
    }

    function EnableRbfWithSequence(nsequence: U32): (b: TxBuilder<Addr, Rate, Path, SigHash, Cs>)
      ensures b.rbf == Some(nsequence) && AgreeExcept(this, b, Field.Rbf)
    {
      this.(rbf := Some(nsequence))
    }

    function SetVersion(version: U32): (b: TxBuilder<Addr, Rate, Path, SigHash, Cs>)
      ensures b.version.Some? && b.version.value.n == version && AgreeExcept(this, b, Field.TxVersion)
    {
      this.(version := Some(Version(version)))
    }

    function DoNotSpendChange(): (b: TxBuilder<Addr, Rate, Path, SigHash, Cs>)
      ensures b.changePolicy == ChangeForbidden && AgreeExcept(this, b, Field.ChangePolicy)
    {
      this.(changePolicy := ChangeForbidden)
    }

    function OnlySpendChange(): (b: TxBuilder<Addr, Rate, Path, SigHash, Cs>)
      ensures b.changePolicy == OnlyChange && AgreeExcept(this, b, Field.ChangePolicy)
    {
      this.(changePolicy := OnlyChange)
    }

    function ChangePolicy(changePolicy: ChangeSpendPolicy): (b: TxBuilder<Addr, Rate, Path, SigHash, Cs>)
      ensures b.changePolicy == changePolicy && AgreeExcept(this, b, Field.ChangePolicy)
    {
      this.(changePolicy := changePolicy)
    }

    function ForceNonWitnessUtxo(): (b: TxBuilder<Addr, Rate, Path, SigHash, Cs>)
      ensures b.forceNonWitnessUtxo && AgreeExcept(this, b, Field.ForceNonWitnessUtxo)
    {
      this.(forceNonWitnessUtxo := true)
    }

    /**
     * Rebuilds the builder around another coin-selection strategy, of
     * possibly another type; every other field is carried over unchanged.
     */
    function CoinSelection<Cs'>(coinSelection: Cs'): (b: TxBuilder<Addr, Rate, Path, SigHash, Cs'>)
      ensures b.coinSelection == coinSelection
      ensures && b.recipients == recipients && b.sendAll == sendAll && b.feeRate == feeRate
              && b.policyPath == policyPath && b.utxos == utxos && b.unspendable == unspendable
              && b.sighash == sighash && b.ordering == ordering && b.locktime == locktime
              && b.rbf == rbf && b.version == version && b.changePolicy == changePolicy
              && b.forceNonWitnessUtxo == forceNonWitnessUtxo
    {
      TxBuilder(recipients, sendAll, feeRate, policyPath, utxos, unspendable, sighash,
                ordering, locktime, rbf, version, changePolicy, forceNonWitnessUtxo, coinSelection)
    }
  }

  /** `a` and `b` hold the same value in every field except possibly `f`. */
  ghost predicate AgreeExcept<Addr, Rate, Path, SigHash, Cs>(
    a: TxBuilder<Addr, Rate, Path, SigHash, Cs>, b: TxBuilder<Addr, Rate, Path, SigHash, Cs>, f: Field)
  {
    && (f.Recipients? || a.recipients == b.recipients)
    && (f.SendAll? || a.sendAll == b.sendAll)
    && (f.FeeRate? || a.feeRate == b.feeRate)
    && (f.PolicyPath? || a.policyPath == b.policyPath)
    && (f.Utxos? || a.utxos == b.utxos)
    && (f.Unspendable? || a.unspendable == b.unspendable)
    && (f.Sighash? || a.sighash == b.sighash)
    && (f.Ordering? || a.ordering == b.ordering)
    && (f.LockTime? || a.locktime == b.locktime)
    && (f.Rbf? || a.rbf == b.rbf)
    && (f.TxVersion? || a.version == b.version)
    && (f.ChangePolicy? || a.changePolicy == b.changePolicy)
    && (f.ForceNonWitnessUtxo? || a.forceNonWitnessUtxo == b.forceNonWitnessUtxo)
    && a.coinSelection == b.coinSelection
  }

  /**
   * A fresh builder around the strategy `coinSelection`: no recipients,
   * nothing optional set, both flags off, and the default ordering and
   * change policy.
   */
  function New<Addr, Rate, Path, SigHash, Cs>(coinSelection: Cs): (b: TxBuilder<Addr, Rate, Path, SigHash, Cs>)
    ensures b.recipients == [] && !b.sendAll && !b.forceNonWitnessUtxo
    ensures b.feeRate.None? && b.policyPath.None? && b.utxos.None? && b.unspendable.None?
    ensures b.sighash.None? && b.locktime.None? && b.rbf.None? && b.version.None?
    ensures b.ordering == DefaultOrdering() && b.changePolicy == DefaultPolicy()
    ensures b.coinSelection == coinSelection
  {
    TxBuilder([], false, None, None, None, None, None, DefaultOrdering(), None, None, None,
              DefaultPolicy(), false, coinSelection)
  }

  /** A fresh builder that already pays `recipients`. */
  function WithRecipients<Addr, Rate, Path, SigHash, Cs>(coinSelection: Cs, recipients: seq<(Addr, U64)>)
    : (b: TxBuilder<Addr, Rate, Path, SigHash, Cs>)
    ensures b.recipients == recipients
    ensures AgreeExcept(New(coinSelection), b, Field.Recipients)
  {
    New(coinSelection).SetRecipients(recipients)
  }

  /** The convenience setters are the general ones with a fixed argument. */
  lemma ShortcutsAreSpecialCases<Addr, Rate, Path, SigHash, Cs>(b: TxBuilder<Addr, Rate, Path, SigHash, Cs>)
    ensures b.EnableRbf() == b.EnableRbfWithSequence(0xFFFF_FFFD)
    ensures b.DoNotSpendChange() == b.ChangePolicy(ChangeForbidden)
    ensures b.OnlySpendChange() == b.ChangePolicy(OnlyChange)
  {
  }

  /** The replacing setters keep only the last value written. */
  lemma LastWriteWins<Addr, Rate, Path, SigHash, Cs>(b: TxBuilder<Addr, Rate, Path, SigHash, Cs>, r: Rate, r': Rate, n: U32, n': U32)
    ensures b.FeeRate(r).FeeRate(r') == b.FeeRate(r')
    ensures b.EnableRbfWithSequence(n).EnableRbfWithSequence(n') == b.EnableRbfWithSequence(n')
    ensures b.NLockTime(n).NLockTime(n') == b.NLockTime(n')
    ensures b.SetVersion(n).SetVersion(n') == b.SetVersion(n')
  {
  }

  /** The must-spend and must-not-spend lists are set independently. */
  lemma AllowAndDenyListsIndependent<Addr, Rate, Path, SigHash, Cs>(b: TxBuilder<Addr, Rate, Path, SigHash, Cs>, x: OutPoint, y: OutPoint)
    ensures b.AddUtxo(x).AddUnspendable(y) == b.AddUnspendable(y).AddUtxo(x)
    ensures b.AddUtxo(x).unspendable == b.unspendable && b.AddUnspendable(y).utxos == b.utxos
  {
  }

  /** A chain of AddUtxo calls, one per element of `xs`, in order. */
  function AddUtxos<Addr, Rate, Path, SigHash, Cs>(b: TxBuilder<Addr, Rate, Path, SigHash, Cs>, xs: seq<OutPoint>)
    : TxBuilder<Addr, Rate, Path, SigHash, Cs>
    decreases |xs|
  {
    if xs == [] then b else AddUtxos(b.AddUtxo(xs[0]), xs[1..])
  }

  /** A chain of AddUnspendable calls, one per element of `xs`, in order. */
  function AddUnspendables<Addr, Rate, Path, SigHash, Cs>(b: TxBuilder<Addr, Rate, Path, SigHash, Cs>, xs: seq<OutPoint>)
    : TxBuilder<Addr, Rate, Path, SigHash, Cs>
    decreases |xs|
  {
    if xs == [] then b else AddUnspendables(b.AddUnspendable(xs[0]), xs[1..])
  }

  /** A chain of AddRecipient calls, one per element of `rs`, in order. */
  function AddRecipients<Addr, Rate, Path, SigHash, Cs>(b: TxBuilder<Addr, Rate, Path, SigHash, Cs>, rs: seq<(Addr, U64)>)
    : TxBuilder<Addr, Rate, Path, SigHash, Cs>
    decreases |rs|
  {
    if rs == [] then b else AddRecipients(b.AddRecipient(rs[0].0, rs[0].1), rs[1..])
  }

  /**
   * Adding outpoints one at a time to a set list is the same as setting
   * the list with them appended.
   */
  lemma {:induction false} AddUtxosAppend<Addr, Rate, Path, SigHash, Cs>(b: TxBuilder<Addr, Rate, Path, SigHash, Cs>, list: seq<OutPoint>, xs: seq<OutPoint>)
    ensures AddUtxos(b.Utxos(list), xs) == b.Utxos(list + xs)
    decreases |xs|
  {
    if xs != [] {
      assert AddUtxos(b.Utxos(list), xs) == AddUtxos(b.Utxos(list).AddUtxo(xs[0]), xs[1..]);
      assert b.Utxos(list).AddUtxo(xs[0]) == b.Utxos(list + [xs[0]]);
      AddUtxosAppend(b, list + [xs[0]], xs[1..]);
      assert list + [xs[0]] + xs[1..] == list + xs;
    } else {
      assert list + xs == list;
    }
  }

  /**
   * Adding a non-empty run of outpoints to a builder with no must-spend
   * list sets the list to exactly that run.
   */
  lemma AddUtxosFromUnset<Addr, Rate, Path, SigHash, Cs>(b: TxBuilder<Addr, Rate, Path, SigHash, Cs>, xs: seq<OutPoint>)
    requires b.utxos.None? && xs != []
    ensures AddUtxos(b, xs) == b.Utxos(xs)
  {
    assert b.AddUtxo(xs[0]) == b.Utxos([xs[0]]);
    AddUtxosAppend(b, [xs[0]], xs[1..]);
    assert [xs[0]] + xs[1..] == xs;
  }

  /** As AddUtxosAppend, for the must-not-spend list. */
  lemma {:induction false} AddUnspendablesAppend<Addr, Rate, Path, SigHash, Cs>(b: TxBuilder<Addr, Rate, Path, SigHash, Cs>, list: seq<OutPoint>, xs: seq<OutPoint>)
    ensures AddUnspendables(b.Unspendable(list), xs) == b.Unspendable(list + xs)
    decreases |xs|
  {
    if xs != [] {
      assert AddUnspendables(b.Unspendable(list), xs) == AddUnspendables(b.Unspendable(list).AddUnspendable(xs[0]), xs[1..]);
      assert b.Unspendable(list).AddUnspendable(xs[0]) == b.Unspendable(list + [xs[0]]);
      AddUnspendablesAppend(b, list + [xs[0]], xs[1..]);
      assert list + [xs[0]] + xs[1..] == list + xs;
    } else {
      assert list + xs == list;
    }
  }

  /** Adding recipients one at a time appends them, in order, to the list. */
  lemma {:induction false} AddRecipientsAppend<Addr, Rate, Path, SigHash, Cs>(b: TxBuilder<Addr, Rate, Path, SigHash, Cs>, rs: seq<(Addr, U64)>)
    ensures AddRecipients(b, rs) == b.SetRecipients(b.recipients + rs)
    decreases |rs|
  {
    if rs != [] {
      var b' := b.AddRecipient(rs[0].0, rs[0].1);
      AddRecipientsAppend(b', rs[1..]);
      assert b'.recipients + rs[1..] == b.recipients + rs;
    }
  }

  /** Swapping the strategy back restores the original builder. */
  lemma CoinSelectionRoundTrip<Addr, Rate, Path, SigHash, Cs, Cs'>(b: TxBuilder<Addr, Rate, Path, SigHash, Cs>, other: Cs')
    ensures b.CoinSelection(other).CoinSelection(b.coinSelection) == b
  {
  }

  /** Only the last strategy swapped in matters. */
  lemma CoinSelectionLastWins<Addr, Rate, Path, SigHash, Cs, Cs', Cs''>(b: TxBuilder<Addr, Rate, Path, SigHash, Cs>, first: Cs', second: Cs'')
    ensures b.CoinSelection(first).CoinSelection(second) == b.CoinSelection(second)
  {
  }

  /** Swapping the strategy commutes with setting a field. */
  lemma CoinSelectionCommutesWithSetters<Addr, Rate, Path, SigHash, Cs, Cs'>(b: TxBuilder<Addr, Rate, Path, SigHash, Cs>, c: Cs', r: Rate, x: OutPoint, p: ChangeSpendPolicy)
    ensures b.FeeRate(r).CoinSelection(c) == b.CoinSelection(c).FeeRate(r)
    ensures b.AddUtxo(x).CoinSelection(c) == b.CoinSelection(c).AddUtxo(x)
    ensures b.ChangePolicy(p).CoinSelection(c) == b.CoinSelection(c).ChangePolicy(p)
  {
  }
}
