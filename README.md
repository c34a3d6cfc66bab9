# Wallet transaction builder, ordering and change policy

A Dafny model of the transaction-construction core of the BDK wallet
(`src/wallet/tx_builder.rs`). It covers three pieces:

- **`TxBuilder`**: an immutable record of the 14 parameters that transaction
  assembly needs, with its consuming setters. It is modelled as a datatype
  whose member functions return the updated record. The frame of each
  setter is stated with the predicate `AgreeExcept`: the two builders hold
  the same value in every field except the one named.
- **`TxOrdering::sort_tx`**: rearranges an assembled transaction in place.
  - `Untouched` leaves it alone.
  - `Shuffle` applies a Fisher–Yates shuffle to the outputs only.
  - `BIP69Lexicographic` sorts the inputs by the key (previous txid,
    previous vout) and the outputs by the key (value, script bytes). These
    are the keys that BIP 69 names. Txids are compared in their serialized
    byte order, as the source's key does (see `TxOrder.InputLe` under
    "Left out").

  The transaction is a class whose input and output vectors are arrays.
  The sort and the shuffle are methods with loops.
- **`ChangeSpendPolicy::filter_utxos`**: an order-preserving filter over
  unspent outputs. It keeps all of them, only change outputs, or only
  non-change outputs, and looks at nothing but the `is_internal` flag.

Files:

- `bitcoin.dfy` (module `Bitcoin`): the rust-bitcoin value types that the
  core reads.
  - Fixed-width integers are bounded subset types.
  - A `Txid` is 32 bytes.
  - The `Transaction` class holds the input and output arrays.
  - `LexLe` is Rust's lexicographic order on byte strings. Script keys
    are compared by it. Txids are compared by it over their 32 serialized
    bytes, which is the order that rust-bitcoin's derived `Ord` for hash
    types gives.
- `sorting.dfy` (module `Sorting`): in-place sort and Fisher–Yates shuffle
  on arrays, plus the lemma that a sort is determined up to ties.
- `tx_ordering.dfy` (module `TxOrder`): `TxOrdering`, the BIP 69 key
  orders, `SortTx`, and the repository's BIP 69 test transaction.
- `change_policy.dfy` (module `ChangeSpend`): `ChangeSpendPolicy` and
  `FilterUtxos`.
- `tx_builder.dfy` (module `Builder`): `Version`, `TxBuilder`, its setters
  and the lemmas that relate them.

The BIP 69 sort uses `sort_unstable_by_key` (src/wallet/tx_builder.rs:208
and 212), which guarantees no order among equal keys. What follows:

- The sort is idempotent on outputs, because equal keys mean equal outputs
  (`Bip69OutputOrderDetermined`).
- On inputs it is idempotent only for the sequence of spent outpoints
  (`Bip69InputOrderDetermined`).

## Model

| member | source | states |
|---|---|---|
| `Builder.TxBuilder.SetRecipients` | src/wallet/tx_builder.rs:62-65 | the recipient list becomes the given list; every other field is unchanged |
| `Builder.TxBuilder.AddRecipient` | src/wallet/tx_builder.rs:67-70 | the recipient list grows by one: the old list is its prefix and `(address, amount)` is its last entry; every other field is unchanged |
| `Builder.TxBuilder.SendAll` | src/wallet/tx_builder.rs:72-75 | the send-all flag is set; every other field is unchanged |
| `Builder.TxBuilder.FeeRate` | src/wallet/tx_builder.rs:77-80 | the fee rate becomes `Some(rate)`; every other field is unchanged |
| `Builder.TxBuilder.PolicyPath` | src/wallet/tx_builder.rs:82-85 | the policy path becomes `Some(path)`; every other field is unchanged |
| `Builder.TxBuilder.Utxos` | src/wallet/tx_builder.rs:87-91 | the must-spend list becomes `Some(list)`; every other field is unchanged |
| `Builder.TxBuilder.AddUtxo` | src/wallet/tx_builder.rs:93-97 | an unset must-spend list becomes `Some([x])`; a set list `l` becomes `Some(l + [x])`; the must-not-spend list and every other field are unchanged |
| `Builder.TxBuilder.Unspendable` | src/wallet/tx_builder.rs:99-102 | the must-not-spend list becomes `Some(list)`; every other field is unchanged |
| `Builder.TxBuilder.AddUnspendable` | src/wallet/tx_builder.rs:104-107 | an unset must-not-spend list becomes `Some([x])`; a set list `l` becomes `Some(l + [x])`; the must-spend list and every other field are unchanged |
| `Builder.TxBuilder.Sighash` | src/wallet/tx_builder.rs:109-112 | the sighash mode becomes `Some(mode)`; every other field is unchanged |
| `Builder.TxBuilder.Ordering` | src/wallet/tx_builder.rs:114-117 | the ordering becomes the given one; every other field is unchanged |
| `Builder.TxBuilder.NLockTime` | src/wallet/tx_builder.rs:119-122 | the locktime becomes `Some(n)`; every other field is unchanged |
| `Builder.TxBuilder.EnableRbf` | src/wallet/tx_builder.rs:124-126 | the RBF sequence becomes `Some(0xFFFFFFFD)`; every other field is unchanged |
| `Builder.TxBuilder.EnableRbfWithSequence` | src/wallet/tx_builder.rs:128-131 | the RBF sequence becomes `Some(n)`; every other field is unchanged |
| `Builder.TxBuilder.SetVersion` | src/wallet/tx_builder.rs:133-136 | the version becomes `Some(Version(n))`; every other field is unchanged |
| `Builder.TxBuilder.DoNotSpendChange` | src/wallet/tx_builder.rs:138-141 | the change policy becomes `ChangeForbidden`; every other field is unchanged |
| `Builder.TxBuilder.OnlySpendChange` | src/wallet/tx_builder.rs:143-146 | the change policy becomes `OnlyChange`; every other field is unchanged |
| `Builder.TxBuilder.ChangePolicy` | src/wallet/tx_builder.rs:148-151 | the change policy becomes the given one; every other field is unchanged |
| `Builder.TxBuilder.ForceNonWitnessUtxo` | src/wallet/tx_builder.rs:153-156 | the force-non-witness-UTXO flag is set; every other field is unchanged |
| `Builder.TxBuilder.CoinSelection` | src/wallet/tx_builder.rs:158-175 | the result has the new strategy, possibly of another type, and every one of the 13 other fields carried over verbatim |
| `Builder.New` | src/wallet/tx_builder.rs:33-54 | a new builder has no recipients, every optional field unset, both flags off, the default ordering and change policy, and the given strategy |
| `Builder.WithRecipients` | src/wallet/tx_builder.rs:56-58 | a new builder that differs from `New` only in holding the given recipients |
| `Builder.DefaultVersion` | src/wallet/tx_builder.rs:218-226 | the default version number is 1 |
| `Builder.ShortcutsAreSpecialCases` | src/wallet/tx_builder.rs:124-151 | `enable_rbf` equals `enable_rbf_with_sequence(0xFFFFFFFD)`; `do_not_spend_change` and `only_spend_change` equal `change_policy` with `ChangeForbidden` and `OnlyChange` |
| `Builder.LastWriteWins` | src/wallet/tx_builder.rs:77-136 | for fee rate, RBF sequence, locktime and version, setting twice is the same as setting the second value once |
| `Builder.AllowAndDenyListsIndependent` | src/wallet/tx_builder.rs:94-107 | appending to the must-spend and must-not-spend lists commutes, and neither append touches the other list |
| `Builder.AddUtxosAppend` | src/wallet/tx_builder.rs:88-97 | a chain of `add_utxo` calls on a set list equals `utxos` with the outpoints appended in call order |
| `Builder.AddUtxosFromUnset` | src/wallet/tx_builder.rs:94-97 | a non-empty chain of `add_utxo` calls on an unset list equals `utxos` with exactly those outpoints |
| `Builder.AddUnspendablesAppend` | src/wallet/tx_builder.rs:99-107 | a chain of `add_unspendable` calls on a set list equals `unspendable` with the outpoints appended in call order |
| `Builder.AddRecipientsAppend` | src/wallet/tx_builder.rs:62-70 | a chain of `add_recipient` calls equals `set_recipients` with the recipients appended in call order |
| `Builder.CoinSelectionRoundTrip` | src/wallet/tx_builder.rs:158-175 | swapping the strategy out and back restores the original builder |
| `Builder.CoinSelectionLastWins` | src/wallet/tx_builder.rs:158-175 | after two strategy swaps only the second strategy remains, and nothing else differs |
| `Builder.CoinSelectionCommutesWithSetters` | src/wallet/tx_builder.rs:158-175 | swapping the strategy commutes with `fee_rate`, `add_utxo` and `change_policy` |
| `TxOrder.DefaultOrdering` | src/wallet/tx_builder.rs:185-189 | the default ordering is `Shuffle` |
| `TxOrder.TxOrdering.SortTx` | src/wallet/tx_builder.rs:191-216 | `Untouched` leaves inputs and outputs identical; `Shuffle` leaves inputs identical and outputs a permutation of the old ones; `BIP69Lexicographic` makes inputs sorted by (txid, vout) and outputs by (value, script), each a permutation of the old |
| `Sorting.SortBy` | src/wallet/tx_builder.rs:208-212 | the array ends sorted by the given total preorder and is a permutation of its old contents |
| `Sorting.Shuffle` | src/wallet/tx_builder.rs:205 | the Fisher–Yates shuffle leaves the array a permutation of its old contents, whatever the random draws |
| `Sorting.SortedPermutationsAgree` | src/wallet/tx_builder.rs:208-212 | two sorted permutations of the same elements are ranked equal position by position, so a sort is determined up to ties |
| `TxOrder.InputLe` | src/wallet/tx_builder.rs:208-210 | the input key order: txids compared bytewise in serialized order, where the first differing byte decides; only equal txids are then compared by vout numerically |
| `TxOrder.OutputLe` | src/wallet/tx_builder.rs:211-212 | the output key order: value first, numerically; only equal values are then compared by script bytes lexicographically, a proper prefix first |
| `TxOrder.InputOrderIsTotalPreorder` | src/wallet/tx_builder.rs:208-210 | the (txid, vout) key order on inputs is total and transitive |
| `TxOrder.OutputOrderIsTotalPreorder` | src/wallet/tx_builder.rs:211-212 | the (value, script) key order on outputs is total and transitive |
| `TxOrder.InputTiesShareOutpoint` | src/wallet/tx_builder.rs:208-210 | two inputs have equal sort keys exactly when they spend the same outpoint |
| `TxOrder.OutputTiesAreEqual` | src/wallet/tx_builder.rs:211-212 | two outputs have equal sort keys exactly when they are the same output |
| `TxOrder.Bip69InputOrderDetermined` | src/wallet/tx_builder.rs:208-210 | any two BIP 69-sorted orders of the same inputs spend the same outpoints at every position, so re-sorting keeps the outpoint order |
| `TxOrder.Bip69OutputOrderDetermined` | src/wallet/tx_builder.rs:211-212 | any two BIP 69-sorted orders of the same outputs are equal, so the output sort is idempotent |
| `TxOrder.ExpectedInputsSorted` | src/wallet/tx_builder.rs:306-326 | the input order the test expects is sorted and is a permutation of the test inputs |
| `TxOrder.ExpectedOutputsSorted` | src/wallet/tx_builder.rs:328-330 | the output order the test expects is sorted and is a permutation of the test outputs |
| `TxOrder.Bip69TestOrder` | src/wallet/tx_builder.rs:297-331 | every BIP 69-sorted arrangement of the test transaction's inputs and outputs has the inputs and outputs the test expects |
| `TxOrder.Bip69TestVector` | src/wallet/tx_builder.rs:297-331 | after BIP 69 sorting of the test transaction, the inputs spend 571f..:5, c26f..:0, c26f..:1 and the outputs are (800, FF), (1000, AA), (1000, AA EE) |
| `Bitcoin.LexLeIsLexicographic` | src/wallet/tx_builder.rs:211-212 | the script order is lexicographic: either a prefix, or the first differing byte is smaller |
| `ChangeSpend.DefaultPolicy` | src/wallet/tx_builder.rs:235-239 | the default change policy is `ChangeAllowed` |
| `ChangeSpend.ChangeSpendPolicy.Admits` | src/wallet/tx_builder.rs:244-246 | `ChangeAllowed` admits every output; `OnlyChange` admits exactly the change outputs and `ChangeForbidden` exactly the others, judged by `is_internal` alone |
| `ChangeSpend.ChangeSpendPolicy.FilterUtxos` | src/wallet/tx_builder.rs:241-249 | `ChangeAllowed` returns the input unchanged; otherwise the result holds only admitted outputs, every admitted output as many times as the input holds it, in input order |
| `ChangeSpend.WithFlag` | src/wallet/tx_builder.rs:245-246 | the result holds exactly the outputs whose `is_internal` equals the flag, with their multiplicities, as a subsequence of the input |
| `ChangeSpend.WithFlagIsUnique` | src/wallet/tx_builder.rs:245-246 | any order-preserving selection of exactly the flagged outputs equals `WithFlag`'s result |
| `ChangeSpend.FilterUtxosIsUnique` | src/wallet/tx_builder.rs:242-248 | `FilterUtxos`'s contract determines its result: any subsequence holding exactly the admitted outputs is that result |
| `ChangeSpend.PoliciesPartition` | src/wallet/tx_builder.rs:244-246 | the `OnlyChange` and `ChangeForbidden` results share no output, their lengths sum to the input's, and together they hold the `ChangeAllowed` result |
| `ChangeSpend.FilterTestVectors` | src/wallet/tx_builder.rs:354-378 | on the two test outputs, the default policy keeps 2, `ChangeForbidden` keeps 1 non-change output, and `OnlyChange` keeps 1 change output |

## Left out

- Random number generation in `Shuffle` (`thread_rng`, or `StdRng` seeded with 0 under test) is not modelled.
  - The shuffle takes its draws as a function parameter. Step `i` of the Fisher–Yates loop uses draw `i` reduced modulo `i + 1`.
  - Only the permutation of outputs and the unchanged inputs are stated.
  - The test's claim that seed 0 gives a non-identity order (line 294) is not modelled.
- `TxOrder.TxOrdering.SortTx`: under `BIP69Lexicographic` it does not say how inputs with equal (txid, vout) keys, or outputs with equal keys, are ordered among themselves.
  - The source uses an unstable sort and promises nothing there.
  - The model sorts by insertion, but its contract is only "sorted and a permutation".
- `Sorting.SortBy` implements the contract of `sort_unstable_by_key`, not its pattern-defeating quicksort algorithm.
- `TxOrder.InputLe`: compares txids in serialized (internal) byte order.
  - This matches the derived `Ord` of rust-bitcoin's hash type, which is the key at lines 208-210. That type itself is not part of this model.
  - BIP 69 specifies the reversed (displayed) byte order, so neither the source nor the model follows BIP 69 here.
  - The test transaction gives the same result under either order.
- The test transaction is written out as values. Its consensus hex decoding (lines 253-264) is not modelled.
- Allow-list precedence over `unspendable` (doc comments at lines 87 and 93) is enforced by the transaction assembler. That code is not part of this model.
- `Address`, `FeeRate`, the policy-path `BTreeMap`, `SigHashType` and the coin-selection strategy are type parameters that are only carried.
  - Coin-selection internals are not part of this model.
  - `DefaultCoinSelectionAlgorithm::default()` used by `new` becomes the strategy argument of `Builder.New`.
- `filter_utxos` takes any iterator. The model takes a finite sequence.
- The derived `Debug`, `Hash`, `Clone` and `Ord` implementations of `TxOrdering`, `Version` and `ChangeSpendPolicy` are not modelled.
- `sort_tx` reads and writes only the input and output vectors. The transaction's version and locktime are carried but never touched.
