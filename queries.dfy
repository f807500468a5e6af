/** The ledger store (`src/database/queries.rs`): the four tables held in memory, with the
    point lookups, inserts, the update and the epoch-retention delete the validator runs
    against them. The connection pool and SQL generation are replaced by the maps; a
    database error, which the source turns into a panic, is `Aborts`. */
module Queries {

  import opened Wrappers
  import opened Schema

  /** `diesel::result::Error` as the lookups produce it: no row matched. */
  datatype DbError = NotFound

  const U128: nat := 0x1_0000_0000_0000_0000_0000_0000_0000_0000

  type u128 = n: nat | n < U128

  // ---------------------------------------------------------------------------
  // The retention window of `delete_txs`

  /** The most elements a `Vec` of 16-byte epochs can be allocated with on a 64-bit
      target: its size in bytes may not exceed `isize::MAX`. */
  const MaxWindow: nat := 0x7FFF_FFFF_FFFF_FFFF / 16

  /** `(0..epoch_amount).map(|i| Epoch(current_epoch - i)).collect()`. Collecting first
      reserves room for every epoch, which panics ("capacity overflow") in every build
      when the window has more than `MaxWindow` epochs. The subtraction is on `u128`:
      with overflow checks (debug builds and tests) it panics as soon as `i` exceeds
      `current_epoch`; without them it wraps modulo 2^128. */
  function EpochWindow(current: u128, amount: u128, overflowChecks: bool): (r: Completion<seq<u128>>)
    ensures r.Aborts? <==> amount > MaxWindow || (overflowChecks && amount > current + 1)
    ensures r.Returns? ==> |r.value| == amount
  {
    if amount > MaxWindow || (overflowChecks && amount > current + 1) then Aborts
    else Returns(seq(amount, i requires 0 <= i < amount => (current - i) % U128))
  }

  /** When the window fits in a `Vec` and does not reach below epoch 0, it is exactly the
      last `amount` epochs ending at `current`; with `amount == 0` it is empty. The build profile does
      not matter then. */
  lemma EpochWindowMembership(current: u128, amount: u128, overflowChecks: bool, e: nat)
    requires amount <= current + 1 && amount <= MaxWindow
    ensures EpochWindow(current, amount, overflowChecks).Returns?
    ensures EpochWindow(current, amount, overflowChecks) == EpochWindow(current, amount, !overflowChecks)
    ensures e in EpochWindow(current, amount, overflowChecks).value <==> current + 1 - amount <= e <= current
  {
    var w := EpochWindow(current, amount, overflowChecks).value;
    if current + 1 - amount <= e <= current {
      var i := current - e;
      assert w[i] == e;
    }
    if e in w {
      var i :| 0 <= i < |w| && w[i] == e;
      assert (current - i) % U128 == current - i;
    }
  }

  /** Without overflow checks a window longer than `current + 1` (that still fits in a
      `Vec`) wraps: besides every
      epoch from 0 to `current` it holds the largest `amount - current - 1` values of u128. */
  lemma EpochWindowWraps(current: u128, amount: u128, e: u128)
    requires current + 1 < amount <= MaxWindow
    ensures EpochWindow(current, amount, false).Returns?
    ensures e in EpochWindow(current, amount, false).value <==> e <= current || e >= U128 - (amount - current - 1)
  {
    var w := EpochWindow(current, amount, false).value;
    if e <= current {
      assert w[current - e] == e;
    } else if e >= U128 - (amount - current - 1) {
      var i := current + U128 - e;
      assert 0 <= i < amount;
      assert (current - i) % U128 == e;
      assert w[i] == e;
    }
    if e in w {
      var i :| 0 <= i < |w| && w[i] == e;
      if i > current {
        assert (current - i) % U128 == current - i + U128;
      }
    }
  }

  /** The rows `delete_txs` keeps: those whose epoch is in the window. */
  function Retain(t: map<string, Transaction>, window: seq<u128>): (r: map<string, Transaction>)
    ensures forall k :: k in r <==> k in t && t[k].epoch in window
    ensures forall k :: k in r ==> r[k] == t[k]
  {
    map k | k in t && t[k].epoch in window :: t[k]
  }

  /** The keys of the rows `delete_txs` removes. */
  function Removed(t: map<string, Transaction>, window: seq<u128>): set<string> {
    set k | k in t && t[k].epoch !in window
  }

  /** The kept rows and the removed rows partition the table, so the number of rows
      removed is the old size less the new size. */
  lemma RemovedCount(t: map<string, Transaction>, window: seq<u128>)
    ensures |t| == |Retain(t, window)| + |Removed(t, window)|
  {
    var kept := Retain(t, window).Keys;
    var gone := Removed(t, window);
    assert t.Keys == kept + gone;
    assert kept * gone == {};
    assert |t.Keys| == |kept| + |gone|;
  }

  /** After the delete, a transaction remains exactly when its epoch is one of the last
      `amount` epochs ending at `current`; with `amount == 0` nothing remains. */
  lemma RetainedIffRecent(t: map<string, Transaction>, current: u128, amount: u128, overflowChecks: bool)
    requires amount <= current + 1 && amount <= MaxWindow
    ensures EpochWindow(current, amount, overflowChecks).Returns?
    ensures var kept := Retain(t, EpochWindow(current, amount, overflowChecks).value);
            forall k :: k in kept <==> k in t && current + 1 - amount <= t[k].epoch <= current
    ensures amount == 0 ==> Retain(t, EpochWindow(current, amount, overflowChecks).value) == map[]
  {
    var w := EpochWindow(current, amount, overflowChecks).value;
    forall k | k in t
      ensures t[k].epoch in w <==> current + 1 - amount <= t[k].epoch <= current
    {
      EpochWindowMembership(current, amount, overflowChecks, t[k].epoch);
    }
    if amount == 0 {
      assert w == [];
    }
  }

  // ---------------------------------------------------------------------------
  // The changeset of `update_tx`

  /** `update(..).set(tx)` with the changeset derived for the transaction record: every
      column takes the new value, except that a `None` in a nullable column leaves the
      stored value in place (diesel skips `None` fields of a changeset). */
  function ApplyChangeset(stored: Transaction, tx: Transaction): (r: Transaction)
    ensures r.id == tx.id && r.epoch == tx.epoch && r.blockPromised == tx.blockPromised
    ensures r.signature == tx.signature && r.validated == tx.validated
    ensures r.blockActual == if tx.blockActual.Some? then tx.blockActual else stored.blockActual
    ensures r.bundleId == if tx.bundleId.Some? then tx.bundleId else stored.bundleId
  {
    tx.(blockActual := if tx.blockActual.Some? then tx.blockActual else stored.blockActual,
        bundleId := if tx.bundleId.Some? then tx.bundleId else stored.bundleId)
  }

  // ---------------------------------------------------------------------------
  // The store

  class Ledger {
    var bundles: map<string, Bundle>
    var transactions: map<string, Transaction>
    var validators: map<string, Validator>
    var leaders: map<string, Leader>

    /** Each table is keyed by its key column, and the foreign keys resolve. */
    ghost predicate Valid()
      reads this
    {
      && BundlesKeyed(bundles)
      && TransactionsKeyed(transactions)
      && ValidatorsKeyed(validators)
      && LeadersKeyed(leaders)
      && BundleReferencesResolve(transactions, bundles)
      && LeadersAreValidators(leaders, validators)
    }

    constructor ()
      ensures Valid()
      ensures bundles == map[] && transactions == map[] && validators == map[] && leaders == map[]
    {
      bundles, transactions, validators, leaders := map[], map[], map[], map[];
    }

    /** `get_bundle`: the row whose id is `bId`, or `NotFound`. */
    method GetBundle(bId: string) returns (r: Result<Bundle, DbError>)
      requires Valid()
      ensures r.Success? <==> bId in bundles
      ensures r.Success? ==> r.value in bundles.Values && r.value.id == bId
      ensures r.Failure? ==> r.error == NotFound
    {
      if bId in bundles {
        r := Success(bundles[bId]);
      } else {
        r := Failure(NotFound);
      }
    }

    /** `insert_bundle_in_db`: adds exactly the given row. A database error (here, an id
        that is already stored) panics, so a call that returns always returns `Ok(())`. */
    method InsertBundle(newBundle: Bundle) returns (c: Completion<()>)
      requires Valid()
      modifies this
      ensures Valid()
      ensures c.Returns? <==> newBundle.id !in old(bundles)
      ensures bundles == if c.Returns? then old(bundles)[newBundle.id := newBundle] else old(bundles)
      ensures transactions == old(transactions) && validators == old(validators) && leaders == old(leaders)
    {
      if newBundle.id in bundles {
        return Aborts;
      }
      bundles := bundles[newBundle.id := newBundle];
      c := Returns(());
    }

    /** `insert_tx_in_db`: adds exactly the given row. A duplicate id, or a `bundle_id`
        naming no stored bundle, is a database error and panics. */
    method InsertTx(newTx: Transaction) returns (c: Completion<()>)
      requires Valid()
      modifies this
      ensures Valid()
      ensures c.Returns? <==> (newTx.id !in old(transactions)
                               && (newTx.bundleId.Some? ==> newTx.bundleId.value in old(bundles)))
      ensures transactions == if c.Returns? then old(transactions)[newTx.id := newTx] else old(transactions)
      ensures bundles == old(bundles) && validators == old(validators) && leaders == old(leaders)
    {
      if newTx.id in transactions || (newTx.bundleId.Some? && newTx.bundleId.value !in bundles) {
        return Aborts;
      }
      transactions := transactions[newTx.id := newTx];
      c := Returns(());
    }

    /** `update_tx`: rewrites the row whose id is `tx.id` and no other. When no row has
        that id the update matches nothing and still returns `Ok(())`; a `bundle_id` that
        names no stored bundle is a database error and panics. */
    method UpdateTx(tx: Transaction) returns (c: Completion<()>)
      requires Valid()
      modifies this
      ensures Valid()
      ensures c.Aborts? <==> tx.id in old(transactions) && tx.bundleId.Some? && tx.bundleId.value !in old(bundles)
      ensures transactions == if c.Returns? && tx.id in old(transactions)
                              then old(transactions)[tx.id := ApplyChangeset(old(transactions)[tx.id], tx)]
                              else old(transactions)
      ensures bundles == old(bundles) && validators == old(validators) && leaders == old(leaders)
    {
      if tx.id !in transactions {
        return Returns(());
      }
      var row := ApplyChangeset(transactions[tx.id], tx);
      if row.bundleId.Some? && row.bundleId.value !in bundles {
        return Aborts;
      }
      transactions := transactions[tx.id := row];
      c := Returns(());
    }

    /** `get_tx`: the row whose id is `txId`, or `NotFound`. */
    method GetTx(txId: string) returns (r: Result<Transaction, DbError>)
      requires Valid()
      ensures r.Success? <==> txId in transactions
      ensures r.Success? ==> r.value in transactions.Values && r.value.id == txId
      ensures r.Failure? ==> r.error == NotFound
    {
      if txId in transactions {
        r := Success(transactions[txId]);
      } else {
        r := Failure(NotFound);
      }
    }

    /** `delete_txs`: deletes every transaction whose epoch is outside the window and
        returns how many rows it deleted. Building the window panics first when it has
        more than `MaxWindow` epochs, or, in a build with overflow checks, when it would go
        below epoch 0. */
    method DeleteTxs(currentEpoch: u128, epochAmount: u128, overflowChecks: bool) returns (c: Completion<nat>)
      requires Valid()
      modifies this
      ensures Valid()
      ensures c.Aborts? <==> EpochWindow(currentEpoch, epochAmount, overflowChecks).Aborts?
      ensures c.Returns? ==>
                && transactions == Retain(old(transactions), EpochWindow(currentEpoch, epochAmount, overflowChecks).value)
                && c.value == |old(transactions)| - |transactions|
                && c.value == |Removed(old(transactions), EpochWindow(currentEpoch, epochAmount, overflowChecks).value)|
      ensures c.Aborts? ==> transactions == old(transactions)
      ensures bundles == old(bundles) && validators == old(validators) && leaders == old(leaders)
    {
      var epochs := EpochWindow(currentEpoch, epochAmount, overflowChecks);
      if epochs.Aborts? {
        return Aborts;
      }
      var before := transactions;
      RemovedCount(before, epochs.value);
      transactions := Retain(before, epochs.value);
      c := Returns(|before| - |transactions|);
    }
  }
}
