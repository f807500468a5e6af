/** The four tables of the ledger (`src/database/schema.rs`) as record datatypes, and what
    it means for a table, a map from key to row, to be keyed by a column. `Epoch` and
    `Block` values, stored in binary or `BigInt` columns, are natural numbers here. */
module Schema {

  import opened Wrappers
  import opened Text

  /** A row of `bundle`, keyed by `id`. */
  datatype Bundle = Bundle(id: string, ownerAddress: string, blockHeight: nat)

  /** A row of `leaders`, keyed by `address`. */
  datatype Leader = Leader(address: string)

  /** A row of `transactions`, keyed by `id`; only `blockActual` and `bundleId` are nullable. */
  datatype Transaction = Transaction(
    id: string,
    epoch: nat,
    blockPromised: nat,
    blockActual: Option<nat>,
    signature: seq<byte>,
    validated: bool,
    bundleId: Option<string>)

  /** A row of `validators`, keyed by `address`, with an optional `url`. */
  datatype Validator = Validator(address: string, url: Option<string>)

  predicate BundlesKeyed(t: map<string, Bundle>) {
    forall k :: k in t ==> t[k].id == k
  }

  predicate LeadersKeyed(t: map<string, Leader>) {
    forall k :: k in t ==> t[k].address == k
  }

  predicate TransactionsKeyed(t: map<string, Transaction>) {
    forall k :: k in t ==> t[k].id == k
  }

  predicate ValidatorsKeyed(t: map<string, Validator>) {
    forall k :: k in t ==> t[k].address == k
  }

  /** The rows of `bundle` whose id is `id`. */
  function BundlesWithId(t: map<string, Bundle>, id: string): set<Bundle> {
    set k | k in t && t[k].id == id :: t[k]
  }

  /** The rows of `transactions` whose id is `id`. */
  function TransactionsWithId(t: map<string, Transaction>, id: string): set<Transaction> {
    set k | k in t && t[k].id == id :: t[k]
  }

  /** A table keyed by `id` holds at most one bundle with a given id, and holds one
      exactly when the id is a key. */
  lemma BundleIdUnique(t: map<string, Bundle>, id: string)
    requires BundlesKeyed(t)
    ensures id in t ==> BundlesWithId(t, id) == {t[id]}
    ensures id !in t ==> BundlesWithId(t, id) == {}
    ensures |BundlesWithId(t, id)| <= 1
  {
    if id in t {
      assert BundlesWithId(t, id) == {t[id]};
    } else {
      assert BundlesWithId(t, id) == {};
    }
  }

  /** A table keyed by `id` holds at most one transaction with a given id. */
  lemma TransactionIdUnique(t: map<string, Transaction>, id: string)
    requires TransactionsKeyed(t)
    ensures id in t ==> TransactionsWithId(t, id) == {t[id]}
    ensures id !in t ==> TransactionsWithId(t, id) == {}
    ensures |TransactionsWithId(t, id)| <= 1
  {
    if id in t {
      assert TransactionsWithId(t, id) == {t[id]};
    } else {
      assert TransactionsWithId(t, id) == {};
    }
  }

  /** The rows of `validators` whose address is `address`. */
  function ValidatorsWithAddress(t: map<string, Validator>, address: string): set<Validator> {
    set k | k in t && t[k].address == address :: t[k]
  }

  /** A table keyed by `address` holds at most one validator with a given address. */
  lemma ValidatorAddressUnique(t: map<string, Validator>, address: string)
    requires ValidatorsKeyed(t)
    ensures address in t ==> ValidatorsWithAddress(t, address) == {t[address]}
    ensures address !in t ==> ValidatorsWithAddress(t, address) == {}
    ensures |ValidatorsWithAddress(t, address)| <= 1
  {
    if address in t {
      assert ValidatorsWithAddress(t, address) == {t[address]};
    } else {
      assert ValidatorsWithAddress(t, address) == {};
    }
  }

  /** The rows of `leaders` whose address is `address`. */
  function LeadersWithAddress(t: map<string, Leader>, address: string): set<Leader> {
    set k | k in t && t[k].address == address :: t[k]
  }

  /** A table keyed by `address` holds at most one leader with a given address. */
  lemma LeaderAddressUnique(t: map<string, Leader>, address: string)
    requires LeadersKeyed(t)
    ensures address in t ==> LeadersWithAddress(t, address) == {t[address]}
    ensures address !in t ==> LeadersWithAddress(t, address) == {}
    ensures |LeadersWithAddress(t, address)| <= 1
  {
    if address in t {
      assert LeadersWithAddress(t, address) == {t[address]};
    } else {
      assert LeadersWithAddress(t, address) == {};
    }
  }

  /** `joinable!(transactions -> bundle (bundle_id))`: the bundle row a transaction
      joins to, through its `bundle_id` column. */
  function JoinedBundle(tx: Transaction, bundles: map<string, Bundle>): (r: Option<Bundle>)
    requires BundlesKeyed(bundles)
    ensures r.Some? <==> tx.bundleId.Some? && tx.bundleId.value in bundles
    ensures r.Some? ==> r.value.id == tx.bundleId.value && r.value in bundles.Values
  {
    match tx.bundleId
    case Some(b) => if b in bundles then Some(bundles[b]) else None
    case None => None
  }

  /** Every `bundle_id` that is set names a stored bundle (the foreign key of the
      migration that creates the tables). */
  predicate BundleReferencesResolve(txs: map<string, Transaction>, bundles: map<string, Bundle>) {
    forall k :: k in txs && txs[k].bundleId.Some? ==> txs[k].bundleId.value in bundles
  }

  /** Every leader is a validator. */
  predicate LeadersAreValidators(leaders: map<string, Leader>, validators: map<string, Validator>) {
    forall k :: k in leaders ==> k in validators
  }
}
