# Bundlr validator: ledger and validation rules in Dafny

This project models the core of the Bundlr validator. The validator watches what a
bundler posts to Arweave and checks the bundler's receipts for the transactions inside
each bundle. The model covers four parts.

- **The ledger** (`schema.dfy`, `queries.dfy`). The four tables `bundle`, `transactions`,
  `validators` and `leaders` are maps from key to row, held by the class `Ledger`. Its
  methods are the queries: the point lookups, the two inserts, `update_tx` and the
  epoch-retention delete `delete_txs`. Every method keeps `Ledger.Valid()`: each table is
  keyed by its key column and the foreign keys resolve. A database error makes the source
  panic. In the model a panic is `Aborts`, a value of the `Completion` datatype in
  `wrappers.dfy`.
- **Bundle validation** (`bundle.dfy`). This covers block gating, storing a bundle once,
  asking peers for a receipt, and the four chunks the receipt signature covers. It also
  covers the acceptance rule for a receipt, the per-bundle and per-bundler loops, and the
  slashing vote.
- **The gateway client** (`arweave.dfy`). It builds the GraphQL request:
  - the path is the percent-encoded query, as in section 2.1 of RFC 3986;
  - the variables text is built by hand.

  It then folds the gateway's answer into a page of transactions, or maps the status to
  an error.
- **Start-up configuration** (`validator.dfy`). It defaults the Arweave URL, decodes the
  bundler's RSA modulus, and chooses where the bundler key comes from. The modulus is in
  base64url without padding (section 5 of RFC 4648, in `base64url.dfy`).

`text.dfy` holds what the code uses from Rust's standard library:
- UTF-8 bytes of a string;
- the ASCII case of `std::str::from_utf8`;
- decimal text of integers.

What the source gets over the network or from foreign code is an input of the model:
- the gateway's HTTP response;
- the outcome of downloading and parsing the bundle file (`Download`): a panic, a `FileError`, or the parsed items;
- the replies of peers (`fetch`);
- the RSA-PSS check of a deep-hashed message (`Verifier`);
- reading and parsing a key file (`readJwk`);
- URL parsing (`parses`).

Three properties of the code as written show up in the proofs:

- `verify_bundle_tx` never adds a row when it returns. It only has a receipt for an item
  that is already stored, because `tx_exists_on_peers` asks an empty list of peers. So the
  validated row it inserts always repeats a stored id, and the insert panics.
  `Bundle.VerifyBundleTx` states this: it aborts exactly under `BundleTxAborts` and
  otherwise leaves every table as it was. As a result, the only error `validate_bundle` can
  return is `FileError`, and the `todo!()` arms of `validate_bundler` are never reached.
- `delete_txs` builds its epoch window with a `u128` subtraction. The window is the last
  `epoch_amount` epochs only when `epoch_amount <= current_epoch + 1`. Above that, a build
  with overflow checks panics and a build without them wraps around modulo 2^128.
  `Queries.EpochWindow` takes the build profile as a flag. In every build, collecting a
  window of more than `MaxWindow` (`isize::MAX / 16`) epochs panics with a capacity
  overflow before any epoch is computed.
- `update_tx` that matches no row still returns `Ok(())`. Because of diesel's changeset
  rules, a `None` in `block_actual` or `bundle_id` keeps the stored value.

## Model

| member | source | states |
|---|---|---|
| Schema.BundleIdUnique | src/database/schema.rs:1-7 | a table keyed by `id` holds exactly one bundle with a stored id and none otherwise |
| Schema.LeaderAddressUnique | src/database/schema.rs:9-13 | a leaders table keyed by `address` holds at most one row per address |
| Schema.TransactionIdUnique | src/database/schema.rs:15-25 | a table keyed by `id` holds at most one transaction per id |
| Schema.ValidatorAddressUnique | src/database/schema.rs:27-32 | a validators table keyed by `address` holds at most one row per address |
| Schema.JoinedBundle | src/database/schema.rs:34 | a transaction joins a bundle exactly when its `bundle_id` is set and names a stored bundle, and it joins that bundle |
| Queries.Ledger.GetBundle | src/database/queries.rs:19-25 | succeeds exactly when a bundle with that id is stored and returns that row; otherwise `NotFound` |
| Queries.Ledger.InsertBundle | src/database/queries.rs:27-38 | returns exactly when the id is new and then adds exactly the given row; a duplicate panics; other tables unchanged |
| Queries.Ledger.InsertTx | src/database/queries.rs:40-51 | returns exactly when the id is new and the `bundle_id` resolves, adding exactly the given row; otherwise panics with the table unchanged |
| Queries.ApplyChangeset | src/database/queries.rs:58-60 | every column takes the new value except a `None` nullable column, which keeps the stored value |
| Queries.Ledger.UpdateTx | src/database/queries.rs:53-64 | rewrites only the row with that id, by the changeset; no such row is `Ok` with nothing changed; a dangling `bundle_id` panics |
| Queries.Ledger.GetTx | src/database/queries.rs:67-75 | succeeds exactly when a transaction with that id is stored and returns that row; otherwise `NotFound` |
| Queries.EpochWindow | src/database/queries.rs:81 | panics exactly when the window has more than `MaxWindow` epochs (capacity overflow), or overflow checks are on and the window would go below epoch 0; otherwise holds `epoch_amount` epochs |
| Queries.EpochWindowMembership | src/database/queries.rs:81 | without underflow the window is exactly the epochs `current-amount+1 .. current`, whatever the build profile |
| Queries.EpochWindowWraps | src/database/queries.rs:81 | with wrap-around the window holds the epochs `0 .. current` and the largest `amount-current-1` values of u128 |
| Queries.Retain | src/database/queries.rs:83-84 | a row is kept exactly when its epoch is in the window, unchanged |
| Queries.RemovedCount | src/database/queries.rs:85-86 | kept and removed rows partition the table |
| Queries.RetainedIffRecent | src/database/queries.rs:81-86 | after the delete a row remains exactly when its epoch is among the last `amount` epochs; with `amount == 0` none remains |
| Queries.Ledger.DeleteTxs | src/database/queries.rs:77-87 | keeps exactly the rows in the window and returns the number deleted, the old size less the new; panics, with the table unchanged, exactly when building the window does (capacity overflow, or underflow with checks on) |
| Arweave.FromAnyhow | src/cron/arweave.rs:114-118 | every `anyhow::Error` becomes `UnknownErr` |
| Arweave.PercentEncodeRoundTrip | src/cron/arweave.rs:129 | decoding the percent-encoding of a text gives the text's UTF-8 bytes; the encoding uses only unreserved characters, `%` and hex digits |
| Arweave.UnreservedUnchanged | src/cron/arweave.rs:129 | a text of unreserved characters is its own encoding |
| Arweave.PercentEncodeAppend | src/cron/arweave.rs:129 | the encoding of a concatenation is the concatenation of the encodings |
| Arweave.PathAndQuery | src/cron/arweave.rs:128-132 | starts with `/graphql?query=` and the rest decodes to the bytes of the query and is made of URL-safe characters |
| Arweave.RawVariablesFirst | src/cron/arweave.rs:217-225 | two variable texts are equal exactly when their `first` values, defaulting to 10, are equal |
| Arweave.AfterAbsentIsNull | src/cron/arweave.rs:221-224 | an absent `after` renders as the literal `null` |
| Arweave.StatusError | src/cron/arweave.rs:258-262 | 400, 404, 500 and 504 map to their errors, each in both directions; every other non-200 status is `UnknownErr` |
| Arweave.CollectEdges | src/cron/arweave.rs:248-253 | the transactions are the edge nodes in order, and the cursor is the last edge's or none |
| Arweave.GetLatestTransactions | src/cron/arweave.rs:206-263 | builds the request for the query and variables; on 200 returns the nodes, `has_next_page` unchanged and the last cursor; a 200 body that does not decode panics; other statuses give their error |
| Bundle.CheckBundleBlock | src/cron/bundle.rs:141-152 | never fails; returns the block height exactly when the bundle has a block |
| Bundle.WithBundle | src/cron/bundle.rs:162-183 | storing adds the row when its id is absent and leaves every stored row as it was |
| Bundle.WithBundleIdempotent | src/cron/bundle.rs:162-183 | storing the same bundle twice stores it once |
| Bundle.WithBundleKeyed | src/cron/bundle.rs:162-183 | storing keeps the bundle table keyed by id |
| Bundle.StoreBundle | src/cron/bundle.rs:154-184 | always `Ok(())`, never `BundleNotInsertedInDB`; the bundle table gains the row (id, bundler address, current block) only if the id was absent |
| Bundle.StoreBundlesContents | src/cron/bundle.rs:62-63 | after a run of bundles, the table holds the old rows unchanged plus one bundler-owned row per new bundle id that has a block, keyed by id |
| Bundle.PeersOutcomeNotFound | src/cron/bundle.rs:248-266 | asking peers gives `TxNotFound` exactly when no peer replies with a success status |
| Bundle.PeersOutcomeFound | src/cron/bundle.rs:248-264 | a receipt from the peers is the body of a successful reply, and every peer asked before it failed |
| Bundle.QueryPeers | src/cron/bundle.rs:248-266 | the loop over peers yields the outcome of asking them in turn |
| Bundle.TxExistsOnPeers | src/cron/bundle.rs:245-267 | the peer list is empty, so the result is always `TxNotFound` |
| Bundle.BundlrAsBufferIsText | src/cron/bundle.rs:270-281 | the chunks are, in this order, the UTF-8 bytes of "Bundlr", of "1", of the transaction id and of the block's decimal text |
| Bundle.ReceiptChunks | src/cron/bundle.rs:276-281 | the signed message is made of exactly four chunks |
| Bundle.ReceiptChunksDetermineReceipt | src/cron/bundle.rs:272-281 | for ASCII ids, equal chunks mean equal transaction id and block |
| Bundle.BlockChunkReadsBack | src/cron/bundle.rs:272 | the block chunk is ASCII decimal text that reads back as the block |
| Bundle.VerifyTxReceipt | src/cron/bundle.rs:269-307 | panics exactly when the signature is not base64url without padding |
| Bundle.VerifyEncodedSignature | src/cron/bundle.rs:299-306 | a receipt holding the encoding of a signature is verified on exactly that signature over its four chunks |
| Bundle.ReceiptOfRow | src/cron/bundle.rs:194-205 | a stored row gives a receipt exactly when its signature bytes are ASCII; the receipt carries the row's promised block, id and signature |
| Bundle.ReceiptRowOfStoredRow | src/cron/bundle.rs:217-228 | the inserted row carries the stored id, promised block and signature, and is validated, in epoch 0, with the current block and the item as its bundle |
| Bundle.UnknownItemPasses | src/cron/bundle.rs:207-211 | an item not in the store gets no receipt and never panics |
| Bundle.VerifyBundleTx | src/cron/bundle.rs:186-243 | returns only `Ok(())`, panics exactly under `BundleTxAborts`, and never changes the store |
| Bundle.ItemsOf | src/cron/bundle.rs:109-115 | a bundle file that fails to parse gives no items |
| Bundle.ValidateBundle | src/cron/bundle.rs:79-139 | a bundle without a block is `Ok` with nothing stored; otherwise it is stored; a download that panics (file creation, a failed request, or a status that is neither success nor 4xx/5xx) panics after the bundle is stored; a failed download is `FileError`; the only error is `FileError`; it panics exactly when the download panics or some item panics; no transaction is added |
| Bundle.ValidateBundles | src/cron/bundle.rs:62-74 | stores each fetched bundle with a block, in order; a `FileError` is passed over; it panics exactly when some bundle panics (its download panics or one of its items panics), and then the table holds the bundles stored up to and including the first one that panics; otherwise it returns `Ok` |
| Bundle.ValidateBundler | src/cron/bundle.rs:41-77 | asks for the bundler's 50 latest transactions; a failed fetch is `TxsFromAddressNotFound`; an undecodable body panics with nothing stored; otherwise it panics exactly when some fetched bundle panics (its download or one of its items), with the bundles up to and including the first such one stored, and else returns `Ok` with the fetched bundles stored |
| Bundle.LateTxsMembership | src/cron/bundle.rs:316-323 | a transaction gets a slashing vote exactly when its current block is before its expected block |
| Bundle.ValidateTransactions | src/cron/bundle.rs:309-326 | always `Ok(())`; votes exactly for the late transactions, in order, and none when the fetch failed |
| Text.AsciiText | src/cron/bundle.rs:201-204 | bytes become text exactly when all are ASCII, and the text's bytes are those bytes |
| Text.DecimalTextRoundTrip | src/cron/bundle.rs:272 | the decimal text of a block reads back as the block |
| Base64Url.Decode | src/bin/validator.rs:97 | a wrong length is a `Length` error, a byte outside the alphabet a `Symbol` error; success needs both to be right |
| Base64Url.DecodeEncode | src/bin/validator.rs:93-101 | decoding the encoding of any bytes gives those bytes |
| Base64Url.EncodeDecode | src/bin/validator.rs:185-195 | every text that decodes is the encoding of what it decodes to |
| Validator.MergeConfigs | src/bin/validator.rs:77-91 | the Arweave URL is then set: kept when configured, `https://` plus the gateway otherwise; every other option unchanged |
| Validator.MergeConfigsIdempotent | src/bin/validator.rs:77-91 | merging a merged configuration again changes nothing |
| Validator.PublicOnlyJwkFromRsaN | src/bin/validator.rs:93-101 | succeeds exactly when the modulus decodes, with a public-only key; otherwise returns the decoding error |
| Validator.SerializedNRoundTrip | src/bin/validator.rs:185-195 | serialising the key built from `n` gives back exactly `n` |
| Validator.PublicOnlyJwkOfSerialized | src/bin/validator.rs:93-101 | the serialised modulus of any public key builds that key |
| Validator.BundlerJwk | src/bin/validator.rs:118-124 | with a key file it returns exactly when the file reads, and the key is the file's; otherwise it returns exactly when `bundler_public` decodes, and the key is the public key built from it |
| Validator.KeyFileTakesPrecedence | src/bin/validator.rs:118-124 | with a key file given, `bundler_public` plays no part |
| Validator.BundlerJwkFromPublic | src/bin/validator.rs:118-124 | with the options the parser accepts and no key file, the key panics only on a bad modulus, and serialises back to `bundler_public` |
| Validator.AppContextFrom | src/bin/validator.rs:116-154 | the context is built exactly when both keys can be had and the Arweave URL is set, and then carries that URL, both keys, the listen address, the bundler URL and the contract gateway URL |
| Validator.MergedContextHasArweaveUrl | src/bin/validator.rs:139-142 | on a merged configuration the `unreachable!()` arm is never taken, and the context's URL is the merged one |

## Left out

- HTTP and file I/O is not executed. The model takes these as inputs:
  - the gateway response, where an `execute(..).unwrap()` failure is not modelled;
  - the bundle download of `get_tx_data` and its file write;
  - the peers' replies;
  - `BundlerConfig::fetch_config`.
- Crypto is foreign code, so it is the `Verifier` input. This covers `deep_hash_sync`,
  RSA-PSS verification and building the key from the `BUNDLER_PUBLIC` environment
  variable (and the panics there).
- `verify_file_bundle` is foreign code. Its result, and which way `get_tx_data` ends (panic, `FileError` or a file), are the `Download` input.
- The value of the SDK's `ONE_AS_BUFFER` is not part of this model. `Bundle.OneAsBuffer`
  takes it to be the bytes of the text "1".
- `vote_slash` and `get_transactions` live in modules that are not part of this model.
  - Each vote against the bundler is recorded as the late transaction that triggered it.
  - The fetched list is an input, and a `BundlerTx` holds only the fields that are read.
- Database plumbing is replaced by the maps of `Ledger`. This covers the SQL, the
  connection pool and its `expect`, and the binary encodings of `Epoch` and `Block`.
  - Block numbers are natural numbers, so the 64-bit range of `BigInt` is not modelled.
  - The foreign keys come from the schema migration and are enforced by `Ledger.Valid()`.
  - A database error of `delete_txs` itself, which it returns as `Err`, is not modelled.
- Queries.EpochWindow, Queries.Ledger.DeleteTxs: a window of at most `MaxWindow` epochs
  that still does not fit in memory aborts the process on allocation; that depends on the
  machine and is not modelled. `MaxWindow` assumes a 64-bit target.
- Arweave.PathAndQuery: the test that pins the exact encoding of `TX_QUERY` is not proved
  for that literal. The general properties of the encoding are proved instead.
- Arweave.GetLatestTransactions:
  - the request body is `data` before `serde_json::to_string` quotes it again as a JSON
    string, so that quoting is not modelled;
  - URL assembly from the host (`Uri::from_parts`) is not modelled.
- Base64Url.Decode: the error position reported by `DecodeError` is not modelled, only its
  kind.
- Validator.MergeConfigs: URL parsing and normalisation by the `url` crate is the `parses`
  input, and URLs are kept as text.
- Validator.AppContextFrom: the connection pool, the server state and the HTTP client are
  not built, and reading the validator key is part of the `readJwk` input.
- Command line parsing, environment and dotenv loading, logging, the async runtime and
  `main` are left out. `ClapAccepts` states only the rule that exactly one of
  `--bundler-public` and `--bundler-key` is given.
