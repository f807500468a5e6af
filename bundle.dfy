/** The bundle validation cron (`src/cron/bundle.rs`): for each bundle a bundler posted to
    Arweave, gate on its block, store it once, and check the receipt of every transaction
    it carries; and the slashing vote over the bundler's own transaction list.

    What the source obtains over the network or from foreign code is an input here: the
    gateway's response, the downloaded and parsed bundle file, the replies of peers, and
    the RSA-PSS verification of a deep-hashed message (`Verifier`). */
module Bundle {

  import opened Wrappers
  import opened Text
  import opened Schema
  import opened Queries
  import Arweave
  import Base64Url

  /** The bundler being validated. */
  datatype Bundler = Bundler(address: string, url: string)

  /** A bundler's receipt for a transaction: the block it promised and its signature,
      base64url text. */
  datatype TxReceipt = TxReceipt(block: nat, txId: string, signature: string)

  datatype CronError = TxNotFound | AddressNotFound | TxsFromAddressNotFound | BundleNotInsertedInDB | TxInvalid | FileError

  /** A data item of a bundle file; only its id is read. */
  datatype Item = Item(txId: string)

  /** Checks a signature (the bytes decoded from base64url) against the message given as
      the chunks that are deep-hashed, with the bundler's public key. */
  type Verifier = (seq<seq<byte>>, seq<byte>) -> bool

  // ---------------------------------------------------------------------------
  // Block gating

  /** `check_bundle_block`: the height of the block holding the bundle, if any. It never
      fails. */
  function CheckBundleBlock(bundle: Arweave.Transaction): (r: Result<Option<nat>, CronError>)
    ensures r.Success?
    ensures r.value.Some? <==> bundle.block.Some?
    ensures r.value.Some? ==> r.value.value == bundle.block.value.height
  {
    match bundle.block
    case Some(block) => Success(Some(block.height))
    case None => Success(None)
  }

  // ---------------------------------------------------------------------------
  // Storing a bundle

  /** The row `store_bundle` writes for a bundle. */
  function BundleRow(bundle: Arweave.Transaction, bundler: Bundler, currentBlock: nat): Bundle {
    Bundle(bundle.id, bundler.address, currentBlock)
  }

  /** The bundle table after storing `row` unless a row with its id is already there. */
  function WithBundle(bundles: map<string, Bundle>, row: Bundle): (r: map<string, Bundle>)
    ensures row.id in r && r.Keys == bundles.Keys + {row.id}
    ensures forall k :: k in bundles ==> r[k] == bundles[k]
    ensures row.id !in bundles ==> r[row.id] == row
  {
    if row.id in bundles then bundles else bundles[row.id := row]
  }

  /** Storing a bundle twice stores it once. */
  lemma WithBundleIdempotent(bundles: map<string, Bundle>, row: Bundle)
    ensures WithBundle(WithBundle(bundles, row), row) == WithBundle(bundles, row)
  {
  }

  /** Storing keeps the table keyed by id. */
  lemma WithBundleKeyed(bundles: map<string, Bundle>, row: Bundle)
    requires BundlesKeyed(bundles)
    ensures BundlesKeyed(WithBundle(bundles, row))
  {
  }

  /** `store_bundle`: look the bundle up and insert it when absent. The insert cannot fail
      then, so `BundleNotInsertedInDB` is never returned. */
  method StoreBundle(ledger: Ledger, bundler: Bundler, bundle: Arweave.Transaction, currentBlock: nat)
    returns (r: Completion<Result<(), CronError>>)
    requires ledger.Valid()
    modifies ledger
    ensures ledger.Valid()
    ensures r == Returns(Success(()))
    ensures ledger.bundles == WithBundle(old(ledger.bundles), BundleRow(bundle, bundler, currentBlock))
    ensures ledger.transactions == old(ledger.transactions)
    ensures ledger.validators == old(ledger.validators) && ledger.leaders == old(ledger.leaders)
  {
    var present := ledger.GetBundle(bundle.id);
    if present.Failure? {
      var inserted := ledger.InsertBundle(BundleRow(bundle, bundler, currentBlock));
      match inserted
      case Returns(_) => return Returns(Success(()));
      case Aborts => return Aborts;
    }
    r := Returns(Success(()));
  }

  /** The bundle table after storing, in order, every bundle of `txs` that has a block. */
  function StoreBundles(bundles: map<string, Bundle>, bundler: Bundler, txs: seq<Arweave.Transaction>): map<string, Bundle>
    decreases |txs|
  {
    if txs == [] then bundles
    else
      var before := StoreBundles(bundles, bundler, txs[..|txs| - 1]);
      var t := txs[|txs| - 1];
      if t.block.Some? then WithBundle(before, BundleRow(t, bundler, t.block.value.height)) else before
  }

  /** After storing a list of bundles, the table holds the old rows unchanged and one row
      for each bundle id of the list that has a block, owned by the bundler and keyed by
      its id. */
  lemma {:induction false} StoreBundlesContents(bundles: map<string, Bundle>, bundler: Bundler, txs: seq<Arweave.Transaction>)
    requires BundlesKeyed(bundles)
    ensures var r := StoreBundles(bundles, bundler, txs);
            && BundlesKeyed(r)
            && (forall k :: k in r <==> k in bundles || exists i :: 0 <= i < |txs| && txs[i].id == k && txs[i].block.Some?)
            && (forall k :: k in bundles ==> r[k] == bundles[k])
            && (forall k :: k in r && k !in bundles ==> r[k].ownerAddress == bundler.address)
  {
    if txs != [] {
      var init := txs[..|txs| - 1];
      StoreBundlesContents(bundles, bundler, init);
      var before := StoreBundles(bundles, bundler, init);
      var r := StoreBundles(bundles, bundler, txs);
      forall k
        ensures k in r <==> k in bundles || exists i :: 0 <= i < |txs| && txs[i].id == k && txs[i].block.Some?
      {
        if exists i :: 0 <= i < |init| && init[i].id == k && init[i].block.Some? {
          var i :| 0 <= i < |init| && init[i].id == k && init[i].block.Some?;
          assert txs[i] == init[i];
        }
        if exists i :: 0 <= i < |txs| && txs[i].id == k && txs[i].block.Some? {
          var i :| 0 <= i < |txs| && txs[i].id == k && txs[i].block.Some?;
          if i < |init| {
            assert init[i] == txs[i];
          }
        }
      }
    }
  }

  // ---------------------------------------------------------------------------
  // Asking peers for a receipt

  /** A validator peer, reached at `url`. */
  datatype Peer = Peer(url: string)

  /** What a GET to a peer gives: no response at all, or a status and, when the body is
      a receipt in JSON, that receipt. */
  datatype PeerReply = Unreachable | Replied(status: nat, receipt: Option<TxReceipt>)

  /** `StatusCode::is_success`. */
  predicate IsSuccess(status: nat) {
    200 <= status < 300
  }

  /** The URL asked for a transaction: `{peer.url}/tx/{tx_id}`. */
  function PeerTxUrl(peer: Peer, txId: string): string {
    peer.url + "/tx/" + txId
  }

  function Replies(txId: string, peers: seq<Peer>, fetch: string -> PeerReply): (rs: seq<PeerReply>)
    ensures |rs| == |peers|
    ensures forall i :: 0 <= i < |peers| ==> rs[i] == fetch(PeerTxUrl(peers[i], txId))
  {
    seq(|peers|, i requires 0 <= i < |peers| => fetch(PeerTxUrl(peers[i], txId)))
  }

  /** The outcome of asking peers in turn: the first success answers (and a success whose
      body is not a receipt panics); when none succeeds, `TxNotFound`. */
  function PeersOutcome(replies: seq<PeerReply>): Completion<Result<TxReceipt, CronError>>
  {
    if replies == [] then Returns(Failure(TxNotFound))
    else match replies[0]
      case Replied(status, receipt) =>
        if !IsSuccess(status) then PeersOutcome(replies[1..])
        else if receipt.Some? then Returns(Success(receipt.value))
        else Aborts
      case Unreachable => PeersOutcome(replies[1..])
  }

  /** The peers answer `TxNotFound` exactly when none of them replies with a success. */
  lemma {:induction false} PeersOutcomeNotFound(replies: seq<PeerReply>)
    ensures PeersOutcome(replies) == Returns(Failure(TxNotFound))
            <==> forall i :: 0 <= i < |replies| ==> !(replies[i].Replied? && IsSuccess(replies[i].status))
  {
    if replies != [] {
      PeersOutcomeNotFound(replies[1..]);
      assert forall i :: 1 <= i < |replies| ==> replies[i] == replies[1..][i - 1];
    }
  }

  /** A receipt from the peers is the receipt of some successful reply, and every peer
      asked before that one failed. */
  lemma {:induction false} PeersOutcomeFound(replies: seq<PeerReply>)
    requires PeersOutcome(replies).Returns? && PeersOutcome(replies).value.Success?
    ensures exists i :: 0 <= i < |replies| && replies[i].Replied? && IsSuccess(replies[i].status)
                        && replies[i].receipt == Some(PeersOutcome(replies).value.value)
                        && forall j :: 0 <= j < i ==> !(replies[j].Replied? && IsSuccess(replies[j].status))
  {
    var receipt := PeersOutcome(replies).value.value;
    if replies[0].Replied? && IsSuccess(replies[0].status) {
      assert replies[0].receipt == Some(receipt);
    } else {
      PeersOutcomeFound(replies[1..]);
      var i :| 0 <= i < |replies[1..]| && replies[1..][i].Replied? && IsSuccess(replies[1..][i].status)
               && replies[1..][i].receipt == Some(receipt)
               && forall j :: 0 <= j < i ==> !(replies[1..][j].Replied? && IsSuccess(replies[1..][j].status));
      assert replies[i + 1] == replies[1..][i];
      forall j | 0 <= j < i + 1
        ensures !(replies[j].Replied? && IsSuccess(replies[j].status))
      {
        if j > 0 {
          assert replies[j] == replies[1..][j - 1];
        }
      }
    }
  }

  /** The loop of `tx_exists_on_peers` over a list of peers. */
  method QueryPeers(txId: string, peers: seq<Peer>, fetch: string -> PeerReply)
    returns (r: Completion<Result<TxReceipt, CronError>>)
    ensures r == PeersOutcome(Replies(txId, peers, fetch))
  {
    ghost var rs := Replies(txId, peers, fetch);
    for i := 0 to |peers|
      invariant PeersOutcome(rs) == PeersOutcome(rs[i..])
    {
      var reply := fetch(PeerTxUrl(peers[i], txId));
      assert rs[i..][0] == reply && rs[i..][1..] == rs[i + 1..];
      if reply.Unreachable? {
        continue;
      }
      if IsSuccess(reply.status) {
        if reply.receipt.None? {
          return Aborts;
        }
        return Returns(Success(reply.receipt.value));
      }
    }
    assert rs[|peers|..] == [];
    r := Returns(Failure(TxNotFound));
  }

  /** `tx_exists_on_peers`: the list of peers it asks is built empty, so it always
      answers `TxNotFound`, whatever the peers would have said. */
  method TxExistsOnPeers(txId: string, fetch: string -> PeerReply) returns (r: Completion<Result<TxReceipt, CronError>>)
    ensures r == Returns(Failure(TxNotFound))
  {
    var validatorPeers: seq<Peer> := [];
    r := QueryPeers(txId, validatorPeers, fetch);
    PeersOutcomeNotFound(Replies(txId, validatorPeers, fetch));
  }

  // ---------------------------------------------------------------------------
  // Verifying a receipt

  /** The bytes of the text "Bundlr". */
  const BundlrAsBuffer: seq<byte> := [0x42, 0x75, 0x6E, 0x64, 0x6C, 0x72]

  /** The bundlr SDK's `ONE_AS_BUFFER`, the bytes of the text "1". */
  const OneAsBuffer: seq<byte> := [0x31]

  /** The signed chunks are, in order, the text "Bundlr", the text "1", the id's bytes and
      the block's decimal text. */
  lemma BundlrAsBufferIsText()
    ensures BundlrAsBuffer == Utf8("Bundlr")
    ensures OneAsBuffer == Utf8("1")
    ensures forall r: TxReceipt :: && ReceiptChunks(r)[0] == Utf8("Bundlr") && ReceiptChunks(r)[1] == Utf8("1")
                                   && ReceiptChunks(r)[2] == Utf8(r.txId)
                                   && ReceiptChunks(r)[3] == Utf8(DecimalText(r.block))
  {
    Utf8Append("Bun", "dlr");
    assert "Bun" + "dlr" == "Bundlr";
  }

  /** The four chunks whose deep hash is the signed message, in order. */
  function ReceiptChunks(receipt: TxReceipt): (chunks: seq<seq<byte>>)
    ensures |chunks| == 4
  {
    [BundlrAsBuffer, OneAsBuffer, Utf8(receipt.txId), Utf8(DecimalText(receipt.block))]
  }

  lemma DecimalTextAscii(n: nat)
    ensures IsAscii(DecimalText(n))
  {
  }

  /** The message binds the receipt: for transaction ids in ASCII (Arweave ids are
      base64url text), two receipts with the same chunks have the same id and block. */
  lemma ReceiptChunksDetermineReceipt(r1: TxReceipt, r2: TxReceipt)
    requires IsAscii(r1.txId) && IsAscii(r2.txId)
    requires ReceiptChunks(r1) == ReceiptChunks(r2)
    ensures r1.txId == r2.txId && r1.block == r2.block
  {
    Utf8OfAscii(r1.txId);
    Utf8OfAscii(r2.txId);
    assert |r1.txId| == |r2.txId|;
    forall i | 0 <= i < |r1.txId|
      ensures r1.txId[i] == r2.txId[i]
    {
      assert Utf8(r1.txId)[i] == Utf8(r2.txId)[i];
    }
    var d1, d2 := DecimalText(r1.block), DecimalText(r2.block);
    DecimalTextAscii(r1.block);
    DecimalTextAscii(r2.block);
    Utf8OfAscii(d1);
    Utf8OfAscii(d2);
    assert |d1| == |d2|;
    forall i | 0 <= i < |d1|
      ensures d1[i] == d2[i]
    {
      assert Utf8(d1)[i] == Utf8(d2)[i];
    }
    assert d1 == d2;
    DecimalTextInjective(r1.block, r2.block);
  }

  /** The block chunk is the decimal text of the promised block, and reads back as it. */
  lemma BlockChunkReadsBack(receipt: TxReceipt)
    ensures AsciiText(ReceiptChunks(receipt)[3]) == Some(DecimalText(receipt.block))
    ensures DigitsValue(DecimalText(receipt.block)) == receipt.block
  {
    var d := DecimalText(receipt.block);
    DecimalTextAscii(receipt.block);
    Utf8OfAscii(d);
    var bytes := Utf8(d);
    assert forall i :: 0 <= i < |bytes| ==> bytes[i] < 0x80;
    var s := seq(|bytes|, i requires 0 <= i < |bytes| => bytes[i] as char);
    assert s == d;
    DecimalTextRoundTrip(receipt.block);
  }

  /** `verify_tx_receipt`: decode the signature (a panic when it is not base64url without
      padding) and verify it over the four chunks. */
  function VerifyTxReceipt(receipt: TxReceipt, verify: Verifier): (r: Completion<bool>)
    ensures r.Aborts? <==> Base64Url.Decode(Utf8(receipt.signature)).Failure?
  {
    match Base64Url.Decode(Utf8(receipt.signature))
    case Failure(_) => Aborts
    case Success(sig) => Returns(verify(ReceiptChunks(receipt), sig))
  }

  /** A receipt carrying the base64url text of a signature is verified on exactly that
      signature. */
  lemma VerifyEncodedSignature(receipt: TxReceipt, sig: seq<byte>, verify: Verifier)
    requires receipt.signature == Base64Url.Encode(sig)
    ensures VerifyTxReceipt(receipt, verify) == Returns(verify(ReceiptChunks(receipt), sig))
  {
    Base64Url.DecodeEncode(sig);
  }

  // ---------------------------------------------------------------------------
  // Verifying one transaction of a bundle

  /** The receipt `verify_bundle_tx` builds from a stored row: the promised block, the id
      and the signature as text; None when the stored signature is not ASCII, where the
      source panics (at the UTF-8 check, or at the base64url decode of the text). */
  function ReceiptOfRow(row: Transaction): (r: Option<TxReceipt>)
    ensures r.Some? <==> forall i :: 0 <= i < |row.signature| ==> row.signature[i] < 0x80
    ensures r.Some? ==> r.value.block == row.blockPromised && r.value.txId == row.id
                        && Utf8(r.value.signature) == row.signature
  {
    match AsciiText(row.signature)
    case None => None
    case Some(sig) => Some(TxReceipt(row.blockPromised, row.id, sig))
  }

  /** The validated row `verify_bundle_tx` inserts for an accepted receipt. */
  function ReceiptRow(receipt: TxReceipt, item: Item, currentBlock: Option<nat>): Transaction {
    Transaction(receipt.txId, 0, receipt.block, currentBlock, Utf8(receipt.signature), true, Some(item.txId))
  }

  /** The row built from a receipt read out of the store has that row's id, promised
      block and signature, and is validated, in epoch 0, with the current block as its
      actual block and the item's id as its bundle. */
  lemma ReceiptRowOfStoredRow(row: Transaction, item: Item, currentBlock: Option<nat>)
    requires ReceiptOfRow(row).Some?
    ensures var t := ReceiptRow(ReceiptOfRow(row).value, item, currentBlock);
            && t.id == row.id && t.blockPromised == row.blockPromised && t.signature == row.signature
            && t.validated && t.epoch == 0 && t.blockActual == currentBlock && t.bundleId == Some(item.txId)
  {
  }

  /** Whether a receipt is accepted: the signature verifies and the promised block is not
      after the current block. A verified signature with no current block panics. */
  predicate Accepted(receipt: TxReceipt, currentBlock: Option<nat>, verify: Verifier) {
    VerifyTxReceipt(receipt, verify) == Returns(true) && currentBlock.Some? && receipt.block <= currentBlock.value
  }

  /** When `verify_bundle_tx` panics. A receipt only exists for an item already in the
      store, so inserting the accepted row repeats a stored id and panics too. */
  predicate BundleTxAborts(transactions: map<string, Transaction>, item: Item, currentBlock: Option<nat>, verify: Verifier) {
    && item.txId in transactions
    && match ReceiptOfRow(transactions[item.txId])
       case None => true
       case Some(receipt) =>
         || VerifyTxReceipt(receipt, verify).Aborts?
         || (VerifyTxReceipt(receipt, verify) == Returns(true) && currentBlock.None?)
         || Accepted(receipt, currentBlock, verify)
  }

  /** An item not in the store gets no receipt and passes without a trace. */
  lemma UnknownItemPasses(transactions: map<string, Transaction>, item: Item, currentBlock: Option<nat>, verify: Verifier)
    requires item.txId !in transactions
    ensures !BundleTxAborts(transactions, item, currentBlock, verify)
  {
  }

  /** `verify_bundle_tx`. When it returns, it returns `Ok(())` and the store is as it was:
      the only insert it attempts would duplicate a stored id. */
  method VerifyBundleTx(ledger: Ledger, item: Item, currentBlock: Option<nat>, verify: Verifier, fetch: string -> PeerReply)
    returns (r: Completion<Result<(), CronError>>)
    requires ledger.Valid()
    modifies ledger
    ensures ledger.Valid()
    ensures r.Aborts? <==> BundleTxAborts(old(ledger.transactions), item, currentBlock, verify)
    ensures r.Returns? ==> r.value == Success(())
    ensures ledger.transactions == old(ledger.transactions) && ledger.bundles == old(ledger.bundles)
    ensures ledger.validators == old(ledger.validators) && ledger.leaders == old(ledger.leaders)
  {
    var tx := ledger.GetTx(item.txId);
    var txReceipt: Option<TxReceipt> := None;
    if tx.Success? {
      var receipt := ReceiptOfRow(tx.value);
      if receipt.None? {
        return Aborts;
      }
      txReceipt := receipt;
    } else {
      var peerTx := TxExistsOnPeers(item.txId, fetch);
      match peerTx {
        case Aborts => return Aborts;
        case Returns(Success(receipt)) => txReceipt := Some(receipt);
        case Returns(Failure(_)) =>
      }
    }
    match txReceipt {
      case None =>
      case Some(receipt) =>
        var txIsOk := VerifyTxReceipt(receipt, verify);
        if txIsOk.Aborts? {
          return Aborts;
        }
        if txIsOk.value && currentBlock.None? {
          return Aborts;
        }
        if txIsOk.value && receipt.block <= currentBlock.value {
          var inserted := ledger.InsertTx(ReceiptRow(receipt, item, currentBlock));
          if inserted.Aborts? {
            return Aborts;
          }
        }
    }
    r := Returns(Success(()));
  }

  // ---------------------------------------------------------------------------
  // Validating a bundle

  /** The outcome of `get_tx_data` for a bundle: a panic (the file cannot be created, the
      request fails to send, or the status is neither a success nor 4xx/5xx), an error (a
      4xx/5xx status or a failed chunk read), or the file, whose parse gives the items or
      fails. */
  datatype Download = DownloadPanics | DownloadFailed | Downloaded(items: Option<seq<Item>>)

  /** The items `validate_bundle` walks: a file that does not parse has none. */
  function ItemsOf(download: Download): (items: seq<Item>)
    requires download.Downloaded?
    ensures download.items.None? ==> items == []
  {
    download.items.GetOr([])
  }

  /** When `validate_bundle` panics: the bundle has a block, and either `get_tx_data`
      panics or the file was downloaded and one of its items makes `verify_bundle_tx`
      panic. */
  predicate BundleAborts(transactions: map<string, Transaction>, bundle: Arweave.Transaction, download: Download,
                         verify: Verifier) {
    && bundle.block.Some?
    && (|| download.DownloadPanics?
        || (&& download.Downloaded?
            && exists i :: 0 <= i < |ItemsOf(download)|
                 && BundleTxAborts(transactions, ItemsOf(download)[i], Some(bundle.block.value.height), verify)))
  }

  /** `validate_bundle`. A bundle without a block is skipped before anything is stored or
      downloaded; otherwise it is stored, and a failed download is `FileError`. The only
      error it can return is `FileError` (`check_bundle_block` never fails and
      `verify_bundle_tx` never returns an error). No transaction is ever added. */
  method ValidateBundle(ledger: Ledger, bundler: Bundler, bundle: Arweave.Transaction, download: Download,
                        verify: Verifier, fetch: string -> PeerReply)
    returns (r: Completion<Result<(), CronError>>)
    requires ledger.Valid()
    modifies ledger
    ensures ledger.Valid()
    ensures bundle.block.None? ==> r == Returns(Success(())) && ledger.bundles == old(ledger.bundles)
    ensures bundle.block.Some? ==>
              ledger.bundles == WithBundle(old(ledger.bundles), BundleRow(bundle, bundler, bundle.block.value.height))
    ensures ledger.transactions == old(ledger.transactions)
    ensures ledger.validators == old(ledger.validators) && ledger.leaders == old(ledger.leaders)
    ensures r.Returns? ==> r.value == Success(()) || r.value == Failure(FileError)
    ensures r == Returns(Failure(FileError)) <==> bundle.block.Some? && download.DownloadFailed?
    ensures r.Aborts? <==> BundleAborts(old(ledger.transactions), bundle, download, verify)
  {
    var currentBlock := CheckBundleBlock(bundle).value;
    if currentBlock.None? {
      return Returns(Success(()));
    }
    var stored := StoreBundle(ledger, bundler, bundle, currentBlock.value);
    if stored.Aborts? {
      return Aborts;
    }
    if download.DownloadPanics? {
      return Aborts;
    }
    if download.DownloadFailed? {
      return Returns(Failure(FileError));
    }
    var bundleTxs := ItemsOf(download);
    for i := 0 to |bundleTxs|
      invariant ledger.Valid()
      invariant ledger.bundles == WithBundle(old(ledger.bundles), BundleRow(bundle, bundler, currentBlock.value))
      invariant ledger.transactions == old(ledger.transactions)
      invariant ledger.validators == old(ledger.validators) && ledger.leaders == old(ledger.leaders)
      invariant forall j :: 0 <= j < i ==> !BundleTxAborts(old(ledger.transactions), bundleTxs[j], currentBlock, verify)
    {
      var txReceipt := VerifyBundleTx(ledger, bundleTxs[i], currentBlock, verify, fetch);
      if txReceipt.Aborts? {
        return Aborts;
      }
      if txReceipt.value.Failure? {
        return Returns(Failure(TxInvalid));
      }
    }
    r := Returns(Success(()));
  }

  // ---------------------------------------------------------------------------
  // Validating a bundler

  /** `validate_bundler`: fetch the bundler's latest 50 transactions and validate each as
      a bundle, in order. A failed fetch is `TxsFromAddressNotFound`; a `FileError` from a
      bundle is passed over; the other errors would hit `todo!()` but never occur. */
  method ValidateBundler(ledger: Ledger, bundler: Bundler, response: Arweave.HttpResponse,
                         download: string -> Download, verify: Verifier, fetch: string -> PeerReply)
    returns (request: Arweave.Request, r: Completion<Result<(), CronError>>)
    requires ledger.Valid()
    modifies ledger
    ensures ledger.Valid()
    ensures request == Arweave.LatestTransactionsRequest(bundler.address, Some(50), None)
    ensures response.status != 200 ==> r == Returns(Failure(TxsFromAddressNotFound)) && ledger.bundles == old(ledger.bundles)
    ensures response.status == 200 && response.body.None? ==> r.Aborts? && ledger.bundles == old(ledger.bundles)
    ensures response.status == 200 && r.Returns? ==>
              && response.body.Some?
              && r.value == Success(())
              && ledger.bundles == StoreBundles(old(ledger.bundles), bundler, Arweave.Nodes(response.body.value.data.transactions.edges))
    ensures response.status == 200 && response.body.Some? ==>
              var txs := Arweave.Nodes(response.body.value.data.transactions.edges);
              && (r.Aborts? <==> exists i :: 0 <= i < |txs| && BundleAborts(old(ledger.transactions), txs[i], download(txs[i].id), verify))
              && (r.Aborts? ==>
                    exists i :: && 0 <= i < |txs|
                                && BundleAborts(old(ledger.transactions), txs[i], download(txs[i].id), verify)
                                && (forall k :: 0 <= k < i ==> !BundleAborts(old(ledger.transactions), txs[k], download(txs[k].id), verify))
                                && ledger.bundles == StoreBundles(old(ledger.bundles), bundler, txs[..i + 1]))
    ensures ledger.transactions == old(ledger.transactions)
    ensures ledger.validators == old(ledger.validators) && ledger.leaders == old(ledger.leaders)
  {
    var txsReq;
    request, txsReq := Arweave.GetLatestTransactions(bundler.address, Some(50), None, response);
    if txsReq.Aborts? {
      return request, Aborts;
    }
    if txsReq.value.Failure? {
      return request, Returns(Failure(TxsFromAddressNotFound));
    }
    r := ValidateBundles(ledger, bundler, txsReq.value.value.txs, download, verify, fetch);
  }

  /** The loop of `validate_bundler` over the fetched bundles. */
  method ValidateBundles(ledger: Ledger, bundler: Bundler, txs: seq<Arweave.Transaction>,
                         download: string -> Download, verify: Verifier, fetch: string -> PeerReply)
    returns (r: Completion<Result<(), CronError>>)
    requires ledger.Valid()
    modifies ledger
    ensures ledger.Valid()
    ensures r.Returns? ==> r.value == Success(()) && ledger.bundles == StoreBundles(old(ledger.bundles), bundler, txs)
    ensures r.Aborts? <==> exists i :: 0 <= i < |txs| && BundleAborts(old(ledger.transactions), txs[i], download(txs[i].id), verify)
    ensures r.Aborts? ==>
              exists i :: && 0 <= i < |txs|
                          && BundleAborts(old(ledger.transactions), txs[i], download(txs[i].id), verify)
                          && (forall k :: 0 <= k < i ==> !BundleAborts(old(ledger.transactions), txs[k], download(txs[k].id), verify))
                          && ledger.bundles == StoreBundles(old(ledger.bundles), bundler, txs[..i + 1])
    ensures ledger.transactions == old(ledger.transactions)
    ensures ledger.validators == old(ledger.validators) && ledger.leaders == old(ledger.leaders)
  {
    for i := 0 to |txs|
      invariant ledger.Valid()
      invariant ledger.bundles == StoreBundles(old(ledger.bundles), bundler, txs[..i])
      invariant ledger.transactions == old(ledger.transactions)
      invariant ledger.validators == old(ledger.validators) && ledger.leaders == old(ledger.leaders)
      invariant forall k :: 0 <= k < i ==> !BundleAborts(old(ledger.transactions), txs[k], download(txs[k].id), verify)
    {
      var res := ValidateBundle(ledger, bundler, txs[i], download(txs[i].id), verify, fetch);
      assert txs[..i + 1][..i] == txs[..i];
      if res.Aborts? {
        assert txs[..i + 1][i] == txs[i];
        return Aborts;
      }
      if res.value.Failure? && res.value.error != FileError {
        return Aborts;
      }
    }
    assert txs[..|txs|] == txs;
    r := Returns(Success(()));
  }

  // ---------------------------------------------------------------------------
  // Slashing votes

  /** A transaction of the bundler's list with the blocks it was promised in and is in. */
  datatype BundlerTx = BundlerTx(id: string, currentBlock: nat, expectedBlock: nat)

  /** The transactions that get a slashing vote, in order. */
  function LateTxs(txs: seq<BundlerTx>): seq<BundlerTx>
    decreases |txs|
  {
    if txs == [] then []
    else
      var t := txs[|txs| - 1];
      LateTxs(txs[..|txs| - 1]) + (if t.currentBlock < t.expectedBlock then [t] else [])
  }

  /** A transaction gets a vote exactly when its current block is before its expected
      block, and no transaction gets more votes than the list holds. */
  lemma {:induction false} LateTxsMembership(txs: seq<BundlerTx>)
    ensures forall t :: t in LateTxs(txs) <==> t in txs && t.currentBlock < t.expectedBlock
    ensures |LateTxs(txs)| <= |txs|
  {
    if txs != [] {
      var init := txs[..|txs| - 1];
      LateTxsMembership(init);
      assert txs == init + [txs[|txs| - 1]];
    }
  }

  /** `validate_transactions`: one `vote_slash` per late transaction of the fetched list
      (none when the fetch fails), recorded in `slashVotes`; always `Ok(())`. */
  method ValidateTransactions(bundler: Bundler, fetched: Option<seq<BundlerTx>>)
    returns (r: Result<(), CronError>, slashVotes: seq<BundlerTx>)
    ensures r == Success(())
    ensures slashVotes == LateTxs(fetched.GetOr([]))
  {
    var txs := match fetched case Some(list) => list case None => [];
    slashVotes := [];
    for i := 0 to |txs|
      invariant slashVotes == LateTxs(txs[..i])
    {
      var blockOk := txs[i].currentBlock < txs[i].expectedBlock;
      if blockOk {
        slashVotes := slashVotes + [txs[i]];
      }
      assert txs[..i + 1][..i] == txs[..i];
    }
    assert txs[..|txs|] == txs;
    r := Success(());
  }
}
