/** The gateway client (`src/cron/arweave.rs`): the GraphQL request the validator sends for
    a bundler's latest transactions, and how it reads the gateway's answer. Executing the
    request is left to the caller: the HTTP response is an input. */
module Arweave {

  import opened Wrappers
  import opened Text

  // ---------------------------------------------------------------------------
  // Gateway records

  datatype Tag = Tag(name: string, value: string)

  datatype Owner = Owner(address: string)

  datatype BlockInfo = BlockInfo(id: string, timestamp: int, height: nat)

  /** A transaction as the gateway's GraphQL answer describes it. */
  datatype Transaction = Transaction(
    id: string,
    owner: Owner,
    signature: string,
    recipient: Option<string>,
    tags: seq<Tag>,
    block: Option<BlockInfo>)

  datatype GraphqlNodes = GraphqlNodes(node: Transaction, cursor: string)

  datatype PageInfo = PageInfo(hasNextPage: bool)

  datatype GraphqlEdges = GraphqlEdges(edges: seq<GraphqlNodes>, pageInfo: PageInfo)

  datatype TransactionsGqlResponse = TransactionsGqlResponse(transactions: GraphqlEdges)

  datatype GraphqlQueryResponse = GraphqlQueryResponse(data: TransactionsGqlResponse)

  datatype ArweaveError = TxsNotFound | MalformedQuery | InternalServerError | GatewayTimeout | UnknownErr

  /** Any `anyhow::Error`; its content plays no part. */
  datatype AnyhowError = AnyhowError(message: string)

  /** `From<anyhow::Error> for ArweaveError`: every such error becomes `UnknownErr`. */
  function FromAnyhow(err: AnyhowError): (r: ArweaveError)
    ensures r == UnknownErr
  {
    UnknownErr
  }

  // ---------------------------------------------------------------------------
  // The request

  const TxQuery: string := "query($owners: [String!], $first: Int) { transactions(owners: $owners, first: $first) { pageInfo { hasNextPage } edges { cursor node { id owner { address } signature recipient tags { name value } block { height id timestamp } } } } }"

  /** The characters `urlencoding::encode` leaves as they are (the unreserved characters
      of section 2.3 of RFC 3986). */
  predicate Unreserved(c: char) {
    ('A' <= c <= 'Z') || ('a' <= c <= 'z') || ('0' <= c <= '9') || c == '-' || c == '.' || c == '_' || c == '~'
  }

  function HexDigit(d: int): (c: char)
    requires 0 <= d < 16
  {
    if d < 10 then (48 + d) as char else (55 + d) as char
  }

  function HexValue(c: char): (r: Option<int>)
    ensures r.Some? ==> 0 <= r.value < 16 && HexDigit(r.value) == c
  {
    if '0' <= c <= '9' then Some(c as int - 48)
    else if 'A' <= c <= 'F' then Some(c as int - 55)
    else None
  }

  /** One byte of the input: kept when it is an unreserved character, otherwise written
      as '%' and two upper-case hex digits (section 2.1 of RFC 3986). */
  function EncodeByte(b: byte): (r: string)
    ensures |r| == 1 || |r| == 3
  {
    if Unreserved(b as char) then [b as char] else ['%', HexDigit(b / 16), HexDigit(b % 16)]
  }

  function EncodeBytes(bs: seq<byte>): string
  {
    if bs == [] then [] else EncodeByte(bs[0]) + EncodeBytes(bs[1..])
  }

  /** `urlencoding::encode(s)`: the bytes of `s`, each one encoded. */
  function PercentEncode(s: string): string
  {
    EncodeBytes(Utf8(s))
  }

  /** The inverse reading: a percent-encoded text back to bytes; None on a stray '%',
      a bad hex digit or a character that should have been encoded. */
  function PercentDecode(t: string): Option<seq<byte>>
  {
    if t == [] then Some([])
    else if t[0] == '%' then
      if |t| < 3 then None
      else match (HexValue(t[1]), HexValue(t[2]), PercentDecode(t[3..]))
        case (Some(hi), Some(lo), Some(rest)) => Some([hi * 16 + lo] + rest)
        case _ => None
    else if Unreserved(t[0]) then
      match PercentDecode(t[1..])
      case Some(rest) => Some([t[0] as int] + rest)
      case None => None
    else None
  }

  /** The characters an encoded text can hold. */
  predicate EncodedChar(c: char) {
    Unreserved(c) || c == '%' || ('A' <= c <= 'F')
  }

  lemma {:induction false} EncodeBytesRoundTrip(bs: seq<byte>)
    ensures PercentDecode(EncodeBytes(bs)) == Some(bs)
    ensures forall i :: 0 <= i < |EncodeBytes(bs)| ==> EncodedChar(EncodeBytes(bs)[i])
  {
    if bs != [] {
      var b := bs[0];
      var head := EncodeByte(b);
      var tail := EncodeBytes(bs[1..]);
      EncodeBytesRoundTrip(bs[1..]);
      assert EncodeBytes(bs) == head + tail;
      var t := head + tail;
      if Unreserved(b as char) {
        assert t[0] == b as char && t[1..] == tail;
        assert [b] + bs[1..] == bs;
      } else {
        assert t[0] == '%' && t[1] == HexDigit(b / 16) && t[2] == HexDigit(b % 16) && t[3..] == tail;
        assert b / 16 * 16 + b % 16 == b;
        assert HexValue(HexDigit(b / 16)) == Some(b / 16);
        assert HexValue(HexDigit(b % 16)) == Some(b % 16);
        assert PercentDecode(t[3..]) == Some(bs[1..]);
        assert [b / 16 * 16 + b % 16] + bs[1..] == bs;
      }
    }
  }

  /** Decoding the encoding of a text gives back the text's bytes, and the encoding
      uses only unreserved characters, '%' and hex digits. */
  lemma PercentEncodeRoundTrip(s: string)
    ensures PercentDecode(PercentEncode(s)) == Some(Utf8(s))
    ensures forall i :: 0 <= i < |PercentEncode(s)| ==> EncodedChar(PercentEncode(s)[i])
  {
    EncodeBytesRoundTrip(Utf8(s));
  }

  /** A text made only of unreserved ASCII characters is its own encoding. */
  lemma {:induction false} UnreservedUnchanged(s: string)
    requires forall i :: 0 <= i < |s| ==> Unreserved(s[i])
    ensures PercentEncode(s) == s
  {
    if s != [] {
      UnreservedUnchanged(s[1..]);
      assert Utf8(s) == [s[0] as int] + Utf8(s[1..]);
      assert Utf8(s)[1..] == Utf8(s[1..]);
    }
  }

  lemma {:induction false} EncodeBytesAppend(a: seq<byte>, b: seq<byte>)
    ensures EncodeBytes(a + b) == EncodeBytes(a) + EncodeBytes(b)
  {
    if a == [] {
      assert a + b == b;
    } else {
      assert (a + b)[0] == a[0] && (a + b)[1..] == a[1..] + b;
      EncodeBytesAppend(a[1..], b);
    }
  }

  /** The encoding of a concatenation is the concatenation of the encodings. */
  lemma PercentEncodeAppend(a: string, b: string)
    ensures PercentEncode(a + b) == PercentEncode(a) + PercentEncode(b)
  {
    Utf8Append(a, b);
    EncodeBytesAppend(Utf8(a), Utf8(b));
  }

  const GraphqlPath: string := "/graphql?query="

  /** `path_and_query(raw_query)`: the GraphQL path with the query percent-encoded. */
  function PathAndQuery(rawQuery: string): (r: string)
    ensures |r| >= |GraphqlPath| && r[..|GraphqlPath|] == GraphqlPath
    ensures PercentDecode(r[|GraphqlPath|..]) == Some(Utf8(rawQuery))
    ensures forall i :: |GraphqlPath| <= i < |r| ==> EncodedChar(r[i])
  {
    PercentEncodeRoundTrip(rawQuery);
    var r := GraphqlPath + PercentEncode(rawQuery);
    assert r[|GraphqlPath|..] == PercentEncode(rawQuery);
    r
  }

  function VariablesHead(owner: string): string {
    "{\"owners\": [\"" + owner + "\"], \"first\": "
  }

  function VariablesTail(after: Option<string>): string {
    ", \"after\": " + (match after case None => "null" case Some(a) => a) + "}"
  }

  /** The variables of the request: `first` defaults to 10 and a missing `after` is the
      literal `null`. */
  function RawVariables(owner: string, first: Option<int>, after: Option<string>): string {
    VariablesHead(owner) + SignedText(first.GetOr(10)) + VariablesTail(after)
  }

  /** The request text: the query and the variables. */
  function RequestData(rawVariables: string): string {
    "{\"query\":\"" + TxQuery + "\",\"variables\":" + rawVariables + "}"
  }

  lemma SignedTextInjective(x: int, y: int)
    requires SignedText(x) == SignedText(y)
    ensures x == y
  {
    var sx, sy := SignedText(x), SignedText(y);
    if x >= 0 && y >= 0 {
      DecimalTextInjective(x, y);
    } else if x < 0 && y < 0 {
      assert sx[1..] == sy[1..];
      DecimalTextInjective(-x, -y);
    }
  }

  /** Strip a common prefix and suffix. */
  lemma Unframe(p: string, x: string, y: string, q: string)
    requires p + x + q == p + y + q
    ensures x == y
  {
    var l, r := p + x + q, p + y + q;
    assert |x| == |y|;
    forall i | 0 <= i < |x|
      ensures x[i] == y[i]
    {
      assert l[|p| + i] == x[i];
      assert r[|p| + i] == y[i];
    }
  }

  /** The variables text determines the `first` value sent: an absent `first` is
      indistinguishable from `Some(10)`, and no other two values give the same text. */
  lemma RawVariablesFirst(owner: string, f1: Option<int>, f2: Option<int>, after: Option<string>)
    ensures RawVariables(owner, f1, after) == RawVariables(owner, f2, after) <==> f1.GetOr(10) == f2.GetOr(10)
  {
    if RawVariables(owner, f1, after) == RawVariables(owner, f2, after) {
      Unframe(VariablesHead(owner), SignedText(f1.GetOr(10)), SignedText(f2.GetOr(10)), VariablesTail(after));
      SignedTextInjective(f1.GetOr(10), f2.GetOr(10));
    }
  }

  /** An absent `after` renders exactly like a cursor whose text is `null`. */
  lemma AfterAbsentIsNull(owner: string, first: Option<int>)
    ensures RawVariables(owner, first, None) == RawVariables(owner, first, Some("null"))
  {
  }

  /** The POST request `get_latest_transactions` builds. */
  datatype Request = Request(pathAndQuery: string, data: string)

  function LatestTransactionsRequest(owner: string, first: Option<int>, after: Option<string>): Request {
    Request(PathAndQuery(TxQuery), RequestData(RawVariables(owner, first, after)))
  }

  // ---------------------------------------------------------------------------
  // The response

  /** The gateway's answer: its status and, when the body is valid JSON of the expected
      shape, the decoded body. */
  datatype HttpResponse = HttpResponse(status: nat, body: Option<GraphqlQueryResponse>)

  /** The tuple `(transactions, has_next_page, end_cursor)`. */
  datatype Page = Page(txs: seq<Transaction>, hasNextPage: bool, endCursor: Option<string>)

  /** The status of a failed request as an error. */
  function StatusError(status: nat): (e: ArweaveError)
    requires status != 200
    ensures e == MalformedQuery <==> status == 400
    ensures e == TxsNotFound <==> status == 404
    ensures e == InternalServerError <==> status == 500
    ensures e == GatewayTimeout <==> status == 504
    ensures e == UnknownErr <==> status !in {400, 404, 500, 504}
  {
    if status == 400 then MalformedQuery
    else if status == 404 then TxsNotFound
    else if status == 500 then InternalServerError
    else if status == 504 then GatewayTimeout
    else UnknownErr
  }

  /** The nodes of the edges, in order. */
  function Nodes(edges: seq<GraphqlNodes>): (r: seq<Transaction>)
    ensures |r| == |edges|
    ensures forall i :: 0 <= i < |edges| ==> r[i] == edges[i].node
  {
    seq(|edges|, i requires 0 <= i < |edges| => edges[i].node)
  }

  /** The cursor of the last edge, if there is one. */
  function LastCursor(edges: seq<GraphqlNodes>): (r: Option<string>)
    ensures r.None? <==> edges == []
    ensures r.Some? ==> r.value == edges[|edges| - 1].cursor
  {
    if edges == [] then None else Some(edges[|edges| - 1].cursor)
  }

  /** The loop of `get_latest_transactions` over the edges of a page: each node in
      order, and the cursor of the edge seen last. */
  method CollectEdges(edges: seq<GraphqlNodes>) returns (txs: seq<Transaction>, endCursor: Option<string>)
    ensures txs == Nodes(edges)
    ensures endCursor == LastCursor(edges)
  {
    txs := [];
    endCursor := None;
    for i := 0 to |edges|
      invariant txs == Nodes(edges[..i])
      invariant endCursor == LastCursor(edges[..i])
    {
      txs := txs + [edges[i].node];
      endCursor := Some(edges[i].cursor);
    }
    assert edges[..|edges|] == edges;
  }

  /** `get_latest_transactions`, given the gateway's response: on 200 it walks the edges,
      collecting each node and remembering the latest cursor; any other status is an
      error. A 200 whose body does not decode panics (`unwrap`). */
  method GetLatestTransactions(owner: string, first: Option<int>, after: Option<string>, response: HttpResponse)
    returns (request: Request, r: Completion<Result<Page, ArweaveError>>)
    ensures request == LatestTransactionsRequest(owner, first, after)
    ensures response.status == 200 && response.body.None? ==> r.Aborts?
    ensures response.status == 200 && response.body.Some? ==>
              var gql := response.body.value.data.transactions;
              r == Returns(Success(Page(Nodes(gql.edges), gql.pageInfo.hasNextPage, LastCursor(gql.edges))))
    ensures response.status != 200 ==> r == Returns(Failure(StatusError(response.status)))
  {
    request := LatestTransactionsRequest(owner, first, after);
    if response.status != 200 {
      return request, Returns(Failure(StatusError(response.status)));
    }
    if response.body.None? {
      return request, Aborts;
    }
    var gql := response.body.value.data.transactions;
    var txs, endCursor := CollectEdges(gql.edges);
    var hasNextPage := gql.pageInfo.hasNextPage;
    r := Returns(Success(Page(txs, hasNextPage, endCursor)));
  }
}
