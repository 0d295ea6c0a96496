/** The body of `execute_sql` after the keyword check: hand the original
    query to the warehouse and shape its answer into a `success`, `error` or
    `blocked` envelope. The warehouse (BigQuery) is an oracle passed in as a
    function from query text to rows or a failure message. */
module Executor {
  import opened Guardrail

  /** The number of rows `execute_sql` returns in `results` (`rows[:50]`). */
  const ResultCeiling: nat := 50

  /** What the warehouse does with a query: fetch all its rows, or raise an
      exception whose `str()` is the message. */
  datatype Outcome<R> = Rows(rows: seq<R>) | Fail(message: string)

  /** The dictionary `execute_sql` returns. A success carries the untruncated
      `row_count` and at most `ResultCeiling` rows; there is no `truncated`
      field. */
  datatype Envelope<R> =
    | BlockedEnvelope(message: string)
    | ErrorEnvelope(message: string)
    | SuccessEnvelope(rowCount: nat, results: seq<R>)
  {
    /** The `status` field: one of three distinct words, one per kind of
        answer. */
    function Status(): (status: string)
      ensures status == "blocked" <==> this.BlockedEnvelope?
      ensures status == "error" <==> this.ErrorEnvelope?
      ensures status == "success" <==> this.SuccessEnvelope?
    {
      match this
      case BlockedEnvelope(_) => "blocked"
      case ErrorEnvelope(_) => "error"
      case SuccessEnvelope(_, _) => "success"
    }
  }

  /** An envelope together with the queries the warehouse was asked to run
      while producing it. */
  datatype Execution<R> = Execution(envelope: Envelope<R>, warehouseCalls: seq<string>)

  datatype Option<T> = None | Some(value: T)

  const BlockedPrefix: string := "Query blocked: contains '"
  const BlockedSuffix: string := "' operation. This agent is read-only and cannot modify data."

  /** Read the keyword back out of a refusal message. */
  function KeywordOfMessage(m: string): (kw: Option<string>)
    ensures kw.Some? ==> m == BlockedPrefix + kw.value + BlockedSuffix
  {
    if |m| >= |BlockedPrefix| + |BlockedSuffix|
       && m[..|BlockedPrefix|] == BlockedPrefix
       && m[|m| - |BlockedSuffix|..] == BlockedSuffix
    then
      var kw := m[|BlockedPrefix|..|m| - |BlockedSuffix|];
      assert m == m[..|BlockedPrefix|] + kw + m[|m| - |BlockedSuffix|..];
      Some(kw)
    else None
  }

  /** The refusal message naming the blocked keyword. It names the keyword
      recoverably: reading it back gives the keyword, so different keywords
      give different messages. */
  function BlockedMessage(keyword: string): (m: string)
    ensures |m| == |BlockedPrefix| + |keyword| + |BlockedSuffix|
    ensures KeywordOfMessage(m) == Some(keyword)
  {
    var m := BlockedPrefix + keyword + BlockedSuffix;
    assert m[..|BlockedPrefix|] == BlockedPrefix;
    assert m[|m| - |BlockedSuffix|..] == BlockedSuffix;
    assert m[|BlockedPrefix|..|m| - |BlockedSuffix|] == keyword;
    m
  }

  /** Different keywords give different refusal messages. */
  lemma BlockedMessageInjective(a: string, b: string)
    requires BlockedMessage(a) == BlockedMessage(b)
    ensures a == b
  {
    assert KeywordOfMessage(BlockedMessage(a)) == Some(a);
  }

  /** The first `ResultCeiling` rows, as Python's `rows[:50]`. */
  function Window<R>(rows: seq<R>): (w: seq<R>)
    ensures |w| <= ResultCeiling && |w| <= |rows|
    ensures w == rows[..|w|]
    ensures |w| == |rows| || |w| == ResultCeiling
  {
    if |rows| <= ResultCeiling then rows else rows[..ResultCeiling]
  }

  /** `execute_sql(query)`. A blocked query is answered before the warehouse
      is consulted; otherwise the original (not upper-cased) query is sent. */
  function ExecuteSql<R>(query: string, warehouse: string -> Outcome<R>): (x: Execution<R>)
    ensures x.envelope.BlockedEnvelope? <==> Admit(query).Blocked?
    ensures x.envelope.BlockedEnvelope? ==> x.warehouseCalls == []
    ensures !x.envelope.BlockedEnvelope? ==> x.warehouseCalls == [query]
  {
    match Admit(query)
    case Blocked(keyword) => Execution(BlockedEnvelope(BlockedMessage(keyword)), [])
    case Admitted =>
      var envelope :=
        match warehouse(query)
        case Fail(message) => ErrorEnvelope(message)
        case Rows(rows) => SuccessEnvelope(|rows|, Window(rows));
      Execution(envelope, [query])
  }

  /** A blocked query's refusal names the keyword the filter reported, and
      the answer is the same whatever the warehouse would have done. */
  lemma BlockedIgnoresWarehouse<R>(query: string, w1: string -> Outcome<R>, w2: string -> Outcome<R>)
    requires Admit(query).Blocked?
    ensures ExecuteSql(query, w1) == ExecuteSql(query, w2)
    ensures ExecuteSql(query, w1).envelope.Status() == "blocked"
    ensures KeywordOfMessage(ExecuteSql(query, w1).envelope.message) == Some(Admit(query).keyword)
  {
  }

  /** A success is only reachable from an admitted query on which the
      warehouse returned rows; it reports every fetched row in `row_count`
      and the first `min(50, row_count)` of them in `results`. */
  lemma SuccessEnvelopeShape<R>(query: string, warehouse: string -> Outcome<R>)
    requires ExecuteSql(query, warehouse).envelope.SuccessEnvelope?
    ensures Admit(query) == Admitted && warehouse(query).Rows?
    ensures var e := ExecuteSql(query, warehouse).envelope; var rows := warehouse(query).rows;
      && e.rowCount == |rows|
      && e.results == rows[..|e.results|]
      && |e.results| == if |rows| <= ResultCeiling then |rows| else ResultCeiling
  {
  }

  /** Without a `truncated` field, truncation is still visible: `row_count`
      exceeds the number of returned rows exactly when more than
      `ResultCeiling` rows were fetched, and otherwise every row is returned. */
  lemma TruncationVisible<R>(query: string, warehouse: string -> Outcome<R>)
    requires ExecuteSql(query, warehouse).envelope.SuccessEnvelope?
    ensures var e := ExecuteSql(query, warehouse).envelope;
      (e.rowCount > |e.results| <==> e.rowCount > ResultCeiling)
      && (e.rowCount <= ResultCeiling ==> e.results == warehouse(query).rows)
  {
  }

  /** A warehouse failure on an admitted query yields an `error` envelope
      carrying the failure's message, and nothing else does. */
  lemma ErrorIffWarehouseFails<R>(query: string, warehouse: string -> Outcome<R>)
    ensures ExecuteSql(query, warehouse).envelope.ErrorEnvelope? <==>
      Admit(query) == Admitted && warehouse(query).Fail?
    ensures ExecuteSql(query, warehouse).envelope.ErrorEnvelope? ==>
      ExecuteSql(query, warehouse).envelope.message == warehouse(query).message
  {
  }
}
