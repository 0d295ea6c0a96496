# Read-only SQL guardrail of the e-commerce analytics agent

This project models in Dafny the one piece of real logic in the agent's
`execute_sql` tool (`ecom_agent/agent.py`), and proves properties of the model.
The model has three parts:

- **The admission filter.** The query is upper-cased with `upper()`, stripped
  with `strip()` and split on whitespace with `split()`. The `BLOCKED_KEYWORDS`
  list is then scanned in order, and the first keyword that equals a whole
  token blocks the query.
- **The execution envelope.** A blocked query is answered with a `blocked`
  refusal that names the keyword. An admitted query goes to the warehouse
  (BigQuery). The answer is either an `error` carrying the exception text, or a
  `success` with the untruncated `row_count` and the first 50 rows as `results`.
- **The audit callbacks.** A `BEFORE TOOL` line carries the first 200
  characters of the stringified arguments. An `AUDIT LOG` line carries the first
  300 characters of the stringified response. Both are written around every tool
  call that returns, including blocked ones.

The model is built in four modules:

- `Tokens` (tokens.dfy): ASCII `upper()`, Python's ASCII whitespace, `strip()`
  and no-argument `split()`. `split()` is a position-by-position scan, as
  CPython does it. Its contract states which strings it yields, against an
  independent definition: a string is among its tokens exactly when it occurs
  as a whitespace-free stretch with whitespace or a string end on each side.
  Token order and multiplicity are not part of that statement.
- `Guardrail` (guardrail.dfy): `BLOCKED_KEYWORDS`, the `Admitted | Blocked(kw)`
  verdict, and the properties of the filter.
- `Executor` (executor.dfy): the warehouse, modelled as a function from query
  text to `Rows(rows)` or `Fail(message)`; the envelopes; `execute_sql`. The
  model also records which queries were sent to the warehouse, so that "never
  consulted" can be stated.
- `Audit` (audit.dfy): the previews, the log records and lines, one
  `execute_sql` call with both callbacks, and a session of tool calls in order.

Two facts about the answers of `execute_sql` shape the model:

- A successful answer has no `truncated` field. `row_count` is the number of
  rows fetched before the cut to 50, so a caller sees truncation only by
  comparing `row_count` with the length of `results`.
- A blocked answer is `{status, message}`. The keyword appears only inside the
  message text. `KeywordOfMessage` reads it back out.

## Model

| member | source | states |
|---|---|---|
| Tokens.Upper | ecom_agent/agent.py:55 | `upper()` keeps the length, maps each ASCII lower-case letter to its capital and leaves every other character as it is |
| Tokens.IsSpaceCodePoints | ecom_agent/agent.py:55-57 | the whitespace that `strip()` and `split()` cut at is exactly the ASCII code points 9-13, 28-31 and 32 |
| Tokens.Strip | ecom_agent/agent.py:55 | `strip()` keeps the stretch from the first non-whitespace character on, ending in non-whitespace with only whitespace after it; it is empty exactly when the text is all whitespace |
| Tokens.Split | ecom_agent/agent.py:57 | a string is a token of `split()` exactly when it occurs as a non-empty, whitespace-free stretch with whitespace or a string end on each side |
| Tokens.SplitTokensAreWords | ecom_agent/agent.py:57 | every token `split()` yields is non-empty and contains no whitespace |
| Tokens.SplitEmptyIffAllSpace | ecom_agent/agent.py:55-57 | `split()` yields no tokens exactly when the text is empty or all whitespace |
| Tokens.SplitOfStrip | ecom_agent/agent.py:55-57 | the `strip()` before `split()` changes no token |
| Tokens.SplitJoin | ecom_agent/agent.py:57 | joining whitespace-free words with single spaces and splitting gives the words back |
| Tokens.UpperIdempotent | ecom_agent/agent.py:55 | upper-casing leaves no lower-case ASCII letter, and applying it twice changes nothing more |
| Tokens.UpperOfLower | ecom_agent/agent.py:55 | lower-casing a query first does not change its upper-cased form |
| Tokens.UpperJoin | ecom_agent/agent.py:55 | upper-casing a space-joined text upper-cases each word |
| Tokens.StripBounds | ecom_agent/agent.py:55 | `strip()` keeps a stretch that starts and ends in non-whitespace, with only whitespace cut off on either side; all-whitespace text leaves nothing |
| Guardrail.QueryTokens | ecom_agent/agent.py:55-57 | the tokens compared with the keywords, `query.upper().strip().split()`, are the tokens of the upper-cased query with or without the strip |
| Guardrail.FirstListed | ecom_agent/agent.py:56-57 | the scan blocks exactly when some remaining list entry is a token, and it reports an entry that is a token with no earlier entry present |
| Guardrail.Admit | ecom_agent/agent.py:55-64 | a query is admitted exactly when no blocked keyword is among its tokens; a reported keyword is on the list and among the tokens |
| Guardrail.BlockedKeywordsDistinct | ecom_agent/agent.py:35-38 | the ten keywords are pairwise different, so list position identifies the reported keyword |
| Guardrail.QueryTokensAreWholeTokens | ecom_agent/agent.py:55-57 | the filter's tokens are exactly the whole whitespace-delimited tokens of the upper-cased query |
| Guardrail.BlockedIffWholeTokenKeyword | ecom_agent/agent.py:35-57 | a query is blocked exactly when some blocked keyword is a whole token of its upper-cased form |
| Guardrail.FirstListedIndex | ecom_agent/agent.py:56-58 | on a duplicate-free list, the scan reports entry k exactly when entry k is present and no earlier entry is |
| Guardrail.ReportsFirstListedKeyword | ecom_agent/agent.py:56-64 | the reported keyword is the earliest list entry present as a whole token, wherever it sits in the query |
| Guardrail.CaseInsensitive | ecom_agent/agent.py:55 | queries that differ only in ASCII letter case get the same verdict |
| Guardrail.BlankQueryAdmitted | ecom_agent/agent.py:55-57 | an empty or whitespace-only query has no tokens and is admitted |
| Guardrail.SingleToken | ecom_agent/agent.py:55-57 | a query without whitespace is a single token, its upper-cased self |
| Guardrail.SingleTokenVerdict | ecom_agent/agent.py:55-57 | a query without whitespace is blocked exactly when its upper-cased form is itself one of the keywords |
| Guardrail.KeywordLengths | ecom_agent/agent.py:35-38 | every keyword is four, five, six or eight letters long, so a token of any other length never blocks |
| Guardrail.LeadingDeleteBlocked | ecom_agent/agent.py:55-64 | a query that starts with `delete ` in any letter case is blocked under DELETE |
| Guardrail.ExampleListOrder | ecom_agent/agent.py:56-64 | `INSERT INTO t DELETE` is reported under DELETE, the earlier list entry, not INSERT, the earlier word |
| Guardrail.ExampleGluedKeywords | ecom_agent/agent.py:57 | `DELETE;`, `delete(` and `updated_at` are admitted: a keyword glued to punctuation or inside a longer word is not a token |
| Guardrail.ExampleCreated | ecom_agent/agent.py:57 | `SELECT * FROM orders WHERE order_status = CREATED` is admitted: CREATED is not CREATE |
| Executor.KeywordOfMessage | ecom_agent/agent.py:60-63 | a keyword read from a message rebuilds that exact message |
| Executor.BlockedMessage | ecom_agent/agent.py:60-63 | the refusal message has the fixed text around the keyword, and the keyword can be read back out of it |
| Executor.BlockedMessageInjective | ecom_agent/agent.py:60-63 | different keywords give different refusal messages |
| Executor.Envelope.Status | ecom_agent/agent.py:58-83 | the `status` field is `blocked`, `error` or `success` exactly for the blocked, error and success answers |
| Executor.Window | ecom_agent/agent.py:77 | `rows[:50]` is a prefix of the rows whose length is the smaller of 50 and the row count |
| Executor.ExecuteSql | ecom_agent/agent.py:55-83 | the answer is `blocked` exactly when the filter blocks; a blocked query sends nothing to the warehouse, and any other query sends exactly the original query, once |
| Executor.BlockedIgnoresWarehouse | ecom_agent/agent.py:56-67 | a blocked query's answer is the same whatever the warehouse would do, has status `blocked`, and names the keyword the filter reported |
| Executor.SuccessEnvelopeShape | ecom_agent/agent.py:66-78 | a `success` comes only from an admitted query on which the warehouse returned rows; `row_count` is the full row count and `results` is the first min(50, row_count) rows |
| Executor.TruncationVisible | ecom_agent/agent.py:74-78 | `row_count` exceeds the number of returned rows exactly when more than 50 rows were fetched; otherwise every row is returned |
| Executor.ErrorIffWarehouseFails | ecom_agent/agent.py:79-83 | the answer is `error` exactly when an admitted query fails in the warehouse, and it carries the failure's message |
| Audit.Preview | ecom_agent/agent.py:152 | a preview is the prefix of the text with length min(limit, length of text) |
| Audit.BeforeRecord | ecom_agent/agent.py:144-147 | the Before record names the tool and carries a prefix of the arguments: all of them when they fit in 200 characters, exactly 200 otherwise |
| Audit.AfterRecord | ecom_agent/agent.py:150-154 | the After record names the tool and carries a prefix of the response: all of it when it fits in 300 characters, exactly 300 otherwise |
| Audit.LogLine | ecom_agent/agent.py:146-153 | a printed `BEFORE TOOL` or `AUDIT LOG` line reads back into the record it was printed from, so the log keeps the tool, the kind of record and the whole preview, whenever the tool name has no `|` |
| Audit.InvokeExecuteSql | ecom_agent/agent.py:242-244 | one `execute_sql` call leaves a Before then an After record, both for `execute_sql`, previewing the first min(200, length) characters of the arguments and the first min(300, length) of the answer; the answer is `blocked` exactly when the filter blocks; the warehouse sees the query once if it is admitted and never otherwise |
| Audit.BlockedCallIsAudited | ecom_agent/agent.py:242-244 | a blocked query is still logged Before and After, the After record previews the refusal, and the warehouse is not called |
| Audit.InvokeTool | ecom_agent/agent.py:242-244 | every tool call that returns leaves one Before then one After record, both naming the called tool, previewing the first min(200, length) characters of its arguments and the first min(300, length) of its response; it reaches the warehouse only as an admitted `execute_sql` query |
| Audit.SentBy | ecom_agent/agent.py:56-67 | a call sends at most one query to the warehouse, and sends a query exactly when it is `execute_sql` on that query and the filter admits it |
| Audit.WarehouseSeesOnlyAdmitted | ecom_agent/agent.py:56-67 | across a session, a query reaches the warehouse exactly when some call was `execute_sql` on it and it was admitted |
| Audit.RunSession | ecom_agent/agent.py:242-244 | a session of calls that all return logs two records per call: call k's Before and After records, which name the called tool and carry its previews, sit at 2k and 2k+1; the queries sent are those of the calls in call order, and a query is sent exactly when some call was `execute_sql` on it and the filter admitted it |

## Left out

- Credentials and the BigQuery client (`ecom_agent/agent.py:21-30`) are left out: they are I/O and foreign calls. The warehouse is a function parameter instead, and every failure it can raise is one `Fail(message)`.
- The conversion of rows to dicts (`dict(row)`, lines 70-72) is left out; the row type is a type parameter.
- `get_schema` and `list_tables` (lines 86-138) are left out. They are thin wrappers over warehouse metadata calls. In a session they appear only as `OtherCall` with their stringified arguments and response.
- The `sql_validator` agent, its `AgentTool` wrapper and the root agent's instructions (lines 160-232) are left out. They are prompt text whose behaviour belongs to an external language model.
- `print` is left out. A printed line becomes an `AuditRecord` plus its text `LogLine`.
- Audit.LogLine: the read-back is stated only for tool names without `|`. Every tool this agent registers is a Python identifier, so none contains one.
- `str()` of the argument and response dicts is left out; it is a function parameter of the audit members.
- Audit.InvokeTool: only calls that return are modelled. Two cases leave a `BEFORE TOOL` line and no `AUDIT LOG` line, and neither is modelled. A warehouse query can run forever, because `query_job.result()` at line 68 has no time-out. A tool can also raise out of its body. The warehouse parameter is total, and every `OtherCall` carries a response.
- Audit.RunSession: one warehouse function serves the whole session, so an admitted query gets the same answer, and the same `AUDIT LOG` record, at every call. Expiry of the credentials fetched once at import (lines 26-29) and changes to table contents between calls are not modelled.
- Concurrency of tool calls is left out: the agent framework owns it and it is not visible in this file. A session is a sequence of calls in order.
- Tokens.Split: the contract states which strings are tokens, not their order or how often each occurs; the filter only asks whether a keyword is among them.
- Tokens.Upper: ASCII-only case mapping; non-ASCII letters, and mappings such as `ß` becoming `SS` that change the length, are not modelled.
- Tokens.IsSpaceCodePoints: covers the ASCII whitespace of `str.isspace()` only; non-ASCII whitespace such as U+00A0 or U+2003 does not separate tokens in the model, although it does in Python.
- Executor.ExecuteSql: the message of a failure is whatever the warehouse parameter reports. How an exception renders under `str(e)` is not modelled.
