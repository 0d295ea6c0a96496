/** The read-only admission filter at the top of `execute_sql`: upper-case
    and strip the query, split it on whitespace, and block it on the first
    entry of the blocked-keyword list that equals a whole token. */
module Guardrail {
  import opened Tokens

  /** `BLOCKED_KEYWORDS`, in list order; the order decides which keyword a
      blocked query is reported under. */
  const BlockedKeywords: seq<string> :=
    ["DELETE", "DROP", "TRUNCATE", "UPDATE", "INSERT",
     "ALTER", "CREATE", "MERGE", "GRANT", "REVOKE"]

  datatype Verdict = Admitted | Blocked(keyword: string)

  /** The tokens the filter compares: `query.upper().strip().split()`. */
  function QueryTokens(query: string): (tokens: seq<string>)
    ensures tokens == Split(Upper(query))
  {
    SplitOfStrip(Upper(query));
    Split(Strip(Upper(query)))
  }

  /** Scan `kws` from index `i` on, in order, and report the first entry
      present in `tokens`. */
  function FirstListed(kws: seq<string>, tokens: seq<string>, i: nat): (v: Verdict)
    requires i <= |kws|
    ensures v.Blocked? <==> exists k :: i <= k < |kws| && kws[k] in tokens
    ensures v.Blocked? ==>
      exists k :: i <= k < |kws| && kws[k] == v.keyword && v.keyword in tokens
        && forall k' :: i <= k' < k ==> kws[k'] !in tokens
    decreases |kws| - i
  {
    if i == |kws| then Admitted
    else if kws[i] in tokens then Blocked(kws[i])
    else FirstListed(kws, tokens, i + 1)
  }

  /** The verdict of the keyword check in `execute_sql`. */
  function Admit(query: string): (v: Verdict)
    ensures v.Blocked? ==> v.keyword in BlockedKeywords && v.keyword in QueryTokens(query)
    ensures v == Admitted <==> forall kw :: kw in BlockedKeywords ==> kw !in QueryTokens(query)
  {
    FirstListed(BlockedKeywords, QueryTokens(query), 0)
  }

  /** The filter's tokens are the whole whitespace-delimited tokens of the
      upper-cased query; the strip changes nothing. */
  lemma QueryTokensAreWholeTokens(query: string, t: string)
    ensures t in QueryTokens(query) <==> IsWholeToken(Upper(query), t)
  {
  }

  /** A query is blocked exactly when some blocked keyword is a whole token
      of the upper-cased query; a keyword merely inside a longer token
      (`CREATED`, `UPDATED_AT`, `DELETE;`) does not count. */
  lemma BlockedIffWholeTokenKeyword(query: string)
    ensures Admit(query).Blocked? <==>
      exists kw :: kw in BlockedKeywords && IsWholeToken(Upper(query), kw)
  {
    forall kw | kw in BlockedKeywords
      ensures kw in QueryTokens(query) <==> IsWholeToken(Upper(query), kw)
    {
      QueryTokensAreWholeTokens(query, kw);
    }
  }

  ghost predicate Distinct(kws: seq<string>) {
    forall i, j :: 0 <= i < j < |kws| ==> kws[i] != kws[j]
  }

  lemma BlockedKeywordsDistinct()
    ensures Distinct(BlockedKeywords)
  {
  }

  /** With a duplicate-free list, the scan from `i` reports entry `k`
      exactly when entry `k` is present and no entry between `i` and `k` is. */
  lemma {:induction false} FirstListedIndex(kws: seq<string>, tokens: seq<string>, i: nat, k: nat)
    requires Distinct(kws) && i <= k < |kws|
    ensures FirstListed(kws, tokens, i) == Blocked(kws[k]) <==>
      kws[k] in tokens && forall k' :: i <= k' < k ==> kws[k'] !in tokens
    decreases k - i
  {
    if kws[i] !in tokens && i < k {
      FirstListedIndex(kws, tokens, i + 1, k);
    }
  }

  /** The reported keyword is the earliest list entry occurring as a whole
      token, wherever in the query the tokens sit. */
  lemma ReportsFirstListedKeyword(query: string, k: nat)
    requires k < |BlockedKeywords|
    ensures Admit(query) == Blocked(BlockedKeywords[k]) <==>
      && IsWholeToken(Upper(query), BlockedKeywords[k])
      && forall k' :: 0 <= k' < k ==> !IsWholeToken(Upper(query), BlockedKeywords[k'])
  {
    BlockedKeywordsDistinct();
    FirstListedIndex(BlockedKeywords, QueryTokens(query), 0, k);
    forall k' | 0 <= k' <= k
      ensures BlockedKeywords[k'] in QueryTokens(query)
        <==> IsWholeToken(Upper(query), BlockedKeywords[k'])
    {
      QueryTokensAreWholeTokens(query, BlockedKeywords[k']);
    }
  }

  /** Two queries that differ only in ASCII letter case get the same
      verdict; in particular lower-casing or upper-casing a query first
      changes nothing. */
  lemma CaseInsensitive(a: string, b: string)
    requires |a| == |b|
    requires forall k :: 0 <= k < |a| ==> UpperChar(a[k]) == UpperChar(b[k])
    ensures Admit(a) == Admit(b)
    ensures Admit(Lower(a)) == Admit(a) && Admit(Upper(a)) == Admit(a)
  {
    assert Upper(a) == Upper(b);
    assert QueryTokens(a) == QueryTokens(b);
    UpperOfLower(a);
    assert QueryTokens(Lower(a)) == QueryTokens(a);
    UpperIdempotent(a);
    assert QueryTokens(Upper(a)) == QueryTokens(a);
  }

  /** An empty or whitespace-only query yields no tokens and is admitted. */
  lemma BlankQueryAdmitted(query: string)
    requires AllSpace(query)
    ensures QueryTokens(query) == [] && Admit(query) == Admitted
  {
    SplitEmptyIffAllSpace(Upper(query));
  }

  /** A query with no whitespace is one token: its upper-cased self. */
  lemma SingleToken(query: string)
    requires query != [] && NoSpace(query)
    ensures QueryTokens(query) == [Upper(query)]
  {
    var u := Upper(query);
    assert NoSpace(u);
    assert SkipSpace(u, 0) == 0 && SkipWord(u, 0) == |u|;
    assert Strip(u) == u;
    SplitFromAt(u, 0, 0, |u|);
    SplitFromDone(u, |u|);
    assert u[0..|u|] == u;
  }

  /** A query that opens with `delete` and a space, in any letter case, is
      reported under DELETE, whatever follows. */
  lemma LeadingDeleteBlocked(query: string)
    requires |query| >= 7 && Upper(query[..7]) == "DELETE "
    ensures Admit(query) == Blocked("DELETE")
  {
    var u := Upper(query);
    assert u[..7] == Upper(query[..7]);
    assert WholeTokenAt(u, 0, 6) && u[0..6] == "DELETE";
    ReportsFirstListedKeyword(query, 0);
  }

  /** The reported keyword follows the list, not the text: INSERT comes
      first in the query but DELETE comes first in the list. */
  lemma ExampleListOrder(query: string)
    requires query == "INSERT INTO t DELETE"
    ensures Admit(query) == Blocked("DELETE")
  {
    var u := Upper(query);
    assert u[13..20] == " DELETE";
    assert WholeTokenAt(u, 14, 20) && u[14..20] == "DELETE";
    ReportsFirstListedKeyword(query, 0);
  }

  /** A query without whitespace is blocked exactly when its upper-cased
      form is itself a keyword. */
  lemma SingleTokenVerdict(query: string)
    requires query != [] && NoSpace(query)
    ensures Admit(query) == Admitted <==> Upper(query) !in BlockedKeywords
  {
    SingleToken(query);
  }

  /** A keyword glued to punctuation or inside a longer word is not a token
      of its own: `DELETE;`, `delete(` and `updated_at` are all admitted. */
  lemma ExampleGluedKeywords(query: string)
    requires query == "DELETE;" || query == "delete(" || query == "updated_at"
    ensures Admit(query) == Admitted
  {
    var u := Upper(query);
    if query == "DELETE;" {
      assert u == "DELETE;";
    } else if query == "delete(" {
      assert u == "DELETE(";
    } else {
      assert u == "UPDATED_AT";
    }
    KeywordLengths(u);
    SingleTokenVerdict(query);
  }

  /** Every blocked keyword is four to eight letters long and none has
      seven; a token of any other length is never a keyword. */
  lemma KeywordLengths(w: string)
    requires |w| == 7 || |w| < 4 || |w| > 8
    ensures w !in BlockedKeywords
  {
    assert forall kw :: kw in BlockedKeywords ==> |kw| in {4, 5, 6, 8};
  }

  /** Upper-casing the CREATED query upper-cases its two lower-case words. */
  lemma ExampleCreatedUpper(query: string)
    requires query == Join(["SELECT", "*", "FROM", "orders", "WHERE", "order_status", "=", "CREATED"])
    ensures Upper(query) == Join(["SELECT", "*", "FROM", "ORDERS", "WHERE", "ORDER_STATUS", "=", "CREATED"])
  {
    var words := ["SELECT", "*", "FROM", "orders", "WHERE", "order_status", "=", "CREATED"];
    UpperOfKeptWords();
    UpperOfLowerWords();
    assert UpperWords(words) == ["SELECT", "*", "FROM", "ORDERS", "WHERE", "ORDER_STATUS", "=", "CREATED"];
    UpperJoin(words);
  }

  lemma UpperOfKeptWords()
    ensures Upper("SELECT") == "SELECT" && Upper("*") == "*" && Upper("FROM") == "FROM"
    ensures Upper("WHERE") == "WHERE" && Upper("=") == "=" && Upper("CREATED") == "CREATED"
  {
    assert Upper("SELECT") == "SELECT" && Upper("*") == "*" && Upper("FROM") == "FROM";
    assert Upper("WHERE") == "WHERE" && Upper("=") == "=";
  }

  lemma UpperOfLowerWords()
    ensures Upper("orders") == "ORDERS" && Upper("order_status") == "ORDER_STATUS"
  {
    assert Upper("orders") == "ORDERS";
  }

  /** A status value spelled CREATED does not trip the CREATE keyword: the
      query `SELECT * FROM orders WHERE order_status = CREATED`, written as
      its words joined by single spaces, is admitted. */
  lemma ExampleCreated(query: string)
    requires query == Join(["SELECT", "*", "FROM", "orders", "WHERE", "order_status", "=", "CREATED"])
    ensures Admit(query) == Admitted
  {
    var upper := ["SELECT", "*", "FROM", "ORDERS", "WHERE", "ORDER_STATUS", "=", "CREATED"];
    ExampleCreatedUpper(query);
    CreatedWords(upper);
    SplitJoin(upper);
  }

  /** The upper-cased words of the CREATED query are words, and none of
      them is a keyword. */
  lemma CreatedWords(words: seq<string>)
    requires words == ["SELECT", "*", "FROM", "ORDERS", "WHERE", "ORDER_STATUS", "=", "CREATED"]
    ensures forall k :: 0 <= k < |words| ==> IsWord(words[k])
    ensures forall kw :: kw in BlockedKeywords ==> kw !in words
  {
    assert IsWord("SELECT") && IsWord("*") && IsWord("FROM") && IsWord("ORDERS");
    assert IsWord("WHERE") && IsWord("ORDER_STATUS") && IsWord("=") && IsWord("CREATED");
  }
}
