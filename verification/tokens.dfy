/** Text primitives the guardrail relies on: ASCII upper-casing, Python's
    notion of whitespace, `str.strip()` and the no-argument `str.split()`.

    `Split` walks the string by position, as CPython's splitter does: skip a
    run of whitespace, take the maximal run of non-whitespace as a token,
    repeat. `WholeTokenAt` is an independent, position-based description of a
    whitespace-delimited token, and `Split`'s contract states that its tokens
    are exactly the whole-token occurrences, as a set of strings; order and
    multiplicity are not stated there (`SplitJoin` and `SplitOfStrip` speak
    about the sequence itself). */
module Tokens {

  /** Python's `str.isspace()` restricted to ASCII: TAB, LF, VT, FF, CR,
      the four information separators 0x1C..0x1F, and SPACE. */
  predicate IsSpace(c: char) {
    c == ' ' || ('\t' <= c <= '\r') || ('\U{1C}' <= c <= '\U{1F}')
  }

  /** The code points below 128 for which Python's `str.isspace()` holds. */
  const AsciiWhitespace: set<int> := {9, 10, 11, 12, 13, 28, 29, 30, 31, 32}

  /** `IsSpace` holds of exactly the listed code points. */
  lemma IsSpaceCodePoints(c: char)
    ensures IsSpace(c) <==> c as int in AsciiWhitespace
  {
  }

  predicate NoSpace(s: string) {
    forall k :: 0 <= k < |s| ==> !IsSpace(s[k])
  }

  predicate AllSpace(s: string) {
    forall k :: 0 <= k < |s| ==> IsSpace(s[k])
  }

  /** ASCII case mapping of `str.upper()`: only 'a'..'z' change. */
  function UpperChar(c: char): (u: char)
    ensures 'a' <= c <= 'z' ==> 'A' <= u <= 'Z' && u as int == c as int - 32
    ensures !('a' <= c <= 'z') ==> u == c
  {
    if 'a' <= c <= 'z' then (c as int - 32) as char else c
  }

  /** ASCII case mapping to lower case, used to state case-insensitivity. */
  function LowerChar(c: char): (l: char)
    ensures 'A' <= c <= 'Z' ==> 'a' <= l <= 'z' && l as int == c as int + 32
    ensures !('A' <= c <= 'Z') ==> l == c
  {
    if 'A' <= c <= 'Z' then (c as int + 32) as char else c
  }

  /** `str.upper()` on ASCII text. */
  function Upper(s: string): (u: string)
    ensures |u| == |s|
    ensures forall k :: 0 <= k < |s| ==>
      && ('a' <= s[k] <= 'z' ==> u[k] as int == s[k] as int - 32)
      && (!('a' <= s[k] <= 'z') ==> u[k] == s[k])
  {
    seq(|s|, k requires 0 <= k < |s| => UpperChar(s[k]))
  }

  /** `str.lower()` on ASCII text. */
  function Lower(s: string): string {
    seq(|s|, k requires 0 <= k < |s| => LowerChar(s[k]))
  }

  /** Upper-casing leaves no lower-case ASCII letter and is idempotent. */
  lemma UpperIdempotent(s: string)
    ensures Upper(Upper(s)) == Upper(s)
    ensures forall k :: 0 <= k < |s| ==> !('a' <= Upper(s)[k] <= 'z')
  {
  }

  /** Lower-casing first does not change the upper-cased form. */
  lemma UpperOfLower(s: string)
    ensures Upper(Lower(s)) == Upper(s)
  {
  }

  /** The first position at or after `i` that is not whitespace, or `|s|`. */
  function SkipSpace(s: string, i: nat): (a: nat)
    requires i <= |s|
    ensures i <= a <= |s|
    ensures forall m :: i <= m < a ==> IsSpace(s[m])
    ensures a == |s| || !IsSpace(s[a])
    decreases |s| - i
  {
    if i == |s| || !IsSpace(s[i]) then i else SkipSpace(s, i + 1)
  }

  /** The first position at or after `i` that is whitespace, or `|s|`. */
  function SkipWord(s: string, i: nat): (b: nat)
    requires i <= |s|
    ensures i <= b <= |s|
    ensures forall m :: i <= m < b ==> !IsSpace(s[m])
    ensures b == |s| || IsSpace(s[b])
    decreases |s| - i
  {
    if i == |s| || IsSpace(s[i]) then i else SkipWord(s, i + 1)
  }

  /** The end of `s[lo..hi]` once its trailing whitespace is dropped. */
  function TrailingStart(s: string, lo: nat, hi: nat): (b: nat)
    requires lo <= hi <= |s|
    ensures lo <= b <= hi
    ensures forall m :: b <= m < hi ==> IsSpace(s[m])
    ensures b == lo || !IsSpace(s[b - 1])
    decreases hi
  {
    if hi == lo || !IsSpace(s[hi - 1]) then hi else TrailingStart(s, lo, hi - 1)
  }

  /** Where `str.strip()` cuts `s`: the slice `s[a..b]` that remains. */
  function StripBounds(s: string): (ab: (nat, nat))
    ensures ab.0 <= ab.1 <= |s|
    ensures forall m :: 0 <= m < ab.0 ==> IsSpace(s[m])
    ensures forall m :: ab.1 <= m < |s| ==> IsSpace(s[m])
    ensures ab.0 < ab.1 ==> !IsSpace(s[ab.0]) && !IsSpace(s[ab.1 - 1])
    ensures ab.0 == ab.1 ==> AllSpace(s)
  {
    var a := SkipSpace(s, 0);
    (a, TrailingStart(s, a, |s|))
  }

  /** `str.strip()`: `s` without its leading and trailing whitespace. */
  function Strip(s: string): (r: string)
    ensures |r| <= |s|
    ensures r == [] <==> AllSpace(s)
    ensures r != [] ==> !IsSpace(r[0]) && !IsSpace(r[|r| - 1])
    ensures OccursAt(r, s, SkipSpace(s, 0))
    ensures forall m :: SkipSpace(s, 0) + |r| <= m < |s| ==> IsSpace(s[m])
  {
    s[StripBounds(s).0..StripBounds(s).1]
  }

  /** The tokens of `s` from position `i` on. */
  function SplitFrom(s: string, i: nat): seq<string>
    requires i <= |s|
    decreases |s| - i
  {
    var a := SkipSpace(s, i);
    if a == |s| then []
    else
      var b := SkipWord(s, a);
      [s[a..b]] + SplitFrom(s, b)
  }

  /** Python's `str.split()` with no separator: the maximal runs of
      non-whitespace, in order; leading, trailing and repeated whitespace
      produce no empty tokens. */
  function Split(s: string): (r: seq<string>)
    ensures forall t :: t in r <==> IsWholeToken(s, t)
  {
    SplitFromWholeTokens(s);
    SplitFrom(s, 0)
  }

  /** `s[i..j]` is a whole whitespace-delimited token of `s`: non-empty, free
      of whitespace, and bounded on each side by whitespace or an end of `s`. */
  ghost predicate WholeTokenAt(s: string, i: int, j: int) {
    && 0 <= i < j <= |s|
    && (i == 0 || IsSpace(s[i - 1]))
    && (j == |s| || IsSpace(s[j]))
    && (forall m :: i <= m < j ==> !IsSpace(s[m]))
  }

  ghost predicate IsWholeToken(s: string, t: string) {
    exists i, j :: WholeTokenAt(s, i, j) && s[i..j] == t
  }

  /** `i` does not fall strictly inside a run of non-whitespace. */
  ghost predicate AtBoundary(s: string, i: nat)
    requires i <= |s|
  {
    i == 0 || i == |s| || IsSpace(s[i - 1]) || IsSpace(s[i])
  }

  /** Every token produced from a boundary position is a whole token at or
      after that position. */
  lemma {:induction false} SplitFromSound(s: string, i: nat, t: string)
    requires i <= |s| && AtBoundary(s, i)
    requires t in SplitFrom(s, i)
    ensures exists a, b :: i <= a && WholeTokenAt(s, a, b) && s[a..b] == t
    decreases |s| - i
  {
    var a := SkipSpace(s, i);
    var b := SkipWord(s, a);
    assert SplitFrom(s, i) == [s[a..b]] + SplitFrom(s, b);
    if t == s[a..b] {
      assert a == 0 || IsSpace(s[a - 1]);
      assert WholeTokenAt(s, a, b);
    } else {
      SplitFromSound(s, b, t);
    }
  }

  /** Every whole token at or after a boundary position is produced. */
  lemma {:induction false} SplitFromComplete(s: string, i: nat, a: int, b: int)
    requires i <= |s| && AtBoundary(s, i)
    requires i <= a && WholeTokenAt(s, a, b)
    ensures s[a..b] in SplitFrom(s, i)
    decreases |s| - i
  {
    var a' := SkipSpace(s, i);
    assert !IsSpace(s[a]);
    if a' < |s| {
      var b' := SkipWord(s, a');
      assert SplitFrom(s, i) == [s[a'..b']] + SplitFrom(s, b');
      if a > b' {
        SplitFromComplete(s, b', a, b);
      } else {
        assert a == a';
        assert b == b';
      }
    }
  }

  /** The tokens of a whole string are exactly its whole-token occurrences. */
  lemma SplitFromWholeTokens(s: string)
    ensures forall t :: t in SplitFrom(s, 0) <==> IsWholeToken(s, t)
  {
    forall t
      ensures t in SplitFrom(s, 0) <==> IsWholeToken(s, t)
    {
      if t in SplitFrom(s, 0) {
        SplitFromSound(s, 0, t);
      }
      if IsWholeToken(s, t) {
        var a, b :| WholeTokenAt(s, a, b) && s[a..b] == t;
        SplitFromComplete(s, 0, a, b);
      }
    }
  }

  /** Every token is non-empty and free of whitespace. */
  lemma SplitTokensAreWords(s: string, t: string)
    requires t in Split(s)
    ensures t != [] && NoSpace(t)
  {
    var a, b :| WholeTokenAt(s, a, b) && s[a..b] == t;
    assert forall k :: 0 <= k < |t| ==> t[k] == s[a + k];
  }

  /** A string splits into no tokens exactly when it is all whitespace. */
  lemma SplitEmptyIffAllSpace(s: string)
    ensures Split(s) == [] <==> AllSpace(s)
  {
    var a := SkipSpace(s, 0);
    if a < |s| {
      assert Split(s) == [s[a..SkipWord(s, a)]] + SplitFrom(s, SkipWord(s, a));
    }
  }

  /** `t` occurs in `s` starting at position `lo`. */
  predicate OccursAt(t: string, s: string, lo: nat) {
    lo + |t| <= |s| && forall m :: 0 <= m < |t| ==> t[m] == s[lo + m]
  }

  /** Skipping whitespace inside an occurrence `t` of `s` agrees with
      skipping it in `s` when everything after the occurrence is whitespace. */
  lemma {:induction false} SkipSpaceWithin(t: string, s: string, lo: nat, i: nat)
    requires OccursAt(t, s, lo) && i <= |t|
    requires forall m :: lo + |t| <= m < |s| ==> IsSpace(s[m])
    ensures SkipSpace(t, i) == |t| <==> SkipSpace(s, lo + i) == |s|
    ensures SkipSpace(t, i) < |t| ==> lo + SkipSpace(t, i) == SkipSpace(s, lo + i)
    decreases |t| - i
  {
    if i < |t| && IsSpace(t[i]) {
      SkipSpaceWithin(t, s, lo, i + 1);
    }
  }

  /** A word inside an occurrence `t` of `s` ends where it ends in `s` when
      the occurrence is followed by whitespace or the end of `s`. */
  lemma {:induction false} SkipWordWithin(t: string, s: string, lo: nat, i: nat)
    requires OccursAt(t, s, lo) && i <= |t|
    requires lo + |t| == |s| || IsSpace(s[lo + |t|])
    ensures lo + SkipWord(t, i) == SkipWord(s, lo + i)
    decreases |t| - i
  {
    if i < |t| && !IsSpace(t[i]) {
      SkipWordWithin(t, s, lo, i + 1);
    }
  }

  /** One step of `SplitFrom`: the token at `a..b` and the rest after `b`. */
  lemma SplitFromAt(s: string, i: nat, a: nat, b: nat)
    requires i <= |s| && a == SkipSpace(s, i) && a < |s| && b == SkipWord(s, a)
    ensures SplitFrom(s, i) == [s[a..b]] + SplitFrom(s, b)
  {
  }

  /** Nothing but whitespace from `i` on: no more tokens. */
  lemma SplitFromDone(s: string, i: nat)
    requires i <= |s| && SkipSpace(s, i) == |s|
    ensures SplitFrom(s, i) == []
  {
  }

  /** One token step of `SplitFromWithin`: the token found in `t` at
      `a..b` is the token found in `s` at `lo + a..lo + b`, and the rest
      agrees by the induction hypothesis. */
  lemma TokenWithin(t: string, s: string, lo: nat, i: nat, a: nat, b: nat)
    requires OccursAt(t, s, lo) && i <= |t|
    requires a == SkipSpace(t, i) && a < |t| && b == SkipWord(t, a)
    requires lo + a == SkipSpace(s, lo + i) && lo + b == SkipWord(s, lo + a)
    requires SplitFrom(t, b) == SplitFrom(s, lo + b)
    ensures SplitFrom(t, i) == SplitFrom(s, lo + i)
  {
    var token := t[a..b];
    var rest := SplitFrom(t, b);
    assert s[lo + a..lo + b] == token;
    SplitFromAt(t, i, a, b);
    SplitFromAt(s, lo + i, lo + a, lo + b);
    assert SplitFrom(t, i) == [token] + rest;
    assert SplitFrom(s, lo + i) == [token] + rest;
  }

  /** Splitting an occurrence `t` of `s` from `i` yields the tokens of `s`
      from `lo + i` when `s` is all whitespace after the occurrence. */
  lemma {:induction false} SplitFromWithin(t: string, s: string, lo: nat, i: nat)
    requires OccursAt(t, s, lo) && i <= |t|
    requires forall m :: lo + |t| <= m < |s| ==> IsSpace(s[m])
    ensures SplitFrom(t, i) == SplitFrom(s, lo + i)
    decreases |t| - i
  {
    SkipSpaceWithin(t, s, lo, i);
    var a := SkipSpace(t, i);
    if a < |t| {
      var b := SkipWord(t, a);
      SkipWordWithin(t, s, lo, a);
      SplitFromWithin(t, s, lo, b);
      TokenWithin(t, s, lo, i, a, b);
    } else {
      SplitFromDone(t, i);
      SplitFromDone(s, lo + i);
    }
  }

  /** `str.split()` ignores a preceding `str.strip()`. */
  lemma SplitOfStrip(s: string)
    ensures Split(Strip(s)) == Split(s)
  {
    var (a, b) := StripBounds(s);
    SplitFromWithin(Strip(s), s, a, 0);
    assert SkipSpace(s, a) == a;
  }

  /** Words joined by single spaces, the inverse direction of `Split`. */
  function Join(ws: seq<string>): string {
    if ws == [] then []
    else if |ws| == 1 then ws[0]
    else ws[0] + " " + Join(ws[1..])
  }

  predicate IsWord(w: string) {
    w != [] && NoSpace(w)
  }

  /** A prefix before a boundary does not affect the tokens after it. */
  lemma SplitFromShift(p: string, t: string, i: nat)
    requires i <= |t|
    ensures SplitFrom(p + t, |p| + i) == SplitFrom(t, i)
  {
    SplitFromWithin(t, p + t, |p|, i);
  }

  /** Splitting undoes joining: words joined by single spaces split back
      into the same words. */
  lemma {:induction false} SplitJoin(ws: seq<string>)
    requires forall k :: 0 <= k < |ws| ==> IsWord(ws[k])
    ensures Split(Join(ws)) == ws
  {
    if |ws| == 1 {
      var w := ws[0];
      assert SkipSpace(w, 0) == 0;
      assert SkipWord(w, 0) == |w|;
      assert w[0..|w|] == w;
      assert SplitFrom(w, |w|) == [];
      assert Split(w) == [w];
      assert ws == [w];
    } else if |ws| > 1 {
      var w := ws[0];
      var p := w + " ";
      var j := Join(ws[1..]);
      var s := p + j;
      assert Join(ws) == s;
      assert SkipSpace(s, 0) == 0;
      assert s[|w|] == ' ';
      assert SkipWord(s, 0) == |w|;
      assert s[0..|w|] == w;
      assert SplitFrom(s, |w|) == SplitFrom(s, |p|);
      SplitFromShift(p, j, 0);
      SplitJoin(ws[1..]);
    }
  }

  /** Each word upper-cased. */
  function UpperWords(ws: seq<string>): (us: seq<string>)
    ensures |us| == |ws|
    ensures forall k :: 0 <= k < |ws| ==> us[k] == Upper(ws[k])
  {
    if ws == [] then [] else [Upper(ws[0])] + UpperWords(ws[1..])
  }

  /** Upper-casing commutes with joining words. */
  lemma {:induction false} UpperJoin(ws: seq<string>)
    ensures Upper(Join(ws)) == Join(UpperWords(ws))
  {
    if |ws| > 1 {
      UpperJoin(ws[1..]);
      assert UpperWords(ws)[1..] == UpperWords(ws[1..]);
      assert Upper(ws[0] + " " + Join(ws[1..])) == Upper(ws[0]) + " " + Upper(Join(ws[1..]));
    }
  }
}
