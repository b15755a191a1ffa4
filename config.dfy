/**
 * The configuration strings of the rewriter: a comma-separated list that
 * alternates identifiers and versions, read with a string tokenizer whose
 * tokens are trimmed.  Also the list splitter that returns the trimmed,
 * non-blank tokens of a string.
 */
module Config {

  datatype Option<+T> = None | Some(value: T)

  /** The characters that trimming removes: every character at or below the space. */
  predicate IsBlank(c: char)
  {
    c <= ' '
  }

  function TrimStart(s: string): string
  {
    if s != [] && IsBlank(s[0]) then TrimStart(s[1..]) else s
  }

  function TrimEnd(s: string): string
  {
    if s != [] && IsBlank(s[|s| - 1]) then TrimEnd(s[..|s| - 1]) else s
  }

  /** String trimming: `s` without its blank prefix and suffix. */
  function Trim(s: string): string
  {
    TrimEnd(TrimStart(s))
  }

  /** `r` is the slice of `s` that starts at `a`, and everything of `s` outside it is blank. */
  predicate BlankMargins(s: string, a: int, r: string)
  {
    0 <= a <= a + |r| <= |s| && r == s[a..a + |r|]
    && (forall k :: 0 <= k < a ==> IsBlank(s[k]))
    && (forall k :: a + |r| <= k < |s| ==> IsBlank(s[k]))
  }

  lemma {:induction false} TrimStartMeaning(s: string)
    ensures BlankMargins(s, |s| - |TrimStart(s)|, TrimStart(s))
    ensures TrimStart(s) == [] || !IsBlank(TrimStart(s)[0])
  {
    if s != [] && IsBlank(s[0]) {
      TrimStartMeaning(s[1..]);
    }
  }

  lemma {:induction false} TrimEndMeaning(s: string)
    ensures BlankMargins(s, 0, TrimEnd(s))
    ensures TrimEnd(s) == [] || !IsBlank(TrimEnd(s)[|TrimEnd(s)| - 1])
  {
    if s != [] && IsBlank(s[|s| - 1]) {
      TrimEndMeaning(s[..|s| - 1]);
    }
  }

  /**
   * Trimming keeps a slice of `s` outside which everything is blank, and the
   * slice neither starts nor ends with a blank.
   */
  lemma TrimMeaning(s: string)
    ensures exists a :: BlankMargins(s, a, Trim(s))
    ensures Trim(s) == [] || (!IsBlank(Trim(s)[0]) && !IsBlank(Trim(s)[|Trim(s)| - 1]))
  {
    var t := TrimStart(s);
    TrimStartMeaning(s);
    TrimEndMeaning(t);
    var r := Trim(s);
    var a := |s| - |t|;
    assert r == s[a..a + |r|];
    forall k | a + |r| <= k < |s|
      ensures IsBlank(s[k])
    {
      assert s[k] == t[k - a];
    }
    assert BlankMargins(s, a, r);
    if r != [] {
      assert r[0] == t[0];
    }
  }

  lemma TrimEmptyIffBlank(s: string)
    ensures Trim(s) == [] <==> forall k :: 0 <= k < |s| ==> IsBlank(s[k])
  {
    TrimMeaning(s);
    var r := Trim(s);
    var a :| BlankMargins(s, a, r);
    if r != [] {
      assert s[a] == r[0];
    }
  }

  /** A string with no blank at either end is its own trim. */
  lemma TrimOfTrimmed(s: string)
    requires s == [] || (!IsBlank(s[0]) && !IsBlank(s[|s| - 1]))
    ensures Trim(s) == s
  {
    TrimMeaning(s);
    var r := Trim(s);
    var a :| BlankMargins(s, a, r);
    if s != [] {
      assert !IsBlank(s[0]) && !IsBlank(s[|s| - 1]);
    }
  }

  /** A token of a tokenizer: non-empty and free of delimiters. */
  predicate IsToken(t: string, delims: string)
  {
    t != [] && forall c :: c in t ==> c !in delims
  }

  function TokenLength(s: string, delims: string): (n: nat)
    requires s != [] && s[0] !in delims
    ensures 1 <= n <= |s|
    ensures forall k :: 0 <= k < n ==> s[k] !in delims
    ensures n == |s| || s[n] in delims
  {
    if |s| == 1 || s[1] in delims then 1 else 1 + TokenLength(s[1..], delims)
  }

  /**
   * The tokens of a string tokenizer without returned delimiters: the maximal
   * runs of non-delimiter characters, in order.  Consecutive delimiters yield
   * no empty token.
   */
  function Tokens(s: string, delims: string): (ts: seq<string>)
    decreases |s|
    ensures forall k :: 0 <= k < |ts| ==> IsToken(ts[k], delims)
    ensures forall k, c :: 0 <= k < |ts| && c in ts[k] ==> c in s
  {
    if s == [] then []
    else if s[0] in delims then
      assert forall c :: c in s[1..] ==> c in s;
      Tokens(s[1..], delims)
    else
      var n := TokenLength(s, delims);
      assert forall c :: c in s[..n] ==> c !in delims && c in s;
      assert forall c :: c in s[n..] ==> c in s;
      [s[..n]] + Tokens(s[n..], delims)
  }

  /** The tokens are separated by one `sep` each. */
  function Join(ts: seq<string>, sep: char): string
  {
    if ts == [] then []
    else if |ts| == 1 then ts[0]
    else ts[0] + [sep] + Join(ts[1..], sep)
  }

  lemma TokensAfterToken(t: string, rest: string, delims: string)
    requires IsToken(t, delims)
    requires rest == [] || rest[0] in delims
    ensures Tokens(t + rest, delims) == [t] + Tokens(rest, delims)
  {
    var s := t + rest;
    assert s[0] == t[0];
    var n := TokenLength(s, delims);
    forall k | 0 <= k < |t| ensures s[k] !in delims {
      assert s[k] == t[k] && t[k] in t;
    }
    assert rest != [] ==> s[|t|] == rest[0];
    assert n == |t|;
    assert s[..n] == t;
    assert s[n..] == rest;
  }

  /** Tokenizing a joined list of tokens gives the list back. */
  lemma {:induction false} TokensOfJoin(ts: seq<string>, sep: char)
    requires forall k :: 0 <= k < |ts| ==> IsToken(ts[k], [sep])
    ensures Tokens(Join(ts, sep), [sep]) == ts
  {
    if |ts| == 0 {
    } else if |ts| == 1 {
      TokensAfterToken(ts[0], [], [sep]);
      assert ts[0] + [] == ts[0];
    } else {
      var rest := [sep] + Join(ts[1..], sep);
      assert Join(ts, sep) == ts[0] + rest;
      TokensAfterToken(ts[0], rest, [sep]);
      assert rest[1..] == Join(ts[1..], sep);
      TokensOfJoin(ts[1..], sep);
      assert ts == [ts[0]] + ts[1..];
    }
  }

  /** Every token trimmed. */
  function TrimAll(toks: seq<string>): (r: seq<string>)
    ensures |r| == |toks| && forall k :: 0 <= k < |r| ==> r[k] == Trim(toks[k])
  {
    seq(|toks|, k requires 0 <= k < |toks| => Trim(toks[k]))
  }

  /** The identifier of the `p`-th pair of tokens. */
  function IdAt(toks: seq<string>, p: nat): string
    requires 2 * p + 1 < |toks|
  {
    toks[2 * p]
  }

  /** The version of the `p`-th pair of tokens. */
  function VersionAt(toks: seq<string>, p: nat): string
    requires 2 * p + 1 < |toks|
  {
    toks[2 * p + 1]
  }

  /** The map after putting the first `n` pairs of `toks` into an empty map, in order. */
  function PairMap(toks: seq<string>, n: nat): map<string, string>
    requires 2 * n <= |toks|
  {
    if n == 0 then map[] else PairMap(toks, n - 1)[IdAt(toks, n - 1) := VersionAt(toks, n - 1)]
  }

  /**
   * The map read from a whole token list: all its complete pairs of trimmed
   * tokens; a single trailing token is not put.
   */
  function ReadPairs(toks: seq<string>): map<string, string>
  {
    PairMap(TrimAll(toks), |toks| / 2)
  }

  /** One of the first `n` pairs has identifier `key`. */
  predicate HasPair(toks: seq<string>, n: nat, key: string)
    requires 2 * n <= |toks|
  {
    exists p: nat :: p < n && IdAt(toks, p) == key
  }

  /** `v` is the version of the last of the first `n` pairs whose identifier is `key`. */
  predicate LastPairIs(toks: seq<string>, n: nat, key: string, v: string)
    requires 2 * n <= |toks|
  {
    exists p: nat :: p < n && IdAt(toks, p) == key && VersionAt(toks, p) == v
      && forall q: nat :: p < q < n ==> IdAt(toks, q) != key
  }

  lemma {:induction false} PairMapLookup(toks: seq<string>, n: nat, key: string)
    requires 2 * n <= |toks|
    ensures key in PairMap(toks, n) <==> HasPair(toks, n, key)
    ensures key in PairMap(toks, n) ==> LastPairIs(toks, n, key, PairMap(toks, n)[key])
  {
    if n > 0 {
      PairMapLookup(toks, n - 1, key);
      var m := PairMap(toks, n);
      if IdAt(toks, n - 1) == key {
        assert HasPair(toks, n, key);
        assert LastPairIs(toks, n, key, m[key]);
      } else if key in PairMap(toks, n - 1) {
        var v := m[key];
        var p: nat :| p < n - 1 && IdAt(toks, p) == key && VersionAt(toks, p) == v
          && forall q: nat :: p < q < n - 1 ==> IdAt(toks, q) != key;
        assert LastPairIs(toks, n, key, v);
      } else {
        assert !HasPair(toks, n, key);
      }
    }
  }

  /**
   * The map read from a token list holds exactly the identifiers of its
   * complete pairs, and each maps to the version of its last pair: a later
   * duplicate overwrites an earlier one.
   */
  lemma ReadPairsLookup(toks: seq<string>, key: string)
    ensures key in ReadPairs(toks) <==> HasPair(TrimAll(toks), |toks| / 2, key)
    ensures key in ReadPairs(toks) ==> LastPairIs(TrimAll(toks), |toks| / 2, key, ReadPairs(toks)[key])
  {
    PairMapLookup(TrimAll(toks), |toks| / 2, key);
  }

  /**
   * The tokenizer loop of the two id-list setters: pairs of tokens are read
   * and put into a fresh map.  With an odd number of tokens the second read
   * of the last pair fails (`ok` is false); the map then holds the complete
   * pairs read before.
   */
  method ParsePairs(values: string) returns (m: map<string, string>, ok: bool)
    ensures m == ReadPairs(Tokens(values, ","))
    ensures ok <==> |Tokens(values, ",")| % 2 == 0
  {
    var tokens := Tokens(values, ",");
    ghost var trimmed := TrimAll(tokens);
    m := map[];
    var i := 0;
    ghost var pairs := 0;
    while i < |tokens|
      invariant 0 <= i <= |tokens| && i == 2 * pairs
      invariant m == PairMap(trimmed, pairs)
    {
      var id := Trim(tokens[i]);
      if i + 1 == |tokens| {
        assert |tokens| / 2 == pairs;
        return m, false;
      }
      var version := Trim(tokens[i + 1]);
      m := m[id := version];
      i, pairs := i + 2, pairs + 1;
    }
    assert |tokens| / 2 == pairs;
    return m, true;
  }

  /** The trimmed tokens that are not blank, in their original order. */
  function NonBlankTokens(ts: seq<string>): (r: seq<string>)
    ensures |r| <= |ts|
    ensures forall k :: 0 <= k < |r| ==> r[k] != [] && !IsBlank(r[k][0]) && !IsBlank(r[k][|r[k]| - 1])
  {
    if ts == [] then []
    else
      var t := Trim(ts[|ts| - 1]);
      TrimMeaning(ts[|ts| - 1]);
      NonBlankTokens(ts[..|ts| - 1]) + (if t == [] then [] else [t])
  }

  /** The strings of `ss` that are not empty, in order. */
  function DropEmpty(ss: seq<string>): (r: seq<string>)
  {
    if ss == [] then []
    else (if ss[0] == [] then [] else [ss[0]]) + DropEmpty(ss[1..])
  }

  lemma {:induction false} DropEmptyAppend(ss: seq<string>, x: string)
    ensures DropEmpty(ss + [x]) == DropEmpty(ss) + (if x == [] then [] else [x])
  {
    if ss != [] {
      assert (ss + [x])[1..] == ss[1..] + [x];
      DropEmptyAppend(ss[1..], x);
    }
  }

  /** The kept tokens are the trimmed tokens without the empty ones, in their original order. */
  lemma {:induction false} NonBlankTokensInOrder(ts: seq<string>)
    ensures NonBlankTokens(ts) == DropEmpty(TrimAll(ts))
  {
    if ts != [] {
      var front, t := ts[..|ts| - 1], Trim(ts[|ts| - 1]);
      NonBlankTokensInOrder(front);
      assert TrimAll(ts) == TrimAll(front) + [t];
      DropEmptyAppend(TrimAll(front), t);
    }
  }

  /**
   * Every token that does not trim to the empty string is kept, trimmed, and
   * everything kept is such a trimmed token.
   */
  lemma {:induction false} NonBlankTokensMembers(ts: seq<string>)
    ensures forall k :: 0 <= k < |ts| && Trim(ts[k]) != [] ==> Trim(ts[k]) in NonBlankTokens(ts)
    ensures forall x :: x in NonBlankTokens(ts) ==> exists k :: 0 <= k < |ts| && x == Trim(ts[k])
  {
    if ts != [] {
      var front, t := ts[..|ts| - 1], Trim(ts[|ts| - 1]);
      NonBlankTokensMembers(front);
      var r := NonBlankTokens(ts);
      assert r == NonBlankTokens(front) + (if t == [] then [] else [t]);
      forall k | 0 <= k < |ts| && Trim(ts[k]) != []
        ensures Trim(ts[k]) in r
      {
        if k < |front| {
          assert front[k] == ts[k];
        }
      }
      forall x | x in r
        ensures exists k :: 0 <= k < |ts| && x == Trim(ts[k])
      {
        if x in NonBlankTokens(front) {
          var k :| 0 <= k < |front| && x == Trim(front[k]);
          assert front[k] == ts[k];
        } else {
          assert x == Trim(ts[|ts| - 1]);
        }
      }
    }
  }

  /** A blank string has no non-blank tokens, whatever the delimiters. */
  lemma BlankHasNoTokens(s: string, delims: string)
    requires Trim(s) == []
    ensures NonBlankTokens(Tokens(s, delims)) == []
  {
    TrimEmptyIffBlank(s);
    var ts := Tokens(s, delims);
    forall k | 0 <= k < |ts| ensures Trim(ts[k]) == [] {
      forall j | 0 <= j < |ts[k]| ensures IsBlank(ts[k][j]) {
        assert ts[k][j] in ts[k];
        assert ts[k][j] in s;
        var i :| 0 <= i < |s| && s[i] == ts[k][j];
      }
      TrimEmptyIffBlank(ts[k]);
    }
    AllBlankTokens(ts);
  }

  lemma {:induction false} AllBlankTokens(ts: seq<string>)
    requires forall k :: 0 <= k < |ts| ==> Trim(ts[k]) == []
    ensures NonBlankTokens(ts) == []
  {
    if ts != [] {
      AllBlankTokens(ts[..|ts| - 1]);
    }
  }

  /**
   * The list splitter: no tokens for a missing or blank list, otherwise the
   * trimmed non-blank tokens, in order.
   */
  method GetArrayFromString(list: Option<string>, separator: string) returns (r: seq<string>)
    ensures r == if list.None? then [] else NonBlankTokens(Tokens(list.value, separator))
  {
    if list.None? || Trim(list.value) == [] {
      if list.Some? {
        BlankHasNoTokens(list.value, separator);
      }
      return [];
    }
    var tokens := Tokens(list.value, separator);
    r := [];
    var i := 0;
    while i < |tokens|
      invariant 0 <= i <= |tokens|
      invariant r == NonBlankTokens(tokens[..i])
    {
      var token := Trim(tokens[i]);
      if token != [] {
        r := r + [token];
      }
      assert tokens[..i + 1][..i] == tokens[..i];
      i := i + 1;
    }
    assert tokens[..i] == tokens;
  }
}
