/**
 * The keyword search of the feature-manifest rewriter: a forward scan of a
 * character buffer for the first position at which one of several literal
 * targets occurs.  The scan only accepts a match that ends strictly before the
 * last character of the buffer, so a target that ends exactly at the end of
 * the buffer is never reported.
 */
module Scanning {

  /** `t` occurs at `i` and the occurrence ends before the last character of `buf`. */
  predicate MatchAt(buf: string, i: int, t: string)
  {
    0 <= i && i < |buf| - |t| && Occurs(buf, i, t, 0)
  }

  /** The characters of `buf` from `i + k` on are those of `t` from `k` on, one by one. */
  predicate Occurs(buf: string, i: nat, t: string, k: nat)
    requires i + |t| <= |buf| && k <= |t|
    decreases |t| - k
  {
    k == |t| || (buf[i + k] == t[k] && Occurs(buf, i, t, k + 1))
  }

  /** Occurs compares the substring `buf[i..i + |t|]` with `t`. */
  lemma {:induction false} OccursIsSubstring(buf: string, i: nat, t: string, k: nat)
    requires i + |t| <= |buf| && k <= |t|
    decreases |t| - k
    ensures Occurs(buf, i, t, k) <==> buf[i + k..i + |t|] == t[k..]
  {
    if k < |t| {
      OccursIsSubstring(buf, i, t, k + 1);
      assert buf[i + k..i + |t|] == [buf[i + k]] + buf[i + k + 1..i + |t|];
      assert t[k..] == [t[k]] + t[k + 1..];
    }
  }

  /** Some target of `targets` occurs at `i` in the sense of MatchAt. */
  predicate MatchesAny(buf: string, i: int, targets: seq<string>)
  {
    exists j :: 0 <= j < |targets| && MatchAt(buf, i, targets[j])
  }

  lemma MatchesSingle(buf: string, i: int, t: string)
    ensures MatchesAny(buf, i, [t]) <==> MatchAt(buf, i, t)
  {
    if MatchAt(buf, i, t) {
      assert [t][0] == t;
    }
  }

  /**
   * The least position `r >= start` at which some target occurs, or -1 when
   * there is none.
   */
  function FirstMatch(buf: string, start: nat, targets: seq<string>): (r: int)
    decreases |buf| - start
    ensures r == -1 || (start <= r < |buf| && MatchesAny(buf, r, targets))
    ensures r == -1 ==> forall i :: start <= i ==> !MatchesAny(buf, i, targets)
    ensures r != -1 ==> forall i :: start <= i < r ==> !MatchesAny(buf, i, targets)
  {
    if start >= |buf| then -1
    else if MatchesAny(buf, start, targets) then start
    else FirstMatch(buf, start + 1, targets)
  }

  /**
   * The single-target overload: the least `r >= start` where `t` occurs with
   * `r + |t| < |buf|`, or -1.
   */
  function Find(buf: string, start: nat, t: string): (r: int)
    decreases |buf| - start
    ensures r == -1 || (start <= r && r + |t| < |buf| && MatchAt(buf, r, t))
  {
    if start >= |buf| then -1
    else if MatchAt(buf, start, t) then start
    else Find(buf, start + 1, t)
  }

  /** The first match of `t` at or after `start` is at `r`. */
  predicate FirstAt(buf: string, start: int, t: string, r: int)
  {
    start <= r && MatchAt(buf, r, t) && forall k :: start <= k < r ==> !MatchAt(buf, k, t)
  }

  /** `t` does not occur at or after `start`. */
  ghost predicate NoneFrom(buf: string, start: int, t: string)
  {
    forall k :: start <= k ==> !MatchAt(buf, k, t)
  }

  /** Find returns the first match at or after `start`, and -1 exactly when there is none. */
  lemma {:induction false} FindMeaning(buf: string, start: nat, t: string)
    decreases |buf| - start
    ensures Find(buf, start, t) == -1 <==> NoneFrom(buf, start, t)
    ensures Find(buf, start, t) != -1 ==> FirstAt(buf, start, t, Find(buf, start, t))
  {
    if start < |buf| && !MatchAt(buf, start, t) {
      FindMeaning(buf, start + 1, t);
    }
  }

  /** `r` is the first match of `t` at or after `start`, or -1: then Find returns `r`. */
  lemma FindIsLeast(buf: string, start: nat, t: string, r: int)
    requires r == -1 ==> NoneFrom(buf, start, t)
    requires r != -1 ==> FirstAt(buf, start, t, r)
    ensures Find(buf, start, t) == r
  {
    FindMeaning(buf, start, t);
    var f := Find(buf, start, t);
    if f != -1 && r != -1 {
      assert !(f < r) && !(r < f);
    }
  }

  /** The single-target overload is the general scan with one target. */
  lemma {:induction false} FindIsFirstMatch(buf: string, start: nat, t: string)
    decreases |buf| - start
    ensures FirstMatch(buf, start, [t]) == Find(buf, start, t)
  {
    MatchesSingle(buf, start, t);
    if start < |buf| && !MatchAt(buf, start, t) {
      FindIsFirstMatch(buf, start + 1, t);
    }
  }

  /** A match that ends at the very end of the buffer is never reported. */
  lemma FinalMatchMissed(buf: string, t: string)
    requires |t| <= |buf| && buf[|buf| - |t|..] == t
    ensures Find(buf, |buf| - |t|, t) == -1
    ensures t != [] ==> Find(buf, 0, t) != |buf| - |t|
  {
  }

  /** Nothing in `buf[start..mid]` can start a match, so the search may begin at `mid`. */
  lemma FindIsLeastFrom(buf: string, start: nat, mid: nat, t: string)
    requires start <= mid && forall k :: start <= k < mid ==> !MatchAt(buf, k, t)
    ensures Find(buf, start, t) == Find(buf, mid, t)
  {
    FindMeaning(buf, mid, t);
    FindIsLeast(buf, start, t, Find(buf, mid, t));
  }

  /** A stretch that does not hold the first character of `t` can be skipped. */
  lemma FindSkips(buf: string, start: nat, mid: nat, t: string)
    requires t != [] && start <= mid <= |buf| && t[0] !in buf[start..mid]
    ensures Find(buf, start, t) == Find(buf, mid, t)
  {
    forall k | start <= k < mid
      ensures !MatchAt(buf, k, t)
    {
      assert buf[k] == buf[start..mid][k - start] != t[0];
    }
    FindIsLeastFrom(buf, start, mid, t);
  }

  /** A position where `t` does not occur can be skipped. */
  lemma FindSkipsOne(buf: string, start: nat, t: string)
    requires !MatchAt(buf, start, t)
    ensures Find(buf, start, t) == Find(buf, start + 1, t)
  {
    FindIsLeastFrom(buf, start, start + 1, t);
  }

  /** A match at the start of the search is the result. */
  lemma FindHere(buf: string, start: nat, t: string)
    requires MatchAt(buf, start, t)
    ensures Find(buf, start, t) == start
  {
  }

  /** Nothing is found from a position where a match could no longer end in time. */
  lemma FindTooLate(buf: string, start: nat, t: string)
    requires |buf| - |t| <= start
    ensures Find(buf, start, t) == -1
  {
    FindMeaning(buf, start, t);
  }

  /**
   * The last match of `t` strictly between `from` and `limit`, or `from` when
   * there is none: the look-behind that decides which keyword is closest to an
   * `id` found at `limit`.
   */
  function LastMatchBefore(buf: string, from: nat, limit: int, t: string): (r: nat)
    decreases limit - from
    ensures r == from || (from < r < limit && MatchAt(buf, r, t))
  {
    if from >= limit then from
    else
      var next := Find(buf, from + 1, t);
      if next != -1 && next < limit then LastMatchBefore(buf, next, limit, t) else from
  }

  /** No match of `t` lies strictly between LastMatchBefore and `limit`. */
  lemma {:induction false} LastMatchBeforeIsLast(buf: string, from: nat, limit: int, t: string)
    decreases limit - from
    ensures forall m :: from < m < limit && MatchAt(buf, m, t) ==> m <= LastMatchBefore(buf, from, limit, t)
  {
    if from < limit {
      var next := Find(buf, from + 1, t);
      FindMeaning(buf, from + 1, t);
      if next != -1 && next < limit {
        LastMatchBeforeIsLast(buf, next, limit, t);
      }
    }
  }

  /** The scan loop: positions in order, and at each position the targets in order. */
  method Scan(buf: string, start: nat, targets: seq<string>) returns (r: int)
    ensures r == FirstMatch(buf, start, targets)
  {
    var i := start;
    while i < |buf|
      invariant start <= i
      invariant FirstMatch(buf, i, targets) == FirstMatch(buf, start, targets)
      decreases |buf| - i
    {
      var j := 0;
      while j < |targets|
        invariant 0 <= j <= |targets|
        invariant forall k :: 0 <= k < j ==> !MatchAt(buf, i, targets[k])
      {
        if i < |buf| - |targets[j]| {
          var candidate := buf[i..i + |targets[j]|];
          OccursIsSubstring(buf, i, targets[j], 0);
          if targets[j] == candidate {
            return i;
          }
        }
        j := j + 1;
      }
      i := i + 1;
    }
    return -1;
  }

  /** The single-target overload of the scan loop. */
  method ScanFor(buf: string, start: nat, t: string) returns (r: int)
    ensures r == Find(buf, start, t)
  {
    r := Scan(buf, start, [t]);
    FindIsFirstMatch(buf, start, t);
  }
}
