/**
 * `_canBleed` of lib/MySQLConnection.js: does a statement contain a keyword that can
 * leak session state into the next query? The check is the global, case-insensitive
 * regular expression /transaction|declare|set|delimiter|execute/gi, so a match is any
 * occurrence of a keyword as a substring, whatever the case of its letters.
 *
 * A global regular expression remembers `lastIndex` between calls and searches from
 * there; `Search` models that search and the class in QueryCompiler keeps `lastIndex`.
 */
module BleedCheck {
  import opened Js

  /** The alternatives of the regular expression, in order, in lower case. */
  const Keywords: seq<string> := ["transaction", "declare", "set", "delimiter", "execute"]

  /**
   * Case folding as a non-unicode /i expression does it for these keywords: only the
   * ASCII letters fold (a non-ASCII character never matches an ASCII one).
   */
  function Lower(c: char): (r: char)
    ensures 'A' <= c <= 'Z' ==> 'a' <= r <= 'z' && r as int - 'a' as int == c as int - 'A' as int
    ensures !('A' <= c <= 'Z') ==> r == c
  {
    if 'A' <= c <= 'Z' then (c as int + 32) as char else c
  }

  /** Exactly two characters fold onto each lower-case letter: itself and its capital. */
  lemma LowerMatchesBothCases(c: char, l: char)
    requires 'a' <= l <= 'z'
    ensures Lower(c) == l <==> c == l || c as int == l as int - 32
  {
  }

  /** `kw` occurs in `s` at position `i`, ignoring the case of ASCII letters. */
  predicate KeywordAt(s: string, i: nat, kw: string)
  {
    i + |kw| <= |s| && forall k | 0 <= k < |kw| :: Lower(s[i + k]) == kw[k]
  }

  /** The reference meaning: some keyword occurs somewhere in `s`. */
  ghost predicate ContainsKeyword(s: string)
  {
    exists i: nat, k | 0 <= k < |Keywords| :: KeywordAt(s, i, Keywords[k])
  }

  /** The end of the first alternative, from the `k`-th on, that matches at `i`. */
  function MatchAt(s: string, i: nat, k: nat): (r: Option<nat>)
    requires k <= |Keywords|
    ensures r.Some? ==> exists j | k <= j < |Keywords| :: KeywordAt(s, i, Keywords[j]) && r.value == i + |Keywords[j]|
    ensures r.None? ==> forall j | k <= j < |Keywords| :: !KeywordAt(s, i, Keywords[j])
    decreases |Keywords| - k
  {
    if k == |Keywords| then None
    else if KeywordAt(s, i, Keywords[k]) then Some(i + |Keywords[k]|)
    else MatchAt(s, i, k + 1)
  }

  /**
   * `exec` of the expression starting at `lastIndex == from`: the end of the leftmost
   * match at or after `from`, or `None` (also when `from` is past the end).
   */
  function Search(s: string, from: nat): Option<nat>
    decreases |s| + 1 - from
  {
    if from > |s| then None
    else
      var m := MatchAt(s, from, 0);
      if m.Some? then m else Search(s, from + 1)
  }

  /** The search from `from` succeeds exactly when some keyword occurs at or after `from`. */
  lemma {:induction false} SearchFinds(s: string, from: nat)
    ensures Search(s, from).Some? <==>
      exists i: nat, k | from <= i && 0 <= k < |Keywords| :: KeywordAt(s, i, Keywords[k])
    decreases |s| + 1 - from
  {
    if from > |s| {
      forall i: nat, k | from <= i && 0 <= k < |Keywords|
        ensures !KeywordAt(s, i, Keywords[k])
      {
      }
    } else if MatchAt(s, from, 0).None? {
      SearchFinds(s, from + 1);
      forall i: nat, k | from <= i && 0 <= k < |Keywords| && KeywordAt(s, i, Keywords[k])
        ensures from + 1 <= i
      {
      }
    }
  }

  /** A search from the start answers exactly whether the statement contains a keyword. */
  lemma SearchFromStart(s: string)
    ensures Search(s, 0).Some? <==> ContainsKeyword(s)
  {
    SearchFinds(s, 0);
  }

  /** Without resetting `lastIndex`, an earlier match hides a later call's keyword. */
  lemma StaleLastIndexMissesKeyword()
    ensures Search("SET", 0) == Some(3)
    ensures Search("SET", 3) == None
  {
    assert KeywordAt("SET", 0, Keywords[2]);
    assert !KeywordAt("SET", 0, Keywords[0]) by { assert Lower("SET"[0]) != Keywords[0][0]; }
    assert !KeywordAt("SET", 0, Keywords[1]) by { assert Lower("SET"[0]) != Keywords[1][0]; }
    assert MatchAt("SET", 0, 0) == Some(3);
  }
}
