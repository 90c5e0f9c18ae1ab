/**
 * The small rules of src/MySQLConnection.js: `renderSQLQuery`, which puts escaped
 * values in place of the `?` marks of a statement, the `_lockModes` table with the
 * `LOCK TABLES` statement `lock` issues, and how `executeQuery` turns the driver's
 * `(err, data)` into a rejection or a resolved value.
 *
 * `escape` (`connection.escape`) and `escapeId` (`mysql.escapeId`) are library calls;
 * they are function parameters here, with nothing assumed about them unless a
 * lemma says so.
 */
module Driver {
  import opened Js

  // ---------------------------------------------------------------------------
  // Placeholder substitution

  /** `sql || ''`. */
  function SqlText(sql: Option<string>): (r: string)
    ensures sql.Some? ==> r == sql.value
    ensures sql.None? ==> r == ""
  {
    if sql.Some? then sql.value else ""
  }

  /** `values || []`. */
  function ValueList(values: Option<seq<Value>>): (r: seq<Value>)
    ensures values.Some? ==> r == values.value
    ensures values.None? ==> r == []
  {
    if values.Some? then values.value else []
  }

  /** `s` holds no `?` mark. */
  predicate NoMark(s: string)
  {
    forall k | 0 <= k < |s| :: s[k] != '?'
  }

  /**
   * `exec` of the global expression /\?/ with `lastIndex == from`: the position of the
   * first `?` at or after `from`, or `None` (also when `from` is past the end).
   */
  function FindMark(s: string, from: nat): (r: Option<nat>)
    ensures r.Some? ==> from <= r.value < |s| && s[r.value] == '?'
    ensures r.Some? ==> forall k | from <= k < r.value :: s[k] != '?'
    ensures r.None? ==> forall k | from <= k < |s| :: s[k] != '?'
    decreases |s| - from
  {
    if from >= |s| then None
    else if s[from] == '?' then Some(from)
    else FindMark(s, from + 1)
  }

  /**
   * The replacement patterns of `String.prototype.replace` when the pattern is the
   * string '?': `$$` is '$', `$&` the matched '?', `` $` `` the text before the match,
   * `$'` the text after it; any other `$` is kept as it is.
   */
  function Expand(replacement: string, before: string, after: string): (r: string)
    ensures '$' !in replacement ==> r == replacement
    decreases |replacement|
  {
    if replacement == "" then ""
    else if replacement[0] == '$' && |replacement| >= 2 && replacement[1] in "$&`'" then
      var expansion :=
        if replacement[1] == '$' then "$"
        else if replacement[1] == '&' then "?"
        else if replacement[1] == '`' then before
        else after;
      expansion + Expand(replacement[2..], before, after)
    else
      [replacement[0]] + Expand(replacement[1..], before, after)
  }

  /**
   * `s.replace('?', replacement)` scanning from `i`, where `s[..i]` holds no mark: the
   * first `?` found is replaced, and a text without one is returned unchanged.
   */
  function ReplaceFrom(s: string, i: nat, replacement: string): (r: string)
    ensures FindMark(s, i).None? ==> r == s
    decreases |s| - i
  {
    if i >= |s| then s
    else if s[i] == '?' then s[..i] + Expand(replacement, s[..i], s[i + 1..]) + s[i + 1..]
    else ReplaceFrom(s, i + 1, replacement)
  }

  /** `s.replace('?', replacement)`: only the first `?` of the whole string is replaced. */
  function ReplaceFirst(s: string, replacement: string): (r: string)
    ensures FindMark(s, 0).None? ==> r == s
  {
    ReplaceFrom(s, 0, replacement)
  }

  /** The scan replaces the mark the search from the same position finds. */
  lemma {:induction false} ReplaceFromMark(s: string, i: nat, replacement: string, f: nat)
    requires FindMark(s, i) == Some(f)
    ensures ReplaceFrom(s, i, replacement) == s[..f] + Expand(replacement, s[..f], s[f + 1..]) + s[f + 1..]
    decreases |s| - i
  {
    if s[i] != '?' {
      ReplaceFromMark(s, i + 1, replacement, f);
    }
  }

  /** `replace` puts the expanded replacement in place of the first mark of the text. */
  lemma ReplaceFirstAt(s: string, replacement: string, f: nat)
    requires FindMark(s, 0) == Some(f)
    ensures ReplaceFirst(s, replacement) == s[..f] + Expand(replacement, s[..f], s[f + 1..]) + s[f + 1..]
  {
    ReplaceFromMark(s, 0, replacement, f);
  }

  /**
   * The intended meaning of `renderSQLQuery`: the k-th `?` becomes `escape(values[k])`
   * for every k < |values|, and the marks after those are left alone.
   */
  function Substitute(escape: Value -> string, s: string, vs: seq<Value>): string
    decreases |s|
  {
    if s == "" then ""
    else if s[0] == '?' && vs != [] then escape(vs[0]) + Substitute(escape, s[1..], vs[1..])
    else [s[0]] + Substitute(escape, s[1..], vs)
  }

  /** Text without marks is not changed by the substitution. */
  lemma {:induction false} SubstituteNoMark(escape: Value -> string, s: string, vs: seq<Value>)
    requires NoMark(s)
    ensures Substitute(escape, s, vs) == s
    decreases |s|
  {
    if s != "" {
      SubstituteNoMark(escape, s[1..], vs);
    }
  }

  /** Without values, nothing is substituted. */
  lemma {:induction false} SubstituteNoValues(escape: Value -> string, s: string)
    ensures Substitute(escape, s, []) == s
    decreases |s|
  {
    if s != "" {
      SubstituteNoValues(escape, s[1..]);
    }
  }

  /** A prefix without marks passes through the substitution unchanged. */
  lemma {:induction false} SubstituteAfterPlain(escape: Value -> string, a: string, b: string, vs: seq<Value>)
    requires NoMark(a)
    ensures Substitute(escape, a + b, vs) == a + Substitute(escape, b, vs)
    decreases |a|
  {
    if a != "" {
      var ab := a + b;
      assert ab[0] == a[0] && ab[0] != '?' && ab[1..] == a[1..] + b;
      assert Substitute(escape, ab, vs) == [a[0]] + Substitute(escape, a[1..] + b, vs);
      assert NoMark(a[1..]) by {
        forall k | 0 <= k < |a| - 1
          ensures a[1..][k] != '?'
        {
          assert a[1..][k] == a[k + 1];
        }
      }
      SubstituteAfterPlain(escape, a[1..], b, vs);
      assert [a[0]] + a[1..] == a;
      assert [a[0]] + (a[1..] + Substitute(escape, b, vs)) == a + Substitute(escape, b, vs);
    } else {
      assert a + b == b;
    }
  }

  /** The first mark of `t`, at `j`, takes the first value. */
  lemma SubstituteAtMark(escape: Value -> string, t: string, j: nat, vs: seq<Value>)
    requires j < |t| && t[j] == '?' && NoMark(t[..j]) && vs != []
    ensures Substitute(escape, t, vs) == t[..j] + escape(vs[0]) + Substitute(escape, t[j + 1..], vs[1..])
  {
    assert t == t[..j] + t[j..];
    SubstituteAfterPlain(escape, t[..j], t[j..], vs);
    assert t[j..][0] == '?' && t[j..][1..] == t[j + 1..];
  }

  /**
   * The loop of `renderSQLQuery` as written, one `exec` per call: while a `?` is found
   * from `lastIndex`, the first `?` of the whole text is replaced by the escaped value
   * (only while values remain), and `lastIndex` moves by the escaped length minus one
   * past the match, using `escape(undefined)` once the values are used up.
   */
  function Replay(escape: Value -> string, s: string, vs: seq<Value>, lastIndex: nat, index: nat): string
    requires |escape(Undefined)| > 0
    decreases if index < |vs| then |vs| - index else 0, if lastIndex <= |s| then |s| + 1 - lastIndex else 0
  {
    match FindMark(s, lastIndex)
    case None => s
    case Some(m) =>
      var escaped := escape(if index < |vs| then vs[index] else Undefined);
      var next := if index < |vs| then ReplaceFirst(s, escaped) else s;
      Replay(escape, next, vs, m + |escaped|, index + 1)
  }

  /** Once the values are used up the text no longer changes. */
  lemma {:induction false} ReplayExhausted(escape: Value -> string, s: string, vs: seq<Value>, lastIndex: nat, index: nat)
    requires |escape(Undefined)| > 0 && index >= |vs|
    ensures Replay(escape, s, vs, lastIndex, index) == s
    decreases if lastIndex <= |s| then |s| + 1 - lastIndex else 0
  {
    match FindMark(s, lastIndex)
    case None =>
    case Some(m) =>
      ReplayExhausted(escape, s, vs, m + |escape(Undefined)|, index + 1);
  }

  /** No escaped value contains a `?` mark or a `$` that `replace` would expand. */
  predicate Clean(escape: Value -> string, vs: seq<Value>)
  {
    forall k | 0 <= k < |vs| :: '?' !in escape(vs[k]) && '$' !in escape(vs[k])
  }

  /** Searching past a prefix finds the marks of the rest, shifted by the prefix. */
  lemma {:induction false} FindMarkAfter(done: string, rest: string, i: nat)
    requires i <= |rest|
    ensures var r := FindMark(rest, i);
      FindMark(done + rest, |done| + i) == if r.Some? then Some(|done| + r.value) else None
    decreases |rest| - i
  {
    if i < |rest| {
      assert (done + rest)[|done| + i] == rest[i];
      if rest[i] != '?' {
        FindMarkAfter(done, rest, i + 1);
      }
    }
  }

  /** The marks of two texts without marks: none. */
  lemma NoMarkConcat(a: string, b: string)
    requires NoMark(a) && NoMark(b)
    ensures NoMark(a + b)
  {
    forall k | 0 <= k < |a + b|
      ensures (a + b)[k] != '?'
    {
      if k < |a| {
        assert (a + b)[k] == a[k];
      } else {
        assert (a + b)[k] == b[k - |a|];
      }
    }
  }

  /** A `?` at `p` with none between `from` and `p` is what the search from `from` finds. */
  lemma {:induction false} FindMarkFirst(s: string, from: nat, p: nat)
    requires from <= p < |s| && s[p] == '?'
    requires forall k | from <= k < p :: s[k] != '?'
    ensures FindMark(s, from) == Some(p)
    decreases p - from
  {
    if from < p {
      FindMarkFirst(s, from + 1, p);
    }
  }

  /** In a text whose first mark is in `rest`, `replace` puts the escaped value there. */
  lemma ReplaceFirstAfterPlain(done: string, rest: string, j: nat, escaped: string)
    requires NoMark(done) && FindMark(rest, 0) == Some(j) && '$' !in escaped
    ensures ReplaceFirst(done + rest, escaped) == (done + rest[..j] + escaped) + rest[j + 1..]
  {
    var s := done + rest;
    var p := |done| + j;
    forall k | 0 <= k < p
      ensures s[k] != '?'
    {
      if k < |done| {
        assert s[k] == done[k];
      } else {
        assert s[k] == rest[k - |done|];
      }
    }
    assert s[p] == rest[j];
    FindMarkFirst(s, 0, p);
    ReplaceFirstAt(s, escaped, p);
    assert s[..p] == done + rest[..j];
    assert s[p + 1..] == rest[j + 1..];
  }

  /** A round of the loop while values remain: the first mark is replaced and the search moves on. */
  lemma ReplayReplaces(escape: Value -> string, s: string, vs: seq<Value>, lastIndex: nat, index: nat, m: nat)
    requires |escape(Undefined)| > 0 && index < |vs| && FindMark(s, lastIndex) == Some(m)
    ensures Replay(escape, s, vs, lastIndex, index)
      == Replay(escape, ReplaceFirst(s, escape(vs[index])), vs, m + |escape(vs[index])|, index + 1)
  {
  }

  /** The same round, with the replaced text and the new search position given by name. */
  lemma ReplayReplacesInto(escape: Value -> string, s: string, vs: seq<Value>, lastIndex: nat, index: nat, m: nat,
                           next: string, nextLastIndex: nat)
    requires |escape(Undefined)| > 0 && index < |vs| && FindMark(s, lastIndex) == Some(m)
    requires next == ReplaceFirst(s, escape(vs[index])) && nextLastIndex == m + |escape(vs[index])|
    ensures Replay(escape, s, vs, lastIndex, index) == Replay(escape, next, vs, nextLastIndex, index + 1)
  {
    ReplayReplaces(escape, s, vs, lastIndex, index, m);
  }

  /** A round of the loop once the values are used up: only the search position moves. */
  lemma ReplaySkips(escape: Value -> string, s: string, vs: seq<Value>, lastIndex: nat, index: nat, m: nat)
    requires |escape(Undefined)| > 0 && index >= |vs| && FindMark(s, lastIndex) == Some(m)
    ensures Replay(escape, s, vs, lastIndex, index) == Replay(escape, s, vs, m + |escape(Undefined)|, index + 1)
  {
  }

  /** One round of the loop when the next mark is the `j`-th character of `rest`. */
  lemma ReplayStep(escape: Value -> string, done: string, rest: string, vs: seq<Value>, index: nat, j: nat)
    requires |escape(Undefined)| > 0 && index < |vs| && '$' !in escape(vs[index])
    requires NoMark(done) && FindMark(rest, 0) == Some(j)
    ensures var done' := done + rest[..j] + escape(vs[index]);
      Replay(escape, done + rest, vs, |done|, index) == Replay(escape, done' + rest[j + 1..], vs, |done'|, index + 1)
  {
    var s := done + rest;
    var escaped := escape(vs[index]);
    var done' := done + rest[..j] + escaped;
    var m := |done| + j;
    assert FindMark(s, |done|) == Some(m) by {
      FindMarkAfter(done, rest, 0);
    }
    var replaced := ReplaceFirst(s, escaped);
    var next := done' + rest[j + 1..];
    assert replaced == next by {
      ReplaceFirstAfterPlain(done, rest, j, escaped);
    }
    assert m + |escaped| == |done'|;
    ReplayReplacesInto(escape, s, vs, |done|, index, m, next, |done'|);
  }

  /**
   * With clean values the loop does what was intended: the scanned part `done` (which
   * holds no mark) is followed by the substitution of the rest.
   */
  lemma {:induction false} ReplayClean(escape: Value -> string, done: string, rest: string, vs: seq<Value>, index: nat)
    requires |escape(Undefined)| > 0 && Clean(escape, vs) && NoMark(done) && index <= |vs|
    ensures Replay(escape, done + rest, vs, |done|, index) == done + Substitute(escape, rest, vs[index..])
    decreases |rest|
  {
    if index == |vs| {
      ReplayExhausted(escape, done + rest, vs, |done|, index);
      SubstituteNoValues(escape, rest);
      assert vs[index..] == [];
    } else if FindMark(rest, 0).None? {
      assert FindMark(done + rest, |done|).None? by {
        FindMarkAfter(done, rest, 0);
      }
      assert NoMark(rest);
      SubstituteNoMark(escape, rest, vs[index..]);
    } else {
      var j := FindMark(rest, 0).value;
      var escaped := escape(vs[index]);
      var done' := done + rest[..j] + escaped;
      var tail := Substitute(escape, rest[j + 1..], vs[index + 1..]);
      assert NoMark(done') by {
        assert NoMark(rest[..j]);
        NoMarkConcat(done, rest[..j]);
        NoMarkConcat(done + rest[..j], escaped);
      }
      calc {
        Replay(escape, done + rest, vs, |done|, index);
        { ReplayStep(escape, done, rest, vs, index, j); }
        Replay(escape, done' + rest[j + 1..], vs, |done'|, index + 1);
        { ReplayClean(escape, done', rest[j + 1..], vs, index + 1); }
        done' + tail;
        { assert done' + tail == done + (rest[..j] + escaped + tail); }
        done + (rest[..j] + escaped + tail);
        { SubstituteAtMark(escape, rest, j, vs[index..]);
          assert vs[index..][0] == vs[index] && vs[index..][1..] == vs[index + 1..]; }
        done + Substitute(escape, rest, vs[index..]);
      }
    }
  }

  /** What the loop as written is known to do, from the start of the text. */
  lemma ReplayFacts(escape: Value -> string, s: string, vs: seq<Value>)
    requires |escape(Undefined)| > 0
    ensures NoMark(s) ==> Replay(escape, s, vs, 0, 0) == s
    ensures vs == [] ==> Replay(escape, s, vs, 0, 0) == s
    ensures Clean(escape, vs) ==> Replay(escape, s, vs, 0, 0) == Substitute(escape, s, vs)
  {
    if vs == [] {
      ReplayExhausted(escape, s, vs, 0, 0);
    }
    if Clean(escape, vs) {
      ReplayClean(escape, "", s, vs, 0);
      assert "" + s == s && vs[0..] == vs;
    }
  }

  /**
   * One pass of the loop body of `renderSQLQuery` after `exec` found a `?` at `m`: the
   * first `?` of the text is replaced while a value remains, and `lastIndex`, which
   * `exec` left at `m + 1`, moves by the escaped length minus the match length.
   */
  method ReplaceNext(escape: Value -> string, s: string, vs: seq<Value>, lastIndex: nat, index: nat, m: nat)
    returns (next: string, nextLastIndex: nat)
    requires |escape(Undefined)| > 0 && FindMark(s, lastIndex) == Some(m)
    ensures index < |vs| ==> next == ReplaceFirst(s, escape(vs[index])) && nextLastIndex == m + |escape(vs[index])|
    ensures index >= |vs| ==> next == s && nextLastIndex == m + |escape(Undefined)|
    ensures Replay(escape, s, vs, lastIndex, index) == Replay(escape, next, vs, nextLastIndex, index + 1)
  {
    var escaped := escape(if index < |vs| then vs[index] else Undefined);
    next := s;
    if index < |vs| {
      ReplayReplaces(escape, s, vs, lastIndex, index, m);
      next := ReplaceFirst(s, escaped);
    } else {
      ReplaySkips(escape, s, vs, lastIndex, index, m);
    }
    nextLastIndex := m + 1 + |escaped| - 1;
  }

  /**
   * `renderSQLQuery(sql, values)` as written. It needs `escape(undefined)` to be
   * non-empty: with an empty escape of `undefined` a surplus `?` is found again and
   * again and the loop does not end (the mysql library gives 'NULL').
   */
  method RenderSQLQuery(escape: Value -> string, sql: Option<string>, values: Option<seq<Value>>) returns (r: string)
    requires |escape(Undefined)| > 0
    ensures r == Replay(escape, SqlText(sql), ValueList(values), 0, 0)
    ensures NoMark(SqlText(sql)) ==> r == SqlText(sql)
    ensures ValueList(values) == [] ==> r == SqlText(sql)
    ensures Clean(escape, ValueList(values)) ==> r == Substitute(escape, SqlText(sql), ValueList(values))
  {
    var s := SqlText(sql);
    var vs := ValueList(values);
    r := ReplaceMarks(escape, s, vs);
    ReplayFacts(escape, s, vs);
  }

  /** The `while (match = reg.exec(sql))` loop of `renderSQLQuery`, from `lastIndex` 0. */
  method ReplaceMarks(escape: Value -> string, sql: string, vs: seq<Value>) returns (r: string)
    requires |escape(Undefined)| > 0
    ensures r == Replay(escape, sql, vs, 0, 0)
  {
    var s: string, lastIndex: nat, index: nat := sql, 0, 0;
    while FindMark(s, lastIndex).Some?
      invariant Replay(escape, sql, vs, 0, 0) == Replay(escape, s, vs, lastIndex, index)
      decreases if index < |vs| then |vs| - index else 0, if lastIndex <= |s| then |s| + 1 - lastIndex else 0
    {
      s, lastIndex := ReplaceNext(escape, s, vs, lastIndex, index, FindMark(s, lastIndex).value);
      index := index + 1;
    }
    r := s;
  }


  /** Splicing the next value in at the mark keeps "done text + substitution of the rest" fixed. */
  lemma SpliceStep(escape: Value -> string, s: string, vs: seq<Value>, lastIndex: nat, index: nat, m: nat)
    requires lastIndex <= |s| && index < |vs| && FindMark(s, lastIndex) == Some(m)
    ensures var s' := s[..m] + escape(vs[index]) + s[m + 1..];
      var lastIndex' := m + |escape(vs[index])|;
      && lastIndex' <= |s'|
      && s[..lastIndex] + Substitute(escape, s[lastIndex..], vs[index..])
         == s'[..lastIndex'] + Substitute(escape, s'[lastIndex'..], vs[index + 1..])
  {
    var escaped := escape(vs[index]);
    var t := s[lastIndex..];
    var j := m - lastIndex;
    assert NoMark(t[..j]) by {
      forall k | 0 <= k < j
        ensures t[..j][k] != '?'
      {
        assert t[..j][k] == s[lastIndex + k];
      }
    }
    SubstituteAtMark(escape, t, j, vs[index..]);
    assert t[..j] == s[lastIndex..m] && t[j + 1..] == s[m + 1..];
    assert vs[index..][0] == vs[index] && vs[index..][1..] == vs[index + 1..];
    var s' := s[..m] + escaped + s[m + 1..];
    var tail := Substitute(escape, s[m + 1..], vs[index + 1..]);
    assert s'[..m + |escaped|] == s[..m] + escaped && s'[m + |escaped|..] == s[m + 1..];
    calc {
      s[..lastIndex] + Substitute(escape, t, vs[index..]);
      s[..lastIndex] + (s[lastIndex..m] + escaped + tail);
      { assert s[..lastIndex] + s[lastIndex..m] == s[..m]; }
      s[..m] + escaped + tail;
    }
  }

  /** When the loop stops, the rest of the text is left as it is by the substitution. */
  lemma SpliceDone(escape: Value -> string, s: string, vs: seq<Value>, lastIndex: nat, index: nat)
    requires lastIndex <= |s| && index <= |vs|
    requires FindMark(s, lastIndex).None? || index == |vs|
    ensures s[..lastIndex] + Substitute(escape, s[lastIndex..], vs[index..]) == s
  {
    var t := s[lastIndex..];
    if FindMark(s, lastIndex).None? {
      NoMarkAfter(s, lastIndex);
      SubstituteNoMark(escape, t, vs[index..]);
    } else {
      assert vs[index..] == [];
      SubstituteNoValues(escape, t);
    }
    SplitAt(s, lastIndex);
  }

  lemma SplitAt(s: string, i: nat)
    requires i <= |s|
    ensures s[..i] + s[i..] == s
  {
  }

  /** A search that finds nothing leaves a tail without marks. */
  lemma NoMarkAfter(s: string, from: nat)
    requires from <= |s| && FindMark(s, from).None?
    ensures NoMark(s[from..])
  {
    forall k | 0 <= k < |s| - from
      ensures s[from..][k] != '?'
    {
      assert s[from..][k] == s[from + k];
    }
  }


  /**
   * The evident intent of `renderSQLQuery`: splice the escaped value in at the match
   * itself and continue after it, which substitutes every mark in order whatever the
   * escaped values contain.
   */
  method RenderSQLQuerySpliced(escape: Value -> string, sql: Option<string>, values: Option<seq<Value>>) returns (r: string)
    ensures r == Substitute(escape, SqlText(sql), ValueList(values))
  {
    var s := SqlText(sql);
    var vs := ValueList(values);
    var lastIndex: nat := 0;
    var index := 0;
    var found := FindMark(s, lastIndex);
    assert s[..0] + s[0..] == s && vs[0..] == vs;
    while found.Some? && index < |vs|
      invariant index <= |vs| && lastIndex <= |s|
      invariant found == FindMark(s, lastIndex)
      invariant Substitute(escape, SqlText(sql), vs) == s[..lastIndex] + Substitute(escape, s[lastIndex..], vs[index..])
      decreases |vs| - index
    {
      var m := found.value;
      var escaped := escape(vs[index]);
      SpliceStep(escape, s, vs, lastIndex, index, m);
      s := s[..m] + escaped + s[m + 1..];
      lastIndex := m + |escaped|;
      index := index + 1;
      found := FindMark(s, lastIndex);
    }
    SpliceDone(escape, s, vs, lastIndex, index);
    r := s;
  }

  /** How the mysql library quotes a string value, used to exhibit the loop on concrete input. */
  function QuoteString(v: Value): string
  {
    match v
    case Str(t) => "'" + t + "'"
    case _ => "NULL"
  }

  /** Two rounds of the loop as written, each replacing a mark, and then no mark left to find. */
  lemma ReplayTwoRounds(escape: Value -> string, s0: string, s1: string, s2: string, vs: seq<Value>, m0: nat, m1: nat)
    requires |escape(Undefined)| > 0 && |vs| == 2
    requires FindMark(s0, 0) == Some(m0) && s1 == ReplaceFirst(s0, escape(vs[0]))
    requires FindMark(s1, m0 + |escape(vs[0])|) == Some(m1) && s2 == ReplaceFirst(s1, escape(vs[1]))
    requires FindMark(s2, m1 + |escape(vs[1])|).None?
    ensures Replay(escape, s0, vs, 0, 0) == s2
  {
    var i1, i2 := m0 + |escape(vs[0])|, m1 + |escape(vs[1])|;
    ReplayReplacesInto(escape, s0, vs, 0, 0, m0, s1, i1);
    ReplayReplacesInto(escape, s1, vs, i1, 1, m1, s2, i2);
    assert Replay(escape, s2, vs, i2, 2) == s2;
  }

  /** The two replacements of the example below: the first value, which holds a `?`, goes in first. */
  lemma MisplacedRounds(s0: string, e0: string, s1: string, e1: string, s2: string)
    requires s0 == "? ?" && e0 == "'a?'" && s1 == "'a?' ?" && e1 == "'b'" && s2 == "'a'b'' ?"
    ensures ReplaceFirst(s0, e0) == s1 && ReplaceFirst(s1, e1) == s2
  {
    FindMarkFirst(s0, 0, 0);
    ReplaceFirstAt(s0, e0, 0);
    assert s0[..0] == "" && s0[1..] == " ?";
    assert '$' !in e0;
    FindMarkFirst(s1, 0, 2);
    ReplaceFirstAt(s1, e1, 2);
    assert s1[..2] == "'a" && s1[3..] == "' ?";
    assert '$' !in e1;
  }

  /** The intended result of the example below. */
  lemma MisplacedIntended()
    ensures Substitute(QuoteString, "? ?", [Str("a?"), Str("b")]) == "'a?' 'b'"
  {
    var vs := [Str("a?"), Str("b")];
    assert vs[1..] == [Str("b")] && vs[1..][1..] == [];
    assert Substitute(QuoteString, "", []) == "";
    assert Substitute(QuoteString, "?", vs[1..]) == "'b'" + Substitute(QuoteString, "", []);
    assert Substitute(QuoteString, " ?", vs[1..]) == " " + Substitute(QuoteString, "?", vs[1..]);
    assert Substitute(QuoteString, "? ?", vs) == "'a?'" + Substitute(QuoteString, " ?", vs[1..]);
  }

  /** The loop as written on the example below, with the texts held in variables. */
  lemma MisplacedRun(sql: string, first: string, second: string, vs: seq<Value>)
    requires sql == "? ?" && first == "'a?' ?" && second == "'a'b'' ?" && vs == [Str("a?"), Str("b")]
    ensures Replay(QuoteString, sql, vs, 0, 0) == second
  {
    var e0, e1 := QuoteString(vs[0]), QuoteString(vs[1]);
    assert e0 == "'a?'" && e1 == "'b'";
    MisplacedRounds(sql, e0, first, e1, second);
    FindMarkFirst(sql, 0, 0);
    FindMarkFirst(first, 4, 5);
    assert |second| == 8;
    ReplayTwoRounds(QuoteString, sql, first, second, vs, 0, 5);
  }

  /** A `?` inside an escaped value is taken for the next mark: the second value lands inside the first. */
  lemma MarkInValueMisplaced()
    ensures Substitute(QuoteString, "? ?", [Str("a?"), Str("b")]) == "'a?' 'b'"
    ensures Replay(QuoteString, "? ?", [Str("a?"), Str("b")], 0, 0) == "'a'b'' ?"
  {
    MisplacedIntended();
    MisplacedRun("? ?", "'a?' ?", "'a'b'' ?", [Str("a?"), Str("b")]);
  }

  /** A `$&` inside an escaped value is expanded by `replace` into the matched `?`. */
  lemma DollarPatternInValueExpanded()
    ensures Substitute(QuoteString, "?", [Str("$&")]) == "'$&'"
    ensures Replay(QuoteString, "?", [Str("$&")], 0, 0) == "'?'"
  {
    var vs := [Str("$&")];
    assert Substitute(QuoteString, "?", vs) == "'$&'" + Substitute(QuoteString, "", vs[1..]);
    assert FindMark("?", 0) == Some(0);
    assert Expand("'", "", "") == "'";
    assert Expand("$&'", "", "") == "?" + Expand("'", "", "");
    assert Expand("'$&'", "", "") == "'?'";
    ReplaceFirstAt("?", "'$&'", 0);
    assert ReplaceFirst("?", "'$&'") == "'?'";
    assert FindMark("'?'", 4) == None;
  }

  // ---------------------------------------------------------------------------
  // Table locks

  /** `_lockModes`: the lock types `lock` accepts and the MySQL lock mode each stands for. */
  const LockModes: map<string, string> := map["LOCK_READ" := "READ", "LOCK_WRITE" := "WRITE", "LOCK_EXCLUSIVE" := "WRITE"]

  /** Every accepted lock type maps to one of MySQL's two table lock modes. */
  lemma LockModesAreMySQLModes(lockType: string)
    requires lockType in LockModes
    ensures LockModes[lockType] == "READ" <==> lockType == "LOCK_READ"
    ensures LockModes[lockType] == "WRITE" <==> lockType in {"LOCK_WRITE", "LOCK_EXCLUSIVE"}
  {
  }

  /** What `lock` does before the query resolves: the error it reports at once, and the statement it issues. */
  datatype LockRequest = LockRequest(earlyError: Option<string>, statement: string)

  /** The statement `LOCK TABLES <target> <mode>;`, and where its parts lie. */
  function LockStatement(target: string, mode: string): (s: string)
    ensures |s| == 12 + |target| + 1 + |mode| + 1
    ensures s[..12] == "LOCK TABLES "
    ensures s[12..|s| - 1] == target + " " + mode
    ensures s[|s| - |mode| - 2..] == " " + mode + ";"
  {
    var prefix := "LOCK TABLES ";
    var s := prefix + (target + " " + mode) + ";";
    assert s[..12] == prefix;
    assert s[12..|s| - 1] == target + " " + mode;
    assert s[|s| - |mode| - 2..] == " " + mode + ";";
    s
  }

  /** `this._lockModes[lockType]`, which is `undefined` for a type the table does not hold. */
  function LockMode(lockType: string): (mode: string)
    ensures lockType in LockModes ==> mode == LockModes[lockType]
    ensures lockType !in LockModes ==> mode == "undefined"
  {
    if lockType in LockModes then LockModes[lockType] else "undefined"
  }

  /** `lock(schema, table, lockType)`: the statement is built and issued even when the lock type was rejected. */
  function Lock(escapeId: string -> string, schema: Option<string>, table: string, lockType: string): (r: LockRequest)
    ensures r.earlyError.Some? <==> lockType !in LockModes
    ensures r.earlyError.Some? ==> r.earlyError.value == "Invalid or not supported lock mode «" + lockType + "»!"
    ensures |r.statement| > 12 + |LockMode(lockType)|
    ensures r.statement[..12] == "LOCK TABLES "
    ensures r.statement[|r.statement| - |LockMode(lockType)| - 2..] == " " + LockMode(lockType) + ";"
    ensures !Present(schema) ==> r.statement[12..|r.statement| - 1] == escapeId(table) + " " + LockMode(lockType)
    ensures Present(schema) ==>
      r.statement[12..|r.statement| - 1] == escapeId(schema.value) + "." + escapeId(table) + " " + LockMode(lockType)
  {
    var target := if Present(schema) then escapeId(schema.value) + "." + escapeId(table) else escapeId(table);
    LockRequest(if lockType in LockModes then None else Some("Invalid or not supported lock mode «" + lockType + "»!"),
                LockStatement(target, LockMode(lockType)))
  }

  /** An exclusive lock is issued exactly as a write lock. */
  lemma ExclusiveLockIsWriteLock(escapeId: string -> string, schema: Option<string>, table: string)
    ensures Lock(escapeId, schema, table, "LOCK_EXCLUSIVE") == Lock(escapeId, schema, table, "LOCK_WRITE")
  {
  }

  // ---------------------------------------------------------------------------
  // Query results

  /** An error the driver reports, with its `code`. */
  datatype DriverError = DriverError(code: Option<string>, message: string)

  /** What `executeQuery` rejects with. */
  datatype QueryError = DuplicateKeyError(cause: DriverError) | Failed(error: DriverError)

  /** What the driver hands back: result rows, a write result object, or anything else. */
  datatype Data =
    | Rows(rows: seq<Value>)
    | Packet(affectedRows: Option<int>, insertId: Value)
    | OtherData(v: Value)

  /** What `executeQuery` resolves with: the data itself or an insert id. */
  datatype Resolution = AsData(data: Data) | AsInsertId(id: Value)

  datatype Outcome = Rejected(error: QueryError) | Resolved(value: Resolution)

  /** The callback of `executeQuery`: error remapping, then the choice of the resolved value. */
  function Classify(err: Option<DriverError>, data: Data, ast: bool): (r: Outcome)
    ensures r.Rejected? <==> err.Some?
    ensures err.Some? && err.value.code == Some("ER_DUP_ENTRY") ==> r == Rejected(DuplicateKeyError(err.value))
    ensures err.Some? && err.value.code != Some("ER_DUP_ENTRY") ==> r == Rejected(Failed(err.value))
    ensures r.Resolved? && r.value.AsInsertId? <==> err.None? && !ast && data.Packet? && data.affectedRows.Some?
    ensures r.Resolved? && r.value.AsData? ==> r.value.data == data
  {
    if err.Some? then
      if err.value.code == Some("ER_DUP_ENTRY") then Rejected(DuplicateKeyError(err.value))
      else Rejected(Failed(err.value))
    else if ast then Resolved(AsData(data))
    else if data.Packet? && data.affectedRows.Some? then
      Resolved(AsInsertId(if Truthy(data.insertId) then data.insertId else Null))
    else Resolved(AsData(data))
  }

  /** A write result resolves to its insert id when that is truthy and to null otherwise, never to another falsy value. */
  lemma InsertIdOrNull(data: Data)
    requires data.Packet? && data.affectedRows.Some?
    ensures Truthy(data.insertId) ==> Classify(None, data, false) == Resolved(AsInsertId(data.insertId))
    ensures !Truthy(data.insertId) ==> Classify(None, data, false) == Resolved(AsInsertId(Null))
    ensures var r := Classify(None, data, false);
      r == Resolved(AsInsertId(data.insertId)) <==> Truthy(data.insertId) || data.insertId == Null
  {
  }
}
