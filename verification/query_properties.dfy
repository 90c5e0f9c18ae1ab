/**
 * What the query builder of lib/MySQLConnection.js guarantees about its parameter
 * table and its output, stated over the functions of QueryModel.
 *
 * The central invariant is parameter hygiene: rendering never removes a name, never
 * overwrites a slot that holds a truthy value, and only ever stores values that occur
 * in the filter tree. When every value involved is truthy, each binding takes a new
 * name, so the table is the old one plus every leaf value, in order, under names of
 * their own. With falsy values
 * the JavaScript re-uses slots; FalsyValuesCollide shows the consequence.
 */
module QueryProperties {
  import opened Js
  import opened QueryModel

  // ---------------------------------------------------------------------------
  // The values a compilation binds, in the order it binds them

  function FilterBindings(f: Filter): seq<Value>
    decreases f
  {
    match f
    case Arr(items) => ItemsBindings(items)
    case Obj(entries) => EntriesBindings(entries)
    case Scalar(v) => [v]
    case Cmd(c) => CommandBindings(c)
    case Other(_) => []
  }

  function ItemsBindings(xs: seq<Filter>): seq<Value>
    decreases xs
  {
    if xs == [] then [] else FilterBindings(xs[0]) + ItemsBindings(xs[1..])
  }

  function EntriesBindings(es: seq<(string, Filter)>): seq<Value>
    decreases es
  {
    if es == [] then []
    else
      var e := es[0];
      assert e.1 < e;
      FilterBindings(e.1) + EntriesBindings(es[1..])
  }

  function CommandBindings(c: Command): seq<Value>
    decreases c
  {
    if Present(c.operator) then
      if c.query.Some? then
        assert c.query.value < c.query;
        QueryBindings(c.query.value)
      else [c.value]
    else []
  }

  function QueryBindings(q: Query): seq<Value>
    decreases q
  {
    SelectBindings(q.select) + (if FalsyFilter(q.filter) then [] else FilterBindings(q.filter))
  }

  function SelectBindings(xs: seq<SelectItem>): seq<Value>
    decreases xs
  {
    if xs == [] then []
    else
      var item := xs[0];
      match item
      case Subquery(q) => assert q < item; QueryBindings(q) + SelectBindings(xs[1..])
      case _ => SelectBindings(xs[1..])
  }

  // ---------------------------------------------------------------------------
  // Parameter hygiene

  /**
   * `q` is `p` after bindings of values from `vals`: no name disappears, no truthy
   * slot changes, and every new or changed slot holds one of `vals`.
   */
  ghost predicate Extends(p: Params, q: Params, vals: seq<Value>)
  {
    && p.Keys <= q.Keys
    && (forall k | k in p && Truthy(p[k]) :: q[k] == p[k])
    && (forall k | k in q && (k !in p || q[k] != p[k]) :: q[k] in vals)
  }

  ghost predicate AllTruthy(p: Params)
  {
    forall k | k in p :: Truthy(p[k])
  }

  ghost predicate AllTruthyValues(vals: seq<Value>)
  {
    forall v | v in vals :: Truthy(v)
  }

  /** The names listed in `ids`. */
  ghost function NameSet(ids: seq<string>): set<string>
  {
    set i | 0 <= i < |ids| :: ids[i]
  }

  /**
   * `q` is `p` with `vals[i]` stored under `ids[i]`, where the names are new to `p` and
   * pairwise distinct: every value is bound, in order, under a name of its own, and
   * nothing else changes.
   */
  ghost predicate BoundUnder(p: Params, q: Params, ids: seq<string>, vals: seq<Value>)
  {
    && |ids| == |vals|
    && (forall i | 0 <= i < |ids| :: ids[i] !in p)
    && (forall i, j | 0 <= i < j < |ids| :: ids[i] != ids[j])
    && q.Keys == p.Keys + NameSet(ids)
    && (forall i | 0 <= i < |ids| :: ids[i] in q && q[ids[i]] == vals[i])
    && (forall k | k in p :: q[k] == p[k])
  }

  /**
   * The hygiene a render from `p` to `q` keeps while binding `vals`; when it succeeded
   * and every value is truthy, each value of `vals` is in the table, in order, under a
   * fresh name of its own.
   */
  ghost predicate Hygienic(p: Params, ok: bool, q: Params, vals: seq<Value>)
  {
    && Extends(p, q, vals)
    && (ok && AllTruthy(p) && AllTruthyValues(vals) ==>
          && AllTruthy(q) && |q| == |p| + |vals|
          && exists ids :: BoundUnder(p, q, ids, vals))
  }

  lemma NameSetConcat(ids1: seq<string>, ids2: seq<string>)
    ensures NameSet(ids1 + ids2) == NameSet(ids1) + NameSet(ids2)
  {
    var ids := ids1 + ids2;
    forall x | x in NameSet(ids1) ensures x in NameSet(ids) {
      var i :| 0 <= i < |ids1| && ids1[i] == x;
      assert ids[i] == x;
    }
    forall x | x in NameSet(ids2) ensures x in NameSet(ids) {
      var i :| 0 <= i < |ids2| && ids2[i] == x;
      assert ids[|ids1| + i] == x;
    }
  }

  /** Names fresh for `p` followed by names fresh for a table holding the first ones are all distinct. */
  lemma FreshConcat(p: Params, q: Params, ids1: seq<string>, ids2: seq<string>)
    requires forall i | 0 <= i < |ids1| :: ids1[i] !in p
    requires forall i, j | 0 <= i < j < |ids1| :: ids1[i] != ids1[j]
    requires forall i | 0 <= i < |ids2| :: ids2[i] !in q
    requires forall i, j | 0 <= i < j < |ids2| :: ids2[i] != ids2[j]
    requires p.Keys <= q.Keys && NameSet(ids1) <= q.Keys
    ensures forall i | 0 <= i < |ids1 + ids2| :: (ids1 + ids2)[i] !in p
    ensures forall i, j | 0 <= i < j < |ids1 + ids2| :: (ids1 + ids2)[i] != (ids1 + ids2)[j]
  {
    var ids, n := ids1 + ids2, |ids1|;
    forall i, j | 0 <= i < j < |ids|
      ensures ids[i] != ids[j]
    {
      if j < n {
        assert ids[i] == ids1[i] && ids[j] == ids1[j];
      } else if n <= i {
        assert ids[i] == ids2[i - n] && ids[j] == ids2[j - n];
      } else {
        assert ids[i] == ids1[i] && ids1[i] in NameSet(ids1);
        assert ids[j] == ids2[j - n];
      }
    }
    forall i | 0 <= i < |ids|
      ensures ids[i] !in p
    {
      if i >= n {
        assert ids[i] == ids2[i - n];
      }
    }
  }

  /** Two rounds of fresh bindings are one round binding both lists in order. */
  lemma BoundUnderJoin(p: Params, q: Params, r: Params, ids1: seq<string>, ids2: seq<string>, a: seq<Value>, b: seq<Value>)
    requires BoundUnder(p, q, ids1, a) && BoundUnder(q, r, ids2, b)
    ensures BoundUnder(p, r, ids1 + ids2, a + b)
  {
    var ids, n := ids1 + ids2, |ids1|;
    NameSetConcat(ids1, ids2);
    FreshConcat(p, q, ids1, ids2);
    forall i | 0 <= i < |ids|
      ensures ids[i] in r && r[ids[i]] == (a + b)[i]
    {
      if i < n {
        assert ids[i] == ids1[i] && (a + b)[i] == a[i];
        assert r[ids1[i]] == q[ids1[i]];
      } else {
        assert ids[i] == ids2[i - n] && (a + b)[i] == b[i - n];
      }
    }
  }

  /** Rendering nothing keeps the hygiene: no value is bound. */
  lemma HygienicSame(p: Params, ok: bool)
    ensures Hygienic(p, ok, p, [])
  {
    assert BoundUnder(p, p, [], []) by {
      assert NameSet([]) == {};
    }
  }

  /** A successful render followed by another keeps the hygiene of both, their values in order. */
  lemma HygienicTrans(p: Params, q: Params, r: Params, ok: bool, a: seq<Value>, b: seq<Value>)
    requires Hygienic(p, true, q, a) && Hygienic(q, ok, r, b)
    ensures Hygienic(p, ok, r, a + b)
  {
    ExtendsTrans(p, q, r, a, b);
    if ok && AllTruthy(p) && AllTruthyValues(a + b) {
      assert AllTruthyValues(a) && AllTruthyValues(b) by {
        forall v | v in a ensures Truthy(v) { assert v in a + b; }
        forall v | v in b ensures Truthy(v) { assert v in a + b; }
      }
      var ids1 :| BoundUnder(p, q, ids1, a);
      var ids2 :| BoundUnder(q, r, ids2, b);
      BoundUnderJoin(p, q, r, ids1, ids2, a, b);
    }
  }

  lemma ExtendsSame(p: Params, vals: seq<Value>)
    ensures Extends(p, p, vals)
  {
  }

  lemma ExtendsTrans(p: Params, q: Params, r: Params, a: seq<Value>, b: seq<Value>)
    requires Extends(p, q, a) && Extends(q, r, b)
    ensures Extends(p, r, a + b)
  {
    forall k | k in r && (k !in p || r[k] != p[k])
      ensures r[k] in a + b
    {
      if k in q && r[k] == q[k] {
        assert q[k] in a;
      } else {
        assert r[k] in b;
      }
    }
  }

  lemma ExtendsWiden(p: Params, q: Params, a: seq<Value>, b: seq<Value>)
    requires Extends(p, q, a)
    ensures Extends(p, q, a + b)
  {
  }

  /** Nothing bound: the render stopped before any binding. */
  lemma NothingBound(p: Params, ok: bool, vals: seq<Value>)
    requires !ok
    ensures Hygienic(p, ok, p, vals)
  {
  }

  /** One binding into a free slot. */
  lemma BindHygiene(p: Params, id: string, v: Value)
    requires !Taken(p, id)
    ensures Hygienic(p, true, p[id := v], [v])
  {
    if AllTruthy(p) && Truthy(v) {
      assert id !in p;
      assert NameSet([id]) == {id} by {
        assert [id][0] == id;
        assert id in NameSet([id]);
      }
      assert p[id := v].Keys == p.Keys + NameSet([id]);
      assert BoundUnder(p, p[id := v], [id], [v]);
    }
  }

  lemma {:induction false} FilterHygiene(esc: string -> string, p: Params, f: Filter, property: Option<string>, entity: Option<string>)
    ensures var r := RenderFilter(esc, p, f, property, entity);
            Hygienic(p, r.out.Ok?, r.params, FilterBindings(f))
    decreases f
  {
    match f
    case Arr(items) => ItemsHygiene(esc, p, items, ArrayChildProperty(property, entity));
    case Obj(entries) => EntriesHygiene(esc, p, entries, property);
    case Scalar(v) =>
      var id := ParameterNameFor(p, property);
      if id.Some? { BindHygiene(p, id.value, v); } else { NothingBound(p, false, [v]); }
    case Cmd(c) => CommandHygiene(esc, p, property, c);
    case Other(_) => ExtendsSame(p, []);
  }

  lemma {:induction false} ItemsHygiene(esc: string -> string, p: Params, xs: seq<Filter>, property: Option<string>)
    ensures var r := RenderItems(esc, p, xs, property);
            Hygienic(p, r.out.Ok?, r.params, ItemsBindings(xs))
    decreases xs
  {
    if xs == [] {
      HygienicSame(p, true);
    } else {
      var first := RenderFilter(esc, p, xs[0], property, None);
      FilterHygiene(esc, p, xs[0], property, None);
      if first.out.Err? {
        ExtendsWiden(p, first.params, FilterBindings(xs[0]), ItemsBindings(xs[1..]));
      } else {
        var rest := RenderItems(esc, first.params, xs[1..], property);
        ItemsHygiene(esc, first.params, xs[1..], property);
        HygienicTrans(p, first.params, rest.params, rest.out.Ok?, FilterBindings(xs[0]), ItemsBindings(xs[1..]));
      }
    }
  }

  lemma {:induction false} EntriesHygiene(esc: string -> string, p: Params, es: seq<(string, Filter)>, property: Option<string>)
    ensures var r := RenderEntries(esc, p, es, property);
            Hygienic(p, r.out.Ok?, r.params, EntriesBindings(es))
    decreases es
  {
    if es == [] {
      HygienicSame(p, true);
    } else {
      var e := es[0];
      assert e.1 < e;
      var first := RenderFilter(esc, p, e.1, Some(e.0), property);
      FilterHygiene(esc, p, e.1, Some(e.0), property);
      if first.out.Err? {
        ExtendsWiden(p, first.params, FilterBindings(e.1), EntriesBindings(es[1..]));
      } else {
        var rest := RenderEntries(esc, first.params, es[1..], property);
        EntriesHygiene(esc, first.params, es[1..], property);
        HygienicTrans(p, first.params, rest.params, rest.out.Ok?, FilterBindings(e.1), EntriesBindings(es[1..]));
      }
    }
  }

  lemma {:induction false} CommandHygiene(esc: string -> string, p: Params, property: Option<string>, c: Command)
    ensures var r := RenderCommand(esc, p, property, c);
            Hygienic(p, r.out.Ok?, r.params, CommandBindings(c))
    decreases c
  {
    if Present(c.operator) && c.operator.value in Operators {
      if c.query.Some? {
        assert c.query.value < c.query;
        QueryHygiene(esc, p, c.query.value);
        SubqueryCommandHygiene(esc, p, property, c);
      } else {
        ScalarCommandHygiene(esc, p, property, c);
      }
    } else {
      RejectedCommandHygiene(esc, p, property, c);
    }
  }

  /** A function command, or a command that throws, binds nothing. */
  lemma RejectedCommandHygiene(esc: string -> string, p: Params, property: Option<string>, c: Command)
    requires !(Present(c.operator) && c.operator.value in Operators)
    ensures var r := RenderCommand(esc, p, property, c);
            Hygienic(p, r.out.Ok?, r.params, CommandBindings(c))
  {
    assert RenderCommand(esc, p, property, c).params == p;
    if Present(c.operator) {
      ExtendsSame(p, CommandBindings(c));
    } else {
      HygienicSame(p, RenderCommand(esc, p, property, c).out.Ok?);
    }
  }

  /** A subquery comparison keeps the hygiene of its subquery. */
  lemma SubqueryCommandHygiene(esc: string -> string, p: Params, property: Option<string>, c: Command)
    requires Present(c.operator) && c.operator.value in Operators && c.query.Some?
    requires var sub := RenderQuery(esc, p, c.query.value);
             Hygienic(p, sub.out.Ok?, sub.params, QueryBindings(c.query.value))
    ensures var r := RenderCommand(esc, p, property, c);
            Hygienic(p, r.out.Ok?, r.params, CommandBindings(c))
  {
    var sub := RenderQuery(esc, p, c.query.value);
    var r := RenderCommand(esc, p, property, c);
    assert CommandBindings(c) == QueryBindings(c.query.value);
    if ParameterNameFor(p, property).Some? {
      assert r.params == sub.params && r.out.Ok? == sub.out.Ok?;
    } else {
      assert r == Rendered(Err(Diverges), p);
      NothingBound(p, false, CommandBindings(c));
    }
  }

  /** A scalar comparison binds its value into a free slot. */
  lemma ScalarCommandHygiene(esc: string -> string, p: Params, property: Option<string>, c: Command)
    requires Present(c.operator) && c.operator.value in Operators && c.query.None?
    ensures var r := RenderCommand(esc, p, property, c);
            Hygienic(p, r.out.Ok?, r.params, CommandBindings(c))
  {
    var id := ParameterNameFor(p, property);
    assert CommandBindings(c) == [c.value];
    if id.Some? {
      BindHygiene(p, id.value, c.value);
      assert RenderCommand(esc, p, property, c).params == p[id.value := c.value];
    } else {
      assert RenderCommand(esc, p, property, c) == Rendered(Err(Diverges), p);
      NothingBound(p, false, [c.value]);
    }
  }


  lemma {:induction false} QueryHygiene(esc: string -> string, p: Params, q: Query)
    ensures var r := RenderQuery(esc, p, q);
            Hygienic(p, r.out.Ok?, r.params, QueryBindings(q))
    decreases q
  {
    var sel := RenderSelect(esc, p, q.select);
    SelectHygiene(esc, p, q.select);
    var whereBindings := if FalsyFilter(q.filter) then [] else FilterBindings(q.filter);
    if sel.out.Err? {
      ExtendsWiden(p, sel.params, SelectBindings(q.select), whereBindings);
    } else if FalsyFilter(q.filter) {
      HygienicSame(sel.params, true);
      HygienicTrans(p, sel.params, sel.params, true, SelectBindings(q.select), []);
    } else {
      var where := RenderFilter(esc, sel.params, q.filter, None, None);
      FilterHygiene(esc, sel.params, q.filter, None, None);
      HygienicTrans(p, sel.params, where.params, where.out.Ok?, SelectBindings(q.select), whereBindings);
    }
  }

  lemma {:induction false} SelectHygiene(esc: string -> string, p: Params, xs: seq<SelectItem>)
    ensures var r := RenderSelect(esc, p, xs);
            Hygienic(p, r.out.Ok?, r.params, SelectBindings(xs))
    decreases xs
  {
    if xs == [] {
      HygienicSame(p, true);
    } else {
      var item := xs[0];
      match item
      case Column(_) => SelectHygiene(esc, p, xs[1..]);
      case Skipped => SelectHygiene(esc, p, xs[1..]);
      case Subquery(q) =>
        assert q < item;
        var sub := RenderQuery(esc, p, q);
        QueryHygiene(esc, p, q);
        if sub.out.Err? {
          ExtendsWiden(p, sub.params, QueryBindings(q), SelectBindings(xs[1..]));
        } else {
          var rest := RenderSelect(esc, sub.params, xs[1..]);
          SelectHygiene(esc, sub.params, xs[1..]);
          HygienicTrans(p, sub.params, rest.params, rest.out.Ok?, QueryBindings(q), SelectBindings(xs[1..]));
        }
    }
  }

  /**
   * `_render` on a caller's table: existing truthy bindings survive, every new or
   * changed slot holds a value of the query, and with truthy values only each leaf
   * value of the query is in the table, in order, under a fresh name of its own.
   */
  lemma RenderHygiene(esc: string -> string, p: Params, q: Query)
    ensures var r := Render(esc, Some(p), Some(q));
            && p.Keys <= r.params.Keys
            && (forall k | k in p && Truthy(p[k]) :: r.params[k] == p[k])
            && (forall k | k in r.params && (k !in p || r.params[k] != p[k]) :: r.params[k] in QueryBindings(q))
            && (r.out.Ok? && AllTruthy(p) && AllTruthyValues(QueryBindings(q)) ==>
                  && |r.params| == |p| + |QueryBindings(q)|
                  && exists ids :: BoundUnder(p, r.params, ids, QueryBindings(q)))
  {
    QueryHygiene(esc, p, q);
  }

  // ---------------------------------------------------------------------------
  // Shapes of the output

  /** No select items and no filter: `SELECT 1 FROM <table> WHERE 1`, nothing bound. */
  lemma EmptyQueryRendersTrue(esc: string -> string, p: Params, from: Option<string>)
    ensures Render(esc, Some(p), Some(Query([], from, Obj([]))))
         == Rendered(Ok(" SELECT " + "1" + " FROM " + esc(Stringify(Or(from, Some("undefined")))) + " WHERE " + "1"), p)
    ensures Render(esc, None, None) == Rendered(Ok(" SELECT " + "1" + " FROM " + esc("undefined") + " WHERE " + "1"), map[])
  {
    assert RenderSelect(esc, p, []) == Rendered(Ok([]), p);
    assert RenderEntries(esc, p, [], None) == Rendered(Ok([]), p);
    assert RenderFilter(esc, p, Obj([]), None, None) == Rendered(Ok(""), p);
    assert RenderSelect(esc, map[], []) == Rendered(Ok([]), map[]);
  }

  /**
   * An object with one scalar member: the key becomes the property, the enclosing
   * property becomes the entity (or 'na'), the single child is not parenthesised, and
   * exactly one parameter named after the key is bound.
   */
  lemma ObjectScalarMember(esc: string -> string, p: Params, key: string, v: Value, property: Option<string>, entity: Option<string>)
    ensures var id := ParameterName(p, key);
            (RenderFilter(esc, p, Obj([(key, Scalar(v))]), property, entity)
             == Rendered(Ok(esc(Stringify(Or(property, Some("na")))) + "." + esc(key) + " = ?" + id), p[id := v]))
  {
    assert [(key, Scalar(v))][1..] == [];
    var id := ParameterName(p, key);
    var leaf := RenderFilter(esc, p, Scalar(v), Some(key), property);
    assert leaf == Rendered(Ok(esc(Stringify(Or(property, Some("na")))) + "." + esc(key) + " = ?" + id), p[id := v]);
    assert RenderEntries(esc, leaf.params, [], property) == Rendered(Ok([]), leaf.params);
  }

  /** A scalar in an array under `key`: `na`.`key` = ?id, bound under the next free name. */
  lemma ScalarUnderKey(esc: string -> string, p: Params, key: string, v: Value)
    ensures var id := ParameterName(p, key);
            RenderFilter(esc, p, Scalar(v), Some(key), None)
            == Rendered(Ok(esc("na") + "." + esc(key) + " = ?" + id), p[id := v])
  {
  }

  /** A single array child rendered on its own. */
  lemma OneItem(esc: string -> string, p: Params, y: Filter, property: Option<string>)
    ensures var only := RenderFilter(esc, p, y, property, None);
            only.out.Ok? ==> RenderItems(esc, p, [y], property) == Rendered(Ok([only.out.value]), only.params)
  {
    var only := RenderFilter(esc, p, y, property, None);
    assert [y][0] == y && [y][1..] == [];
    assert RenderItems(esc, only.params, [], property) == Rendered(Ok([]), only.params);
    if only.out.Ok? {
      assert [only.out.value] + [] == [only.out.value];
    }
  }

  /** Two array children rendered one after the other into the same table. */
  lemma TwoItems(esc: string -> string, p: Params, x: Filter, y: Filter, property: Option<string>)
    requires RenderFilter(esc, p, x, property, None).out.Ok?
    ensures var first := RenderFilter(esc, p, x, property, None);
            var second := RenderFilter(esc, first.params, y, property, None);
            second.out.Ok? ==>
              RenderItems(esc, p, [x, y], property) == Rendered(Ok([first.out.value, second.out.value]), second.params)
  {
    var first := RenderFilter(esc, p, x, property, None);
    var second := RenderFilter(esc, first.params, y, property, None);
    assert [x, y][0] == x && [x, y][1..] == [y];
    OneItem(esc, first.params, y, property);
    if second.out.Ok? {
      assert [first.out.value] + [second.out.value] == [first.out.value, second.out.value];
    }
  }


  /** An object with a single member is rendered as that member alone. */
  lemma SingleMember(esc: string -> string, p: Params, key: string, f: Filter, property: Option<string>, entity: Option<string>)
    ensures var member := RenderFilter(esc, p, f, Some(key), property);
            RenderFilter(esc, p, Obj([(key, f)]), property, entity) == member
  {
    var member := RenderFilter(esc, p, f, Some(key), property);
    assert [(key, f)][0] == (key, f) && [(key, f)][1..] == [];
    assert RenderEntries(esc, member.params, [], property) == Rendered(Ok([]), member.params);
  }

  /**
   * An array of two scalars under one key: both comparisons use the key as column and
   * 'na' as table, are OR-ed in parentheses, and each binds under the name
   * `_getParameterName` picks at that moment.
   */
  lemma ArrayOfTwoUnderKey(esc: string -> string, p: Params, key: string, a: Value, b: Value)
    requires key != ""
    ensures var col := esc("na") + "." + esc(key);
            var id0 := ParameterName(p, key);
            var id1 := ParameterName(p[id0 := a], key);
            (RenderFilter(esc, p, Obj([(key, Arr([Scalar(a), Scalar(b)]))]), None, None)
             == Rendered(Ok("(" + ((col + " = ?" + id0) + " OR " + (col + " = ?" + id1)) + ")"), p[id0 := a][id1 := b]))
  {
    var col := esc("na") + "." + esc(key);
    var id0 := ParameterName(p, key);
    var p1 := p[id0 := a];
    var id1 := ParameterName(p1, key);
    var c0, c1 := col + " = ?" + id0, col + " = ?" + id1;
    ScalarUnderKey(esc, p, key, a);
    ScalarUnderKey(esc, p1, key, b);
    TwoItems(esc, p, Scalar(a), Scalar(b), Some(key));
    assert Join([c0, c1], " OR ") == c0 + " OR " + c1 by {
      assert [c0, c1][1..] == [c1];
    }
    assert ArrayChildProperty(Some(key), None) == Some(key);
    assert RenderFilter(esc, p, Arr([Scalar(a), Scalar(b)]), Some(key), None)
        == Rendered(Ok("(" + (c0 + " OR " + c1) + ")"), p1[id1 := b]);
    SingleMember(esc, p, key, Arr([Scalar(a), Scalar(b)]), None, None);
  }

  /** Two truthy values under one key bind under `key0` and `key1`. */
  lemma TruthyValuesGetDistinctNames(esc: string -> string, key: string, a: Value, b: Value)
    requires key != "" && Truthy(a)
    ensures var col := esc("na") + "." + esc(key);
            var a0, a1 := Suffixed(key, 0), Suffixed(key, 1);
            && a0 != a1
            && (RenderFilter(esc, map[], Obj([(key, Arr([Scalar(a), Scalar(b)]))]), None, None)
                == Rendered(Ok("(" + ((col + " = ?" + a0) + " OR " + (col + " = ?" + a1)) + ")"), map[a0 := a, a1 := b]))
  {
    var a0, a1 := Suffixed(key, 0), Suffixed(key, 1);
    var p1: Params := map[a0 := a];
    assert ParameterName(map[], key) == a0;
    assert a1 != a0 by {
      if a1 == a0 { SuffixedInjective(key, 1, 0); }
    }
    assert ParameterName(p1, key) == a1 by {
      assert Taken(p1, Suffixed(key, 0));
      ParameterNameLeast(p1, key, 1);
    }
    ArrayOfTwoUnderKey(esc, map[], key, a, b);
  }

  /**
   * With a falsy first value the slot is handed out twice: both comparisons use the
   * same placeholder and the second value overwrites the first, so the table ends with
   * one entry although two values were bound.
   */
  lemma FalsyValuesCollide(esc: string -> string, key: string, b: Value)
    requires key != ""
    ensures var col := esc("na") + "." + esc(key);
            var a0 := Suffixed(key, 0);
            (RenderFilter(esc, map[], Obj([(key, Arr([Scalar(Num(0)), Scalar(b)]))]), None, None)
             == Rendered(Ok("(" + ((col + " = ?" + a0) + " OR " + (col + " = ?" + a0)) + ")"), map[a0 := b]))
  {
    var a0 := Suffixed(key, 0);
    var p1: Params := map[a0 := Num(0)];
    assert ParameterName(map[], key) == a0;
    FalsySlotReused(p1, key);
    assert p1[a0 := b] == map[a0 := b];
    ArrayOfTwoUnderKey(esc, map[], key, Num(0), b);
  }

  // ---------------------------------------------------------------------------
  // Commands

  /**
   * An unknown operator throws InvalidOperatorError and binds nothing. The parameter
   * name is chosen first, so for an undefined property whose "NaN" slot is taken the
   * call never reaches the check.
   */
  lemma UnknownOperatorBindsNothing(esc: string -> string, p: Params, property: Option<string>, c: Command)
    requires Present(c.operator) && c.operator.value !in Operators
    ensures var r := RenderFilter(esc, p, Cmd(c), property, None);
            && r.params == p
            && (property.Some? || !Taken(p, "NaN") ==> r.out == Err(UnknownOperator(c.operator.value)))
            && (property.None? && Taken(p, "NaN") ==> r.out == Err(Diverges))
    ensures ErrorName(UnknownOperator(c.operator.value)) == "InvalidOperatorError"
  {
  }

  /**
   * A scalar comparison binds the command's value under a fresh name and emits
   * `column op ?name`. For an undefined property the name is "NaN", and the call never
   * returns once that slot is taken.
   */
  lemma ScalarCommand(esc: string -> string, p: Params, property: Option<string>, op: string, fn: Option<string>, v: Value)
    requires op in Operators
    ensures var r := RenderCommand(esc, p, property, Command(Some(op), fn, None, v));
            && (property.Some? ==>
                  var id := ParameterName(p, property.value);
                  r == Rendered(Ok(esc(property.value) + Operators[op] + "?" + id), p[id := v]) && !Taken(p, id))
            && (property.None? && !Taken(p, "NaN") ==>
                  r == Rendered(Ok(esc("undefined") + Operators[op] + "?" + "NaN"), p["NaN" := v]))
            && (property.None? && Taken(p, "NaN") ==> r == Rendered(Err(Diverges), p))
  {
  }

  /**
   * A scalar filter without a property, as at the top of a `where` tree: its column is
   * `undefined`, its placeholder `?NaN`, and it binds the slot "NaN", unless that slot
   * is already taken, when `_getParameterName` never returns.
   */
  lemma UndefinedPropertyBindsNaN(esc: string -> string, p: Params, v: Value, entity: Option<string>)
    ensures var r := RenderFilter(esc, p, Scalar(v), None, entity);
            && (!Taken(p, "NaN") ==>
                  r == Rendered(Ok(esc(Stringify(Or(entity, Some("na")))) + "." + esc("undefined") + " = ?" + "NaN"), p["NaN" := v]))
            && (Taken(p, "NaN") ==> r == Rendered(Err(Diverges), p))
  {
  }

  /**
   * A top-level array of two scalars whose first value is truthy never finishes: the
   * first binds "NaN", and the second then finds every key `undefined + i` taken.
   */
  lemma TopLevelScalarsDiverge(esc: string -> string, a: Value, b: Value)
    requires Truthy(a)
    ensures RenderFilter(esc, map[], Arr([Scalar(a), Scalar(b)]), None, None) == Rendered(Err(Diverges), map["NaN" := a])
  {
    UndefinedPropertyBindsNaN(esc, map[], a, None);
    UndefinedPropertyBindsNaN(esc, map["NaN" := a], b, None);
    var xs := [Scalar(a), Scalar(b)];
    assert xs[0] == Scalar(a) && xs[1..] == [Scalar(b)] && xs[1..][0] == Scalar(b);
    assert ArrayChildProperty(None, None) == None;
    assert RenderItems(esc, map["NaN" := a], xs[1..], None) == Rendered(Err(Diverges), map["NaN" := a]);
  }

  /**
   * A subquery comparison binds nothing of its own: its table is exactly the one the
   * subquery leaves, rendered into the same shared table, and its text embeds the
   * subquery's SQL. A parameter name is still chosen first, so an undefined property
   * whose "NaN" slot is taken never gets that far.
   */
  lemma SubqueryCommand(esc: string -> string, p: Params, property: Option<string>, op: string, fn: Option<string>, q: Query, v: Value)
    requires op in Operators
    ensures var sub := RenderQuery(esc, p, q);
            var r := RenderCommand(esc, p, property, Command(Some(op), fn, Some(q), v));
            && (property.Some? || !Taken(p, "NaN") ==>
                  && r.params == sub.params
                  && (sub.out.Ok? ==> r.out == Ok(esc(Stringify(property)) + " " + Operators[op] + " (" + sub.out.value + ")"))
                  && (sub.out.Err? ==> r.out == sub.out))
            && (property.None? && Taken(p, "NaN") ==> r == Rendered(Err(Diverges), p))
  {
  }

  /** A subquery in the select list binds into the shared table, but its text is lost. */
  lemma SubquerySelectLosesText(esc: string -> string, p: Params, q: Query)
    requires RenderQuery(esc, p, q).out.Ok?
    ensures RenderSelect(esc, p, [Subquery(q)]) == Rendered(Ok(["([object Object])"]), RenderQuery(esc, p, q).params)
  {
    var sub := RenderQuery(esc, p, q);
    assert [Subquery(q)][0] == Subquery(q) && [Subquery(q)][1..] == [];
    assert RenderSelect(esc, sub.params, []) == Rendered(Ok([]), sub.params);
    assert ["([object Object])"] + [] == ["([object Object])"];
  }

  /** `null` and `notNull` emit a null test and bind nothing; other names throw InvalidOperatorError. */
  lemma FunctionCommand(esc: string -> string, p: Params, property: Option<string>, fn: string, q: Option<Query>, v: Value)
    requires fn != ""
    ensures var r := RenderCommand(esc, p, property, Command(None, Some(fn), q, v));
            && r.params == p
            && (fn == "null" ==> r.out == Ok(esc(Stringify(property)) + " " + "is null"))
            && (fn == "notNull" ==> r.out == Ok(esc(Stringify(property)) + " " + "is not null"))
            && (fn != "null" && fn != "notNull" ==> r.out == Err(UnknownFunction(fn)))
  {
  }

  /** A command with neither an operator nor a function, and any unsupported shape, throw InvalidTypeException. */
  lemma InvalidShapes(esc: string -> string, p: Params, property: Option<string>, entity: Option<string>, c: Command, typeName: string)
    requires !Present(c.operator) && !Present(c.fn)
    ensures RenderFilter(esc, p, Cmd(c), property, entity) == Rendered(Err(UnknownCommand), p)
    ensures RenderFilter(esc, p, Other(typeName), property, entity) == Rendered(Err(UnknownType(typeName)), p)
    ensures ErrorName(UnknownCommand) == "InvalidTypeException" && ErrorName(UnknownType(typeName)) == "InvalidTypeException"
  {
  }
}
