/**
 * The query builder of lib/MySQLConnection.js as pure functions.
 *
 * The JavaScript walks a filter tree and writes every bound value into one shared
 * `parameters` object. Here that object is threaded through the functions as a map:
 * every renderer takes the table before the call and returns the table after it,
 * together with either the SQL text or the error the JavaScript throws. The table is
 * returned on the error path too, because bindings made before a throw stay in the
 * caller's object.
 *
 * The runtime dispatch on `type(filter)` becomes the closed datatype `Filter`;
 * `mysql.escapeId` is the function parameter `esc`, about which nothing is assumed.
 */
module QueryModel {
  import opened Js

  /** A filter tree node, by the shape `type(filter)` reports for it. */
  datatype Filter =
    | Arr(items: seq<Filter>)                 // an array: its children are OR-ed
    | Obj(entries: seq<(string, Filter)>)     // an object, in `Object.keys` order: AND-ed
    | Scalar(v: Value)                        // string, number, date, boolean, null, undefined
    | Cmd(command: Command)                   // a function; `command` is what calling it returns
    | Other(typeName: string)                 // any other shape (regexp, error, ...)

  /** The object a deferred command returns; an absent field is `None`. */
  datatype Command = Command(operator: Option<string>, fn: Option<string>, query: Option<Query>, value: Value)

  /** A query description: `select` items, the `from` table and the `filter` tree. */
  datatype Query = Query(select: seq<SelectItem>, from: Option<string>, filter: Filter)

  /** A select item: a column name, a subquery object, or anything else (ignored). */
  datatype SelectItem = Column(name: string) | Subquery(query: Query) | Skipped

  /**
   * How a render ends without SQL text: one of the errors the builder throws, with the
   * offending value, or `Diverges` when the `while` loop of `_getParameterName` never
   * ends, so that the call does not return at all.
   */
  datatype CompileError =
    | UnknownType(typeName: string)
    | UnknownOperator(operator: string)
    | UnknownFunction(fn: string)
    | UnknownCommand
    | Diverges

  /** The name the JavaScript gives each thrown error with `setName`. */
  function ErrorName(e: CompileError): (name: string)
    requires !e.Diverges?
    ensures name == "InvalidOperatorError" <==> (e.UnknownOperator? || e.UnknownFunction?)
    ensures name == "InvalidTypeException" <==> (e.UnknownType? || e.UnknownCommand?)
  {
    match e
    case UnknownOperator(_) => "InvalidOperatorError"
    case UnknownFunction(_) => "InvalidOperatorError"
    case UnknownType(_) => "InvalidTypeException"
    case UnknownCommand => "InvalidTypeException"
  }

  /** The parameter table: placeholder name to bound value. */
  type Params = map<string, Value>

  /** What a renderer produces: SQL text or an error, and the parameter table afterwards. */
  datatype Rendered<T> = Rendered(out: Result<T, CompileError>, params: Params)

  /** The `_operators` table: accepted operator names and their SQL spelling. */
  const Operators: map<string, string> := map[
    "=" := "=", "<" := "<", ">" := ">", ">=" := ">=", "<=" := "<=", "!=" := "!=",
    "equal" := "=", "notequal" := "!=", "lt" := "<", "gt" := ">", "gte" := ">=", "lte" := "<="]

  /** The `_functions` table: accepted function names and the SQL suffix they emit. */
  const Functions: map<string, string> := map["null" := "is null", "notNull" := "is not null"]

  /** The SQL comparison operators the builder can emit. */
  const SqlOperators: set<string> := {"=", "<", ">", ">=", "<=", "!="}

  /** Every accepted operator maps to a SQL comparison, and the table is the identity on its own output. */
  lemma OperatorsNormalise(op: string)
    requires op in Operators
    ensures Operators[op] in SqlOperators
    ensures Operators[op] in Operators && Operators[Operators[op]] == Operators[op]
  {
  }

  /** The operator names the table accepts, exactly. */
  lemma OperatorsAccepted(op: string)
    ensures op in Operators <==>
      op in SqlOperators || op in {"equal", "notequal", "lt", "gt", "gte", "lte"}
  {
  }

  // ---------------------------------------------------------------------------
  // Parameter names (_getParameterName)

  /** `parameters[key]` is truthy: an absent key reads as `undefined`, which is falsy. */
  predicate Taken(p: Params, key: string)
  {
    key in p && Truthy(p[key])
  }

  ghost function SlotsBelow(base: string, i: nat): set<string>
  {
    set j | 0 <= j < i :: Suffixed(base, j)
  }

  lemma SlotsShrink(p: Params, base: string, i: nat)
    requires Suffixed(base, i) in p
    ensures |p.Keys - SlotsBelow(base, i + 1)| < |p.Keys - SlotsBelow(base, i)|
  {
    var s := Suffixed(base, i);
    assert SlotsBelow(base, i + 1) == SlotsBelow(base, i) + {s};
    if s in SlotsBelow(base, i) {
      var j :| 0 <= j < i && Suffixed(base, j) == s;
      SuffixedInjective(base, i, j);
    }
    assert p.Keys - SlotsBelow(base, i + 1) == (p.Keys - SlotsBelow(base, i)) - {s};
  }

  lemma TakenBelowStep(p: Params, base: string, i: nat)
    requires forall j | 0 <= j < i :: Taken(p, Suffixed(base, j))
    requires Taken(p, Suffixed(base, i))
    ensures forall j | 0 <= j < i + 1 :: Taken(p, Suffixed(base, j))
  {
  }

  /** The first index at or after `i` whose slot is free, when all below `i` are taken. */
  function FreeIndexFrom(p: Params, base: string, i: nat): (r: nat)
    requires forall j | 0 <= j < i :: Taken(p, Suffixed(base, j))
    ensures i <= r && !Taken(p, Suffixed(base, r))
    ensures forall j | 0 <= j < r :: Taken(p, Suffixed(base, j))
    decreases |p.Keys - SlotsBelow(base, i)|
  {
    if Taken(p, Suffixed(base, i)) then
      SlotsShrink(p, base, i);
      TakenBelowStep(p, base, i);
      FreeIndexFrom(p, base, i + 1)
    else
      i
  }

  /** The smallest `i >= 0` such that `parameters[base + i]` is absent or falsy. */
  function FreeIndex(p: Params, base: string): (r: nat)
    ensures !Taken(p, Suffixed(base, r))
    ensures forall j | 0 <= j < r :: Taken(p, Suffixed(base, j))
  {
    FreeIndexFrom(p, base, 0)
  }

  /** `_getParameterName`: the name `base + i` of the first free slot. */
  function ParameterName(p: Params, base: string): (id: string)
    ensures |id| > |base| && id[..|base|] == base
    ensures !Taken(p, id)
  {
    Suffixed(base, FreeIndex(p, base))
  }

  /** The chosen slot is the smallest free one: no other free slot comes first. */
  lemma ParameterNameLeast(p: Params, base: string, i: nat)
    requires !Taken(p, Suffixed(base, i))
    ensures FreeIndex(p, base) <= i
  {
  }

  /**
   * The key `parameters[name + i]` reads. For a property name it is the name followed
   * by the digits of `i`. For an undefined property `undefined + i` is the number NaN
   * whatever `i` is, so the key is "NaN" for every counter.
   */
  function Slot(property: Option<string>, i: nat): string
  {
    if property.Some? then Suffixed(property.value, i) else "NaN"
  }

  /**
   * `_getParameterName(parameters, property)`: the key of the least free slot, or `None`
   * when the loop never ends because every key it tries holds a truthy value. That
   * happens only for an undefined property whose one key, "NaN", is taken.
   */
  function ParameterNameFor(p: Params, property: Option<string>): (id: Option<string>)
    ensures id.None? <==> forall i: nat :: Taken(p, Slot(property, i))
    ensures id.Some? ==> !Taken(p, id.value)
    ensures property.Some? ==> id == Some(ParameterName(p, property.value))
    ensures property.None? ==> (id.None? <==> Taken(p, "NaN")) && (id.Some? ==> id.value == "NaN")
  {
    match property
    case Some(name) =>
      assert !Taken(p, Slot(property, FreeIndex(p, name)));
      Some(ParameterName(p, name))
    case None =>
      assert Slot(property, 0) == "NaN";
      if Taken(p, "NaN") then None else Some("NaN")
  }

  /** A slot holding a falsy value counts as free, so it is handed out again. */
  lemma FalsySlotReused(p: Params, base: string)
    requires Suffixed(base, 0) in p && !Truthy(p[Suffixed(base, 0)])
    ensures ParameterName(p, base) == Suffixed(base, 0)
  {
  }

  // ---------------------------------------------------------------------------
  // Joining rendered parts

  /** `Array.prototype.join`. */
  function Join(xs: seq<string>, sep: string): (r: string)
    ensures |xs| == 0 ==> r == ""
    ensures |xs| == 1 ==> r == xs[0]
  {
    if |xs| == 0 then "" else if |xs| == 1 then xs[0] else xs[0] + sep + Join(xs[1..], sep)
  }

  /** Joining a longer list extends the joined prefix by a separator and the new part. */
  lemma {:induction false} JoinSnoc(xs: seq<string>, x: string, sep: string)
    requires |xs| >= 1
    ensures Join(xs + [x], sep) == Join(xs, sep) + sep + x
  {
    if |xs| == 1 {
      assert (xs + [x])[1..] == [x];
    } else {
      assert (xs + [x])[1..] == xs[1..] + [x];
      JoinSnoc(xs[1..], x, sep);
    }
  }

  /** The rule for `items`: none gives '', one is returned bare, more are parenthesised. */
  function Combine(xs: seq<string>, sep: string): (r: string)
    ensures |xs| == 0 ==> r == ""
    ensures |xs| == 1 ==> r == xs[0]
    ensures |xs| >= 2 ==> |r| >= 2 && r[0] == '(' && r[|r| - 1] == ')' && r[1..|r| - 1] == Join(xs, sep)
  {
    if |xs| == 0 then "" else if |xs| == 1 then xs[0] else "(" + Join(xs, sep) + ")"
  }

  /** Puts already rendered parts in front of the parts of a later render, unless it failed. */
  function Prepend(parts: seq<string>, r: Rendered<seq<string>>): (s: Rendered<seq<string>>)
    ensures s.params == r.params && s.out.Ok? == r.out.Ok?
    ensures r.out.Ok? ==> s.out.value == parts + r.out.value
    ensures r.out.Err? ==> s == r
  {
    if r.out.Ok? then Rendered(Ok(parts + r.out.value), r.params) else r
  }

  /** Prepending no parts changes nothing. */
  lemma PrependNothing(r: Rendered<seq<string>>)
    ensures Prepend([], r) == r
  {
    if r.out.Ok? {
      assert [] + r.out.value == r.out.value;
    }
  }

  /** Prepending twice is prepending the concatenation. */
  lemma PrependTwice(a: seq<string>, b: seq<string>, r: Rendered<seq<string>>)
    ensures Prepend(a, Prepend(b, r)) == Prepend(a + b, r)
  {
    if r.out.Ok? {
      assert a + (b + r.out.value) == (a + b) + r.out.value;
    }
  }

  /** The combined text of rendered children, or their error. */
  function Joined(r: Rendered<seq<string>>, sep: string): (s: Rendered<string>)
    ensures s.params == r.params && s.out.Ok? == r.out.Ok?
    ensures r.out.Ok? ==> s.out.value == Combine(r.out.value, sep)
    ensures r.out.Err? ==> s.out.error == r.out.error
  {
    if r.out.Ok? then Rendered(Ok(Combine(r.out.value, sep)), r.params) else Rendered(Err(r.out.error), r.params)
  }

  /** `x || 1` on a rendered fragment: the empty string becomes "1". */
  function OrOne(s: string): (r: string)
    ensures r != ""
    ensures s != "" ==> r == s
  {
    if s == "" then "1" else s
  }

  // ---------------------------------------------------------------------------
  // The renderers

  /** The property the children of an array are rendered with. */
  function ArrayChildProperty(property: Option<string>, entity: Option<string>): (r: Option<string>)
    ensures property == Some("_") && Present(entity) ==> r == entity
    ensures property == Some("_") && !Present(entity) ==> r == property
    ensures property != Some("_") && Present(property) ==> r == property
    ensures property != Some("_") && !Present(property) ==> r == entity
  {
    if property == Some("_") then Or(entity, property) else Or(property, entity)
  }

  /** `query.filter || {}` replaces a falsy filter by `{}`. */
  predicate FalsyFilter(f: Filter)
  {
    f.Scalar? && !Truthy(f.v)
  }

  /** `query || {}`: the query an absent query stands for. */
  const EmptyQuery: Query := Query([], None, Scalar(Undefined))

  /** `_render` on a caller's table (or a new one) and a query (or `{}`). */
  function Render(esc: string -> string, p: Option<Params>, q: Option<Query>): Rendered<string>
  {
    RenderQuery(esc, if p.Some? then p.value else map[], if q.Some? then q.value else EmptyQuery)
  }

  /** `_render` once its defaults are in place: SELECT, then FROM, then WHERE. */
  function RenderQuery(esc: string -> string, p: Params, q: Query): Rendered<string>
    decreases q
  {
    var sel := RenderSelect(esc, p, q.select);
    if sel.out.Err? then Rendered(Err(sel.out.error), sel.params)
    else
      // `{}` renders to '' and binds nothing
      var where := if FalsyFilter(q.filter) then Rendered(Ok(""), sel.params)
                   else RenderFilter(esc, sel.params, q.filter, None, None);
      if where.out.Err? then where
      else
        Rendered(Ok(" SELECT " + OrOne(Join(sel.out.value, ", "))
                    + " FROM " + esc(Stringify(Or(q.from, Some("undefined"))))
                    + " WHERE " + OrOne(where.out.value)),
                 where.params)
  }

  /**
   * `_renderSelect`'s loop: column names are escaped; a subquery is rendered into the
   * shared table but, as written, the object `_render` returns is concatenated, which
   * JavaScript turns into '[object Object]'; anything else adds nothing.
   */
  function RenderSelect(esc: string -> string, p: Params, xs: seq<SelectItem>): Rendered<seq<string>>
    decreases xs
  {
    if xs == [] then Rendered(Ok([]), p)
    else
      var item := xs[0];
      match item
      case Column(name) => Prepend([esc(name)], RenderSelect(esc, p, xs[1..]))
      case Subquery(q) =>
        assert q < item;
        var sub := RenderQuery(esc, p, q);
        if sub.out.Err? then Rendered(Err(sub.out.error), sub.params)
        else Prepend(["([object Object])"], RenderSelect(esc, sub.params, xs[1..]))
      case Skipped => RenderSelect(esc, p, xs[1..])
  }

  /** `_renderFilter`, dispatching on the shape of the node. */
  function RenderFilter(esc: string -> string, p: Params, f: Filter, property: Option<string>, entity: Option<string>): Rendered<string>
    decreases f
  {
    match f
    case Arr(items) => Joined(RenderItems(esc, p, items, ArrayChildProperty(property, entity)), " OR ")
    case Obj(entries) => Joined(RenderEntries(esc, p, entries, property), " AND ")
    case Scalar(v) =>
      var id := ParameterNameFor(p, property);
      if id.None? then Rendered(Err(Diverges), p)
      else Rendered(Ok(esc(Stringify(Or(entity, Some("na")))) + "." + esc(Stringify(property)) + " = ?" + id.value), p[id.value := v])
    case Cmd(c) => RenderCommand(esc, p, property, c)
    case Other(t) => Rendered(Err(UnknownType(t)), p)
  }

  /** The children of an array, in order, each with the same property and no entity. */
  function RenderItems(esc: string -> string, p: Params, xs: seq<Filter>, property: Option<string>): Rendered<seq<string>>
    decreases xs
  {
    if xs == [] then Rendered(Ok([]), p)
    else
      var first := RenderFilter(esc, p, xs[0], property, None);
      if first.out.Err? then Rendered(Err(first.out.error), first.params)
      else Prepend([first.out.value], RenderItems(esc, first.params, xs[1..], property))
  }

  /** The values of an object, in key order: the key is the property, the current property the entity. */
  function RenderEntries(esc: string -> string, p: Params, es: seq<(string, Filter)>, property: Option<string>): Rendered<seq<string>>
    decreases es
  {
    if es == [] then Rendered(Ok([]), p)
    else
      var e := es[0];
      assert e.1 < e;
      var first := RenderFilter(esc, p, e.1, Some(e.0), property);
      if first.out.Err? then Rendered(Err(first.out.error), first.params)
      else Prepend([first.out.value], RenderEntries(esc, first.params, es[1..], property))
  }

  /** `_renderCommand`: an operator comparison, a subquery comparison or a function. */
  function RenderCommand(esc: string -> string, p: Params, property: Option<string>, c: Command): Rendered<string>
    decreases c
  {
    var column := esc(Stringify(property));
    if Present(c.operator) then
      var op := c.operator.value;
      // the name is chosen before the operator is checked
      var id := ParameterNameFor(p, property);
      if id.None? then Rendered(Err(Diverges), p)
      else if op !in Operators then Rendered(Err(UnknownOperator(op)), p)
      else if c.query.Some? then
        assert c.query.value < c.query;
        var sub := RenderQuery(esc, p, c.query.value);
        if sub.out.Err? then sub
        else Rendered(Ok(column + " " + Operators[op] + " (" + sub.out.value + ")"), sub.params)
      else
        Rendered(Ok(column + Operators[op] + "?" + id.value), p[id.value := c.value])
    else if Present(c.fn) then
      if c.fn.value !in Functions then Rendered(Err(UnknownFunction(c.fn.value)), p)
      else Rendered(Ok(column + " " + Functions[c.fn.value]), p)
    else
      Rendered(Err(UnknownCommand), p)
  }
}
