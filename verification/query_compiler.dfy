/**
 * The query builder of lib/MySQLConnection.js as the source writes it: methods of the
 * connection object that fill one shared `parameters` object in place, with the
 * `while` loop of `_getParameterName` and the `forEach` loops that collect rendered
 * children. Each method is proved to compute what the functions of QueryModel
 * describe, so the properties proved there hold of these methods too.
 */
module QueryCompiler {
  import opened Js
  import opened QueryModel
  import BleedCheck

  /** The `parameters` object: placeholder name to bound value, updated in place. */
  class ParameterTable {
    var slots: Params

    constructor ()
      ensures slots == map[]
    {
      slots := map[];
    }
  }

  /**
   * The global expression `_bleedReg`. It is one object, created once with the class
   * prototype, so every connection shares it and its `lastIndex`.
   */
  class BleedReg {
    var lastIndex: nat

    constructor ()
      ensures lastIndex == 0
    {
      lastIndex := 0;
    }

    /** `RegExp.prototype.test` of a global expression: searches from `lastIndex` and moves it. */
    method Test(input: string) returns (found: bool)
      modifies this
      ensures var m := BleedCheck.Search(input, old(lastIndex));
        && found == m.Some?
        && lastIndex == (if m.Some? then m.value else 0)
    {
      var m := BleedCheck.Search(input, lastIndex);
      if m.Some? {
        lastIndex := m.value;
        found := true;
      } else {
        lastIndex := 0;
        found := false;
      }
    }
  }

  /** What `_render` returns: the SQL text and the (same) parameter object. */
  datatype Compiled = Compiled(sql: string, parameters: ParameterTable)

  class MySQLConnection {
    /** `mysql.escapeId`, a library function about which nothing is assumed. */
    const escapeId: string -> string
    /** `_bleedReg`, inherited from the prototype: the same object for every connection. */
    const bleedReg: BleedReg

    /** A connection over the shared expression, whose `lastIndex` it leaves as it is. */
    constructor (escapeId: string -> string, bleedReg: BleedReg)
      ensures this.escapeId == escapeId && this.bleedReg == bleedReg
    {
      this.escapeId := escapeId;
      this.bleedReg := bleedReg;
    }

    /**
     * `_getParameterName`: counts up from 0 while the slot `name + i` holds a truthy value.
     * `None` stands for the loop that never ends.
     */
    method ParameterName(parameters: ParameterTable, property: Option<string>) returns (id: Option<string>)
      ensures id == ParameterNameFor(parameters.slots, property)
    {
      match property
      case None =>
        // `undefined + i` is NaN for every i: the loop stops at once or never
        if Taken(parameters.slots, "NaN") {
          id := None;
        } else {
          id := Some("NaN");
        }
      case Some(name) =>
        var i := 0;
        while Taken(parameters.slots, Suffixed(name, i))
          invariant i <= FreeIndex(parameters.slots, name)
          decreases FreeIndex(parameters.slots, name) - i
        {
          i := i + 1;
        }
        id := Some(Suffixed(name, i));
    }

    /** `_render`: the caller's table is filled and returned, or a new one when none is given. */
    method Render(query: Option<Query>, parameters: ParameterTable?) returns (r: Result<Compiled, CompileError>)
      modifies parameters
      ensures var spec := QueryModel.Render(escapeId, if parameters == null then None else Some(old(parameters.slots)), query);
        && (r.Ok? <==> spec.out.Ok?)
        && (r.Ok? ==> r.value.sql == spec.out.value && r.value.parameters.slots == spec.params)
        && (r.Err? ==> r.error == spec.out.error)
        && (parameters != null ==> parameters.slots == spec.params)
      ensures r.Ok? && parameters != null ==> r.value.parameters == parameters
      ensures r.Ok? && parameters == null ==> fresh(r.value.parameters)
    {
      var table := parameters;
      if table == null {
        table := new ParameterTable();
      }
      var q := if query.Some? then query.value else EmptyQuery;
      var sql := RenderQuery(q, table);
      if sql.Err? {
        return Err(sql.error);
      }
      return Ok(Compiled(sql.value, table));
    }

    /** The body of `_render` once `parameters` and `query` are defaulted. */
    method RenderQuery(query: Query, parameters: ParameterTable) returns (r: Result<string, CompileError>)
      modifies parameters
      ensures Rendered(r, parameters.slots) == QueryModel.RenderQuery(escapeId, old(parameters.slots), query)
      decreases query, 2
    {
      var selects := RenderSelect(parameters, query.select);
      if selects.Err? {
        return Err(selects.error);
      }
      var sql := " SELECT " + OrOne(selects.value);
      sql := sql + " FROM " + escapeId(Stringify(Or(query.from, Some("undefined"))));
      var where := "";
      if !FalsyFilter(query.filter) {
        var filter := RenderFilter(parameters, query.filter, None, None);
        if filter.Err? {
          return filter;
        }
        where := filter.value;
      }
      return Ok(sql + " WHERE " + OrOne(where));
    }

    /** `_renderSelect`: escaped column names and subqueries, joined with ', '. */
    method RenderSelect(parameters: ParameterTable, select: seq<SelectItem>) returns (r: Result<string, CompileError>)
      modifies parameters
      ensures var spec := QueryModel.RenderSelect(escapeId, old(parameters.slots), select);
        && parameters.slots == spec.params
        && (spec.out.Ok? ==> r == Ok(Join(spec.out.value, ", ")))
        && (spec.out.Err? ==> r == Err(spec.out.error))
      decreases select, 1
    {
      var selects: seq<string> := [];
      var i := 0;
      assert select[i..] == select;
      PrependNothing(QueryModel.RenderSelect(escapeId, parameters.slots, select));
      while i < |select|
        invariant 0 <= i <= |select|
        invariant QueryModel.RenderSelect(escapeId, old(parameters.slots), select)
          == Prepend(selects, QueryModel.RenderSelect(escapeId, parameters.slots, select[i..]))
      {
        var selector := select[i];
        assert select[i..][0] == selector && select[i..][1..] == select[i + 1..];
        match selector {
          case Column(name) =>
            PrependTwice(selects, [escapeId(name)], QueryModel.RenderSelect(escapeId, parameters.slots, select[i + 1..]));
            selects := selects + [escapeId(name)];
          case Subquery(q) =>
            assert q < selector;
            var sub := RenderQuery(q, parameters);
            if sub.Err? {
              return Err(sub.error);
            }
            // the object `_render` returns, concatenated into a string
            PrependTwice(selects, ["([object Object])"], QueryModel.RenderSelect(escapeId, parameters.slots, select[i + 1..]));
            selects := selects + ["([object Object])"];
          case Skipped =>
        }
        i := i + 1;
      }
      assert select[i..] == [];
      assert selects + [] == selects;
      return Ok(Join(selects, ", "));
    }

    /** `_renderFilter`: OR over an array, AND over an object, a binding for a scalar. */
    method RenderFilter(parameters: ParameterTable, filter: Filter, property: Option<string>, entity: Option<string>)
      returns (r: Result<string, CompileError>)
      modifies parameters
      ensures Rendered(r, parameters.slots) == QueryModel.RenderFilter(escapeId, old(parameters.slots), filter, property, entity)
      decreases filter, 1
    {
      match filter
      case Arr(filterItems) =>
        var items := RenderItems(parameters, filterItems, ArrayChildProperty(property, entity));
        if items.Err? {
          return Err(items.error);
        }
        return Ok(Combine(items.value, " OR "));
      case Obj(entries) =>
        var items := RenderEntries(parameters, entries, property);
        if items.Err? {
          return Err(items.error);
        }
        return Ok(Combine(items.value, " AND "));
      case Scalar(v) =>
        var id := ParameterName(parameters, property);
        if id.None? {
          return Err(Diverges);
        }
        parameters.slots := parameters.slots[id.value := v];
        return Ok(escapeId(Stringify(Or(entity, Some("na")))) + "." + escapeId(Stringify(property)) + " = ?" + id.value);
      case Cmd(command) =>
        r := RenderCommand(property, command, parameters);
      case Other(typeName) =>
        return Err(UnknownType(typeName));
    }

    /** The `forEach` over an array filter: each child rendered with the same property, in order. */
    method RenderItems(parameters: ParameterTable, filterItems: seq<Filter>, property: Option<string>)
      returns (r: Result<seq<string>, CompileError>)
      modifies parameters
      ensures Rendered(r, parameters.slots) == QueryModel.RenderItems(escapeId, old(parameters.slots), filterItems, property)
      decreases filterItems
    {
      var items: seq<string> := [];
      var i := 0;
      assert filterItems[i..] == filterItems;
      PrependNothing(QueryModel.RenderItems(escapeId, parameters.slots, filterItems, property));
      while i < |filterItems|
        invariant 0 <= i <= |filterItems|
        invariant QueryModel.RenderItems(escapeId, old(parameters.slots), filterItems, property)
          == Prepend(items, QueryModel.RenderItems(escapeId, parameters.slots, filterItems[i..], property))
      {
        assert filterItems[i..][0] == filterItems[i] && filterItems[i..][1..] == filterItems[i + 1..];
        var item := RenderFilter(parameters, filterItems[i], property, None);
        if item.Err? {
          return Err(item.error);
        }
        PrependTwice(items, [item.value], QueryModel.RenderItems(escapeId, parameters.slots, filterItems[i + 1..], property));
        items := items + [item.value];
        i := i + 1;
      }
      assert filterItems[i..] == [];
      assert items + [] == items;
      return Ok(items);
    }

    /** The `forEach` over an object filter's keys: the key is the property, the property the entity. */
    method RenderEntries(parameters: ParameterTable, entries: seq<(string, Filter)>, property: Option<string>)
      returns (r: Result<seq<string>, CompileError>)
      modifies parameters
      ensures Rendered(r, parameters.slots) == QueryModel.RenderEntries(escapeId, old(parameters.slots), entries, property)
      decreases entries
    {
      var items: seq<string> := [];
      var i := 0;
      assert entries[i..] == entries;
      PrependNothing(QueryModel.RenderEntries(escapeId, parameters.slots, entries, property));
      while i < |entries|
        invariant 0 <= i <= |entries|
        invariant QueryModel.RenderEntries(escapeId, old(parameters.slots), entries, property)
          == Prepend(items, QueryModel.RenderEntries(escapeId, parameters.slots, entries[i..], property))
      {
        var entry := entries[i];
        assert entries[i..][0] == entry && entries[i..][1..] == entries[i + 1..];
        assert entry.1 < entry;
        var item := RenderFilter(parameters, entry.1, Some(entry.0), property);
        if item.Err? {
          return Err(item.error);
        }
        PrependTwice(items, [item.value], QueryModel.RenderEntries(escapeId, parameters.slots, entries[i + 1..], property));
        items := items + [item.value];
        i := i + 1;
      }
      assert entries[i..] == [];
      assert items + [] == items;
      return Ok(items);
    }

    /** `_renderCommand`: a comparison with a bound value or a subquery, or a function. */
    method RenderCommand(property: Option<string>, command: Command, parameters: ParameterTable)
      returns (r: Result<string, CompileError>)
      modifies parameters
      ensures Rendered(r, parameters.slots) == QueryModel.RenderCommand(escapeId, old(parameters.slots), property, command)
      decreases command, 1
    {
      if Present(command.operator) {
        var id := ParameterName(parameters, property);
        if id.None? {
          return Err(Diverges);
        }
        var op := command.operator.value;
        if op !in Operators {
          return Err(UnknownOperator(op));
        }
        if command.query.Some? {
          assert command.query.value < command.query;
          var sub := RenderQuery(command.query.value, parameters);
          if sub.Err? {
            return sub;
          }
          return Ok(escapeId(Stringify(property)) + " " + Operators[op] + " (" + sub.value + ")");
        } else {
          parameters.slots := parameters.slots[id.value := command.value];
          return Ok(escapeId(Stringify(property)) + Operators[op] + "?" + id.value);
        }
      } else if Present(command.fn) {
        if command.fn.value !in Functions {
          return Err(UnknownFunction(command.fn.value));
        }
        return Ok(escapeId(Stringify(property)) + " " + Functions[command.fn.value]);
      } else {
        return Err(UnknownCommand);
      }
    }

    /** `_canBleed`: resets `lastIndex`, so the answer depends on the input alone. */
    method CanBleed(input: string) returns (bleeds: bool)
      modifies bleedReg
      ensures bleeds <==> BleedCheck.ContainsKeyword(input)
      ensures var m := BleedCheck.Search(input, 0); bleedReg.lastIndex == if m.Some? then m.value else 0
    {
      bleedReg.lastIndex := 0;
      bleeds := bleedReg.Test(input);
      BleedCheck.SearchFromStart(input);
    }
  }
}
