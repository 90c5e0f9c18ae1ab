# ee-mysql-connection: the query builder, placeholder substitution and row decoder, in Dafny

This project models the parts of the MySQL adapter of ee-mysql-connection that have real logic in them:

- **The query builder** of `lib/MySQLConnection.js`. It turns a query description into SQL:
  - `_render` assembles `SELECT … FROM … WHERE …`;
  - `_renderSelect` renders the select list;
  - `_renderFilter` renders the filter tree: an array is an OR, an object an AND, a scalar a comparison with a bound parameter, and a function a deferred command;
  - `_renderCommand` renders operator and function commands and correlated subqueries;
  - `_getParameterName` picks fresh placeholder names;
  - the `_operators` and `_functions` tables.

  All of these fill one shared `parameters` object in place.
- **`_canBleed`**. It tests a statement with the global, case-insensitive expression `/transaction|declare|set|delimiter|execute/gi`. It first resets `lastIndex`.
- **`renderSQLQuery`** of `src/MySQLConnection.js`. It replaces the `?` marks of a statement with escaped values.
- **The `_lockModes` table** and the `LOCK TABLES` statement that `lock` issues.
- **The classification in `executeQuery`.** It decides how the driver's `(err, data)` becomes a rejection, the data, or an insert id.
- **The `typeCast` hook of `lib/typeCast.js`.** It is a switch over a column's wire type that decides how its text becomes a JavaScript value.

Modules:

- `Js` (js.dfy): JavaScript values, truthiness, `a || b`, `String(x)`, and the name-plus-number scheme for parameter names.
- `QueryModel` (query_model.dfy): the query builder as pure functions.
  - The `parameters` object is threaded through them as a map.
  - Every renderer returns the SQL text, the thrown error, or `Diverges` where the name loop of `_getParameterName` never ends, together with the table afterwards.
  - `Render`, `RenderQuery`, `RenderSelect`, `RenderFilter`, `RenderItems`, `RenderEntries` and `RenderCommand` are the reference definitions; they have no contracts of their own.
- `QueryProperties` (query_properties.dfy): what those functions guarantee.
  - Parameter hygiene over a whole render.
  - The exact output for each filter shape.
  - Error behaviour.
- `QueryCompiler` (query_compiler.dfy): the builder as the source writes it.
  - A `MySQLConnection` class whose methods update a `ParameterTable` object in place.
  - The `while` loop of `_getParameterName` and the `forEach` loops over children.
  - Every method is proved to compute exactly what the `QueryModel` function describes.
  - The global expression of `_canBleed` is one `BleedReg` object, with its `lastIndex`, that every connection refers to.
- `BleedCheck` (bleed_check.dfy): the keyword search of `_canBleed`, and the reference meaning "some keyword occurs".
- `Driver` (driver.dfy):
  - `renderSQLQuery`, both as written and with its evident intent;
  - `lock`;
  - the `executeQuery` classification.
- `TypeCast` (type_cast.dfy): the row decoder.

`mysql.escapeId` and `connection.escape` belong to the client library. They are function parameters here. Nothing is assumed about what they return, except where a contract says so. Two things are built into the model, though. `escapeId` receives `String(property)`, so an undefined property reaches it as the text `undefined`. And neither function throws.

## Model

| member | source | states |
|---|---|---|
| Js.SuffixedInjective | lib/MySQLConnection.js:214-218 | `name + i` with a decimal `i` determines `i`: different counters give different parameter names |
| QueryModel.ErrorName | lib/MySQLConnection.js:176-209 | unknown operators and functions are `InvalidOperatorError`; unknown shapes and commands are `InvalidTypeException` (both directions); a call that never returns throws nothing and has no name |
| QueryModel.OperatorsNormalise | lib/MySQLConnection.js:18-31 | every accepted operator maps to one of the six SQL comparisons, and the table is the identity on its own output |
| QueryModel.OperatorsAccepted | lib/MySQLConnection.js:18-31 | an operator is accepted exactly when it is one of the six symbols or `equal`, `notequal`, `lt`, `gt`, `gte`, `lte` |
| QueryModel.FreeIndex | lib/MySQLConnection.js:214-218 | the counter chosen has an absent or falsy slot, and every smaller counter's slot is truthy |
| QueryModel.ParameterName | lib/MySQLConnection.js:214-218 | the name starts with the property name and its slot is not holding a truthy value |
| QueryModel.ParameterNameLeast | lib/MySQLConnection.js:214-218 | no free slot comes before the chosen one: the counter is the least free one |
| QueryModel.ParameterNameFor | lib/MySQLConnection.js:214-218 | the loop ends exactly when some key `name + i` is free, and then gives a free key; for a property name that is `ParameterName`; for an undefined property every key is `NaN`, so the loop gives `NaN` or, when that slot is truthy, never ends |
| QueryModel.FalsySlotReused | lib/MySQLConnection.js:216 | a slot holding a falsy value counts as free, so its name is handed out again |
| QueryModel.JoinSnoc | lib/MySQLConnection.js:129 | joining one more part appends the separator and the part |
| QueryModel.Combine | lib/MySQLConnection.js:150 | no children give '', one child is returned bare, two or more are joined and parenthesised |
| QueryModel.OrOne | lib/MySQLConnection.js:89-95 | an empty select list or filter becomes `1`, anything else is kept |
| QueryModel.ArrayChildProperty | lib/MySQLConnection.js:148 | under the property `_` the children of an array use the entity, falling back to `_`; otherwise the property, falling back to the entity |
| QueryProperties.FilterHygiene | lib/MySQLConnection.js:141-178 | rendering a filter keeps every existing truthy binding; each new or changed slot holds a value of the filter; with truthy values only, the new table is the old one plus every value of the filter, in order, each under a fresh name of its own |
| QueryProperties.ItemsHygiene | lib/MySQLConnection.js:146-150 | the same hygiene for the children of an array, rendered in order into one table |
| QueryProperties.EntriesHygiene | lib/MySQLConnection.js:153-157 | the same hygiene for the members of an object |
| QueryProperties.CommandHygiene | lib/MySQLConnection.js:182-210 | the same hygiene for a command, its correlated subquery included |
| QueryProperties.QueryHygiene | lib/MySQLConnection.js:78-99 | the same hygiene for a whole query: select-list subqueries, then the filter |
| QueryProperties.SelectHygiene | lib/MySQLConnection.js:108-130 | the same hygiene for the select list |
| QueryProperties.RenderHygiene | lib/MySQLConnection.js:78-99 | a caller's table keeps its truthy bindings; new slots hold the query's values; when all values are truthy, the table is the caller's plus every leaf value of the query, in order, under fresh distinct names |
| QueryProperties.EmptyQueryRendersTrue | lib/MySQLConnection.js:82-95 | no select list and no filter render `SELECT 1 FROM <table> WHERE 1` and bind nothing; without a query the table is `undefined` and the parameters start empty |
| QueryProperties.ObjectScalarMember | lib/MySQLConnection.js:153-168 | an object member with a scalar renders `` `entity or na`.`key` = ?name`` with a fresh name from the key, and binds exactly that value |
| QueryProperties.ScalarUnderKey | lib/MySQLConnection.js:160-168 | a scalar without an entity compares against the table `na` and binds under the next free name |
| QueryProperties.TwoItems | lib/MySQLConnection.js:146-149 | array children are rendered in order, the second into the table the first left |
| QueryProperties.SingleMember | lib/MySQLConnection.js:153-157 | an object with one member renders as that member alone, not parenthesised |
| QueryProperties.ArrayOfTwoUnderKey | lib/MySQLConnection.js:146-168 | an array of two scalars under a key renders `(a OR b)` with two bindings named when each was made |
| QueryProperties.TruthyValuesGetDistinctNames | lib/MySQLConnection.js:214-218 | two truthy values under one key bind as `key0` and `key1`, which differ |
| QueryProperties.FalsyValuesCollide | lib/MySQLConnection.js:166-167 | a falsy first value leaves its slot free: both comparisons use `key0` and the second value overwrites the first |
| QueryProperties.UnknownOperatorBindsNothing | lib/MySQLConnection.js:186-190 | an unknown operator leaves the table unchanged and throws `InvalidOperatorError`, unless the property is undefined and the `NaN` slot truthy: then the name loop before the check never ends |
| QueryProperties.ScalarCommand | lib/MySQLConnection.js:186-199 | an operator with a value binds it under a fresh name and emits `column op ?name` with the normalised operator; for an undefined property the column is `undefined` and the name `NaN`, and a truthy `NaN` slot makes the call never return |
| QueryProperties.SubqueryCommand | lib/MySQLConnection.js:186-195 | an operator with a subquery binds nothing of its own, shares the table with the subquery, and embeds its SQL in parentheses; an undefined property with a truthy `NaN` slot never gets past the name loop |
| QueryProperties.UndefinedPropertyBindsNaN | lib/MySQLConnection.js:160-168 | a scalar with no property binds the slot `NaN` and emits `= ?NaN` against the column `undefined`, or never returns when that slot is truthy |
| QueryProperties.TopLevelScalarsDiverge | lib/MySQLConnection.js:146-168 | the top-level filter `[a, b]` with a truthy `a` binds `NaN` to `a` and then never returns |
| QueryProperties.SubquerySelectLosesText | lib/MySQLConnection.js:118-120 | a subquery in the select list binds into the shared table, but its text is the string of an object, `([object Object])` |
| QueryProperties.FunctionCommand | lib/MySQLConnection.js:203-206 | `null` and `notNull` emit `is null` / `is not null` and bind nothing; any other name throws |
| QueryProperties.InvalidShapes | lib/MySQLConnection.js:171-176 | a command with neither operator nor function, and any other shape, throw `InvalidTypeException` without binding |
| QueryCompiler.ParameterTable.constructor | lib/MySQLConnection.js:82 | a new `parameters` object is empty |
| QueryCompiler.BleedReg.constructor | lib/MySQLConnection.js:15 | the expression literal is created once, with `lastIndex` 0 |
| QueryCompiler.BleedReg.Test | lib/MySQLConnection.js:15 | `test` on the global expression searches from `lastIndex`, then moves `lastIndex` to the match end, or to 0 on failure |
| QueryCompiler.MySQLConnection.constructor | lib/MySQLConnection.js:11-15 | a connection gets the escaping function and refers to the one shared expression, whose `lastIndex` it leaves unchanged |
| QueryCompiler.MySQLConnection.ParameterName | lib/MySQLConnection.js:214-218 | the counting loop returns exactly `QueryModel.ParameterNameFor`: the least free slot's name, `NaN` for an undefined property, or nothing when the loop would never end |
| QueryCompiler.MySQLConnection.Render | lib/MySQLConnection.js:78-99 | the SQL and the table equal the reference render; the caller's table object is the one filled and returned, or a fresh one when none was given |
| QueryCompiler.MySQLConnection.RenderQuery | lib/MySQLConnection.js:79-98 | the text and the new table equal the reference `RenderQuery` on the old table |
| QueryCompiler.MySQLConnection.RenderSelect | lib/MySQLConnection.js:108-130 | the loop over the select list produces the reference parts joined with ', ', and the table the reference leaves |
| QueryCompiler.MySQLConnection.RenderFilter | lib/MySQLConnection.js:141-178 | the dispatch over the filter's shape equals the reference `RenderFilter`, text, error and table, including the `NaN` name of a scalar without a property and the render that never returns |
| QueryCompiler.MySQLConnection.RenderItems | lib/MySQLConnection.js:147-149 | the `forEach` over an array's children equals the reference fold, including the bindings left by a throw |
| QueryCompiler.MySQLConnection.RenderEntries | lib/MySQLConnection.js:154-156 | the `forEach` over an object's keys equals the reference fold |
| QueryCompiler.MySQLConnection.RenderCommand | lib/MySQLConnection.js:182-210 | a command's text, error and table equal the reference `RenderCommand`, the name chosen before the operator check included |
| QueryCompiler.MySQLConnection.CanBleed | lib/MySQLConnection.js:229-232 | the answer is true exactly when the statement contains a keyword, whatever `lastIndex` another connection left in the shared expression |
| BleedCheck.Lower | lib/MySQLConnection.js:15 | the `i` flag folds exactly the ASCII capitals each to its own lower-case letter, and leaves every other character as it is |
| BleedCheck.LowerMatchesBothCases | lib/MySQLConnection.js:15 | a lower-case keyword letter is matched by exactly two characters: itself and its capital |
| BleedCheck.MatchAt | lib/MySQLConnection.js:15 | an alternative is found at a position exactly when one of the keywords occurs there, and the match ends after it |
| BleedCheck.SearchFinds | lib/MySQLConnection.js:15 | a search from `lastIndex` succeeds exactly when a keyword occurs at or after it |
| BleedCheck.SearchFromStart | lib/MySQLConnection.js:229-231 | a search from 0 succeeds exactly when the statement contains a keyword |
| BleedCheck.StaleLastIndexMissesKeyword | lib/MySQLConnection.js:230 | without the reset, a second `test` of `SET` would start at 3 and find nothing |
| Driver.SqlText | src/MySQLConnection.js:179 | a missing statement is the empty string |
| Driver.ValueList | src/MySQLConnection.js:180 | missing values are the empty list |
| Driver.FindMark | src/MySQLConnection.js:181-185 | `exec` finds the first `?` at or after `lastIndex`, or none |
| Driver.Expand | src/MySQLConnection.js:187 | a replacement without `$` is inserted unchanged (`$$`, `$&`, `` $` `` and `$'` are expanded) |
| Driver.ReplaceFirst | src/MySQLConnection.js:187 | replacing the string `?` changes a text without marks in no way |
| Driver.ReplaceFirstAt | src/MySQLConnection.js:187 | `replace` with the string `?` puts the expanded replacement exactly in place of the first mark of the whole text |
| Driver.SubstituteNoMark | src/MySQLConnection.js:178-197 | a statement without marks is unchanged by the intended substitution |
| Driver.SubstituteNoValues | src/MySQLConnection.js:186 | without values the intended substitution changes nothing |
| Driver.ReplayExhausted | src/MySQLConnection.js:186-193 | once the values are used up the loop no longer changes the text |
| Driver.ReplayClean | src/MySQLConnection.js:185-194 | when no escaped value holds `?` or `$`, the loop as written performs the intended substitution |
| Driver.ReplayFacts | src/MySQLConnection.js:178-197 | from the start: no marks or no values leave the statement unchanged; clean values give the intended substitution |
| Driver.ReplaceNext | src/MySQLConnection.js:186-193 | one loop pass replaces the first `?` of the text while a value remains and moves `lastIndex` to the match plus the escaped length |
| Driver.ReplaceMarks | src/MySQLConnection.js:185-194 | the `exec` loop, run from `lastIndex` 0 until no mark is found, ends with the as-written replay of the statement |
| Driver.RenderSQLQuery | src/MySQLConnection.js:178-197 | the loop computes the as-written replay; unchanged without marks or without values; the intended substitution for clean values |
| Driver.RenderSQLQuerySpliced | src/MySQLConnection.js:178-197 | the corrected loop puts the k-th escaped value in place of the k-th `?` for every value, whatever the values contain |
| Driver.MarkInValueMisplaced | src/MySQLConnection.js:187 | on `? ?` with `'a?'` and `'b'` the loop gives `'a'b'' ?` instead of `'a?' 'b'` |
| Driver.DollarPatternInValueExpanded | src/MySQLConnection.js:187 | on `?` with the value `$&` the loop gives `'?'` instead of `'$&'` |
| Driver.LockModesAreMySQLModes | src/MySQLConnection.js:23-27 | `LOCK_READ` is the only read lock; `LOCK_WRITE` and `LOCK_EXCLUSIVE` are the write locks |
| Driver.LockMode | src/MySQLConnection.js:107 | the lock mode looked up in `_lockModes`, `undefined` for a type the table does not hold |
| Driver.LockStatement | src/MySQLConnection.js:107 | the statement starts with `LOCK TABLES `, then the target and the mode, and ends with `;` |
| Driver.Lock | src/MySQLConnection.js:104-110 | an unknown lock type is reported with its message, and a statement is issued anyway; that statement reads `LOCK TABLES [schema.]table MODE;`, with the mode `undefined` for an unknown type |
| Driver.ExclusiveLockIsWriteLock | src/MySQLConnection.js:23-27 | an exclusive lock is issued exactly as a write lock |
| Driver.Classify | src/MySQLConnection.js:147-161 | the promise rejects exactly on an error, as a duplicate-key error for `ER_DUP_ENTRY`; it resolves to an insert id exactly for a non-AST write result with `affectedRows`, and to the data otherwise |
| Driver.InsertIdOrNull | src/MySQLConnection.js:155-158 | a write result resolves to its insert id when that is truthy, and to null otherwise |
| TypeCast.FromText | lib/typeCast.js:45-47 | a field's text is returned as it is, SQL NULL as null |
| TypeCast.Decode | lib/typeCast.js:8-59 | every decoding first reads the field: as a buffer exactly for the NULL tag, as text for every other tag |
| TypeCast.NextOnlyForUnknownTags | lib/typeCast.js:53-58 | `next()` is called exactly for tags the switch does not name, and then undefined is returned |
| TypeCast.TinyIsBoolean | lib/typeCast.js:13-15 | TINY: NULL is null, `'1'` is true, any other text false |
| TypeCast.NumericHasNoNullGuard | lib/typeCast.js:16-21 | numeric tags pass the text to `Number` without a null check, so they never give null |
| TypeCast.DatesGuardNull | lib/typeCast.js:22-27 | date tags: NULL is null, any text becomes a date |
| TypeCast.PassthroughRoundTrip | lib/typeCast.js:28-47 | blob and string tags return the field's text unchanged, NULL included |
| TypeCast.NullTagConsumesBuffer | lib/typeCast.js:49-51 | the NULL tag reads the field as a buffer and gives null |

## Left out

- Connection lifecycle: `_connect`, error handling on the socket, `_query`, and the promise machinery. These are I/O with the client library.
- Escaping: `mysql.escapeId` and `connection.escape` are parameters whose results are not constrained. Only the examples under Findings fix a concrete quoting of strings.
- `escapeId` of an undefined property: the model passes `String(property)`, so `escapeId(undefined)` is taken to equal `escapeId("undefined")`. It also takes the call not to throw, which holds when the library stringifies its argument. A release whose `escapeId` calls `val.replace` throws a TypeError on `undefined` instead. With such a release, QueryProperties.UndefinedPropertyBindsNaN, QueryProperties.TopLevelScalarsDiverge and the undefined-property cases of QueryProperties.ScalarCommand and QueryProperties.SubqueryCommand would end in that TypeError once `_getParameterName` returns, after any binding the branch makes. When the `NaN` slot is already truthy, the call still never returns.
- Number and date conversion: `Number(text)` and `new Date(text)` of the decoder stay uninterpreted. JavaScript numbers are modelled as integers: no NaN, no fractions, no -0.
- Logging: `log.error` of the decoder is recorded only as an effect. The `_writeReg` expression, which no modelled function uses, is left out.
- The `'function'` branch of `_renderSelect` (lib/MySQLConnection.js:123-125) renders nothing. The model maps every item that is not a string or an object to `Skipped`.
- A render that never returns: functions here always end. The `while` loop of `_getParameterName` never ends for an undefined property once `parameters.NaN` is truthy. The model ends the render there with the outcome `Diverges`, which no JavaScript caller can observe. The bindings made before it stay in the table.
- The `mode` argument of `_render` is never read, so it is not modelled.
- Keys inherited through the prototype: `this._operators['constructor']` and similar lookups are truthy in JavaScript. The tables are modelled as maps of their own keys only.
- Error messages: the query builder's errors carry the offending value and their `setName` name, not the message text or the `JSON.stringify` of the command.
- `Object.keys` order is taken as given: an object filter is a sequence of entries in that order.
- `lock` models only the reported error and the statement issued. The callback order and the promise settling after the query are not modelled.
- Driver.RenderSQLQuery, Driver.ReplaceMarks, Driver.ReplaceNext and Driver.Replay require `escape(undefined)` to be non-empty. With an empty escape of `undefined`, a surplus `?` is found again on every pass and the loop does not end. The mysql library returns `NULL`.
- QueryProperties.ArrayOfTwoUnderKey, QueryProperties.TruthyValuesGetDistinctNames and QueryProperties.FalsyValuesCollide require a non-empty key. With the key `''`, the JavaScript would take the array's property from the entity.
- QueryProperties.FunctionCommand requires a non-empty function name, because `''` is falsy and is handled as an unknown command, which InvalidShapes covers.
- The schema introspector (catalog queries, constraint classification, the schema graph) is not part of this model.

## Findings

| source | as written | input that shows it | evidently intended | confidence | as-written member | corrected member |
|---|---|---|---|---|---|---|
| src/MySQLConnection.js:187 | `sql.replace('?', escaped)` replaces the first `?` of the whole statement, which can lie inside a value already substituted | statement `? ?` with values `'a?'`, `'b'`, quoted as strings: gives `'a'b'' ?` | each `?` mark takes the next value in order: `'a?' 'b'` | high, not executed | Driver.MarkInValueMisplaced | Driver.RenderSQLQuerySpliced |
| src/MySQLConnection.js:187 | the escaped value is a replacement string, so `$&`, `$$`, `` $` `` and `$'` inside it are expanded | statement `?` with the value `$&`: gives `'?'` | the escaped value is inserted verbatim: `'$&'` | high, not executed | Driver.DollarPatternInValueExpanded | Driver.RenderSQLQuerySpliced |
