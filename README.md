# js-data-saphana: the SQL text compiler, modelled in Dafny

The `SapHanaAdapter` of js-data-saphana turns js-data queries and records
into SQL text for SAP HANA. This project models the part of
`src/index.js` that computes that text and proves what it produces:

- the operator table and the three formatters `_getOperator`,
  `_parseCondition` and `_parseValue` (module `Operators`);
- the WHERE tree normaliser `_prepareWhereArray` / `_prepareWhereObject`,
  which rewrites every scalar under a non-operator key into `{'==': v}`
  (module `WhereNormalizer`);
- the WHERE compiler `_parseWhereArray` / `_parseWhereObject`, whose
  parentheses follow a `depth` counter (module `WhereCompiler`);
- `parseQuery`, which assembles WHERE + ORDER BY + LIMIT + OFFSET
  (module `QueryCompiler`);
- `_prepInsert`, which lays records out as rows over the sorted union of
  their keys, widening earlier rows when a new column appears (module
  `RecordPrep`);
- the row rendering and statement text of `_create`, and `_prepUpdate`
  (module `Statements`).

Two modules model the JavaScript the code relies on:

- `JsText` covers ASCII `toUpperCase`, `join`, `split`, `trim`, decimal
  rendering, `sort()` on strings, `indexOf` and `splice`.
- `JsValue` covers JSON-shaped values whose objects are ordered field
  lists, property read and write, `Object.assign`, `Object.keys`,
  `String(v)` and the element rendering of `join`.

Each part keeps the source's form:

- The formatters, the compiler and the normaliser are functions with lemmas.
- `parseQuery` is a method whose loops (the `Object.entries` walk, the
  `forEach` rewrite of the order list) are proved equal to the
  specification function `QueryClauses`.
- `_prepInsert` is a method with the source's nested loops:
  - the column list and the row buffer are reassigned step by step;
  - every earlier row is spliced in a loop;
  - the loop invariants say which slot holds what.
- `_prepUpdate` is a method with the source's loop.

Errors the code throws become `Err` values of a `Result`:

- the runtime `TypeError` from destructuring or `Object.keys(null)`;
- 'Empty input is invalid.';
- 'Input is invalid.';
- 'Update data does not contain any values to update.'

## Model

| member | source | states |
|---|---|---|
| JsText.UpperChar | src/index.js:580 | a character is upper-cased to a non-lower-case letter; anything but `a`-`z` is kept |
| JsText.Upper | src/index.js:580 | `toUpperCase` keeps the length and leaves no lower-case ASCII letter |
| JsText.UpperIdempotent | src/index.js:580 | upper-casing twice is upper-casing once |
| JsText.Join | src/index.js:549 | joining a single part gives that part, with no separator |
| JsText.JoinAppend | src/index.js:672 | joining one more part appends the separator and the part |
| JsText.Split | src/index.js:527 | `split` gives at least one piece, and no piece contains the separator |
| JsText.JoinSplit | src/index.js:527 | joining the pieces of a split with the separator gives back the string |
| JsText.SplitJoin | src/index.js:537 | splitting a join of separator-free pieces gives back the pieces |
| JsText.TrimStart | src/index.js:527 | the result is a suffix, what was dropped is all white space, and it does not start with white space |
| JsText.TrimEnd | src/index.js:527 | the result is a prefix, what was dropped is all white space, and it does not end with white space |
| JsText.Trim | src/index.js:527 | `trim` is no longer than its input and leaves no white space at either end |
| JsText.IsSpace | src/index.js:527 | no contract of its own: the ECMAScript white space and line terminators that `trim` removes; `JsText.TrimStart`, `JsText.TrimEnd` and `JsText.TrimAfterSpace` state what is removed |
| JsText.TrimAfterSpace | src/index.js:527 | a word after leading white space trims to the word |
| JsText.NatToDecimal | src/index.js:812 | an index name is a non-empty digit string, one digit exactly below 10 |
| JsText.DecimalRoundTrip | src/index.js:812 | reading the digits of an index name back gives the index |
| JsText.NatToDecimalInjective | src/index.js:812 | different indexes have different names |
| JsText.IntToDecimal | src/index.js:563 | a rendered integer is non-empty and starts with `-` exactly when negative |
| JsText.IntToDecimalReadBack | src/index.js:563 | after an optional `-`, a rendered integer is all digits, and reading them back gives its magnitude |
| JsText.IntToDecimalInjective | src/index.js:563 | different integers render differently, so a LIMIT or OFFSET text determines its number |
| JsText.StrLtIrreflexive | src/index.js:809 | the code-point order standing in for `sort()`'s UTF-16 order is irreflexive |
| JsText.StrLtTotal | src/index.js:809 | any two different strings are ordered one way |
| JsText.StrLtAsymmetric | src/index.js:809 | the order is asymmetric |
| JsText.StrLtTransitive | src/index.js:809 | the order is transitive |
| JsText.InsertAt | src/index.js:821-824 | `splice(p, 0, x)` by position; what it does to the column list is stated by `JsText.SortAppend` (`concat(key).sort()` lands the key at its insertion point and stays strictly sorted), `JsText.InsertSortedAt` and `RecordPrep.InsertAtMembers` (exactly `x` is added) |
| JsText.SortPermutes | src/index.js:818 | `sort()` keeps every element as often as it occurs |
| JsText.SortSorted | src/index.js:809 | sorting distinct strings gives a strictly sorted list |
| JsText.SortOfSorted | src/index.js:818 | sorting a strictly sorted list changes nothing |
| JsText.InsertSortedAt | src/index.js:818 | one insertion step places the element at its insertion point |
| JsText.InsertSortedPermutes | src/index.js:818 | one insertion step adds exactly the one element |
| JsText.InsertSortedKeepsSorted | src/index.js:818 | inserting a new element keeps a list strictly sorted |
| JsText.InsertPosSplits | src/index.js:818 | the insertion point separates the smaller elements from the larger |
| JsText.SortAppend | src/index.js:818 | `columns.concat(key).sort()` is `key` spliced in at its insertion point, and stays strictly sorted |
| JsText.StrLt | src/index.js:809 | no contract of its own: the code-point order standing in for `sort()`'s UTF-16 order; `JsText.StrLtIrreflexive`, `JsText.StrLtTotal`, `JsText.StrLtAsymmetric` and `JsText.StrLtTransitive` state that it is a strict total order |
| JsText.InsertSorted | src/index.js:818 | no contract of its own: one insertion step of `sort()`; `JsText.InsertSortedAt`, `JsText.InsertSortedPermutes` and `JsText.InsertSortedKeepsSorted` state where the element lands, that nothing else changes and that sortedness is kept |
| JsText.Sort | src/index.js:809-818 | no contract of its own: `sort()` on strings by insertion; `JsText.SortPermutes`, `JsText.SortSorted` and `JsText.SortOfSorted` state that it is a permutation, sorted, and the identity on sorted lists |
| JsText.IndexOf | src/index.js:816 | `indexOf` gives the first position of the element, and -1 exactly when it is absent |
| JsValue.KeysOf | src/index.js:812 | `Object.keys` lists one key per field, in field order; `JsValue.GetAt` states that each listed key reads back its own field's value, and `JsValue.SetPropGet` that a write changes what exactly one key reads |
| JsValue.Truthy | src/index.js:461 | no contract of its own: JavaScript truthiness, false exactly for `''`, `0`, `false`, `null` and `undefined`; used where a missing query or record list becomes `{}` and where an empty WHERE text is dropped |
| JsValue.IsObject | src/index.js:463 | no contract of its own: `utils.isObject`, a plain object and neither an array nor null; `QueryCompiler.NonObjectQuery` states that any other truthy query yields `''` |
| JsValue.IsNullish | src/index.js:805 | no contract of its own: `v == null`, true for null and undefined; `RecordPrep.TakeRecords` states that processing stops at the first such record |
| JsValue.Get | src/index.js:826 | reading a key no field has gives `undefined` |
| JsValue.GetAt | src/index.js:826 | in an object without duplicate keys, reading a field's key gives that field's value |
| JsValue.GetAppend | src/index.js:485 | after appending a field, old keys read as before and the new key reads the new value |
| JsValue.SetProp | src/index.js:485 | a property write keeps an existing key's position and appends a new key last |
| JsValue.SetPropGet | src/index.js:485 | after `obj[k] = v`, `k` reads `v` and every other key reads as before |
| JsValue.SetPropDistinct | src/index.js:767-769 | a property write keeps keys distinct |
| JsValue.AppendNewKey | src/index.js:485 | writing a new key appends the field |
| JsValue.Assign | src/index.js:491 | no contract of its own: `Object.assign` as property writes in source order; its properties are stated by `JsValue.AssignKeys`, `JsValue.AssignGet` and `JsValue.AssignOntoEmpty` |
| JsValue.AssignKeys | src/index.js:491 | `Object.assign` keeps the target's keys in place, appends the new source keys in order, and keeps keys distinct |
| JsValue.AssignGet | src/index.js:491 | after `Object.assign`, a key of the source reads the source's value and any other key the target's |
| JsValue.AssignOntoEmpty | src/index.js:491 | assigning onto `{}` copies an object unchanged |
| JsValue.ToStr | src/index.js:563 | no contract of its own: `String(v)` as template literals render a value, integers in decimal, arrays through `join` |
| JsValue.JoinTexts | src/index.js:672 | `join` renders one text per element |
| JsValue.JoinText | src/index.js:672 | no contract of its own: how `join` renders one element, `''` for null and undefined and `String(v)` otherwise; `WhereCompiler.MemberTexts` states what it gives for plain list elements |
| JsValue.OwnEntries | src/index.js:812 | no contract of its own: `Object.keys(v)` paired with `v[key]`, for objects, arrays and strings; `JsValue.OwnEntriesDistinct` states that the keys are distinct |
| JsValue.OwnEntriesDistinct | src/index.js:812 | the keys `Object.keys` gives for any value are distinct |
| Operators.GetOperator | src/index.js:579-582 | a table token maps to a SQL operator; any other token comes back upper-cased; the result has no lower-case letter |
| Operators.GetOperatorCaseInsensitive | src/index.js:579-582 | tokens equal up to ASCII case map alike |
| Operators.GetOperatorIdempotent | src/index.js:579-582 | mapping twice is mapping once |
| Operators.UpperIdempotentOnUpper | src/index.js:20-43 | every SQL operator of the table is already upper-case |
| Operators.EqualityAliases | src/index.js:21-23 | `=`, `==` and `eq` all mean `=` |
| Operators.InequalityAliases | src/index.js:24-26 | `<>`, `!=` and `neq` all mean `<>` |
| Operators.ComparisonAliases | src/index.js:27-34 | `gt`, `gte`, `lt` and `lte` mean `>`, `>=`, `<` and `<=` |
| Operators.OrderingSymbols | src/index.js:27-34 | `>`, `>=`, `<` and `<=` stand for themselves |
| Operators.MembershipAliases | src/index.js:35-38 | `in` and `inq` mean `IN`; `nin` and `notin` mean `NOT IN` |
| Operators.LikeAliases | src/index.js:39-42 | `like`, `nlike`, `ilike` and `likei` mean `LIKE`, `NOT LIKE`, `LIKE` and `LIKE` |
| Operators.ParseCondition | src/index.js:591-598 | `LOWER(field) LIKE LOWER(value)` exactly for ILIKE/LIKEI in any case, `field OP value` otherwise |
| Operators.EqualityCondition | src/index.js:591-598 | `=` and `==` both give the condition `field = value` |
| Operators.ParseConditionKeepsValue | src/index.js:591-598 | every character of the value appears in the condition |
| Operators.ParseValue | src/index.js:605-610 | a string comes back wrapped in single quotes; anything else comes back unchanged |
| Operators.ParseValueInjective | src/index.js:605-610 | distinct values stay distinct after quoting |
| Operators.IsCaseInsensitiveLike | src/index.js:594 | no contract of its own: the upper-cased token is ILIKE or LIKEI; `Operators.ParseCondition` states that exactly these tokens lower-case both sides |
| Operators.IsOperatorKey | src/index.js:766 | no contract of its own: `key.toUpperCase() in OPERATORS`; `WhereNormalizer.PrepareEntryNormalizes` and `QueryCompiler.ExampleOperatorKeys` state what it decides |
| Operators.KeywordAnd | src/index.js:16 | constant: the group keyword `AND` |
| Operators.KeywordOr | src/index.js:17 | constant: the group keyword `OR` |
| Operators.OperatorEqual | src/index.js:18 | constant: `==`, the key of an implicit equality |
| Operators.OperatorTable | src/index.js:20-45 | constant: the 22 entries of the frozen `OPERATORS` table; `Operators.EqualityAliases` through `Operators.LikeAliases` state each entry through `_getOperator` |
| Operators.ReservedKeywords | src/index.js:47 | constant: the seven query keys never read as conditions; `QueryCompiler.GatherKept` states that they are skipped |
| Operators.CaseInsensitiveLikeOperators | src/index.js:49-52 | constant: ILIKE and LIKEI |
| Operators.InListOperators | src/index.js:54 | constant: IN, INQ, NOTIN and NIN; `WhereCompiler.UnattainableExactly` states their empty-list case |
| Operators.UnattainableCondition | src/index.js:56 | constant: `1 = 0` |
| WhereNormalizer.PrepareWhereArray | src/index.js:734-742 | the list keeps its length |
| WhereNormalizer.PrepareElement | src/index.js:734-742 | objects stay objects, arrays stay arrays, scalars are untouched |
| WhereNormalizer.PrepareWhereObject | src/index.js:760-772 | the keys and their order are kept |
| WhereNormalizer.PrepareEntry | src/index.js:760-772 | each entry keeps its key |
| WhereNormalizer.PrepareArrayNormalizes | src/index.js:734-772 | afterwards every scalar-valued key in the tree is an operator token |
| WhereNormalizer.PrepareElementNormalizes | src/index.js:734-742 | the same, for one list element |
| WhereNormalizer.PrepareObjectNormalizes | src/index.js:760-772 | the same, for one object |
| WhereNormalizer.PrepareEntryNormalizes | src/index.js:761-770 | the same, for one entry: a scalar under a non-operator key becomes `{'==': v}` |
| WhereNormalizer.NormalizedArrayFixed | src/index.js:734-772 | a tree already in normal form is left unchanged |
| WhereNormalizer.NormalizedElementFixed | src/index.js:734-742 | the same, for one element |
| WhereNormalizer.NormalizedObjectFixed | src/index.js:760-772 | the same, for one object |
| WhereNormalizer.NormalizedEntryFixed | src/index.js:761-770 | the same, for one entry |
| WhereNormalizer.PrepareIdempotent | src/index.js:734-772 | running the pass twice is running it once |
| WhereNormalizer.CollapseItems | src/index.js:734-742 | undoing the rewrite keeps a list's length |
| WhereNormalizer.CollapseFields | src/index.js:760-772 | undoing the rewrite keeps an object's keys |
| WhereNormalizer.PrepareArrayOnlyWraps | src/index.js:734-772 | nothing else changes: undoing the `{'==': v}` wrapping gives back the input tree |
| WhereNormalizer.PrepareElementOnlyWraps | src/index.js:734-742 | the same, for one element |
| WhereNormalizer.PrepareObjectOnlyWraps | src/index.js:760-772 | the same, for one object |
| WhereNormalizer.PrepareEntryOnlyWraps | src/index.js:761-770 | the same, for one entry |
| WhereCompiler.ListTexts | src/index.js:672 | one rendered text per list element |
| WhereCompiler.IsGroupKeyword | src/index.js:643 | no contract of its own: the upper-cased token is AND or OR; `WhereCompiler.GroupWrapping` states how such a group compiles and `WhereCompiler.UnattainableExactly` covers every other token |
| WhereCompiler.ParseWhereArray | src/index.js:641-675 | no contract of its own: `_parseWhereArray`, an AND/OR group or a value list; its properties are stated by `WhereCompiler.GroupWrapping`, `WhereCompiler.GroupIgnoresField`, `WhereCompiler.UnattainableExactly` and `WhereCompiler.MembershipList` |
| WhereCompiler.GroupParts | src/index.js:644-662 | no contract of its own: the filtered, mapped and flattened conditions of a group's members; `WhereCompiler.GroupPartsIsChain` states that it is the source's chain |
| WhereCompiler.GroupPart | src/index.js:648-654 | no contract of its own: an object member gives its object's conditions one level down, an array member its AND text |
| WhereCompiler.ParseWhereObject | src/index.js:723-726 | from depth 3 on, an object yields at most one condition |
| WhereCompiler.ObjectConditions | src/index.js:709-722 | no contract of its own: the conditions of an object's entries, in key order; `WhereCompiler.ScalarEntriesOneEach` and `WhereCompiler.FieldConditionsWrapped` state them for scalar entries |
| WhereCompiler.EntryConditions | src/index.js:710-721 | no contract of its own: an object entry recurses one level down, an array entry gives one list text, a scalar entry one `_parseCondition`; `{'==': v}` reuses the enclosing field |
| WhereCompiler.UnattainableExactly | src/index.js:667-674 | for a non-group operator, the result is `1 = 0` exactly when the list is empty and the operator is IN, INQ, NOTIN or NIN in any case |
| WhereCompiler.QuotedTexts | src/index.js:672 | a list of strings renders with every string single-quoted |
| WhereCompiler.MemberText | src/index.js:605-610 | no contract of its own: a plain list element as `_parseValue` and `join` render it, a string single-quoted and anything else as `String(v)` |
| WhereCompiler.MemberTextList | src/index.js:672 | one text per list element |
| WhereCompiler.MemberTexts | src/index.js:672 | a list of non-null strings, numbers and booleans renders element by element as `MemberText`: strings quoted, numbers and booleans bare |
| WhereCompiler.MembershipList | src/index.js:667-673 | a list of non-null plain values, non-empty under IN, INQ, NOTIN and NIN, gives the one condition `field OP (t1, t2, ...)` with strings quoted and numbers and booleans bare; under ILIKE and LIKEI it gives `LOWER(field) LIKE LOWER((t1, ...))` |
| WhereCompiler.NumberListCondition | test/parseQuery.spec.js:50-58 | `{inq: [4, 5, 6]}` on `bId` gives `bId IN (4, 5, 6)` |
| WhereCompiler.MixedListCondition | test/parseQuery.spec.js:51-59 | `{nin: ['7', 8, '9']}` on `cId` gives `cId NOT IN ('7', 8, '9')` |
| WhereCompiler.Compound | src/index.js:645-647 | the filter keeps only objects and arrays |
| WhereCompiler.GroupPartsIsChain | src/index.js:644-662 | the group's conditions are the filter, then the map, then the flattening of the source's chain |
| WhereCompiler.GroupWrapping | src/index.js:643-666 | an AND/OR group is its members' conditions joined with the keyword, wrapped exactly when `depth > 1` and the unfiltered list has more than one element |
| WhereCompiler.GroupIgnoresField | src/index.js:643-666 | a group's field never matters |
| WhereCompiler.ScalarConditions | src/index.js:719 | one condition `field key value` per scalar entry |
| WhereCompiler.FieldConditionsWrapped | src/index.js:707-727 | an object of scalar entries yields exactly `(c1 AND c2 ...)` of their conditions `field key value` when `depth > 2` and there is more than one, and the conditions themselves otherwise |
| WhereCompiler.ScalarEntriesOneEach | src/index.js:709-722 | each scalar entry gives exactly one condition `field key value`, in key order |
| WhereCompiler.EqualityReusesField | src/index.js:710-721 | `{'==': v}` compares the enclosing field with `=` |
| WhereCompiler.CaseInsensitiveEntry | src/index.js:594-596 | ILIKE and LIKEI entries compare lower-cased text with LIKE |
| WhereCompiler.EqualityMember | src/index.js:648-650 | a group member `{k: {'=': v}}` or `{k: {'==': v}}` gives the one condition `k = v` |
| WhereCompiler.ScalarOnlyGroup | src/index.js:643-666 | as written, a nested group of scalars only compiles to `()` |
| QueryCompiler.TrimmedPieces | src/index.js:527 | one trimmed piece per comma-separated part |
| QueryCompiler.NormalizeOrderDef | src/index.js:534-544 | a string becomes a two-element `[column, direction]`; anything other than a one-element list is kept |
| QueryCompiler.OrderItemText | src/index.js:547-549 | an item renders only when it is a string or an array whose second element is a string; otherwise destructuring or `toUpperCase` throws |
| QueryCompiler.QueryClauses | src/index.js:460-571 | no contract of its own: `parseQuery` as a function, `''` for a non-object query; `QueryCompiler.ParseQuery` proves the method equal to it |
| QueryCompiler.Clauses | src/index.js:467-571 | no contract of its own: WHERE, ORDER BY, LIMIT and OFFSET concatenated, after a missing `where` is set to `{}` |
| QueryCompiler.GatherConditions | src/index.js:482-487 | no contract of its own: the `Object.entries` loop as a function; `QueryCompiler.GatherKept` states that it collects exactly the entries whose key is neither reserved nor an inherited `Object.prototype` member, in order, and `QueryCompiler.GatherConcat` that it runs entry by entry |
| QueryCompiler.WhereMembers | src/index.js:489-497 | no contract of its own: an object `where` is merged onto the gathered conditions; an array `where` is followed by them when there are any |
| QueryCompiler.WhereClause | src/index.js:477-503 | no contract of its own: a string `where` verbatim, an object or array compiled and prefixed with ` WHERE ` unless empty |
| QueryCompiler.OrderClause | src/index.js:524-550 | no contract of its own: `order`, `orderBy` or `sort`, normalised and rendered, or `TypeError` |
| QueryCompiler.LimitClause | src/index.js:562-564 | no contract of its own: ` LIMIT n` for a number `limit` |
| QueryCompiler.OffsetClause | src/index.js:565-569 | no contract of its own: ` OFFSET n` for a number `skip`, else for a number `offset` |
| QueryCompiler.QueryOrEmpty | src/index.js:461 | no contract of its own: a falsy query becomes `{}`; `QueryCompiler.EmptyQuery` states that it then yields `''` |
| QueryCompiler.WithWhere | src/index.js:477 | no contract of its own: a falsy `where` is set to `{}`; `QueryCompiler.WhereFilledIn` states that this appends `where: {}` and keeps every other key's value |
| QueryCompiler.HasProperty | src/index.js:484 | no contract of its own: `key in whereObj`, an own key or an inherited `Object.prototype` member; `QueryCompiler.GatherKept` states which entries it lets through |
| QueryCompiler.ObjectPrototypeMembers | src/index.js:484 | constant: the inherited `Object.prototype` names that `key in whereObj` finds on a plain object |
| QueryCompiler.OrderSource | src/index.js:524 | no contract of its own: `order` if truthy, else `orderBy` if truthy, else `sort`; `QueryCompiler.OrderClauseBySource` states that only these keys decide the ORDER BY clause |
| QueryCompiler.Or | src/index.js:524 | no contract of its own: JavaScript's logical or on values, `a` when truthy and `b` otherwise; used by `QueryCompiler.OrderSource` |
| QueryCompiler.Elements | src/index.js:547 | no contract of its own: what array destructuring reads from an array or a string; `QueryCompiler.OrderItemText` and `QueryCompiler.PairText` state the rendering that follows |
| QueryCompiler.OrderList | src/index.js:526-531 | no contract of its own: a string split on commas and trimmed, an array kept, anything else dropped; `QueryCompiler.OrderStringPieces` and `QueryCompiler.OrderListClause` state what it gives |
| QueryCompiler.ParseQuery | src/index.js:460-571 | the clauses assembled step by step are exactly `QueryClauses` |
| QueryCompiler.CollectConditions | src/index.js:482-487 | the `Object.entries` loop collects exactly `GatherConditions` |
| QueryCompiler.BuildWhereClause | src/index.js:477-503 | the WHERE part is exactly `WhereClause` |
| QueryCompiler.BuildOrderClause | src/index.js:524-550 | the `forEach` rewrite, `map` and `join` give exactly `OrderClause` |
| QueryCompiler.EmptyQuery | src/index.js:460-571 | a missing, falsy or empty query yields `''` |
| QueryCompiler.EmptyWhereCompiles | src/index.js:498-503 | an empty `where` object compiles to no condition, so no WHERE clause is added |
| QueryCompiler.NonObjectQuery | src/index.js:461-465 | a truthy query that is not a plain object yields `''` |
| QueryCompiler.StringWhereVerbatim | src/index.js:478-479 | a string `where` is used verbatim, before the other clauses |
| QueryCompiler.SkipOverridesOffset | src/index.js:565-569 | a numeric `skip` decides the OFFSET whatever `offset` is |
| QueryCompiler.LimitOnlyForNumbers | src/index.js:562-564 | a LIMIT clause appears exactly when `limit` is a number |
| QueryCompiler.WhereObjectWinsClash | src/index.js:490-491 | with an object `where`, a key it shares with a top-level condition takes the `where` value |
| QueryCompiler.WhereArrayKeepsOrder | src/index.js:492-496 | with an array `where`, its members come first and the top-level conditions last |
| QueryCompiler.BareColumnAscending | src/index.js:536-543 | `'c'` and `['c']` both become `['c', 'ASC']` |
| QueryCompiler.ColumnAndDirection | src/index.js:536-539 | `'c d'` becomes `['c', 'd']` |
| QueryCompiler.PairText | src/index.js:547-549 | a pair renders as `'c' D` with the direction upper-cased |
| QueryCompiler.NonIterableOrderThrows | src/index.js:547 | an order item that is neither a string nor an array throws `TypeError` |
| QueryCompiler.OrderItemRenders | src/index.js:534-549 | every spelling of an item, `'c'`, `'c d'`, `['c']` or `['c', 'd']`, renders as `'c' D`, ASC where no direction is given |
| QueryCompiler.OrderTexts | src/index.js:547-549 | one `'c' D` text per column |
| QueryCompiler.OrderListClause | src/index.js:524-550 | an order list of strings, one-element lists and pairs, mixed, gives ` ORDER BY ` and the items `'c' D` joined with `, `, in order |
| QueryCompiler.OrderStringPieces | src/index.js:526-528 | a string order is split on commas and no piece keeps white space at either end |
| QueryCompiler.GatherAll | src/index.js:482-487 | when no key is reserved or inherited, the entries loop copies every entry, in order |
| QueryCompiler.Gathered | src/index.js:483-486 | an entry is gathered exactly when it is in the query and its key is neither reserved nor inherited; with no such key, all entries are gathered |
| QueryCompiler.GatheredAppend | src/index.js:483 | gathering a concatenation gathers each part |
| QueryCompiler.GatheredNone | src/index.js:484 | a query of reserved or inherited keys alone gathers nothing |
| QueryCompiler.GatheredDistinct | src/index.js:483-486 | the gathered keys stay distinct |
| QueryCompiler.GatherKept | src/index.js:482-487 | the entries loop appends to what it holds exactly the `Gathered` entries: reserved keys (`order`, `limit`, `skip`, `where`, ...) and keys `key in` finds through the prototype are skipped |
| QueryCompiler.GatherConcat | src/index.js:483 | the entries loop over two lists is the loop over the first continued over the second |
| QueryCompiler.Equalities | src/index.js:591-610 | one `column = value` condition per entry |
| QueryCompiler.EqualityObject | src/index.js:767-769 | one `{'==': value}` wrapping per entry |
| QueryCompiler.PrepareFlat | src/index.js:760-772 | normalising a flat condition object wraps every value in `{'==': value}` and does nothing else |
| QueryCompiler.EqualityConditions | src/index.js:707-722 | each wrapped column gives one condition `column = value`, in key order |
| QueryCompiler.FlatGroupParts | src/index.js:644-662 | after normalisation a flat condition object is a one-member list whose conditions are its equalities |
| QueryCompiler.NoOtherClauses | src/index.js:524-569 | without `order`, `orderBy`, `sort`, `limit`, `skip` and `offset`, only the WHERE part remains |
| QueryCompiler.FlatQueryFields | src/index.js:477-487 | a flat query gets an empty `where`, and the entries loop gathers all its conditions |
| QueryCompiler.FlatCompiles | src/index.js:498-500 | a flat condition object compiles to its equalities joined by AND, and the text is not empty |
| QueryCompiler.FlatWhereClause | src/index.js:477-503 | the WHERE clause of a flat query is ` WHERE ` and its equalities joined by AND |
| QueryCompiler.FlatEqualityWhere | src/index.js:460-571 | a query of plain values under column names, `{a: 1, b: 'x'}`, gives ` WHERE a = 1 AND b = 'x'`: one equality per key, in key order |
| QueryCompiler.NameAndAgeFlat | test/parseQuery.spec.js:23-26 | `{name: 'Sean', age: 30}` is a flat condition object |
| QueryCompiler.NameAndAgeEqualities | test/parseQuery.spec.js:23-27 | its equalities are `name = 'Sean'` and `age = 30` |
| QueryCompiler.NameAndAgeText | test/parseQuery.spec.js:27 | joined by AND they read `name = 'Sean' AND age = 30` |
| QueryCompiler.NameAndAgeQuery | test/parseQuery.spec.js:23-28 | `{name: 'Sean', age: 30}` gives ` WHERE name = 'Sean' AND age = 30` |
| QueryCompiler.ExampleOperators | src/index.js:20-43 | `>` and `<` stand for themselves, `!=` and `<>` both mean `<>`, and none of them is ILIKE or LIKEI |
| QueryCompiler.ExampleOperatorKeys | src/index.js:20-43 | `>`, `<`, `!=`, `<>`, `=` and `==` are operator keys, so the normaliser leaves the values under them alone |
| QueryCompiler.AgeComparison | src/index.js:591-598 | `>`, `<`, `!=` and `<>` on `age` read `age > v`, `age < v`, `age <> v` and `age <> v` |
| QueryCompiler.AgeRangeConditions | src/index.js:719 | `{'>': lo, '<': hi, '!=': x, '<>': y}` under `age` gives `age > lo`, `age < hi`, `age <> x`, `age <> y` |
| QueryCompiler.AgeRangeText | src/index.js:707-727 | three levels down those four conditions are fused into one `(... AND ...)` |
| QueryCompiler.IdAlternativesText | src/index.js:641-666 | `or: [{id: {'=': a}}, {id: {'==': b}}]` at depth 2 gives `(id = a OR id = b)` |
| QueryCompiler.IdAlternativesParts | src/index.js:644-662 | the two alternatives give the conditions `id = a` and `id = b`, in order |
| QueryCompiler.RangeAndAlternativesText | src/index.js:707-722 | the `age` and `or` members of the `where` object stay two separate conditions at depth 2 |
| QueryCompiler.WhereOnlyQuery | src/index.js:477-503 | a query whose only key is an object `where` compiles to that object's normalised conditions joined by AND, with ` WHERE ` unless empty |
| QueryCompiler.RangeAndAlternativesNormalized | src/index.js:734-772 | the nested example is already in normal form, so normalising changes nothing |
| QueryCompiler.TwoConditionWhere | src/index.js:498-500 | a normalised `where` object with the two conditions `p` and `q` compiles to `p AND q` |
| QueryCompiler.RangeAndAlternativesCompiles | src/index.js:641-666 | at the top the age range and the alternatives are joined by AND, each in its own parentheses |
| QueryCompiler.RangeAndAlternativesQuery | test/parseQuery.spec.js:30-44 | for any bounds and ids, the nested query gives ` WHERE (age > lo AND age < hi AND age <> x AND age <> y) AND (id = a OR id = b)` |
| QueryCompiler.FourthWhereTestNumbers | test/parseQuery.spec.js:33-40 | the bounds and ids 20, 50, 30, 40, 1 and 5 render in decimal |
| QueryCompiler.FourthWhereTest | test/parseQuery.spec.js:30-45 | the nested test query gives ` WHERE (age > 20 AND age < 50 AND age <> 30 AND age <> 40) AND (id = 1 OR id = 5)` |
| QueryCompiler.ImplicitGatheredFlat | src/index.js:482-487 | in a query with distinct keys, no `where` and plain values under non-operator column names, the gathered entries form a flat condition object |
| QueryCompiler.WhereFilledIn | src/index.js:477 | filling in a missing `where` appends `where: {}`, which reads as `{}`, and every other key reads as before |
| QueryCompiler.ClauseKeysAfterWhere | src/index.js:477-569 | filling in `where: {}` leaves the ORDER BY, LIMIT and OFFSET clauses as they were |
| QueryCompiler.OrderClauseBySource | src/index.js:524 | two queries that agree on `order`, `orderBy` and `sort` have the same ORDER BY clause |
| QueryCompiler.ImplicitWhereClause | src/index.js:477-503 | without a `where`, the WHERE part is ` WHERE ` and the equalities of the gathered columns joined by AND, or nothing when no column is gathered |
| QueryCompiler.ImplicitQueryClauses | src/index.js:460-571 | for such a query, `parseQuery` is the implicit WHERE part followed by the ORDER BY, LIMIT and OFFSET clauses, or the ORDER BY error |
| QueryCompiler.ClauseKeysOnly | src/index.js:460-571 | a query of reserved keys alone (no `where`) gives no WHERE part, only ORDER BY, LIMIT and OFFSET |
| QueryCompiler.CompleteQueryImplicit | test/parseQuery.spec.js:229-239 | the complete-clause query has distinct keys and plain values under its columns |
| QueryCompiler.CompleteQueryGathered | test/parseQuery.spec.js:229-239 | of its five keys only `role` and `age` are gathered, in that order |
| QueryCompiler.CompleteQueryOrder | test/parseQuery.spec.js:235-240 | `orderBy: [['role', 'desc'], ['age']]` gives ` ORDER BY 'role' DESC, 'age' ASC` |
| QueryCompiler.CompleteQueryCounts | test/parseQuery.spec.js:233-240 | `limit: 5` and `skip: 10` give ` LIMIT 5` and ` OFFSET 10` |
| QueryCompiler.CompleteClauseTest | test/parseQuery.spec.js:229-241 | the complete query gives ` WHERE role = 'admin' AND age = 30 ORDER BY 'role' DESC, 'age' ASC LIMIT 5 OFFSET 10` |
| QueryCompiler.LimitOnlyTest | test/parseQuery.spec.js:195-199 | `{limit: 3}` gives ` LIMIT 3` |
| QueryCompiler.OffsetOnly | test/parseQuery.spec.js:220-226 | a query whose one key is `offset` or `skip`, set to 3, gives ` OFFSET 3` |
| QueryCompiler.OffsetOnlyTests | test/parseQuery.spec.js:220-227 | `{offset: 3}` and `{skip: 3}` both give ` OFFSET 3` |
| QueryCompiler.OrderByOnly | src/index.js:460-571 | a query whose one key is `orderBy` gives its ORDER BY clause and nothing else |
| QueryCompiler.OrderByStringTest | test/parseQuery.spec.js:201-204 | `{orderBy: 'name'}` gives ` ORDER BY 'name' ASC` |
| QueryCompiler.NamePiece | src/index.js:527 | `'name'` split on commas and trimmed is `['name']` |
| QueryCompiler.OrderByColumnsTest | test/parseQuery.spec.js:206-208 | `{orderBy: ['age', 'name']}` gives ` ORDER BY 'age' ASC, 'name' ASC` |
| QueryCompiler.OrderByPairsTest | test/parseQuery.spec.js:210-217 | `{orderBy: [['age', 'DESC'], ['name', 'ASC']]}` gives ` ORDER BY 'age' DESC, 'name' ASC` |
| RecordPrep.RecordKeysDistinct | src/index.js:812 | a record's keys are distinct |
| RecordPrep.RecordKeys | src/index.js:809-812 | no contract of its own: `Object.keys` of a record; `RecordPrep.RecordKeysDistinct` states that the keys are distinct |
| RecordPrep.Read | src/index.js:811-826 | no contract of its own: reading a row slot, a hole left by `new Array` reading as `undefined`; `RecordPrep.SlotReadsAsSource` states what every slot reads |
| RecordPrep.Slot | src/index.js:811-826 | datatype: a row cell, a hole left by `new Array` or a stored value |
| RecordPrep.Sentinel | src/index.js:822-824 | constant: the `undefined` that `splice` stores when a column is added |
| RecordPrep.InsertLayout | src/index.js:795-834 | no contract of its own: what `_prepInsert` promises, the sorted key union as columns and one matching row per record; `RecordPrep.PrepInsert` ensures it and `RecordPrep.LayoutSlots` states what it implies for every slot |
| RecordPrep.Records | src/index.js:799-801 | no contract of its own: a non-array becomes `[data]` when truthy and `[]` otherwise; `Statements.CreateRejectsEmpty` and `Statements.CreateRejectsNoColumns` state what follows for such inputs |
| RecordPrep.TakeRecords | src/index.js:803-806 | the records processed are the prefix before the first null or undefined one |
| RecordPrep.TakeRecordsAt | src/index.js:803-806 | stopping at position `i` is stopping at the first nullish record |
| RecordPrep.AddNew | src/index.js:816-818 | adding a record's keys gives exactly the old and the new keys |
| RecordPrep.AddNewDistinct | src/index.js:816-818 | adding only missing keys keeps a list duplicate-free |
| RecordPrep.UnionKeyListDistinct | src/index.js:803-829 | the union of the keys has no duplicates |
| RecordPrep.UnionKeyList | src/index.js:803-829 | no contract of its own: the records' keys in order of first appearance; `RecordPrep.UnionKeyListDistinct` and `RecordPrep.UnionKeyListMembers` state what it holds |
| RecordPrep.ColumnUnion | src/index.js:809-818 | no contract of its own: the sorted union of the keys; `RecordPrep.ColumnUnionSpec` states that it is strictly sorted and holds exactly those keys |
| RecordPrep.UnionKeyListMembers | src/index.js:803-829 | a key is in the union exactly when some record has it |
| RecordPrep.UnionKeyListStep | src/index.js:812-827 | one more record adds its new keys |
| RecordPrep.UnionCovers | src/index.js:803-829 | a key missing from the union of a prefix is missing from every record of it |
| RecordPrep.ColumnUnionSpec | src/index.js:809-818 | the columns are strictly sorted and are exactly the union of the keys |
| RecordPrep.SortedDistinct | src/index.js:809-818 | a strictly sorted column list has no duplicate |
| RecordPrep.SortedUnique | src/index.js:809-818 | two strictly sorted lists with the same elements are equal |
| RecordPrep.SortedIndexOf | src/index.js:819 | in a strictly sorted list, `indexOf` finds the one position of the element |
| RecordPrep.InsertAtMembers | src/index.js:818 | splicing in `x` adds exactly `x` |
| RecordPrep.SlotReadsAsSource | src/index.js:826 | every expected slot reads as `_parseValue(record[column])`, `undefined` for a missing key |
| RecordPrep.ExpectedSlot | src/index.js:803-829 | no contract of its own: the slot of a column in a record's row, its parsed value when the record has the key, a hole when an earlier record has it, and the spliced-in `undefined` otherwise |
| RecordPrep.WidenRow | src/index.js:821-823 | splicing the sentinel under a column that is new to a finished row keeps it as expected |
| RecordPrep.WidenRows | src/index.js:821-823 | the same for every earlier row |
| RecordPrep.WidenPartialRow | src/index.js:824-826 | splicing into the current row and storing the value extends it by the new key |
| RecordPrep.FillPartialRow | src/index.js:826 | storing under an existing column extends the current row by the key |
| RecordPrep.FinishRow | src/index.js:828 | a row holding all its record's keys is as expected |
| RecordPrep.Tables | src/index.js:812 | one entry list per record |
| RecordPrep.SpliceSentinel | src/index.js:821-823 | every earlier row gets an `undefined` spliced in at the index |
| RecordPrep.StartRow | src/index.js:808-811 | the first record's sorted keys become the columns, and the new row is all holes |
| RecordPrep.WidenColumns | src/index.js:817-826 | a new key is added at its sorted position, earlier rows are widened and its value is stored |
| RecordPrep.AddColumn | src/index.js:817-826 | the state after one more key of the record, when that key is new |
| RecordPrep.ColumnsStep | src/index.js:813-827 | the columns after one more key are those before plus that key |
| RecordPrep.ColumnsCoverPrior | src/index.js:816 | the keys of earlier records already have columns |
| RecordPrep.FillCell | src/index.js:813-827 | one key of the record is stored under its column, added first if new |
| RecordPrep.FinishRecord | src/index.js:828 | the finished row and the columns make up the state after one more record |
| RecordPrep.BuildRow | src/index.js:804-829 | one record is processed; the invariant holds for one more record |
| RecordPrep.FinishRecords | src/index.js:803-833 | at the end, the columns are the sorted key union and the rows match |
| RecordPrep.TakeTables | src/index.js:803-806 | stopping at the first nullish record has taken exactly the records before it |
| RecordPrep.PrepInsert | src/index.js:795-834 | `columns` is the sorted, duplicate-free union of the keys of the records before the first null one; one row per record, each slot as `ExpectedSlot` says |
| RecordPrep.LayoutSlots | src/index.js:777-790 | each column is some record's key; each row is as wide as the columns; a slot holds `_parseValue(record[c])` when the record has `c` and reads as `undefined` otherwise |
| Statements.CellText | src/index.js:255-257 | `undefined` renders as `NULL`, any other value as its string; `Statements.CellTextNullOnlyForUndefined` states that a parsed plain value renders as `NULL` exactly when it is `undefined`, and `Statements.RenderedRowReadsRecord` that the cells of a row read the record's values |
| Statements.CellTextNullOnlyForUndefined | src/index.js:255-257 | for a string, number, boolean, null or undefined passed through `_parseValue`, the cell text is `NULL` exactly when the value is `undefined` |
| Statements.CellTexts | src/index.js:252-260 | one text per slot, a hole reading as `undefined`; `Statements.RenderedRowReadsRecord` states that these texts are the record's values through `_parseValue`, `NULL` for a missing key |
| Statements.ReduceRow | src/index.js:252-260 | no contract of its own: the `reduce` of `_create` as written, skipping holes; stated by `Statements.ReduceWithoutHoles`, `Statements.TrailingHoleDropped` and `Statements.LeadingHoleSeparator` |
| Statements.RenderRow | src/index.js:252-260 | no contract of its own: the intended rendering, the cell texts joined by `, `; stated by `Statements.RenderedRowReadsRecord` |
| Statements.ReduceWithoutHoles | src/index.js:252-260 | on a row without holes, the written `reduce` equals the join of the cell texts |
| Statements.TrailingHoleDropped | src/index.js:252-260 | as written, a trailing hole loses its `NULL` |
| Statements.LeadingHoleSeparator | src/index.js:252-260 | as written, a leading hole starts the list with `, ` |
| Statements.TwoRecordsColumns | src/index.js:809-818 | `[{a, b}, {a}]` gives the columns `a, b` |
| Statements.MissingKeyReachesReduce | src/index.js:252-261 | for `[{a: 1, b: 2}, {a: 1}]` the second row is `[1, hole]`, which the written `reduce` renders as `1` for two columns |
| Statements.RenderedRowReadsRecord | src/index.js:252-261 | the corrected VALUES list of a row is the record's values through `_parseValue`, `NULL` for a missing key |
| Statements.StatementReadsRecord | src/index.js:261 | an INSERT statement names all columns and lists the record's values in the same order |
| Statements.InsertStatement | src/index.js:261 | no contract of its own: the INSERT template with the intended VALUES list |
| Statements.InsertStatementAsWritten | src/index.js:252-261 | no contract of its own: the INSERT template with the VALUES list of the written `reduce` |
| Statements.SourceRowText | src/index.js:252-260 | no contract of its own: the VALUES list of a record under the columns, read straight from the record; `Statements.RenderedRowReadsRecord` states that the corrected rendering of its row equals it |
| Statements.ExpectedRow | src/index.js:795-834 | the expected row matches its record; `RecordPrep.SlotReadsAsSource`, `RecordPrep.LayoutSlots` and `Statements.LayoutRows` state that each of its slots reads as `_parseValue(record[column])`, `undefined` for a missing key, and that the laid-out rows are these rows |
| Statements.LayoutRows | src/index.js:795-834 | the rows of a layout are the expected rows |
| Statements.CreateLayout | src/index.js:231-246 | no contract of its own: a missing input read as `{}`, `EmptyInput` for `[]` or `{}`, then `_prepInsert`, `InvalidInput` without columns |
| Statements.CreateInput | src/index.js:231 | no contract of its own: a falsy input is read as `{}`; `Statements.CreateRejectsEmpty` states that it then gives `EmptyInput` |
| Statements.CreateRecords | src/index.js:231-251 | no contract of its own: the records `_create` lays out, its input's records before the first null one; `Statements.CreateStatementText` states one statement per such record |
| Statements.CreateResult | src/index.js:230-262 | no contract of its own: one intended INSERT statement per laid-out row, or the layout's error |
| Statements.CreateResultAsWritten | src/index.js:230-262 | no contract of its own: `_create` as written, one statement per row rendered by the written `reduce` |
| Statements.CreateStatements | src/index.js:230-262 | `_create` up to execution with the corrected rendering gives exactly `CreateResult` |
| Statements.CreateRejectsEmpty | src/index.js:231-241 | `EmptyInput` exactly for a missing value, `[]` or `{}` |
| Statements.CreateStatementText | src/index.js:243-262 | with the corrected rendering, on success, one statement per record before the first null one, each `INSERT INTO t (columns) VALUES (values)` with a value or `NULL` per column |
| Statements.CreateRejectsNoColumns | src/index.js:243-246 | `[null]`, `[{}]` and a number give `InvalidInput` |
| Statements.KeptKeysNoHoles | src/index.js:803-829 | a record that has every key of the records before it gets a row without holes |
| Statements.CreateAsWrittenAgrees | src/index.js:230-262 | when every record has every key of the records before it, `_create` as written gives exactly the intended statements |
| Statements.TwoRecordsLayout | src/index.js:243-251 | `[{a: 1, b: 2}, {a: 1}]` is laid out in columns `a, b`, the second row `[1, hole]` |
| Statements.CreateAsWrittenDropsMissing | src/index.js:252-261 | for `[{a: 1, b: 2}, {a: 1}]`, the second statement is `... (a, b) VALUES (1)` as written and `... (a, b) VALUES (1, NULL)` as intended |
| Statements.Assignments | src/index.js:842-848 | one assignment per entry |
| Statements.PrepUpdate | src/index.js:841-854 | `TypeError` for null or undefined; `NothingToUpdate` when there is no key; otherwise `key = value` per key, in key order |
| Statements.AssignmentList | src/index.js:842-849 | the loop gives exactly one `key = _parseValue(value)` per entry, in order |
| Statements.AssignmentIsEquality | src/index.js:846-847 | each assignment reads like the WHERE equality `_parseCondition(key, '=', value)` |
| Statements.AssignmentQuotesStrings | src/index.js:846-847 | a string value is single-quoted |

## Left out

- Connection pool, `_execute`, promises and the affected-count checks of
  `_create` and of the other CRUD methods: these only sequence calls to the
  database driver. `_create` is modelled up to the statement list it would run.
- The other SQL templates (`_find`, `_findAll`, `_count`, `_sum`,
  `_update*`, `_destroy*`), `_createMany` and `getTable`: the table name is a
  parameter of `CreateStatements`.
- `utils.plainCopy`: values are immutable, so the copy changes nothing.
- The normaliser's update in place: it is modelled on values. The pass is
  idempotent and its input is a fresh copy, so no alias can observe the difference.
- In `_prepInsert`, the rows of `prepValues` are modelled as a sequence of
  sequences that is reassigned, not as shared arrays. No row is aliased in
  the source.
- Non-integer numbers and JavaScript's number formatting: numbers are
  integers rendered in decimal.
- Upper-casing beyond ASCII, and `sort()` by UTF-16 code units: the model
  compares code points.
- The reordering of integer-like keys that `Object.keys` performs, and
  `__proto__` as an own key: objects keep insertion order.
- Every record and update object is required to have distinct keys, as
  JavaScript objects do.
- JsText.Trim: its contract does not say that the result is exactly the
  middle of the input. It says only that the result is no longer than the
  input and has no white space at either end. The exact parts are stated by
  `JsText.TrimStart` and `JsText.TrimEnd`.
- Statements.CreateStatements: its contract ties `_create` to `CreateResult`,
  which renders each row with the corrected `RenderRow`, not with the written
  `reduce` (see "Findings"). `_create` as written is
  `Statements.CreateResultAsWritten`. `Statements.CreateAsWrittenAgrees` states
  when the two agree, and `Statements.CreateAsWrittenDropsMissing` shows an input
  where they differ.
- WhereCompiler.MembershipList: it covers lists of strings, numbers and
  booleans only. A list holding `null`, `undefined`, an object or an array
  falls outside its requires: `join` renders `null` and `undefined` as empty
  text, and the model states nothing about that case.
- Statements.CreateStatementText: it states the statements of the corrected
  rendering, a value or `NULL` for every column. As written, a record that lacks
  a key of an earlier record gets fewer values, as under "Findings".

## Findings

| source | as written | input that shows it | evidently intended | confidence | as-written member | corrected member |
|---|---|---|---|---|---|---|
| src/index.js:252-260 | rows built with `new Array(n)` keep holes, and `reduce` skips holes; the element at index 0 starts the text | records `[{a: 1, b: 2}, {a: 1}]`: the second statement is `INSERT INTO t (a, b) VALUES (1)`; a hole at index 0 gives `VALUES (, 3)` | one value per column, `NULL` where the record has no key: `VALUES (1, NULL)` | high, not executed | Statements.ReduceRow and Statements.CreateResultAsWritten, shown by Statements.MissingKeyReachesReduce, Statements.CreateAsWrittenDropsMissing, Statements.TrailingHoleDropped and Statements.LeadingHoleSeparator | Statements.RenderRow and Statements.CreateResult, with Statements.ReduceWithoutHoles, Statements.RenderedRowReadsRecord and Statements.CreateAsWrittenAgrees; used by Statements.CreateStatements |
