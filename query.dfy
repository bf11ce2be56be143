/**
 * `parseQuery`: the clause text appended to SELECT, COUNT, SUM, UPDATE and
 * DELETE statements, built from a js-data query object as
 * WHERE + ORDER BY + LIMIT + OFFSET.
 */
module QueryCompiler {
  import opened JsText
  import opened JsValue
  import opened Operators
  import opened WhereNormalizer
  import opened WhereCompiler

  /** Names that `key in obj` finds on every plain object, inherited from `Object.prototype`. */
  const ObjectPrototypeMembers: set<string> := {
    "constructor", "hasOwnProperty", "isPrototypeOf", "propertyIsEnumerable",
    "toLocaleString", "toString", "valueOf", "__proto__",
    "__defineGetter__", "__defineSetter__", "__lookupGetter__", "__lookupSetter__"
  }

  /** `key in obj` on a plain object: an own key or an inherited member. */
  predicate HasProperty(fs: seq<Field>, key: string)
  {
    key in KeysOf(fs) || key in ObjectPrototypeMembers
  }

  // ---------------------------------------------------------------------------
  // Specification functions, one per clause

  /** `query || {}`: a falsy query reads as the empty object. */
  function QueryOrEmpty(query: Value): Value
  {
    if Truthy(query) then query else Obj([])
  }

  /** `query.where || (query.where = {})`: the query's fields once a missing `where` is filled in. */
  function WithWhere(fs: seq<Field>): seq<Field>
  {
    if Truthy(Get(fs, "where")) then fs else SetProp(fs, "where", Obj([]))
  }

  /**
   * The entries of the query that are not reserved words, in order, skipping a
   * key the collected object already answers to (an inherited member name included).
   */
  function GatherConditions(acc: seq<Field>, entries: seq<Field>): seq<Field>
    decreases entries
  {
    if entries == [] then acc
    else
      var f := entries[0];
      var next := if f.key !in ReservedKeywords && !HasProperty(acc, f.key) then SetProp(acc, f.key, f.val) else acc;
      GatherConditions(next, entries[1..])
  }

  /**
   * The list of WHERE members: an object `where` merged over the collected
   * conditions (`Object.assign({}, whereObj, where)`), or an array `where`
   * followed by the collected conditions when there are any.
   */
  function WhereMembers(where: Value, whereObj: seq<Field>): seq<Value>
    requires where.Obj? || where.Arr?
  {
    if where.Obj? then [Obj(Assign(Assign([], whereObj), where.fields))]
    else if |whereObj| > 0 then where.items + [Obj(whereObj)]
    else where.items
  }

  /** The WHERE clause of a query whose `where` has been filled in. */
  function WhereClause(fs: seq<Field>): string
  {
    var where := Get(fs, "where");
    if where.Str? then where.s
    else if where.Obj? || where.Arr? then
      var members := WhereMembers(where, GatherConditions([], fs));
      var conditions := ParseWhereArray(PrepareWhereArray(members), KeywordAnd, "", 1);
      if conditions != "" then " WHERE " + conditions else ""
    else ""
  }

  /** `a || b` on JavaScript values. */
  function Or(a: Value, b: Value): Value
  {
    if Truthy(a) then a else b
  }

  /** `query.order || query.orderBy || query.sort`. */
  function OrderSource(fs: seq<Field>): Value
  {
    Or(Or(Get(fs, "order"), Get(fs, "orderBy")), Get(fs, "sort"))
  }

  /** `orderBy.split(',').map(s => s.trim())`. */
  function TrimmedPieces(s: string): (r: seq<Value>)
    ensures |r| == |Split(s, ',')|
  {
    var pieces := Split(s, ',');
    seq(|pieces|, i requires 0 <= i < |pieces| => Str(Trim(pieces[i])))
  }

  /** The ORDER BY list once a string has been split: `null` for anything that is not an array. */
  function OrderList(orderBy: Value): Value
  {
    var list := if orderBy.Str? then Arr(TrimmedPieces(orderBy.s)) else orderBy;
    if list.Arr? then list else Null
  }

  /**
   * The `forEach` rewrite of one order item: `'c d'` becomes `['c', d || 'ASC']`
   * and `['c']` becomes `['c', 'ASC']`; anything else is kept.
   */
  function NormalizeOrderDef(def: Value): (r: Value)
    ensures def.Str? ==> r.Arr? && |r.items| == 2 && r.items[1].Str?
    ensures !def.Str? && !(def.Arr? && |def.items| == 1) ==> r == def
  {
    match def
    case Str(s) =>
      var pieces := Split(s, ' ');
      var order := if |pieces| > 1 && pieces[1] != "" then pieces[1] else "ASC";
      Arr([Str(pieces[0]), Str(order)])
    case Arr(items) => if |items| == 1 then Arr(items + [Str("ASC")]) else def
    case _ => def
  }

  /** What array destructuring reads from an iterable: an array's items or a string's characters. */
  function Elements(v: Value): (r: seq<Value>)
    requires v.Arr? || v.Str?
  {
    if v.Arr? then v.items else seq(|v.s|, i requires 0 <= i < |v.s| => Str([v.s[i]]))
  }

  /**
   * `([column, order]) => \`'${column}' ${order.toUpperCase()}\``: destructuring
   * a non-iterable, or upper-casing a direction that is not a string, throws.
   */
  function OrderItemText(def: Value): (r: Result<string>)
    ensures r.Ok? ==> (def.Arr? || def.Str?) && |Elements(def)| >= 2 && Elements(def)[1].Str?
  {
    if !(def.Arr? || def.Str?) then Err(TypeError)
    else
      var xs := Elements(def);
      var column := if |xs| > 0 then xs[0] else Undef;
      var order := if |xs| > 1 then xs[1] else Undef;
      if order.Str? then Ok("'" + ToStr(column) + "' " + Upper(order.s)) else Err(TypeError)
  }

  /** The ORDER BY clause: empty for no list, the rendered items joined by `, ` otherwise. */
  function OrderClause(fs: seq<Field>): Result<string>
  {
    var list := OrderList(OrderSource(fs));
    if !list.Arr? || |list.items| == 0 then Ok("")
    else
      var defs := seq(|list.items|, i requires 0 <= i < |list.items| => NormalizeOrderDef(list.items[i]));
      if forall i :: 0 <= i < |defs| ==> OrderItemText(defs[i]).Ok? then
        Ok(" ORDER BY " + Join(seq(|defs|, i requires 0 <= i < |defs| => OrderItemText(defs[i]).value), ", "))
      else Err(TypeError)
  }

  /** ` LIMIT n` exactly when `limit` is a number. */
  function LimitClause(fs: seq<Field>): string
  {
    var limit := Get(fs, "limit");
    if limit.Num? then " LIMIT " + IntToDecimal(limit.n) else ""
  }

  /** ` OFFSET n` from `skip` when it is a number, else from `offset`. */
  function OffsetClause(fs: seq<Field>): string
  {
    var skip := Get(fs, "skip");
    var offset := Get(fs, "offset");
    if skip.Num? then " OFFSET " + IntToDecimal(skip.n)
    else if offset.Num? then " OFFSET " + IntToDecimal(offset.n)
    else ""
  }

  /** The whole of `parseQuery`: where + order + limit + offset, or the order clause's error. */
  function QueryClauses(query: Value): Result<string>
  {
    var q := QueryOrEmpty(query);
    if !q.Obj? then Ok("") else Clauses(WithWhere(q.fields))
  }

  /** The four clauses of a query object whose `where` has been filled in. */
  function Clauses(fs: seq<Field>): Result<string>
  {
    var order := OrderClause(fs);
    if order.Err? then Err(order.error)
    else Ok(WhereClause(fs) + order.value + LimitClause(fs) + OffsetClause(fs))
  }

  // ---------------------------------------------------------------------------
  // parseQuery

  /** `parseQuery`, step by step as the source assigns its clause variables. */
  method ParseQuery(query: Value) returns (r: Result<string>)
    ensures r == QueryClauses(query)
  {
    var q := QueryOrEmpty(query);
    if !q.Obj? {
      return Ok("");
    }
    var fs := WithWhere(q.fields);
    var whereClause := BuildWhereClause(fs);
    var orderByClause := BuildOrderClause(fs);
    if orderByClause.Err? {
      return Err(orderByClause.error);
    }
    var limitClause := LimitClause(fs);
    var offsetClause := OffsetClause(fs);
    r := Ok(whereClause + orderByClause.value + limitClause + offsetClause);
  }

  /** The `for ... of Object.entries(query)` loop that collects the implicit conditions. */
  method CollectConditions(fs: seq<Field>) returns (whereObj: seq<Field>)
    ensures whereObj == GatherConditions([], fs)
  {
    whereObj := [];
    for k := 0 to |fs|
      invariant GatherConditions(whereObj, fs[k..]) == GatherConditions([], fs)
    {
      assert fs[k..][1..] == fs[k + 1..];
      var f := fs[k];
      if f.key !in ReservedKeywords && !HasProperty(whereObj, f.key) {
        whereObj := SetProp(whereObj, f.key, f.val);
      }
    }
    assert fs[|fs|..] == [];
  }

  /** The WHERE part of `parseQuery`. */
  method BuildWhereClause(fs: seq<Field>) returns (whereClause: string)
    ensures whereClause == WhereClause(fs)
  {
    whereClause := "";
    var where := Get(fs, "where");
    if where.Str? {
      whereClause := where.s;
    } else if where.Obj? || where.Arr? {
      var whereObj := CollectConditions(fs);
      var whereArr := WhereMembers(where, whereObj);
      var conditions := ParseWhereArray(PrepareWhereArray(whereArr), KeywordAnd, "", 1);
      if conditions != "" {
        whereClause := " WHERE " + conditions;
      }
    }
  }

  /** The ORDER BY part of `parseQuery`: the `forEach` rewrite, then the `map` and `join`. */
  method BuildOrderClause(fs: seq<Field>) returns (r: Result<string>)
    ensures r == OrderClause(fs)
  {
    var orderBy := OrderList(OrderSource(fs));
    if !(orderBy.Arr? && |orderBy.items| > 0) {
      return Ok("");
    }
    var defs := orderBy.items;
    for index := 0 to |defs|
      invariant |defs| == |orderBy.items|
      invariant forall j :: 0 <= j < index ==> defs[j] == NormalizeOrderDef(orderBy.items[j])
      invariant forall j :: index <= j < |defs| ==> defs[j] == orderBy.items[j]
    {
      defs := defs[index := NormalizeOrderDef(defs[index])];
    }
    ghost var spec := seq(|orderBy.items|, i requires 0 <= i < |orderBy.items| => NormalizeOrderDef(orderBy.items[i]));
    assert defs == spec;
    var texts: seq<string> := [];
    for index := 0 to |defs|
      invariant |texts| == index
      invariant forall j :: 0 <= j < index ==> OrderItemText(defs[j]).Ok? && texts[j] == OrderItemText(defs[j]).value
    {
      var item := OrderItemText(defs[index]);
      if item.Err? {
        return Err(item.error);
      }
      texts := texts + [item.value];
    }
    assert texts == seq(|defs|, i requires 0 <= i < |defs| => OrderItemText(defs[i]).value);
    r := Ok(" ORDER BY " + Join(texts, ", "));
  }

  // ---------------------------------------------------------------------------
  // Properties

  /** A missing or falsy query, or the empty object, produces no clauses at all. */
  lemma EmptyQuery(query: Value)
    requires !Truthy(query) || query == Obj([])
    ensures QueryClauses(query) == Ok("")
  {
    var fs := WithWhere([]);
    assert fs == [Field("where", Obj([]))];
    assert Get(fs, "where") == Obj([]);
    forall k | k in ReservedKeywords && k != "where" ensures Get(fs, k) == Undef {
      assert Get(fs[1..], k) == Undef;
    }
    NoOtherClauses(fs);
    assert GatherConditions([], fs) == [];
    assert WhereMembers(Obj([]), []) == [Obj([])];
    EmptyWhereCompiles();
  }

  /** An empty `where` object compiles to no condition. */
  lemma EmptyWhereCompiles()
    ensures ParseWhereArray(PrepareWhereArray([Obj([])]), KeywordAnd, "", 1) == ""
  {
    assert PrepareWhereArray([Obj([])]) == [Obj([])];
    assert GroupParts([Obj([])], 1) == [];
    assert Upper(KeywordAnd) == KeywordAnd;
  }

  /** A truthy query that is not a plain object (a string, a number, an array) produces nothing. */
  lemma NonObjectQuery(query: Value)
    requires Truthy(query) && !query.Obj?
    ensures QueryClauses(query) == Ok("")
  {
  }

  /** A string `where` is used verbatim, ahead of the other clauses. */
  lemma StringWhereVerbatim(fs: seq<Field>, s: string, order: string)
    requires Get(fs, "where") == Str(s) && s != ""
    requires OrderClause(fs) == Ok(order)
    ensures QueryClauses(Obj(fs)) == Ok(s + order + LimitClause(fs) + OffsetClause(fs))
  {
    assert Truthy(Obj(fs));
    assert QueryOrEmpty(Obj(fs)) == Obj(fs);
    assert WithWhere(fs) == fs;
    assert WhereClause(fs) == s;
  }

  /** `skip` wins over `offset` whenever it is a number. */
  lemma SkipOverridesOffset(fs: seq<Field>)
    requires Get(fs, "skip").Num?
    ensures OffsetClause(fs) == " OFFSET " + IntToDecimal(Get(fs, "skip").n)
  {
  }

  /** No LIMIT clause unless `limit` is a number. */
  lemma LimitOnlyForNumbers(fs: seq<Field>)
    ensures LimitClause(fs) != "" <==> Get(fs, "limit").Num?
  {
  }

  /**
   * With an object `where`, the merged condition object answers every key the
   * `where` has with the `where`'s value, and any other key with the top-level condition.
   */
  lemma WhereObjectWinsClash(whereFields: seq<Field>, whereObj: seq<Field>, k: string)
    requires DistinctKeys(whereFields) && DistinctKeys(whereObj)
    ensures var merged := WhereMembers(Obj(whereFields), whereObj)[0].fields;
      Get(merged, k) == if k in KeysOf(whereFields) then Get(whereFields, k) else Get(whereObj, k)
  {
    AssignGet(Assign([], whereObj), whereFields, k);
    AssignGet([], whereObj, k);
  }

  /** With an array `where`, its members come first, in order, and the top-level conditions last. */
  lemma WhereArrayKeepsOrder(items: seq<Value>, whereObj: seq<Field>)
    requires |whereObj| > 0
    ensures WhereMembers(Arr(items), whereObj) == items + [Obj(whereObj)]
  {
  }

  /** A bare column sorts ascending, written as a string or as a one-element list. */
  lemma BareColumnAscending(c: string)
    requires ' ' !in c
    ensures NormalizeOrderDef(Str(c)) == Arr([Str(c), Str("ASC")])
    ensures NormalizeOrderDef(Arr([Str(c)])) == Arr([Str(c), Str("ASC")])
  {
    SplitJoin([c], ' ');
  }

  /** `'c d'` names the same order as `['c', 'd']`. */
  lemma ColumnAndDirection(c: string, d: string)
    requires ' ' !in c && ' ' !in d && d != ""
    ensures NormalizeOrderDef(Str(c + " " + d)) == Arr([Str(c), Str(d)])
  {
    SplitJoin([c, d], ' ');
    assert Join([c, d], " ") == c + " " + d;
  }

  /** A `[column, direction]` pair renders as the quoted column and the upper-cased direction. */
  lemma PairText(c: string, d: string)
    ensures OrderItemText(NormalizeOrderDef(Arr([Str(c), Str(d)]))) == Ok("'" + c + "' " + Upper(d))
  {
  }

  /** An order item that is neither a string nor an array throws, as destructuring it does. */
  lemma NonIterableOrderThrows(fs: seq<Field>, v: Value)
    requires OrderList(OrderSource(fs)) == Arr([v]) && !v.Arr? && !v.Str?
    ensures OrderClause(fs) == Err(TypeError)
  {
    assert NormalizeOrderDef(v) == v;
  }

  /**
   * The order item `v` names column `c` with direction `d`: as `'c'`, `'c d'`,
   * `['c']` or `['c', 'd']`, a missing direction standing for ASC.
   */
  predicate NamesOrder(v: Value, c: string, d: string)
  {
    (v == Str(c) && ' ' !in c && d == "ASC")
    || (v == Str(c + " " + d) && ' ' !in c && ' ' !in d && d != "")
    || (v == Arr([Str(c)]) && d == "ASC")
    || v == Arr([Str(c), Str(d)])
  }

  /** Every spelling of an order item renders as the quoted column and the upper-cased direction. */
  lemma OrderItemRenders(v: Value, c: string, d: string)
    requires NamesOrder(v, c, d)
    ensures OrderItemText(NormalizeOrderDef(v)) == Ok("'" + c + "' " + Upper(d))
  {
    if v == Str(c) && ' ' !in c && d == "ASC" {
      BareColumnAscending(c);
    } else if v == Str(c + " " + d) && ' ' !in c && ' ' !in d && d != "" {
      ColumnAndDirection(c, d);
    } else if v == Arr([Str(c)]) && d == "ASC" {
      assert NormalizeOrderDef(v) == Arr([Str(c), Str(d)]);
    }
    PairText(c, d);
  }

  /** The text of each `(column, direction)` pair, `'c' D`. */
  function OrderTexts(cs: seq<string>, ds: seq<string>): (r: seq<string>)
    requires |cs| == |ds|
    ensures |r| == |cs|
  {
    seq(|cs|, i requires 0 <= i < |cs| => "'" + cs[i] + "' " + Upper(ds[i]))
  }

  /**
   * An order list whose items each name a column and a direction, in any of
   * the accepted spellings, gives ` ORDER BY ` and, joined by `, `, each quoted
   * column with its upper-cased direction.
   */
  lemma OrderListClause(fs: seq<Field>, cs: seq<string>, ds: seq<string>)
    requires |cs| == |ds| > 0
    requires var list := OrderList(OrderSource(fs));
      list.Arr? && |list.items| == |cs| && forall i :: 0 <= i < |cs| ==> NamesOrder(list.items[i], cs[i], ds[i])
    ensures OrderClause(fs) == Ok(" ORDER BY " + Join(OrderTexts(cs, ds), ", "))
  {
    var list := OrderList(OrderSource(fs));
    var items := list.items;
    assert |items| == |cs| && forall i :: 0 <= i < |cs| ==> NamesOrder(items[i], cs[i], ds[i]);
    var defs := seq(|items|, i requires 0 <= i < |items| => NormalizeOrderDef(items[i]));
    forall i | 0 <= i < |defs| ensures OrderItemText(defs[i]) == Ok(OrderTexts(cs, ds)[i]) {
      OrderItemRenders(items[i], cs[i], ds[i]);
    }
    assert seq(|defs|, i requires 0 <= i < |defs| => OrderItemText(defs[i]).value) == OrderTexts(cs, ds);
  }

  /** A string order is split on commas, and no piece keeps white space at either end. */
  lemma OrderStringPieces(s: string)
    ensures var list := OrderList(Str(s));
      list.Arr? && |list.items| == |Split(s, ',')|
      && forall i :: 0 <= i < |list.items| ==>
        list.items[i].Str? && |list.items[i].s| <= |Split(s, ',')[i]|
        && (list.items[i].s == [] || (!IsSpace(list.items[i].s[0]) && !IsSpace(list.items[i].s[|list.items[i].s| - 1])))
  {
  }

  // ---------------------------------------------------------------------------
  // Whole queries with implicit equalities

  /** Top-level conditions such as `{name: 'Sean', age: 30}`: plain values under column names. */
  predicate FlatConditions(fs: seq<Field>)
  {
    DistinctKeys(fs)
    && forall i :: 0 <= i < |fs| ==>
      IsScalar(fs[i].val) && Gatherable(fs[i].key) && !IsOperatorKey(fs[i].key)
  }

  /** A key the entries loop always copies into an empty-so-far object: not reserved, not inherited. */
  predicate Gatherable(k: string)
  {
    k !in ReservedKeywords && k !in ObjectPrototypeMembers
  }

  /** Moving the first entry onto the gathered list keeps the whole list, and so its keys distinct. */
  lemma MoveFirst(acc: seq<Field>, f: Field, rest: seq<Field>)
    requires DistinctKeys(acc + ([f] + rest))
    ensures (acc + [f]) + rest == acc + ([f] + rest)
    ensures DistinctKeys((acc + [f]) + rest)
  {
    assert (acc + [f]) + rest == acc + ([f] + rest);
  }

  /** The entries of a query the loop is meant to collect, in order: those under a gatherable key. */
  function Gathered(fs: seq<Field>): (r: seq<Field>)
    ensures forall f :: f in r <==> f in fs && Gatherable(f.key)
    ensures (forall i :: 0 <= i < |fs| ==> Gatherable(fs[i].key)) ==> r == fs
  {
    if fs == [] then []
    else if Gatherable(fs[0].key) then [fs[0]] + Gathered(fs[1..])
    else
      assert !(forall i :: 0 <= i < |fs| ==> Gatherable(fs[i].key));
      Gathered(fs[1..])
  }

  /** Gathering a concatenation gathers each part. */
  lemma {:induction false} GatheredAppend(a: seq<Field>, b: seq<Field>)
    ensures Gathered(a + b) == Gathered(a) + Gathered(b)
  {
    if a != [] {
      assert (a + b)[0] == a[0] && (a + b)[1..] == a[1..] + b;
      GatheredAppend(a[1..], b);
    } else {
      assert a + b == b;
    }
  }

  /** Nothing is gathered from entries whose keys are all reserved or inherited. */
  lemma {:induction false} GatheredNone(fs: seq<Field>)
    requires forall i :: 0 <= i < |fs| ==> !Gatherable(fs[i].key)
    ensures Gathered(fs) == []
  {
    if fs != [] {
      var rest := fs[1..];
      assert !Gatherable(fs[0].key);
      assert forall i :: 0 <= i < |rest| ==> !Gatherable(rest[i].key) by {
        assert forall i :: 0 <= i < |rest| ==> rest[i] == fs[i + 1];
      }
      GatheredNone(rest);
    }
  }

  /** The keys of the gathered entries stay distinct. */
  lemma {:induction false} GatheredDistinct(fs: seq<Field>)
    requires DistinctKeys(fs)
    ensures DistinctKeys(Gathered(fs))
  {
    if fs != [] {
      var rest := fs[1..];
      DistinctKeysTail(fs);
      GatheredDistinct(rest);
      if Gatherable(fs[0].key) {
        var gr := Gathered(rest);
        GatheredFrom(rest, fs[0].key);
        ConsDistinct(fs[0], gr);
      }
    }
  }

  /** A key that no entry has is not the key of any gathered entry. */
  lemma GatheredFrom(fs: seq<Field>, k: string)
    requires k !in KeysOf(fs)
    ensures k !in KeysOf(Gathered(fs))
  {
    var g := Gathered(fs);
    forall i | 0 <= i < |g| ensures g[i].key != k {
      assert g[i] in fs;
      var j :| 0 <= j < |fs| && fs[j] == g[i];
      assert KeysOf(fs)[j] == g[i].key;
    }
  }

  lemma ConsDistinct(f: Field, fs: seq<Field>)
    requires DistinctKeys(fs) && f.key !in KeysOf(fs)
    ensures DistinctKeys([f] + fs)
  {
    var g := [f] + fs;
    forall i, j | 0 <= i < j < |g| ensures g[i].key != g[j].key {
      assert g[j] == fs[j - 1] && KeysOf(fs)[j - 1] == fs[j - 1].key;
      if i > 0 {
        assert g[i] == fs[i - 1];
      }
    }
  }

  /** Dropping one entry from a list with distinct keys leaves them distinct. */
  lemma DropEntryDistinct(acc: seq<Field>, f: Field, rest: seq<Field>)
    requires DistinctKeys(acc + ([f] + rest))
    ensures DistinctKeys(acc + rest)
  {
    var all := acc + ([f] + rest);
    var x := acc + rest;
    forall i | 0 <= i < |x| ensures x[i] == all[if i < |acc| then i else i + 1] {
    }
  }

  /**
   * The entries loop of `parseQuery` copies, in order, every entry whose key
   * is neither reserved (`order`, `limit`, `where`, ...) nor found by `key in`
   * on the collected object, which for a JavaScript object means an inherited
   * `Object.prototype` member such as `constructor`.
   */
  lemma {:induction false} GatherKept(acc: seq<Field>, entries: seq<Field>)
    requires DistinctKeys(acc + entries)
    ensures GatherConditions(acc, entries) == acc + Gathered(entries)
    decreases entries
  {
    if entries == [] {
      assert acc + [] == acc;
    } else {
      var f := entries[0];
      var rest := entries[1..];
      assert entries == [f] + rest;
      if Gatherable(f.key) {
        assert f.key !in KeysOf(acc) by {
          var all := acc + entries;
          forall i | 0 <= i < |acc| ensures acc[i].key != f.key {
            assert all[i] == acc[i] && all[|acc|] == f;
          }
        }
        assert GatherConditions(acc, entries) == GatherConditions(acc + [f], rest) by {
          AppendNewKey(acc, f);
        }
        MoveFirst(acc, f, rest);
        GatherKept(acc + [f], rest);
        assert Gathered(entries) == [f] + Gathered(rest);
        AppendOne(acc, f, Gathered(rest));
      } else {
        assert GatherConditions(acc, entries) == GatherConditions(acc, rest);
        DropEntryDistinct(acc, f, rest);
        GatherKept(acc, rest);
      }
    }
  }

  lemma AppendOne(acc: seq<Field>, f: Field, rest: seq<Field>)
    ensures (acc + [f]) + rest == acc + ([f] + rest)
  {
  }

  /** With every key gatherable, the entries loop copies all entries, in order. */
  lemma GatherAll(acc: seq<Field>, entries: seq<Field>)
    requires DistinctKeys(acc + entries)
    requires forall i :: 0 <= i < |entries| ==> Gatherable(entries[i].key)
    ensures GatherConditions(acc, entries) == acc + entries
  {
    GatherKept(acc, entries);
  }

  /** The entries loop over two lists is the loop over the first, continued over the second. */
  lemma {:induction false} GatherConcat(acc: seq<Field>, a: seq<Field>, b: seq<Field>)
    ensures GatherConditions(acc, a + b) == GatherConditions(GatherConditions(acc, a), b)
    decreases a
  {
    if a == [] {
      assert a + b == b;
    } else {
      assert (a + b)[0] == a[0] && (a + b)[1..] == a[1..] + b;
      var f := a[0];
      var next := if f.key !in ReservedKeywords && !HasProperty(acc, f.key) then SetProp(acc, f.key, f.val) else acc;
      GatherConcat(next, a[1..], b);
    }
  }

  /** The condition `column = value` of each entry, in key order, values through `_parseValue`. */
  function Equalities(fs: seq<Field>): (r: seq<string>)
    ensures |r| == |fs|
  {
    seq(|fs|, i requires 0 <= i < |fs| => Equality(fs[i]))
  }

  /** The condition `column = value` of one entry. */
  function Equality(f: Field): string
  {
    f.key + " = " + ToStr(ParseValue(f.val))
  }

  /** The equalities of a non-empty list of entries: the first entry's, then the rest's. */
  lemma EqualitiesCons(fs: seq<Field>)
    requires fs != []
    ensures Equalities(fs) == [Equality(fs[0])] + Equalities(fs[1..])
  {
    var tail := fs[1..];
    var r := Equalities(fs);
    var rest := Equalities(tail);
    var c := [Equality(fs[0])] + rest;
    forall i | 0 <= i < |r| ensures r[i] == c[i] {
      if i > 0 {
        assert c[i] == rest[i - 1];
        assert rest[i - 1] == Equality(tail[i - 1]);
        assert tail[i - 1] == fs[i];
      }
    }
  }

  /** A flat condition object after normalisation: each value wrapped as `{'==': value}`. */
  function EqualityObject(fs: seq<Field>): (r: seq<Field>)
    ensures |r| == |fs|
  {
    seq(|fs|, i requires 0 <= i < |fs| => Field(fs[i].key, Obj([Field(OperatorEqual, fs[i].val)])))
  }

  /** Normalising a flat condition object wraps every value and does nothing else. */
  lemma PrepareFlat(fs: seq<Field>)
    requires FlatConditions(fs)
    ensures PrepareWhereObject(fs) == EqualityObject(fs)
  {
    forall i | 0 <= i < |fs| ensures PrepareEntry(fs[i]) == EqualityObject(fs)[i] {
      assert IsScalar(fs[i].val) && !IsOperatorKey(fs[i].key);
    }
  }

  /** Each wrapped column of a flat object gives one condition `column = value`, in key order. */
  lemma {:induction false} EqualityConditions(fs: seq<Field>, depth: int)
    requires forall i :: 0 <= i < |fs| ==> IsScalar(fs[i].val) && fs[i].key != OperatorEqual
    ensures ObjectConditions(EqualityObject(fs), "", depth) == Equalities(fs)
  {
    if fs != [] {
      var tail := fs[1..];
      assert forall i :: 0 <= i < |tail| ==> IsScalar(tail[i].val) && tail[i].key != OperatorEqual by {
        assert forall i :: 0 <= i < |tail| ==> tail[i] == fs[i + 1];
      }
      EqualityConditions(tail, depth);
      var e := EqualityObject(fs);
      assert e[1..] == EqualityObject(tail) by {
        assert forall i :: 0 <= i < |tail| ==> e[1..][i] == e[i + 1];
      }
      EqualityEntryCondition(fs[0].key, OperatorEqual, fs[0].val, "", depth);
      assert ObjectConditions(e, "", depth) == EntryConditions(e[0], "", depth) + ObjectConditions(e[1..], "", depth);
      EqualitiesCons(fs);
    }
  }

  /** No clause key is present, so ORDER BY, LIMIT and OFFSET are all empty. */
  lemma NoOtherClauses(fs: seq<Field>)
    requires forall k :: k in ReservedKeywords && k != "where" ==> Get(fs, k) == Undef
    ensures OrderClause(fs) == Ok("") && LimitClause(fs) == "" && OffsetClause(fs) == ""
    ensures Clauses(fs) == Ok(WhereClause(fs))
  {
    assert Get(fs, "order") == Undef && Get(fs, "orderBy") == Undef && Get(fs, "sort") == Undef;
    assert Get(fs, "limit") == Undef && Get(fs, "skip") == Undef && Get(fs, "offset") == Undef;
    var w := WhereClause(fs);
    assert w + "" + "" + "" == w;
  }

  /** A flat query gets an empty `where`, and the entries loop collects it whole. */
  lemma FlatQueryFields(fs: seq<Field>)
    requires FlatConditions(fs)
    ensures var fw := WithWhere(fs);
      fw == fs + [Field("where", Obj([]))]
      && Get(fw, "where") == Obj([])
      && (forall k :: k in ReservedKeywords && k != "where" ==> Get(fw, k) == Undef)
      && GatherConditions([], fw) == fs
  {
    var wf := Field("where", Obj([]));
    var fw := fs + [wf];
    assert "where" !in KeysOf(fs);
    AppendNewKey(fs, wf);
    forall k | k in ReservedKeywords ensures Get(fw, k) == if k == "where" then Obj([]) else Undef {
      GetAppend(fs, wf, k);
    }
    GatherConcat([], fs, [wf]);
    assert [] + fs == fs;
    GatherAll([], fs);
    assert GatherConditions(fs, [wf]) == GatherConditions(fs, []);
  }

  /** After normalisation, a flat condition object is a one-member list whose conditions are its equalities. */
  lemma FlatGroupParts(fs: seq<Field>)
    requires FlatConditions(fs)
    ensures var members := PrepareWhereArray([Obj(fs)]);
      |members| == 1 && GroupParts(members, 1) == Equalities(fs)
  {
    PrepareFlat(fs);
    var e := EqualityObject(fs);
    assert PrepareWhereArray([Obj(fs)]) == [Obj(e)];
    assert IsOperatorKey(OperatorEqual) by { assert Upper(OperatorEqual) == OperatorEqual; }
    EqualityConditions(fs, 2);
    var cs := Equalities(fs);
    assert [Obj(e)][1..] == [];
    assert ParseWhereObject(e, "", 2) == ObjectConditions(e, "", 2);
    assert GroupPart(Obj(e), 1) == cs;
    assert GroupParts([Obj(e)], 1) == cs + [];
  }

  /** A flat condition object, as the one member of the WHERE list, compiles to its equalities joined by AND. */
  lemma FlatCompiles(fs: seq<Field>)
    requires fs != [] && FlatConditions(fs)
    ensures var cs := Equalities(fs);
      ParseWhereArray(PrepareWhereArray([Obj(fs)]), KeywordAnd, "", 1) == Join(cs, " AND ")
      && Join(cs, " AND ") != ""
  {
    FlatGroupParts(fs);
    var members := PrepareWhereArray([Obj(fs)]);
    var cs := Equalities(fs);
    assert Upper(KeywordAnd) == KeywordAnd;
    assert " " + KeywordAnd + " " == " AND ";
    assert ParseWhereArray(members, KeywordAnd, "", 1) == Join(GroupParts(members, 1), " AND ");
    assert |cs[0]| > 0;
    if |cs| > 1 {
      assert Join(cs, " AND ") == cs[0] + " AND " + Join(cs[1..], " AND ");
    }
  }

  /** The WHERE clause of a flat query: its equalities joined by AND. */
  lemma FlatWhereClause(fs: seq<Field>)
    requires fs != [] && FlatConditions(fs)
    ensures WhereClause(WithWhere(fs)) == " WHERE " + Join(Equalities(fs), " AND ")
  {
    FlatQueryFields(fs);
    assert [] + fs == fs;
    AssignOntoEmpty([], fs);
    assert Assign(Assign([], fs), []) == fs;
    assert WhereMembers(Obj([]), fs) == [Obj(fs)];
    FlatCompiles(fs);
  }

  /**
   * The implicit conditions of a query, `{a: 1, b: 'x'}`, give
   * ` WHERE a = 1 AND b = 'x'`: one equality per key, in key order, joined by AND.
   */
  lemma FlatEqualityWhere(fs: seq<Field>)
    requires fs != [] && FlatConditions(fs)
    ensures QueryClauses(Obj(fs)) == Ok(" WHERE " + Join(Equalities(fs), " AND "))
  {
    assert Truthy(Obj(fs));
    assert QueryClauses(Obj(fs)) == Clauses(WithWhere(fs));
    FlatQueryFields(fs);
    var fw := WithWhere(fs);
    NoOtherClauses(fw);
    FlatWhereClause(fs);
  }

  /** The first query of the WHERE tests: `{name: 'Sean', age: 30}`. */
  const NameAndAge: seq<Field> := [Field("name", Str("Sean")), Field("age", Num(30))]

  lemma NameAndAgeFlat()
    ensures FlatConditions(NameAndAge)
  {
    assert Gatherable("name") && Gatherable("age");
    assert !IsOperatorKey("name") && !IsOperatorKey("age") by {
      assert Upper("name") == "NAME" && Upper("age") == "AGE";
    }
    assert DistinctKeys(NameAndAge);
  }

  /** Each key of the first test query gives its equality, the name quoted. */
  lemma NameAndAgeEqualities()
    ensures Equalities(NameAndAge) == ["name = 'Sean'", "age = 30"]
  {
    var cs := Equalities(NameAndAge);
    assert ToStr(ParseValue(Str("Sean"))) == "'Sean'";
    assert ToStr(ParseValue(Num(30))) == "30" by { assert IntToDecimal(30) == "30"; }
    assert cs[0] == "name" + " = " + "'Sean'" == "name = 'Sean'";
    assert cs[1] == "age" + " = " + "30" == "age = 30";
  }

  /** Joined by AND, they read `name = 'Sean' AND age = 30`. */
  lemma NameAndAgeText()
    ensures Join(Equalities(NameAndAge), " AND ") == "name = 'Sean' AND age = 30"
  {
    NameAndAgeEqualities();
    var cs := ["name = 'Sean'", "age = 30"];
    assert Join(cs, " AND ") == cs[0] + " AND " + cs[1];
  }

  /** `{name: 'Sean', age: 30}` compiles to ` WHERE name = 'Sean' AND age = 30`. */
  lemma NameAndAgeQuery()
    ensures QueryClauses(Obj(NameAndAge)) == Ok(" WHERE " + "name = 'Sean' AND age = 30")
  {
    NameAndAgeFlat();
    NameAndAgeText();
    FlatEqualityWhere(NameAndAge);
  }

  // ---------------------------------------------------------------------------
  // A nested filter

  /** `{'>': lo, '<': hi, '!=': x, '<>': y}`: four conditions on one column. */
  function AgeRange(lo: int, hi: int, x: int, y: int): seq<Field>
  {
    [Field(">", Num(lo)), Field("<", Num(hi)), Field("!=", Num(x)), Field("<>", Num(y))]
  }

  /** `[{id: {'=': a}}, {id: {'==': b}}]`: two alternatives. */
  function IdAlternatives(a: int, b: int): seq<Value>
  {
    [Obj([Field("id", Obj([Field("=", Num(a))]))]), Obj([Field("id", Obj([Field(OperatorEqual, Num(b))]))])]
  }

  /** `{age: {...}, or: [...]}`, the shape of the `where` of the fourth WHERE test. */
  function RangeAndAlternatives(lo: int, hi: int, x: int, y: int, a: int, b: int): seq<Field>
  {
    [Field("age", Obj(AgeRange(lo, hi, x, y))), Field("or", Arr(IdAlternatives(a, b)))]
  }

  /** The operators of the example keep their meaning; `!=` and `<>` both become `<>`. */
  lemma ExampleOperators()
    ensures GetOperator(">") == ">" && GetOperator("<") == "<" && GetOperator("!=") == "<>" && GetOperator("<>") == "<>"
    ensures !IsCaseInsensitiveLike(">") && !IsCaseInsensitiveLike("<") && !IsCaseInsensitiveLike("!=") && !IsCaseInsensitiveLike("<>")
  {
    assert Upper(">") == ">" && Upper("<") == "<" && Upper("!=") == "!=" && Upper("<>") == "<>";
  }

  /** The keys of the example's comparisons, `=` and `==` are operator keys, so normalisation keeps them. */
  lemma ExampleOperatorKeys()
    ensures IsOperatorKey(">") && IsOperatorKey("<") && IsOperatorKey("!=") && IsOperatorKey("<>")
    ensures IsOperatorKey("=") && IsOperatorKey(OperatorEqual)
  {
    assert Upper(">") == ">" && Upper("<") == "<" && Upper("!=") == "!=" && Upper("<>") == "<>";
    assert Upper("=") == "=" && Upper(OperatorEqual) == OperatorEqual;
  }

  /** Each comparison of the age range renders as `age OP n`. */
  lemma AgeRangeConditions(lo: int, hi: int, x: int, y: int)
    ensures ScalarConditions(AgeRange(lo, hi, x, y), "age")
      == ["age > " + IntToDecimal(lo), "age < " + IntToDecimal(hi), "age <> " + IntToDecimal(x), "age <> " + IntToDecimal(y)]
  {
    var fs := AgeRange(lo, hi, x, y);
    var cs := ScalarConditions(fs, "age");
    assert cs[0] == ParseCondition("age", ">", IntToDecimal(lo));
    assert cs[1] == ParseCondition("age", "<", IntToDecimal(hi));
    assert cs[2] == ParseCondition("age", "!=", IntToDecimal(x));
    assert cs[3] == ParseCondition("age", "<>", IntToDecimal(y));
    AgeComparison(">", IntToDecimal(lo));
    AgeComparison("<", IntToDecimal(hi));
    AgeComparison("!=", IntToDecimal(x));
    AgeComparison("<>", IntToDecimal(y));
  }

  /** The comparisons of the example on `age` read `age OP value`, `!=` written as `<>`. */
  lemma AgeComparison(op: string, v: string)
    requires op == ">" || op == "<" || op == "!=" || op == "<>"
    ensures op == ">" ==> ParseCondition("age", op, v) == "age > " + v
    ensures op == "<" ==> ParseCondition("age", op, v) == "age < " + v
    ensures op == "!=" || op == "<>" ==> ParseCondition("age", op, v) == "age <> " + v
  {
    ExampleOperators();
    if op == ">" {
      assert "age" + " " + ">" + " " + v == "age > " + v;
    } else if op == "<" {
      assert "age" + " " + "<" + " " + v == "age < " + v;
    } else {
      assert "age" + " " + "<>" + " " + v == "age <> " + v;
    }
  }

  /** Three levels down, the four conditions on `age` are fused into one parenthesised AND. */
  lemma AgeRangeText(lo: int, hi: int, x: int, y: int)
    ensures ParseWhereObject(AgeRange(lo, hi, x, y), "age", 3)
      == ["(" + Join(["age > " + IntToDecimal(lo), "age < " + IntToDecimal(hi),
                      "age <> " + IntToDecimal(x), "age <> " + IntToDecimal(y)], " AND ") + ")"]
  {
    FieldConditionsWrapped(AgeRange(lo, hi, x, y), "age", 3);
    AgeRangeConditions(lo, hi, x, y);
  }

  /** The `or` list at depth 2 has two members, so its alternatives are parenthesised. */
  lemma IdAlternativesText(a: int, b: int)
    ensures ParseWhereArray(IdAlternatives(a, b), "or", "", 2)
      == "(" + Join(["id = " + IntToDecimal(a), "id = " + IntToDecimal(b)], " OR ") + ")"
  {
    IdAlternativesParts(a, b);
    assert Upper("or") == "OR";
    assert " " + "OR" + " " == " OR ";
  }

  /** Each alternative is the one condition `id = n`. */
  lemma IdAlternativesParts(a: int, b: int)
    ensures GroupParts(IdAlternatives(a, b), 2) == ["id = " + IntToDecimal(a), "id = " + IntToDecimal(b)]
  {
    var items := IdAlternatives(a, b);
    EqualityMember("id", "=", Num(a), 2);
    EqualityMember("id", OperatorEqual, Num(b), 2);
    assert ToStr(ParseValue(Num(a))) == IntToDecimal(a) && ToStr(ParseValue(Num(b))) == IntToDecimal(b);
    var p0, p1 := GroupPart(items[0], 2), GroupPart(items[1], 2);
    assert p0 == ["id = " + IntToDecimal(a)] by { assert "id" + " = " + IntToDecimal(a) == "id = " + IntToDecimal(a); }
    assert p1 == ["id = " + IntToDecimal(b)] by { assert "id" + " = " + IntToDecimal(b) == "id = " + IntToDecimal(b); }
    assert items[1..][0] == items[1] && items[1..][1..] == [];
    assert GroupParts(items[1..], 2) == p1 + [];
    assert GroupParts(items, 2) == p0 + p1;
  }

  /** The two members of the `where` object stay separate conditions at depth 2. */
  lemma RangeAndAlternativesText(lo: int, hi: int, x: int, y: int, a: int, b: int)
    ensures ParseWhereObject(RangeAndAlternatives(lo, hi, x, y, a, b), "", 2)
      == ParseWhereObject(AgeRange(lo, hi, x, y), "age", 3) + [ParseWhereArray(IdAlternatives(a, b), "or", "", 2)]
  {
    var w := RangeAndAlternatives(lo, hi, x, y, a, b);
    assert w[1..][0] == w[1] && w[1..][1..] == [];
    assert ObjectConditions(w[1..], "", 2) == EntryConditions(w[1], "", 2) + [];
    assert ObjectConditions(w, "", 2) == EntryConditions(w[0], "", 2) + ObjectConditions(w[1..], "", 2);
    assert EntryConditions(w[0], "", 2) == ParseWhereObject(AgeRange(lo, hi, x, y), "age", 3);
    assert EntryConditions(w[1], "", 2) == [ParseWhereArray(IdAlternatives(a, b), "or", "", 2)];
    AgeRangeText(lo, hi, x, y);
  }

  /**
   * A query whose only key is an object `where` compiles to exactly that
   * object's conditions, normalised and joined by AND.
   */
  lemma WhereOnlyQuery(w: seq<Field>)
    requires DistinctKeys(w) && w != []
    ensures var c := ParseWhereArray(PrepareWhereArray([Obj(w)]), KeywordAnd, "", 1);
      QueryClauses(Obj([Field("where", Obj(w))])) == Ok(if c != "" then " WHERE " + c else "")
  {
    var q := [Field("where", Obj(w))];
    assert Truthy(Obj(q)) && Truthy(Obj(w));
    assert Get(q, "where") == Obj(w);
    assert WithWhere(q) == q;
    forall k | k in ReservedKeywords && k != "where" ensures Get(q, k) == Undef {
      assert Get(q[1..], k) == Undef;
    }
    NoOtherClauses(q);
    assert GatherConditions([], q) == GatherConditions([], []) == [];
    AssignOntoEmpty([], w);
    assert [] + w == w;
    assert WhereMembers(Obj(w), []) == [Obj(w)];
  }

  /** The example is already in normal form: every scalar sits under an operator. */
  lemma RangeAndAlternativesNormalized(lo: int, hi: int, x: int, y: int, a: int, b: int)
    ensures PrepareWhereArray([Obj(RangeAndAlternatives(lo, hi, x, y, a, b))]) == [Obj(RangeAndAlternatives(lo, hi, x, y, a, b))]
  {
    ExampleOperatorKeys();
    var ids := IdAlternatives(a, b);
    assert NormalizedObject(AgeRange(lo, hi, x, y));
    assert NormalizedElement(ids[0]) by { assert NormalizedObject([Field("=", Num(a))]); }
    assert NormalizedElement(ids[1]) by { assert NormalizedObject([Field(OperatorEqual, Num(b))]); }
    assert NormalizedArray(ids);
    var w := RangeAndAlternatives(lo, hi, x, y, a, b);
    assert NormalizedEntry(w[0]) && NormalizedEntry(w[1]);
    assert NormalizedArray([Obj(w)]);
    NormalizedArrayFixed([Obj(w)]);
  }

  /** A `where` object in normal form whose conditions are `p` and `q` compiles to `p AND q`. */
  lemma TwoConditionWhere(w: seq<Field>, p: string, q: string)
    requires PrepareWhereArray([Obj(w)]) == [Obj(w)]
    requires ParseWhereObject(w, "", 2) == [p, q]
    ensures ParseWhereArray(PrepareWhereArray([Obj(w)]), KeywordAnd, "", 1) == Join([p, q], " AND ")
  {
    assert [Obj(w)][1..] == [];
    assert GroupParts([Obj(w)], 1) == [p, q] + [];
    assert Upper(KeywordAnd) == KeywordAnd;
    assert " " + KeywordAnd + " " == " AND ";
  }

  /** At the top, the age range and the alternatives are joined by AND, each in its own parentheses. */
  lemma RangeAndAlternativesCompiles(lo: int, hi: int, x: int, y: int, a: int, b: int)
    ensures ParseWhereArray(PrepareWhereArray([Obj(RangeAndAlternatives(lo, hi, x, y, a, b))]), KeywordAnd, "", 1)
      == Join(["(" + Join(["age > " + IntToDecimal(lo), "age < " + IntToDecimal(hi),
                           "age <> " + IntToDecimal(x), "age <> " + IntToDecimal(y)], " AND ") + ")",
               "(" + Join(["id = " + IntToDecimal(a), "id = " + IntToDecimal(b)], " OR ") + ")"], " AND ")
  {
    var w := RangeAndAlternatives(lo, hi, x, y, a, b);
    var p := "(" + Join(["age > " + IntToDecimal(lo), "age < " + IntToDecimal(hi),
                         "age <> " + IntToDecimal(x), "age <> " + IntToDecimal(y)], " AND ") + ")";
    var q := "(" + Join(["id = " + IntToDecimal(a), "id = " + IntToDecimal(b)], " OR ") + ")";
    RangeAndAlternativesNormalized(lo, hi, x, y, a, b);
    RangeAndAlternativesText(lo, hi, x, y, a, b);
    AgeRangeText(lo, hi, x, y);
    IdAlternativesText(a, b);
    assert ParseWhereObject(w, "", 2) == [p] + [q] == [p, q];
    TwoConditionWhere(w, p, q);
  }

  /**
   * The fourth WHERE test, for any bounds and ids:
   * `{where: {age: {'>': lo, '<': hi, '!=': x, '<>': y}, or: [{id: {'=': a}}, {id: {'==': b}}]}}`
   * gives ` WHERE (age > lo AND age < hi AND age <> x AND age <> y) AND (id = a OR id = b)`.
   */
  lemma RangeAndAlternativesQuery(lo: int, hi: int, x: int, y: int, a: int, b: int)
    ensures QueryClauses(Obj([Field("where", Obj(RangeAndAlternatives(lo, hi, x, y, a, b)))]))
      == Ok(" WHERE " + Join(["(" + Join(["age > " + IntToDecimal(lo), "age < " + IntToDecimal(hi),
                                          "age <> " + IntToDecimal(x), "age <> " + IntToDecimal(y)], " AND ") + ")",
                              "(" + Join(["id = " + IntToDecimal(a), "id = " + IntToDecimal(b)], " OR ") + ")"], " AND "))
  {
    var w := RangeAndAlternatives(lo, hi, x, y, a, b);
    assert DistinctKeys(w);
    WhereOnlyQuery(w);
    RangeAndAlternativesCompiles(lo, hi, x, y, a, b);
  }

  /** The bounds and ids of the fourth WHERE test in decimal. */
  lemma FourthWhereTestNumbers()
    ensures ["age > " + IntToDecimal(20), "age < " + IntToDecimal(50), "age <> " + IntToDecimal(30), "age <> " + IntToDecimal(40)]
      == ["age > 20", "age < 50", "age <> 30", "age <> 40"]
    ensures ["id = " + IntToDecimal(1), "id = " + IntToDecimal(5)] == ["id = 1", "id = 5"]
  {
    assert IntToDecimal(20) == "20" && IntToDecimal(50) == "50" && IntToDecimal(30) == "30" && IntToDecimal(40) == "40";
    assert IntToDecimal(1) == "1" && IntToDecimal(5) == "5";
    var ages := ["age > " + IntToDecimal(20), "age < " + IntToDecimal(50), "age <> " + IntToDecimal(30), "age <> " + IntToDecimal(40)];
    assert ages[0] == "age > 20" && ages[1] == "age < 50" && ages[2] == "age <> 30" && ages[3] == "age <> 40";
    var ids := ["id = " + IntToDecimal(1), "id = " + IntToDecimal(5)];
    assert ids[0] == "id = 1" && ids[1] == "id = 5";
  }

  /** The fourth WHERE test as written, its parts joined as the compiler joins them. */
  lemma FourthWhereTest()
    ensures QueryClauses(Obj([Field("where", Obj(RangeAndAlternatives(20, 50, 30, 40, 1, 5)))]))
      == Ok(" WHERE " + Join(["(" + Join(["age > 20", "age < 50", "age <> 30", "age <> 40"], " AND ") + ")",
                              "(" + Join(["id = 1", "id = 5"], " OR ") + ")"], " AND "))
  {
    RangeAndAlternativesQuery(20, 50, 30, 40, 1, 5);
    FourthWhereTestNumbers();
  }

  // ---------------------------------------------------------------------------
  // Implicit conditions beside clause keys

  /**
   * A query without a `where` whose keys are clause keys (`orderBy`, `limit`,
   * `skip`, ...) or columns holding plain values.
   */
  predicate ImplicitQuery(fs: seq<Field>)
  {
    DistinctKeys(fs) && "where" !in KeysOf(fs)
    && forall i :: 0 <= i < |fs| && Gatherable(fs[i].key) ==> IsScalar(fs[i].val) && !IsOperatorKey(fs[i].key)
  }

  /** The gathered part of such a query is a flat condition object. */
  lemma ImplicitGatheredFlat(fs: seq<Field>)
    requires ImplicitQuery(fs)
    ensures FlatConditions(Gathered(fs))
  {
    var g := Gathered(fs);
    GatheredDistinct(fs);
    forall i | 0 <= i < |g| ensures IsScalar(g[i].val) && Gatherable(g[i].key) && !IsOperatorKey(g[i].key) {
      assert g[i] in fs;
    }
  }

  /** Filling in a missing `where` appends `where: {}` and leaves every other key's value as it was. */
  lemma WhereFilledIn(fs: seq<Field>)
    requires "where" !in KeysOf(fs)
    ensures WithWhere(fs) == fs + [Field("where", Obj([]))]
    ensures Get(WithWhere(fs), "where") == Obj([])
    ensures forall k :: k != "where" ==> Get(WithWhere(fs), k) == Get(fs, k)
  {
    var wf := Field("where", Obj([]));
    AppendNewKey(fs, wf);
    forall k ensures Get(fs + [wf], k) == if k == "where" then Obj([]) else Get(fs, k) {
      GetAppend(fs, wf, k);
    }
  }

  /** Filling in `where: {}` leaves the ORDER BY, LIMIT and OFFSET clauses as they were. */
  lemma ClauseKeysAfterWhere(fs: seq<Field>)
    requires "where" !in KeysOf(fs)
    ensures OrderClause(WithWhere(fs)) == OrderClause(fs)
    ensures LimitClause(WithWhere(fs)) == LimitClause(fs) && OffsetClause(WithWhere(fs)) == OffsetClause(fs)
  {
    var fw := WithWhere(fs);
    assert OrderClause(fw) == OrderClause(fs) by {
      WhereFilledIn(fs);
      OrderClauseBySource(fw, fs);
    }
    assert LimitClause(fw) == LimitClause(fs) by {
      WhereFilledIn(fs);
      assert Get(fw, "limit") == Get(fs, "limit");
    }
    assert OffsetClause(fw) == OffsetClause(fs) by {
      WhereFilledIn(fs);
      assert Get(fw, "skip") == Get(fs, "skip") && Get(fw, "offset") == Get(fs, "offset");
    }
  }

  /** The ORDER BY clause depends only on the `order`, `orderBy` and `sort` keys. */
  lemma OrderClauseBySource(a: seq<Field>, b: seq<Field>)
    requires Get(a, "order") == Get(b, "order") && Get(a, "orderBy") == Get(b, "orderBy") && Get(a, "sort") == Get(b, "sort")
    ensures OrderClause(a) == OrderClause(b)
  {
    assert OrderSource(a) == OrderSource(b);
  }

  /**
   * The WHERE clause of such a query: its gathered columns as equalities
   * joined by AND, or nothing when every key is a clause key.
   */
  lemma ImplicitWhereClause(fs: seq<Field>)
    requires ImplicitQuery(fs)
    ensures var g := Gathered(fs);
      WhereClause(WithWhere(fs)) == if g == [] then "" else " WHERE " + Join(Equalities(g), " AND ")
  {
    var g := Gathered(fs);
    var wf := Field("where", Obj([]));
    WhereFilledIn(fs);
    GatherConcat([], fs, [wf]);
    assert [] + fs == fs;
    GatherKept([], fs);
    assert GatherConditions(g, [wf]) == GatherConditions(g, []);
    ImplicitGatheredFlat(fs);
    assert [] + g == g;
    AssignOntoEmpty([], g);
    assert WhereMembers(Obj([]), g) == [Obj(g)];
    if g == [] {
      EmptyWhereCompiles();
    } else {
      FlatCompiles(g);
    }
  }

  /**
   * A query of columns and clause keys compiles to the WHERE clause of its
   * columns followed by its ORDER BY, LIMIT and OFFSET clauses.
   */
  lemma ImplicitQueryClauses(fs: seq<Field>)
    requires ImplicitQuery(fs)
    ensures var g := Gathered(fs);
      var w := if g == [] then "" else " WHERE " + Join(Equalities(g), " AND ");
      var order := OrderClause(fs);
      QueryClauses(Obj(fs)) == if order.Err? then Err(order.error) else Ok(w + order.value + LimitClause(fs) + OffsetClause(fs))
  {
    assert Truthy(Obj(fs));
    assert QueryClauses(Obj(fs)) == Clauses(WithWhere(fs));
    ClauseKeysAfterWhere(fs);
    ImplicitWhereClause(fs);
  }

  /** A query of clause keys alone has no WHERE part. */
  lemma ClauseKeysOnly(fs: seq<Field>)
    requires DistinctKeys(fs) && "where" !in KeysOf(fs)
    requires forall i :: 0 <= i < |fs| ==> fs[i].key in ReservedKeywords
    ensures var order := OrderClause(fs);
      QueryClauses(Obj(fs)) == if order.Err? then Err(order.error) else Ok(order.value + LimitClause(fs) + OffsetClause(fs))
  {
    assert ImplicitQuery(fs);
    GatheredNone(fs);
    ImplicitQueryClauses(fs);
    if OrderClause(fs).Ok? {
      assert "" + OrderClause(fs).value == OrderClause(fs).value;
    }
  }

  /** The query of the complete-clause test: two columns, `skip`, `limit` and an `orderBy` list. */
  const CompleteQuery: seq<Field> := [
    Field("role", Str("admin")), Field("age", Num(30)), Field("skip", Num(10)), Field("limit", Num(5)),
    Field("orderBy", Arr([Arr([Str("role"), Str("desc")]), Arr([Str("age")])]))]

  const RoleAndAge: seq<Field> := [Field("role", Str("admin")), Field("age", Num(30))]

  /** Its keys are distinct, and its columns `role` and `age` hold plain values. */
  lemma CompleteQueryImplicit()
    ensures ImplicitQuery(CompleteQuery)
  {
    var q := CompleteQuery;
    assert !IsOperatorKey("role") && !IsOperatorKey("age") by {
      assert Upper("role") == "ROLE" && Upper("age") == "AGE";
    }
    assert KeysOf(q) == ["role", "age", "skip", "limit", "orderBy"];
    assert DistinctKeys(q);
    CompleteQueryKeys();
  }

  /** Its columns are `role` and `age`; the other three keys are clause keys. */
  lemma CompleteQueryGathered()
    ensures Gathered(CompleteQuery) == RoleAndAge
  {
    var q := CompleteQuery;
    var clauses := q[2..];
    assert q == RoleAndAge + clauses;
    GatheredAppend(RoleAndAge, clauses);
    CompleteQueryKeys();
    assert Gathered(RoleAndAge) == RoleAndAge;
    GatheredNone(clauses);
    assert RoleAndAge + [] == RoleAndAge;
  }

  lemma CompleteQueryKeys()
    ensures Gatherable("role") && Gatherable("age")
    ensures !Gatherable("skip") && !Gatherable("limit") && !Gatherable("orderBy")
  {
    assert "skip" in ReservedKeywords && "limit" in ReservedKeywords && "orderBy" in ReservedKeywords;
  }

  lemma RoleAndAgeEqualities()
    ensures Equalities(RoleAndAge) == ["role = 'admin'", "age = 30"]
  {
    var cs := Equalities(RoleAndAge);
    assert ToStr(ParseValue(Str("admin"))) == "'admin'";
    assert ToStr(ParseValue(Num(30))) == "30" by { assert IntToDecimal(30) == "30"; }
    assert cs[0] == "role" + " = " + "'admin'" == "role = 'admin'";
    assert cs[1] == "age" + " = " + "30" == "age = 30";
  }

  /** `orderBy: [['role', 'desc'], ['age']]` gives `'role' DESC, 'age' ASC`. */
  lemma CompleteQueryOrder()
    ensures OrderClause(CompleteQuery) == Ok(" ORDER BY " + Join(["'role' DESC", "'age' ASC"], ", "))
  {
    var cs, ds := ["role", "age"], ["desc", "ASC"];
    CompleteQueryOrderList();
    OrderListClause(CompleteQuery, cs, ds);
    CompleteQueryOrderTexts();
  }

  lemma CompleteQueryOrderList()
    ensures var list := OrderList(OrderSource(CompleteQuery));
      list.Arr? && |list.items| == 2 && NamesOrder(list.items[0], "role", "desc") && NamesOrder(list.items[1], "age", "ASC")
  {
    var q := CompleteQuery;
    var list := Arr([Arr([Str("role"), Str("desc")]), Arr([Str("age")])]);
    assert Get(q, "order") == Undef && Get(q, "orderBy") == list;
    assert OrderList(OrderSource(q)) == list;
  }

  lemma CompleteQueryOrderTexts()
    ensures OrderTexts(["role", "age"], ["desc", "ASC"]) == ["'role' DESC", "'age' ASC"]
  {
    var t := OrderTexts(["role", "age"], ["desc", "ASC"]);
    assert Upper("desc") == "DESC" && Upper("ASC") == "ASC";
    assert t[0] == "'" + "role" + "' " + "DESC" == "'role' DESC";
    assert t[1] == "'" + "age" + "' " + "ASC" == "'age' ASC";
  }

  lemma CompleteQueryCounts()
    ensures LimitClause(CompleteQuery) == " LIMIT 5" && OffsetClause(CompleteQuery) == " OFFSET 10"
  {
    var q := CompleteQuery;
    assert Get(q, "limit") == Num(5) && Get(q, "skip") == Num(10);
    assert IntToDecimal(5) == "5" && IntToDecimal(10) == "10";
  }

  /**
   * The complete-clause test: `{role: 'admin', age: 30, skip: 10, limit: 5,
   * orderBy: [['role', 'desc'], ['age']]}` gives
   * ` WHERE role = 'admin' AND age = 30 ORDER BY 'role' DESC, 'age' ASC LIMIT 5 OFFSET 10`.
   */
  lemma CompleteClauseTest()
    ensures QueryClauses(Obj(CompleteQuery))
      == Ok(" WHERE " + Join(["role = 'admin'", "age = 30"], " AND ")
            + " ORDER BY " + Join(["'role' DESC", "'age' ASC"], ", ") + " LIMIT 5" + " OFFSET 10")
  {
    var q := CompleteQuery;
    var where := " WHERE " + Join(["role = 'admin'", "age = 30"], " AND ");
    var order := Join(["'role' DESC", "'age' ASC"], ", ");
    assert QueryClauses(Obj(q)) == Ok(where + (" ORDER BY " + order) + " LIMIT 5" + " OFFSET 10") by {
      CompleteQueryImplicit();
      CompleteQueryGathered();
      RoleAndAgeEqualities();
      CompleteQueryOrder();
      CompleteQueryCounts();
      ImplicitQueryClauses(q);
    }
    ConcatAssoc(where, " ORDER BY ", order);
  }

  lemma ConcatAssoc(a: string, b: string, c: string)
    ensures a + (b + c) == (a + b) + c
  {
  }

  /** `{limit: 3}` gives ` LIMIT 3` and no WHERE part. */
  lemma LimitOnlyTest()
    ensures QueryClauses(Obj([Field("limit", Num(3))])) == Ok(" LIMIT 3")
  {
    var q := [Field("limit", Num(3))];
    NoOrderKeys(q);
    assert LimitClause(q) == " LIMIT 3" by {
      assert Get(q, "limit") == Num(3);
      assert IntToDecimal(3) == "3" && " LIMIT " + "3" == " LIMIT 3";
    }
    assert OffsetClause(q) == "" by {
      assert Get(q, "skip") == Undef && Get(q, "offset") == Undef;
    }
    assert OrderClause(q).value + LimitClause(q) + OffsetClause(q) == " LIMIT 3" by {
      assert "" + " LIMIT 3" + "" == " LIMIT 3";
    }
    ClauseKeysOnly(q);
  }

  /** `{offset: 3}` and `{skip: 3}` both give ` OFFSET 3` and no WHERE part. */
  lemma OffsetOnlyTests()
    ensures QueryClauses(Obj([Field("offset", Num(3))])) == Ok(" OFFSET 3")
    ensures QueryClauses(Obj([Field("skip", Num(3))])) == Ok(" OFFSET 3")
  {
    OffsetOnly("offset");
    OffsetOnly("skip");
  }

  /** A query whose one key is `offset` or `skip`, set to 3. */
  lemma OffsetOnly(key: string)
    requires key == "offset" || key == "skip"
    ensures QueryClauses(Obj([Field(key, Num(3))])) == Ok(" OFFSET 3")
  {
    var q := [Field(key, Num(3))];
    NoOrderKeys(q);
    assert LimitClause(q) == "" by {
      assert Get(q, "limit") == Undef;
    }
    assert OffsetClause(q) == " OFFSET 3" by {
      assert Get(q, key) == Num(3);
      assert IntToDecimal(3) == "3" && " OFFSET " + "3" == " OFFSET 3";
    }
    assert OrderClause(q).value + LimitClause(q) + OffsetClause(q) == " OFFSET 3" by {
      assert "" + "" + " OFFSET 3" == " OFFSET 3";
    }
    ClauseKeysOnly(q);
  }

  /** A one-key query whose key is not an ORDER BY key has no ORDER BY clause. */
  lemma NoOrderKeys(q: seq<Field>)
    requires |q| == 1 && q[0].key != "order" && q[0].key != "orderBy" && q[0].key != "sort"
    ensures OrderClause(q) == Ok("")
  {
    assert Get(q, "order") == Undef && Get(q, "orderBy") == Undef && Get(q, "sort") == Undef;
  }

  /** A query whose one key is `orderBy`: its ORDER BY clause and nothing else. */
  lemma OrderByOnly(v: Value)
    ensures var q := [Field("orderBy", v)];
      QueryClauses(Obj(q)) == OrderClause(q)
  {
    var q := [Field("orderBy", v)];
    ClauseKeysOnly(q);
    if OrderClause(q).Ok? {
      assert OrderClause(q).value + "" + "" == OrderClause(q).value;
    }
  }

  /** `{orderBy: 'name'}` gives ` ORDER BY 'name' ASC`. */
  lemma OrderByStringTest()
    ensures QueryClauses(Obj([Field("orderBy", Str("name"))])) == Ok(" ORDER BY " + Join(["'name' ASC"], ", "))
  {
    OrderByOnly(Str("name"));
    NameOrderClause();
  }

  lemma NameOrderClause()
    ensures OrderClause([Field("orderBy", Str("name"))]) == Ok(" ORDER BY " + Join(["'name' ASC"], ", "))
  {
    var q := [Field("orderBy", Str("name"))];
    NameOrderList();
    OrderListClause(q, ["name"], ["ASC"]);
    NameOrderTexts();
  }

  lemma NameOrderList()
    ensures var list := OrderList(OrderSource([Field("orderBy", Str("name"))]));
      list.Arr? && |list.items| == 1 && NamesOrder(list.items[0], "name", "ASC")
  {
    var q := [Field("orderBy", Str("name"))];
    assert OrderList(OrderSource(q)) == Arr([Str("name")]) by {
      assert OrderSource(q) == Str("name");
      NamePiece();
    }
    assert NamesOrder(Str("name"), "name", "ASC");
  }

  /** `'name'.split(',').map(s => s.trim())` is `['name']`. */
  lemma NamePiece()
    ensures TrimmedPieces("name") == [Str("name")]
  {
    NameSplit();
    NameTrim();
    assert TrimmedPieces("name")[0] == Str(Trim("name"));
  }

  lemma NameSplit()
    ensures Split("name", ',') == ["name"]
  {
    assert Join(["name"], [',']) == "name";
    SplitJoin(["name"], ',');
  }

  lemma NameTrim()
    ensures Trim("name") == "name"
  {
    var x := "name";
    assert x[0] == 'n' && x[|x| - 1] == 'e';
    assert !IsSpace(x[0]) && !IsSpace(x[|x| - 1]);
    TrimAfterSpace("", x);
    assert "" + x == x;
  }

  /** `{orderBy: ['age', 'name']}` gives ` ORDER BY 'age' ASC, 'name' ASC`. */
  lemma OrderByColumnsTest()
    ensures QueryClauses(Obj([Field("orderBy", Arr([Str("age"), Str("name")]))]))
      == Ok(" ORDER BY " + Join(["'age' ASC", "'name' ASC"], ", "))
  {
    var list := Arr([Str("age"), Str("name")]);
    OrderByOnly(list);
    ColumnsOrderClause();
  }

  lemma ColumnsOrderClause()
    ensures OrderClause([Field("orderBy", Arr([Str("age"), Str("name")]))])
      == Ok(" ORDER BY " + Join(["'age' ASC", "'name' ASC"], ", "))
  {
    var q := [Field("orderBy", Arr([Str("age"), Str("name")]))];
    ColumnsOrderList();
    OrderListClause(q, ["age", "name"], ["ASC", "ASC"]);
    ColumnsOrderTexts();
  }

  lemma ColumnsOrderList()
    ensures var list := OrderList(OrderSource([Field("orderBy", Arr([Str("age"), Str("name")]))]));
      list.Arr? && |list.items| == 2 && NamesOrder(list.items[0], "age", "ASC") && NamesOrder(list.items[1], "name", "ASC")
  {
    var list := Arr([Str("age"), Str("name")]);
    var q := [Field("orderBy", list)];
    assert Get(q, "order") == Undef && Get(q, "orderBy") == list;
    assert ' ' !in "age" && ' ' !in "name";
  }

  /** `{orderBy: [['age', 'DESC'], ['name', 'ASC']]}` gives ` ORDER BY 'age' DESC, 'name' ASC`. */
  lemma OrderByPairsTest()
    ensures QueryClauses(Obj([Field("orderBy", Arr([Arr([Str("age"), Str("DESC")]), Arr([Str("name"), Str("ASC")])]))]))
      == Ok(" ORDER BY " + Join(["'age' DESC", "'name' ASC"], ", "))
  {
    var list := Arr([Arr([Str("age"), Str("DESC")]), Arr([Str("name"), Str("ASC")])]);
    OrderByOnly(list);
    PairsOrderClause();
  }

  lemma PairsOrderClause()
    ensures OrderClause([Field("orderBy", Arr([Arr([Str("age"), Str("DESC")]), Arr([Str("name"), Str("ASC")])]))])
      == Ok(" ORDER BY " + Join(["'age' DESC", "'name' ASC"], ", "))
  {
    var q := [Field("orderBy", Arr([Arr([Str("age"), Str("DESC")]), Arr([Str("name"), Str("ASC")])]))];
    PairsOrderList();
    OrderListClause(q, ["age", "name"], ["DESC", "ASC"]);
    PairsOrderTexts();
  }

  lemma PairsOrderList()
    ensures var list := OrderList(OrderSource([Field("orderBy", Arr([Arr([Str("age"), Str("DESC")]), Arr([Str("name"), Str("ASC")])]))]));
      list.Arr? && |list.items| == 2 && NamesOrder(list.items[0], "age", "DESC") && NamesOrder(list.items[1], "name", "ASC")
  {
    var list := Arr([Arr([Str("age"), Str("DESC")]), Arr([Str("name"), Str("ASC")])]);
    var q := [Field("orderBy", list)];
    assert Get(q, "order") == Undef && Get(q, "orderBy") == list;
  }

  lemma NameOrderTexts()
    ensures OrderTexts(["name"], ["ASC"]) == ["'name' ASC"]
  {
    var t := OrderTexts(["name"], ["ASC"]);
    assert Upper("ASC") == "ASC";
    assert t[0] == "'" + "name" + "' " + "ASC" == "'name' ASC";
  }

  lemma ColumnsOrderTexts()
    ensures OrderTexts(["age", "name"], ["ASC", "ASC"]) == ["'age' ASC", "'name' ASC"]
  {
    var t := OrderTexts(["age", "name"], ["ASC", "ASC"]);
    assert Upper("ASC") == "ASC";
    assert t[0] == "'" + "age" + "' " + "ASC" == "'age' ASC";
    assert t[1] == "'" + "name" + "' " + "ASC" == "'name' ASC";
  }

  lemma PairsOrderTexts()
    ensures OrderTexts(["age", "name"], ["DESC", "ASC"]) == ["'age' DESC", "'name' ASC"]
  {
    var t := OrderTexts(["age", "name"], ["DESC", "ASC"]);
    assert Upper("DESC") == "DESC" && Upper("ASC") == "ASC";
    assert t[0] == "'" + "age" + "' " + "DESC" == "'age' DESC";
    assert t[1] == "'" + "name" + "' " + "ASC" == "'name' ASC";
  }
}
