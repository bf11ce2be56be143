/**
 * The WHERE compiler: `_parseWhereArray` and `_parseWhereObject`, two mutually
 * recursive functions that turn a normalised filter tree into condition text.
 * Parentheses are decided by a `depth` counter that grows by one per nested
 * object or group, not by operator precedence.
 */
module WhereCompiler {
  import opened JsText
  import opened JsValue
  import opened Operators

  predicate IsGroupKeyword(op: string)
  {
    Upper(op) == KeywordAnd || Upper(op) == KeywordOr
  }

  /**
   * `_parseWhereArray`: under AND or OR, the objects and arrays of the list
   * compiled and joined with the keyword; under any other operator, the list
   * as a parenthesised value list of one condition on `field`.
   */
  function ParseWhereArray(valueArr: seq<Value>, op: string, field: string, depth: int): string
    decreases valueArr, 2
  {
    var u := Upper(op);
    if u == KeywordAnd || u == KeywordOr then
      var clauses := Join(GroupParts(valueArr, depth), " " + u + " ");
      if depth > 1 && |valueArr| > 1 then "(" + clauses + ")" else clauses
    else if |valueArr| == 0 && u in InListOperators then UnattainableCondition
    else ParseCondition(field, op, "(" + Join(ListTexts(valueArr), ", ") + ")")
  }

  /** The `filter` / `map` / `reduce` chain of a group: the conditions of its members, in order. */
  function GroupParts(items: seq<Value>, depth: int): seq<string>
    decreases items, 1
  {
    if items == [] then [] else GroupPart(items[0], depth) + GroupParts(items[1..], depth)
  }

  /** One member of a group: an object gives its list of conditions, an array one condition, a scalar none. */
  function GroupPart(v: Value, depth: int): seq<string>
    decreases v, 0
  {
    match v
    case Obj(fs) => ParseWhereObject(fs, "", depth + 1)
    case Arr(items) => [ParseWhereArray(items, KeywordAnd, "", depth + 1)]
    case _ => []
  }

  /** `valueArr.map(this._parseValue)` as `join` renders each element. */
  function ListTexts(items: seq<Value>): (r: seq<string>)
    ensures |r| == |items|
  {
    seq(|items|, i requires 0 <= i < |items| => JoinText(ParseValue(items[i])))
  }

  /**
   * `_parseWhereObject`: the conditions of every entry, in key order; from
   * depth 3 on, two or more of them are fused into one parenthesised AND.
   */
  function ParseWhereObject(fs: seq<Field>, field: string, depth: int): (r: seq<string>)
    ensures depth > 2 ==> |r| <= 1
    decreases fs, 2
  {
    var conditions := ObjectConditions(fs, field, depth);
    if depth > 2 && |conditions| > 1 then ["(" + Join(conditions, " AND ") + ")"] else conditions
  }

  function ObjectConditions(fs: seq<Field>, field: string, depth: int): seq<string>
    decreases fs, 1
  {
    if fs == [] then [] else EntryConditions(fs[0], field, depth) + ObjectConditions(fs[1..], field, depth)
  }

  /**
   * One `forOwn` step: an object value is compiled one level deeper with the
   * key as its field, an array value with the key as its operator, and a
   * scalar value becomes `field key value`. The key `==` hands down the
   * enclosing field instead of naming a new one.
   */
  function EntryConditions(f: Field, field: string, depth: int): seq<string>
    decreases f, 0
  {
    var useField := f.key == OperatorEqual;
    match f.val
    case Obj(sub) => ParseWhereObject(sub, if useField then field else f.key, depth + 1)
    case Arr(items) => [ParseWhereArray(items, if useField then field else f.key, field, depth)]
    case _ => [ParseCondition(field, f.key, ToStr(ParseValue(f.val)))]
  }

  /**
   * For IN, INQ, NOTIN and NIN, in any case, an empty list compiles to the
   * unattainable `1 = 0`; nothing else a non-group operator produces is that text.
   */
  lemma UnattainableExactly(valueArr: seq<Value>, op: string, field: string, depth: int)
    requires !IsGroupKeyword(op)
    ensures ParseWhereArray(valueArr, op, field, depth) == UnattainableCondition
      <==> |valueArr| == 0 && Upper(op) in InListOperators
  {
    if !(|valueArr| == 0 && Upper(op) in InListOperators) {
      var value := "(" + Join(ListTexts(valueArr), ", ") + ")";
      assert value[0] == '(';
      ParseConditionKeepsValue(field, op, value, '(');
      assert '(' !in UnattainableCondition;
    }
  }

  /** A list of strings is rendered with every string single-quoted. */
  lemma QuotedTexts(values: seq<string>)
    ensures ListTexts(seq(|values|, i requires 0 <= i < |values| => Str(values[i])))
      == seq(|values|, i requires 0 <= i < |values| => "'" + values[i] + "'")
  {
    var items := seq(|values|, i requires 0 <= i < |values| => Str(values[i]));
    var quoted := seq(|values|, i requires 0 <= i < |values| => "'" + values[i] + "'");
    forall i | 0 <= i < |values| ensures ListTexts(items)[i] == quoted[i] {
      assert ParseValue(items[i]) == Str(quoted[i]);
      assert ToStr(Str(quoted[i])) == quoted[i];
    }
  }

  /** How a plain, non-null list element appears in a value list: a string single-quoted, anything else as `String(v)`. */
  function MemberText(v: Value): string
  {
    if v.Str? then "'" + v.s + "'" else ToStr(v)
  }

  function MemberTextList(values: seq<Value>): (r: seq<string>)
    ensures |r| == |values|
  {
    seq(|values|, i requires 0 <= i < |values| => MemberText(values[i]))
  }

  /** A list of plain, non-null values renders element by element as `MemberText` says. */
  lemma MemberTexts(values: seq<Value>)
    requires forall i :: 0 <= i < |values| ==> IsScalar(values[i]) && !IsNullish(values[i])
    ensures ListTexts(values) == MemberTextList(values)
  {
    forall i | 0 <= i < |values| ensures ListTexts(values)[i] == MemberText(values[i]) {
      var v := values[i];
      assert ListTexts(values)[i] == JoinText(ParseValue(v));
      if v.Str? {
        var quoted := "'" + v.s + "'";
        assert ParseValue(v) == Str(quoted);
        assert JoinText(Str(quoted)) == ToStr(Str(quoted)) == quoted;
        assert MemberText(v) == quoted;
      } else {
        assert ParseValue(v) == v && !IsNullish(v);
        assert JoinText(v) == ToStr(v) == MemberText(v);
      }
    }
  }

  /**
   * A value list of plain values (non-empty under IN, INQ, NOTIN and NIN) is
   * one condition `field OP (v1, v2, ...)`, strings single-quoted and numbers
   * and booleans as written; under ILIKE and LIKEI both sides are lower-cased.
   */
  lemma MembershipList(values: seq<Value>, op: string, field: string, depth: int)
    requires !IsGroupKeyword(op)
    requires |values| > 0 || Upper(op) !in InListOperators
    requires forall i :: 0 <= i < |values| ==> IsScalar(values[i]) && !IsNullish(values[i])
    ensures var list := "(" + Join(MemberTextList(values), ", ") + ")";
      && (!IsCaseInsensitiveLike(op) ==> ParseWhereArray(values, op, field, depth) == field + " " + GetOperator(op) + " " + list)
      && (IsCaseInsensitiveLike(op) ==> ParseWhereArray(values, op, field, depth) == "LOWER(" + field + ") LIKE LOWER(" + list + ")")
  {
    MemberTexts(values);
  }

  /** `{inq: [4, 5, 6]}` on `bId`, as in the membership tests. */
  lemma NumberListCondition()
    ensures ParseWhereArray([Num(4), Num(5), Num(6)], "inq", "bId", 3) == "bId IN (" + Join(["4", "5", "6"], ", ") + ")"
  {
    var values := [Num(4), Num(5), Num(6)];
    var body := Join(["4", "5", "6"], ", ");
    assert ParseWhereArray(values, "inq", "bId", 3) == "bId" + " " + "IN" + " " + ("(" + body + ")") by {
      NumberListTexts();
      assert GetOperator("inq") == "IN" by { MembershipAliases(); }
      assert !IsCaseInsensitiveLike("inq") by { assert Upper("inq") == "INQ"; }
      MembershipList(values, "inq", "bId", 3);
    }
    ListPrefixes();
    ListConditionText("bId", "IN", body, "bId IN (");
  }

  lemma NumberListTexts()
    ensures MemberTextList([Num(4), Num(5), Num(6)]) == ["4", "5", "6"]
  {
    assert IntToDecimal(4) == "4" && IntToDecimal(5) == "5" && IntToDecimal(6) == "6";
  }

  /** `{nin: ['7', 8, '9']}` on `cId`: strings quoted, the number not. */
  lemma MixedListCondition()
    ensures ParseWhereArray([Str("7"), Num(8), Str("9")], "nin", "cId", 3) == "cId NOT IN (" + Join(["'7'", "8", "'9'"], ", ") + ")"
  {
    var values := [Str("7"), Num(8), Str("9")];
    var body := Join(["'7'", "8", "'9'"], ", ");
    assert ParseWhereArray(values, "nin", "cId", 3) == "cId" + " " + "NOT IN" + " " + ("(" + body + ")") by {
      MixedListTexts();
      assert GetOperator("nin") == "NOT IN" by { MembershipAliases(); }
      assert !IsCaseInsensitiveLike("nin") by { assert Upper("nin") == "NIN"; }
      MembershipList(values, "nin", "cId", 3);
    }
    ListPrefixes();
    ListConditionText("cId", "NOT IN", body, "cId NOT IN (");
  }

  lemma ListPrefixes()
    ensures "bId" + " " + "IN" + " (" == "bId IN ("
    ensures "cId" + " " + "NOT IN" + " (" == "cId NOT IN ("
  {
  }

  /** `field OP (body)` regrouped around a known prefix `field OP (`. */
  lemma ListConditionText(field: string, op: string, body: string, prefix: string)
    requires prefix == field + " " + op + " ("
    ensures field + " " + op + " " + ("(" + body + ")") == prefix + body + ")"
  {
  }

  lemma MixedListTexts()
    ensures MemberTextList([Str("7"), Num(8), Str("9")]) == ["'7'", "8", "'9'"]
  {
    var t := MemberTextList([Str("7"), Num(8), Str("9")]);
    assert t[0] == "'" + "7" + "'" == "'7'";
    assert t[1] == "8" by { assert IntToDecimal(8) == "8"; }
    assert t[2] == "'" + "9" + "'" == "'9'";
  }

  /** The members of a group that are compiled: its objects and arrays, in order. */
  function Compound(items: seq<Value>): (r: seq<Value>)
    ensures forall i :: 0 <= i < |r| ==> r[i].Obj? || r[i].Arr?
  {
    if items == [] then []
    else if items[0].Obj? || items[0].Arr? then [items[0]] + Compound(items[1..])
    else Compound(items[1..])
  }

  function Concat(parts: seq<seq<string>>): seq<string>
  {
    if parts == [] then [] else parts[0] + Concat(parts[1..])
  }

  /** The condition list of a group, read off the source's chain: filter, then map, then flatten. */
  function GroupConditions(items: seq<Value>, depth: int): seq<string>
  {
    var kept := Compound(items);
    Concat(seq(|kept|, i requires 0 <= i < |kept| =>
      if kept[i].Obj? then ParseWhereObject(kept[i].fields, "", depth + 1)
      else [ParseWhereArray(kept[i].items, KeywordAnd, "", depth + 1)]))
  }

  lemma {:induction false} GroupPartsIsChain(items: seq<Value>, depth: int)
    ensures GroupParts(items, depth) == GroupConditions(items, depth)
  {
    if items != [] {
      GroupPartsIsChain(items[1..], depth);
      var kept := Compound(items);
      var rest := Compound(items[1..]);
      if items[0].Obj? || items[0].Arr? {
        assert kept[1..] == rest;
        var m := seq(|kept|, i requires 0 <= i < |kept| =>
          if kept[i].Obj? then ParseWhereObject(kept[i].fields, "", depth + 1)
          else [ParseWhereArray(kept[i].items, KeywordAnd, "", depth + 1)]);
        assert m[1..] == seq(|rest|, i requires 0 <= i < |rest| =>
          if rest[i].Obj? then ParseWhereObject(rest[i].fields, "", depth + 1)
          else [ParseWhereArray(rest[i].items, KeywordAnd, "", depth + 1)]);
        assert m[0] == GroupPart(items[0], depth);
      }
    }
  }

  /**
   * An AND/OR group is its members' conditions joined with the keyword, and is
   * wrapped in parentheses exactly when it is nested (`depth > 1`) and its list,
   * counted before scalars are dropped, has more than one element.
   */
  lemma GroupWrapping(valueArr: seq<Value>, op: string, field: string, depth: int)
    requires IsGroupKeyword(op)
    ensures var clauses := Join(GroupConditions(valueArr, depth), " " + Upper(op) + " ");
      ParseWhereArray(valueArr, op, field, depth)
        == if depth > 1 && |valueArr| > 1 then "(" + clauses + ")" else clauses
  {
    GroupPartsIsChain(valueArr, depth);
  }

  /** The field of a group never matters: only the keyword, the members and the depth do. */
  lemma GroupIgnoresField(valueArr: seq<Value>, op: string, a: string, b: string, depth: int)
    requires IsGroupKeyword(op)
    ensures ParseWhereArray(valueArr, op, a, depth) == ParseWhereArray(valueArr, op, b, depth)
  {
  }

  /** A scalar entry gives the single condition `field key value`. */
  lemma ScalarEntry(f: Field, field: string, depth: int)
    requires IsScalar(f.val)
    ensures EntryConditions(f, field, depth) == [ScalarCondition(f, field)]
  {
  }

  /** The condition `field key value` of a scalar entry. */
  function ScalarCondition(f: Field, field: string): string
  {
    ParseCondition(field, f.key, ToStr(ParseValue(f.val)))
  }

  /** The condition `field key value` of each scalar entry, in key order. */
  function ScalarConditions(fs: seq<Field>, field: string): (r: seq<string>)
    ensures |r| == |fs|
  {
    seq(|fs|, i requires 0 <= i < |fs| => ScalarCondition(fs[i], field))
  }

  /** The conditions of a non-empty list of entries: the first entry's, then the rest's. */
  lemma ScalarConditionsCons(fs: seq<Field>, field: string)
    requires fs != []
    ensures ScalarConditions(fs, field) == [ScalarCondition(fs[0], field)] + ScalarConditions(fs[1..], field)
  {
    var tail := fs[1..];
    var r := ScalarConditions(fs, field);
    var rest := ScalarConditions(tail, field);
    var c := [ScalarCondition(fs[0], field)] + rest;
    forall i | 0 <= i < |r| ensures r[i] == c[i] {
      if i > 0 {
        assert c[i] == rest[i - 1];
        assert rest[i - 1] == ScalarCondition(tail[i - 1], field);
        assert tail[i - 1] == fs[i];
      }
    }
  }

  /** Each scalar entry of a field object gives exactly one condition, `field key value`, in key order. */
  lemma {:induction false} ScalarEntriesOneEach(fs: seq<Field>, field: string, depth: int)
    requires forall i :: 0 <= i < |fs| ==> IsScalar(fs[i].val)
    ensures ObjectConditions(fs, field, depth) == ScalarConditions(fs, field)
  {
    if fs != [] {
      var tail := fs[1..];
      assert forall i :: 0 <= i < |tail| ==> IsScalar(tail[i].val) by {
        assert forall i :: 0 <= i < |tail| ==> tail[i] == fs[i + 1];
      }
      ScalarEntriesOneEach(tail, field, depth);
      ScalarEntry(fs[0], field, depth);
      ScalarConditionsCons(fs, field);
    }
  }

  /**
   * A field object of scalar entries, such as `{'>': 20, '<': 50}` under `age`:
   * one condition `field key value` per entry, fused into one `(c1 AND c2 ...)`
   * exactly when `depth > 2` and there is more than one entry.
   */
  lemma FieldConditionsWrapped(fs: seq<Field>, field: string, depth: int)
    requires forall i :: 0 <= i < |fs| ==> IsScalar(fs[i].val)
    ensures var cs := ScalarConditions(fs, field);
      ParseWhereObject(fs, field, depth)
        == if depth > 2 && |fs| > 1 then ["(" + Join(cs, " AND ") + ")"] else cs
  {
    ScalarEntriesOneEach(fs, field, depth);
  }

  /** The implicit equality `{'==': v}` compares the enclosing field with `=`. */
  lemma EqualityReusesField(v: Value, field: string, depth: int)
    requires IsScalar(v)
    ensures EntryConditions(Field(OperatorEqual, v), field, depth) == [field + " = " + ToStr(ParseValue(v))]
  {
    EqualityCondition(field, OperatorEqual, ToStr(ParseValue(v)));
  }

  /**
   * A column with one equality, `{k: {'=': v}}` or the normalised `{k: {'==': v}}`,
   * gives the single condition `k = v`.
   */
  lemma EqualityEntryCondition(k: string, op: string, v: Value, field: string, depth: int)
    requires op == "=" || op == OperatorEqual
    requires IsScalar(v) && k != OperatorEqual
    ensures EntryConditions(Field(k, Obj([Field(op, v)])), field, depth) == [k + " = " + ToStr(ParseValue(v))]
  {
    var sub := [Field(op, v)];
    ScalarEntry(sub[0], k, depth + 1);
    EqualityCondition(k, op, ToStr(ParseValue(v)));
    assert sub[1..] == [];
    assert ObjectConditions(sub, k, depth + 1) == [k + " = " + ToStr(ParseValue(v))];
  }

  /** A group member `{k: {'=': v}}` (or `'=='`) gives the single condition `k = v`. */
  lemma EqualityMember(k: string, op: string, v: Value, depth: int)
    requires op == "=" || op == OperatorEqual
    requires IsScalar(v) && k != OperatorEqual
    ensures GroupPart(Obj([Field(k, Obj([Field(op, v)]))]), depth) == [k + " = " + ToStr(ParseValue(v))]
  {
    var o := [Field(k, Obj([Field(op, v)]))];
    EqualityEntryCondition(k, op, v, "", depth + 1);
    assert o[1..] == [];
    assert ObjectConditions(o, "", depth + 1) == EntryConditions(o[0], "", depth + 1) + [];
  }

  /** The ILIKE and LIKEI operators compare lower-cased text with LIKE. */
  lemma CaseInsensitiveEntry(key: string, v: Value, field: string, depth: int)
    requires IsScalar(v) && IsCaseInsensitiveLike(key)
    ensures EntryConditions(Field(key, v), field, depth) == ["LOWER(" + field + ") LIKE LOWER(" + ToStr(ParseValue(v)) + ")"]
  {
  }

  /**
   * As written, a nested group of scalars only is still wrapped, because the
   * length test counts the scalars that the filter then drops: it compiles to `()`.
   */
  lemma ScalarOnlyGroup()
    ensures ParseWhereArray([Num(1), Num(2)], "and", "", 2) == "()"
  {
    assert Upper("and") == KeywordAnd;
    assert GroupParts([Num(1), Num(2)], 2) == [];
  }
}
