/**
 * The statement text of `_create` and `_prepUpdate`: each prepared row
 * rendered into an `INSERT INTO` statement, and each entry of an update
 * object rendered as a `key = value` assignment.
 */
module Statements {
  import opened JsText
  import opened JsValue
  import opened Operators
  import opened RecordPrep

  // ---------------------------------------------------------------------------
  // Rendering a row

  /** One value of the VALUES list: `undefined` becomes `NULL`, anything else its string form. */
  function CellText(v: Value): (r: string)
    ensures v == Undef ==> r == "NULL"
    ensures v != Undef ==> r == ToStr(v)
  {
    if v == Undef then "NULL" else ToStr(v)
  }

  /**
   * Of the plain values a record can hold, only `undefined` is written as SQL
   * `NULL`: the string `'NULL'` is quoted, and `null` reads `null`.
   */
  lemma CellTextNullOnlyForUndefined(v: Value)
    requires IsScalar(v)
    ensures CellText(ParseValue(v)) == "NULL" <==> v == Undef
  {
    if v.Num? {
      IntToDecimalReadBack(v.n);
    } else if v.Str? {
      assert ParseValue(v).s[0] == '\'';
    }
  }

  /**
   * The `reduce` of `_create` as written: `reduce` skips holes, the element
   * at index 0 starts the text and every later element appends `, ` and its text.
   */
  function ReduceRow(row: seq<Slot>): string
  {
    if row == [] then ""
    else
      var prev := ReduceRow(row[..|row| - 1]);
      match row[|row| - 1]
      case Hole => prev
      case Item(v) => if |row| == 1 then CellText(v) else prev + ", " + CellText(v)
  }

  /** The texts of the cells of a row, a hole reading as `undefined`. */
  function CellTexts(row: seq<Slot>): (r: seq<string>)
    ensures |r| == |row|
    ensures forall c :: 0 <= c < |row| ==> r[c] == CellText(Read(row[c]))
  {
    seq(|row|, c requires 0 <= c < |row| => CellText(Read(row[c])))
  }

  /** The VALUES list as intended: one text per column, `NULL` where the record has no value. */
  function RenderRow(row: seq<Slot>): string
  {
    Join(CellTexts(row), ", ")
  }

  predicate NoHoles(row: seq<Slot>)
  {
    forall c :: 0 <= c < |row| ==> row[c].Item?
  }

  /** On a row without holes, the written `reduce` is the intended rendering. */
  lemma {:induction false} ReduceWithoutHoles(row: seq<Slot>)
    requires NoHoles(row)
    ensures ReduceRow(row) == RenderRow(row)
  {
    if |row| > 1 {
      var init := row[..|row| - 1];
      ReduceWithoutHoles(init);
      assert ReduceRow(row) == ReduceRow(init) + ", " + CellText(Read(row[|row| - 1]));
      assert CellTexts(row) == CellTexts(init) + [CellText(Read(row[|row| - 1]))];
      JoinAppend(CellTexts(init), CellText(Read(row[|row| - 1])), ", ");
    }
  }

  /** A row that ends in a hole: the written `reduce` drops the column's `NULL`. */
  lemma TrailingHoleDropped()
    ensures ReduceRow([Item(Num(1)), Hole]) == "1"
    ensures RenderRow([Item(Num(1)), Hole]) == "1, NULL"
  {
    assert [Item(Num(1)), Hole][..1] == [Item(Num(1))];
    assert IntToDecimal(1) == "1";
    assert CellTexts([Item(Num(1)), Hole]) == ["1", "NULL"];
  }

  /** A row that starts with a hole: the written `reduce` begins with a bare separator. */
  lemma LeadingHoleSeparator()
    ensures ReduceRow([Hole, Item(Num(3))]) == ", 3"
    ensures RenderRow([Hole, Item(Num(3))]) == "NULL, 3"
  {
    assert [Hole, Item(Num(3))][..1] == [Hole];
    assert IntToDecimal(3) == "3";
    assert CellTexts([Hole, Item(Num(3))]) == ["NULL", "3"];
  }

  /** `[{a: 1, b: 2}, {a: 1}]` as `Object.keys` and property access see it. */
  const TwoRecords: seq<Entries> := [[Field("a", Num(1)), Field("b", Num(2))], [Field("a", Num(1))]]

  lemma TwoRecordsColumns()
    ensures UnionKeyList(TwoRecords[..1]) == ["a", "b"]
    ensures ColumnUnion(TwoRecords) == ["a", "b"]
  {
    var first: seq<Entries> := TwoRecords[..1];
    var ab: seq<string> := ["a", "b"];
    assert RecordKeys(TwoRecords[0]) == ab;
    assert RecordKeys(TwoRecords[1]) == ["a"];
    assert UnionKeyList(first) == ab by {
      assert first[..0] == [] && first[0] == TwoRecords[0];
      assert AddNew([], ab) == AddNew(["a"], ["b"]);
      assert "b" !in ["a"];
      assert AddNew(["a"], ["b"]) == AddNew(ab, []);
    }
    assert UnionKeyList(TwoRecords) == ab by {
      assert TwoRecords[..|TwoRecords| - 1] == first;
      assert "a" in ab;
      assert AddNew(ab, ["a"]) == AddNew(ab, []);
    }
    assert StrLt("a", "b");
    assert StrictlySorted(ab);
    SortOfSorted(ab);
  }

  /**
   * The holes are really there: for `[{a: 1, b: 2}, {a: 1}]` the second row
   * has a hole under `b`, so the written `reduce` renders it as `1` for two columns.
   */
  lemma MissingKeyReachesReduce(columns: seq<string>, rows: seq<seq<Slot>>)
    requires InsertLayout(TwoRecords, columns, rows)
    ensures columns == ["a", "b"]
    ensures rows[1] == [Item(Num(1)), Hole]
    ensures ReduceRow(rows[1]) == "1" && RenderRow(rows[1]) == "1, NULL"
  {
    TwoRecordsColumns();
    var recs := TwoRecords;
    assert RowMatches(recs[..1], recs[1], columns, rows[1]);
    assert rows[1][0] == ExpectedSlot(recs[..1], recs[1], "a");
    assert rows[1][1] == ExpectedSlot(recs[..1], recs[1], "b");
    TrailingHoleDropped();
  }

  /** The VALUES list read off a record: each column's value through `_parseValue`, `NULL` when it has none. */
  function SourceRowText(rec: Entries, columns: seq<string>): string
  {
    Join(seq(|columns|, c requires 0 <= c < |columns| => CellText(ParseValue(Get(rec, columns[c])))), ", ")
  }

  /** The intended rendering of a prepared row is the VALUES list read off its record. */
  lemma RenderedRowReadsRecord(prior: seq<Entries>, rec: Entries, columns: seq<string>, row: seq<Slot>)
    requires RowMatches(prior, rec, columns, row)
    ensures RenderRow(row) == SourceRowText(rec, columns)
  {
    forall c | 0 <= c < |columns| ensures CellTexts(row)[c] == CellText(ParseValue(Get(rec, columns[c]))) {
      SlotReadsAsSource(prior, rec, columns[c]);
    }
    assert CellTexts(row) == seq(|columns|, c requires 0 <= c < |columns| => CellText(ParseValue(Get(rec, columns[c]))));
  }

  // ---------------------------------------------------------------------------
  // _create

  /** The statement of one row, its VALUES list as intended. */
  function InsertStatement(table: string, columns: seq<string>, row: seq<Slot>): string
  {
    "INSERT INTO " + table + " (" + Join(columns, ", ") + ") VALUES (" + RenderRow(row) + ")"
  }

  /** The statement of one row as written, its VALUES list from the written `reduce`. */
  function InsertStatementAsWritten(table: string, columns: seq<string>, row: seq<Slot>): string
  {
    "INSERT INTO " + table + " (" + Join(columns, ", ") + ") VALUES (" + ReduceRow(row) + ")"
  }

  /** The row `_prepInsert` lays out for record `rec` after the records `prior`. */
  function ExpectedRow(prior: seq<Entries>, rec: Entries, columns: seq<string>): (row: seq<Slot>)
    ensures RowMatches(prior, rec, columns, row)
  {
    seq(|columns|, c requires 0 <= c < |columns| => ExpectedSlot(prior, rec, columns[c]))
  }

  /** `props || {}`. */
  function CreateInput(props: Value): Value
  {
    if Truthy(props) then props else Obj([])
  }

  /** The records of `_create`: its input's records before the first null one, as entry lists. */
  function CreateRecords(props: Value): seq<Entries>
  {
    Tables(TakeRecords(Records(CreateInput(props))))
  }

  /**
   * What `_create` lays out before rendering: an empty array or an object
   * without keys is rejected, and so is input that yields no columns;
   * otherwise the columns and one row per record.
   */
  function CreateLayout(props: Value): Result<(seq<string>, seq<seq<Slot>>)>
  {
    var p := CreateInput(props);
    if p == Arr([]) || p == Obj([]) then Err(EmptyInput)
    else
      var recs := CreateRecords(props);
      var columns := ColumnUnion(recs);
      if columns == [] then Err(InvalidInput)
      else Ok((columns, seq(|recs|, r requires 0 <= r < |recs| => ExpectedRow(recs[..r], recs[r], columns))))
  }

  /** What `_create` produces, each row rendered as intended: one statement per record, or the error. */
  function CreateResult(table: string, props: Value): Result<seq<string>>
  {
    var layout := CreateLayout(props);
    if layout.Err? then Err(layout.error)
    else
      var (columns, rows) := layout.value;
      Ok(seq(|rows|, k requires 0 <= k < |rows| => InsertStatement(table, columns, rows[k])))
  }

  /** What `_create` produces as written, each row rendered by the written `reduce`. */
  function CreateResultAsWritten(table: string, props: Value): Result<seq<string>>
  {
    var layout := CreateLayout(props);
    if layout.Err? then Err(layout.error)
    else
      var (columns, rows) := layout.value;
      Ok(seq(|rows|, k requires 0 <= k < |rows| => InsertStatementAsWritten(table, columns, rows[k])))
  }

  /** A layout's rows are the expected rows, one per record. */
  lemma LayoutRows(recs: seq<Entries>, columns: seq<string>, rows: seq<seq<Slot>>)
    requires InsertLayout(recs, columns, rows)
    ensures forall r :: 0 <= r < |recs| ==> rows[r] == ExpectedRow(recs[..r], recs[r], columns)
  {
    forall r | 0 <= r < |recs| ensures rows[r] == ExpectedRow(recs[..r], recs[r], columns) {
      assert RowMatches(recs[..r], recs[r], columns, rows[r]);
    }
  }

  /** `_create` up to the statements it executes, each row rendered as intended. */
  method CreateStatements(table: string, props: Value) returns (r: Result<seq<string>>)
    requires WellFormedRecords(Records(props))
    ensures r == CreateResult(table, props)
  {
    var p := props;
    if !Truthy(p) {
      p := Obj([]);
    }
    if p.Arr? && |p.items| == 0 {
      return Err(EmptyInput);
    } else if p.Obj? && |p.fields| == 0 {
      return Err(EmptyInput);
    }
    var columns, rows := PrepInsert(p);
    if |columns| == 0 {
      return Err(InvalidInput);
    }
    ghost var recs := CreateRecords(props);
    LayoutRows(recs, columns, rows);
    var sqlList := seq(|rows|, k requires 0 <= k < |rows| => InsertStatement(table, columns, rows[k]));
    ghost var expected := seq(|recs|, k requires 0 <= k < |recs| => ExpectedRow(recs[..k], recs[k], columns));
    assert rows == expected;
    assert CreateLayout(props) == Ok((columns, expected));
    r := Ok(sqlList);
  }

  /** Empty input is rejected before anything is prepared: a missing value, `[]` or `{}`. */
  lemma CreateRejectsEmpty(table: string, props: Value)
    ensures CreateResult(table, props) == Err(EmptyInput)
      <==> !Truthy(props) || props == Arr([]) || props == Obj([])
  {
  }

  /**
   * A successful `_create` gives one statement per record before the first
   * null one, each listing all columns and, in the same order, the record's
   * values through `_parseValue`, `NULL` for a key it lacks.
   */
  lemma CreateStatementText(table: string, props: Value, k: nat)
    requires CreateResult(table, props).Ok?
    ensures var recs := CreateRecords(props);
      var columns := ColumnUnion(recs);
      var sql := CreateResult(table, props).value;
      |sql| == |recs| && columns != []
      && (k < |sql| ==>
        sql[k] == "INSERT INTO " + table + " (" + Join(columns, ", ") + ") VALUES (" + SourceRowText(recs[k], columns) + ")")
  {
    var recs := CreateRecords(props);
    var columns := ColumnUnion(recs);
    if k < |recs| {
      StatementReadsRecord(table, recs, columns, k);
    }
  }

  lemma StatementReadsRecord(table: string, recs: seq<Entries>, columns: seq<string>, k: nat)
    requires k < |recs|
    ensures InsertStatement(table, columns, ExpectedRow(recs[..k], recs[k], columns))
      == "INSERT INTO " + table + " (" + Join(columns, ", ") + ") VALUES (" + SourceRowText(recs[k], columns) + ")"
  {
    RenderedRowReadsRecord(recs[..k], recs[k], columns, ExpectedRow(recs[..k], recs[k], columns));
  }

  /** A record that has every key of the records before it gets a row without holes. */
  lemma KeptKeysNoHoles(prior: seq<Entries>, rec: Entries, columns: seq<string>)
    requires forall k :: k in UnionKeyList(prior) ==> k in RecordKeys(rec)
    ensures NoHoles(ExpectedRow(prior, rec, columns))
  {
  }

  /**
   * When every record has every key of the records before it, no row has a
   * hole and `_create` as written produces exactly the intended statements.
   */
  lemma CreateAsWrittenAgrees(table: string, props: Value)
    requires var recs := CreateRecords(props);
      forall r, k :: 0 <= r < |recs| && k in UnionKeyList(recs[..r]) ==> k in RecordKeys(recs[r])
    ensures CreateResultAsWritten(table, props) == CreateResult(table, props)
  {
    var layout := CreateLayout(props);
    if layout.Ok? {
      var recs := CreateRecords(props);
      var (columns, rows) := layout.value;
      forall k | 0 <= k < |rows|
        ensures InsertStatementAsWritten(table, columns, rows[k]) == InsertStatement(table, columns, rows[k])
      {
        assert rows[k] == ExpectedRow(recs[..k], recs[k], columns);
        KeptKeysNoHoles(recs[..k], recs[k], columns);
        ReduceWithoutHoles(rows[k]);
      }
      var written := seq(|rows|, k requires 0 <= k < |rows| => InsertStatementAsWritten(table, columns, rows[k]));
      var intended := seq(|rows|, k requires 0 <= k < |rows| => InsertStatement(table, columns, rows[k]));
      assert written == intended;
    }
  }

  /** `[{a: 1, b: 2}, {a: 1}]` as `_create`'s input. */
  const TwoRecordsInput: Value := Arr([Obj(TwoRecords[0]), Obj(TwoRecords[1])])

  /** `_create` lays the two records out in columns `a, b`, the second row with a hole for `b`. */
  lemma TwoRecordsLayout()
    ensures CreateLayout(TwoRecordsInput).Ok?
    ensures var (columns, rows) := CreateLayout(TwoRecordsInput).value;
      columns == ["a", "b"] && |rows| == 2 && rows[1] == [Item(Num(1)), Hole]
  {
    assert TakeRecords(Records(TwoRecordsInput)) == TwoRecordsInput.items;
    assert CreateRecords(TwoRecordsInput) == TwoRecords;
    TwoRecordsColumns();
    var recs := TwoRecords;
    var row := ExpectedRow(recs[..1], recs[1], ["a", "b"]);
    assert row[0] == ExpectedSlot(recs[..1], recs[1], "a");
    assert row[1] == ExpectedSlot(recs[..1], recs[1], "b");
  }

  /**
   * The second record lacks `b`, so `_create` as written inserts only one
   * value into two columns, where `1, NULL` was meant.
   */
  lemma CreateAsWrittenDropsMissing(table: string)
    ensures CreateResult(table, TwoRecordsInput).Ok? && CreateResultAsWritten(table, TwoRecordsInput).Ok?
    ensures var intended := CreateResult(table, TwoRecordsInput).value;
      var written := CreateResultAsWritten(table, TwoRecordsInput).value;
      |intended| == |written| == 2
      && intended[1] == "INSERT INTO " + table + " (" + Join(["a", "b"], ", ") + ") VALUES (" + "1, NULL" + ")"
      && written[1] == "INSERT INTO " + table + " (" + Join(["a", "b"], ", ") + ") VALUES (" + "1" + ")"
  {
    TwoRecordsLayout();
    TrailingHoleDropped();
  }

  /** Input that yields no column, such as `[null]`, `[{}]` or a number, is rejected as invalid. */
  lemma CreateRejectsNoColumns(table: string)
    ensures CreateResult(table, Arr([Null])) == Err(InvalidInput)
    ensures CreateResult(table, Arr([Obj([])])) == Err(InvalidInput)
    ensures CreateResult(table, Num(5)) == Err(InvalidInput)
  {
    assert TakeRecords([Null]) == [];
    var none: seq<Entries> := [[]];
    assert Tables([Obj([])]) == none;
    assert UnionKeyList(none) == [] by {
      assert none[..0] == [];
    }
    assert Tables([Num(5)]) == [[]];
  }

  // ---------------------------------------------------------------------------
  // _prepUpdate

  /** The assignments of an UPDATE: `key = value` per entry, in key order, values through `_parseValue`. */
  function Assignments(es: Entries): (r: seq<string>)
    ensures |r| == |es|
  {
    seq(|es|, i requires 0 <= i < |es| => es[i].key + " = " + ToStr(ParseValue(es[i].val)))
  }

  /**
   * `_prepUpdate`: `Object.keys` of null or undefined throws; no keys at all
   * is rejected; otherwise one assignment per key.
   */
  method PrepUpdate(data: Value) returns (r: Result<seq<string>>)
    requires data.Obj? ==> DistinctKeys(data.fields)
    ensures IsNullish(data) ==> r == Err(TypeError)
    ensures !IsNullish(data) && OwnEntries(data) == [] ==> r == Err(NothingToUpdate)
    ensures !IsNullish(data) && OwnEntries(data) != [] ==> r == Ok(Assignments(OwnEntries(data)))
  {
    if IsNullish(data) {
      return Err(TypeError);
    }
    var es := OwnEntries(data);
    OwnEntriesDistinct(data);
    var conditions := AssignmentList(es);
    if |conditions| == 0 {
      return Err(NothingToUpdate);
    }
    return Ok(conditions);
  }

  /** The loop of `_prepUpdate`: for each key in order, `key = value` with the value looked up and parsed. */
  method AssignmentList(es: Entries) returns (conditions: seq<string>)
    requires DistinctKeys(es)
    ensures conditions == Assignments(es)
  {
    var columns := RecordKeys(es);
    conditions := [];
    var i := 0;
    while i < |columns|
      invariant i <= |columns|
      invariant conditions == Assignments(es[..i])
    {
      var key := columns[i];
      GetAt(es, i);
      assert es[..i + 1] == es[..i] + [es[i]];
      var value := ParseValue(Get(es, key));
      conditions := conditions + [key + " = " + ToStr(value)];
      i := i + 1;
    }
    assert es[..i] == es;
  }

  /** Each assignment reads exactly like the WHERE equality on the same field and value. */
  lemma AssignmentIsEquality(es: Entries, i: nat)
    requires i < |es|
    ensures Assignments(es)[i] == ParseCondition(es[i].key, "=", ToStr(ParseValue(es[i].val)))
  {
    EqualityCondition(es[i].key, "=", ToStr(ParseValue(es[i].val)));
  }

  /** A string value is single-quoted in its assignment. */
  lemma AssignmentQuotesStrings(key: string, s: string)
    ensures Assignments([Field(key, Str(s))]) == [key + " = '" + s + "'"]
  {
    assert key + " = " + ("'" + s + "'") == key + " = '" + s + "'";
  }
}
