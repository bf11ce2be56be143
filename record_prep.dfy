/**
 * Record preparation for INSERT and UPDATE statements: `_prepInsert`, which
 * lays a list of records out as rows over the sorted union of their keys,
 * the row rendering of `_create`, and `_prepUpdate`.
 */
module RecordPrep {
  import opened JsText
  import opened JsValue
  import opened Operators

  // ---------------------------------------------------------------------------
  // Rows

  /**
   * One cell of a prepared row. `new Array(n)` creates holes; `splice` and
   * assignment store values (the widening sentinel is a stored `undefined`).
   */
  datatype Slot = Hole | Item(v: Value)

  const Sentinel: Slot := Item(Undef)

  /** `row[c]`: a hole reads as `undefined`. */
  function Read(s: Slot): Value
  {
    match s
    case Hole => Undef
    case Item(v) => v
  }

  /** A record as `Object.keys` and property access see it: its own entries. */
  type Entries = seq<Field>

  /** The keys of a record as `Object.keys` lists them. */
  function RecordKeys(rec: Entries): seq<string>
  {
    KeysOf(rec)
  }

  /** What holds of every JavaScript value: no key twice. */
  predicate RecordWellFormed(rec: Entries)
  {
    DistinctKeys(rec)
  }

  predicate Distinct(s: seq<string>)
  {
    forall i, j :: 0 <= i < j < |s| ==> s[i] != s[j]
  }

  lemma RecordKeysDistinct(rec: Entries)
    requires RecordWellFormed(rec)
    ensures Distinct(RecordKeys(rec))
  {
    var ks := RecordKeys(rec);
    forall i, j | 0 <= i < j < |ks| ensures ks[i] != ks[j] {
      assert ks[i] == rec[i].key && ks[j] == rec[j].key;
    }
  }

  /** `data` as the loop walks it: an array as it is, any other truthy value as a list of one. */
  function Records(data: Value): seq<Value>
  {
    if data.Arr? then data.items else if Truthy(data) then [data] else []
  }

  /** The records `_prepInsert` processes: those before the first null or undefined one. */
  function TakeRecords(recs: seq<Value>): (r: seq<Value>)
    ensures |r| <= |recs| && r == recs[..|r|]
    ensures forall i :: 0 <= i < |r| ==> !IsNullish(r[i])
    ensures |r| < |recs| ==> IsNullish(recs[|r|])
  {
    if recs == [] || IsNullish(recs[0]) then []
    else
      var rest := TakeRecords(recs[1..]);
      assert [recs[0]] + rest == recs[..|rest| + 1];
      [recs[0]] + rest
  }

  /** Stopping at position `i` is stopping at the first nullish record. */
  lemma TakeRecordsAt(recs: seq<Value>, i: nat)
    requires i <= |recs|
    requires forall r :: 0 <= r < i ==> !IsNullish(recs[r])
    requires i == |recs| || IsNullish(recs[i])
    ensures TakeRecords(recs) == recs[..i]
  {
    var t := TakeRecords(recs);
    if |t| != i {
      assert false;
    }
  }

  // ---------------------------------------------------------------------------
  // The column union

  /** The keys of `ks` not already in `acc`, appended in order. */
  function AddNew(acc: seq<string>, ks: seq<string>): (r: seq<string>)
    ensures forall k :: k in r <==> k in acc || k in ks
    decreases ks
  {
    if ks == [] then acc
    else if ks[0] in acc then AddNew(acc, ks[1..])
    else AddNew(acc + [ks[0]], ks[1..])
  }

  /** Adding only what is missing keeps a list free of duplicates. */
  lemma {:induction false} AddNewDistinct(acc: seq<string>, ks: seq<string>)
    requires Distinct(acc)
    ensures Distinct(AddNew(acc, ks))
    decreases ks
  {
    if ks != [] {
      if ks[0] !in acc {
        var acc' := acc + [ks[0]];
        forall i, j | 0 <= i < j < |acc'| ensures acc'[i] != acc'[j] {
          if j == |acc| {
            assert acc[i] in acc;
          }
        }
        AddNewDistinct(acc', ks[1..]);
      } else {
        AddNewDistinct(acc, ks[1..]);
      }
    }
  }

  /** Every key of every record, each once, in order of first appearance. */
  function UnionKeyList(recs: seq<Entries>): seq<string>
  {
    if recs == [] then [] else AddNew(UnionKeyList(recs[..|recs| - 1]), RecordKeys(recs[|recs| - 1]))
  }

  lemma {:induction false} UnionKeyListDistinct(recs: seq<Entries>)
    ensures Distinct(UnionKeyList(recs))
  {
    if recs != [] {
      UnionKeyListDistinct(recs[..|recs| - 1]);
      AddNewDistinct(UnionKeyList(recs[..|recs| - 1]), RecordKeys(recs[|recs| - 1]));
    }
  }

  /** The union holds exactly the keys that some record has. */
  lemma {:induction false} UnionKeyListMembers(recs: seq<Entries>, k: string)
    ensures k in UnionKeyList(recs) <==> exists r :: 0 <= r < |recs| && k in RecordKeys(recs[r])
  {
    if recs != [] {
      var init := recs[..|recs| - 1];
      UnionKeyListMembers(init, k);
      if k in UnionKeyList(init) {
        var r :| 0 <= r < |init| && k in RecordKeys(init[r]);
        assert recs[r] == init[r];
      }
      if exists r :: 0 <= r < |recs| && k in RecordKeys(recs[r]) {
        var r :| 0 <= r < |recs| && k in RecordKeys(recs[r]);
        if r < |init| {
          assert init[r] == recs[r];
        }
      }
    }
  }

  lemma UnionKeyListStep(recs: seq<Entries>, i: nat)
    requires i < |recs|
    ensures UnionKeyList(recs[..i + 1]) == AddNew(UnionKeyList(recs[..i]), RecordKeys(recs[i]))
  {
    assert recs[..i + 1][..i] == recs[..i];
  }

  /**
   * A key missing from the union of a prefix is missing from every record
   * in it, and from the union of every shorter prefix.
   */
  lemma {:induction false} UnionCovers(recs: seq<Entries>, r: nat, i: nat, k: string)
    requires r < i <= |recs| && k !in UnionKeyList(recs[..i])
    ensures k !in RecordKeys(recs[r]) && k !in UnionKeyList(recs[..r])
  {
    UnionKeyListStep(recs, i - 1);
    assert k !in UnionKeyList(recs[..i - 1]) && k !in RecordKeys(recs[i - 1]);
    if r < i - 1 {
      UnionCovers(recs, r, i - 1, k);
    }
  }

  /** The column list of the INSERT statements: the union of the record keys, sorted. */
  function ColumnUnion(recs: seq<Entries>): seq<string>
  {
    Sort(UnionKeyList(recs))
  }

  /** The columns are strictly sorted and are exactly the keys that some record has. */
  lemma ColumnUnionSpec(recs: seq<Entries>)
    ensures StrictlySorted(ColumnUnion(recs))
    ensures forall k :: k in ColumnUnion(recs) <==> k in UnionKeyList(recs)
  {
    UnionKeyListDistinct(recs);
    SortSorted(UnionKeyList(recs));
    SortPermutes(UnionKeyList(recs));
    forall k ensures k in ColumnUnion(recs) <==> k in UnionKeyList(recs) {
      assert k in ColumnUnion(recs) <==> k in multiset(ColumnUnion(recs));
      assert k in UnionKeyList(recs) <==> k in multiset(UnionKeyList(recs));
    }
  }

  lemma HeadIsMember(s: seq<string>)
    requires s != []
    ensures s[0] in s
  {
  }

  /** Two strictly sorted lists with the same elements are the same list. */
  lemma {:induction false} SortedUnique(a: seq<string>, b: seq<string>)
    requires StrictlySorted(a) && StrictlySorted(b)
    requires forall k :: k in a <==> k in b
    ensures a == b
  {
    if a == [] {
      if b != [] {
        HeadIsMember(b);
      }
    } else {
      assert b != [] by {
        assert a[0] in b;
      }
      if a[0] != b[0] {
        assert a[0] in b && b[0] in a;
        var p :| 0 <= p < |b| && b[p] == a[0];
        var q :| 0 <= q < |a| && a[q] == b[0];
        assert p > 0 && q > 0;
        assert StrLt(b[0], b[p]) && StrLt(a[0], a[q]);
        StrLtAsymmetric(a[0], b[0]);
        assert false;
      }
      forall k ensures k in a[1..] <==> k in b[1..] {
        if k in a[1..] {
          var i :| 1 <= i < |a| && a[i] == k;
          assert StrLt(a[0], a[i]);
          StrLtIrreflexive(k);
          assert k != b[0];
          assert k in b;
          var j :| 0 <= j < |b| && b[j] == k;
          assert j != 0;
          assert b[1..][j - 1] == k;
        }
        if k in b[1..] {
          var j :| 1 <= j < |b| && b[j] == k;
          assert StrLt(b[0], b[j]);
          StrLtIrreflexive(k);
          assert k in a;
          var i :| 0 <= i < |a| && a[i] == k;
          assert i != 0;
          assert a[1..][i - 1] == k;
        }
      }
      assert StrictlySorted(a[1..]) by {
        forall i, j | 0 <= i < j < |a[1..]| ensures StrLt(a[1..][i], a[1..][j]) {
          assert a[1..][i] == a[i + 1] && a[1..][j] == a[j + 1];
        }
      }
      assert StrictlySorted(b[1..]) by {
        forall i, j | 0 <= i < j < |b[1..]| ensures StrLt(b[1..][i], b[1..][j]) {
          assert b[1..][i] == b[i + 1] && b[1..][j] == b[j + 1];
        }
      }
      SortedUnique(a[1..], b[1..]);
      assert a == [a[0]] + a[1..] && b == [b[0]] + b[1..];
    }
  }

  /** In a strictly sorted list, `indexOf` finds the one position holding the element. */
  lemma SortedIndexOf(s: seq<string>, x: string, p: nat)
    requires StrictlySorted(s) && p < |s| && s[p] == x
    ensures IndexOf(s, x) == p
  {
    var r := IndexOf(s, x);
    if r != p {
      if r < p {
        assert StrLt(s[r], s[p]);
        StrLtIrreflexive(x);
      }
    }
  }

  lemma InsertAtMembers(s: seq<string>, p: nat, x: string)
    requires p <= |s|
    ensures forall k :: k in InsertAt(s, p, x) <==> k in s || k == x
  {
    assert InsertAt(s, p, x) == s[..p] + [x] + s[p..];
    assert s == s[..p] + s[p..];
  }

  lemma SortedDistinct(s: seq<string>)
    requires StrictlySorted(s)
    ensures Distinct(s)
  {
    forall i, j | 0 <= i < j < |s| ensures s[i] != s[j] {
      assert StrLt(s[i], s[j]);
      StrLtIrreflexive(s[i]);
    }
  }

  // ---------------------------------------------------------------------------
  // What each slot holds

  /**
   * The slot of column `col` in the row of `rec`, given the records `prior`
   * before it: the record's own value (through `_parseValue`) when it has the
   * key; a hole when the column already existed as the row was created; the
   * `undefined` sentinel when a later record introduced the column.
   */
  function ExpectedSlot(prior: seq<Entries>, rec: Entries, col: string): Slot
  {
    if col in RecordKeys(rec) then Item(ParseValue(Get(rec, col)))
    else if col in UnionKeyList(prior) then Hole
    else Sentinel
  }

  /** Whatever the slot, reading it gives `_parseValue(record[col])`, undefined for a missing key. */
  lemma SlotReadsAsSource(prior: seq<Entries>, rec: Entries, col: string)
    ensures Read(ExpectedSlot(prior, rec, col)) == ParseValue(Get(rec, col))
  {
  }

  predicate RowMatches(prior: seq<Entries>, rec: Entries, columns: seq<string>, row: seq<Slot>)
  {
    |row| == |columns| && forall c :: 0 <= c < |columns| ==> row[c] == ExpectedSlot(prior, rec, columns[c])
  }

  /** Each row so far is as `ExpectedSlot` says for its record and the records before it. */
  ghost predicate RowsMatch(recs: seq<Entries>, columns: seq<string>, rows: seq<seq<Slot>>)
  {
    |rows| <= |recs| && forall r {:trigger rows[r]} :: 0 <= r < |rows| ==> RowMatches(recs[..r], recs[r], columns, rows[r])
  }

  /** The row being filled: the keys in `done` are stored, every other slot is still a hole. */
  predicate PartialRow(rec: Entries, done: seq<string>, columns: seq<string>, row: seq<Slot>)
  {
    |row| == |columns|
    && forall c :: 0 <= c < |columns| ==>
      row[c] == if columns[c] in done then Item(ParseValue(Get(rec, columns[c]))) else Hole
  }

  lemma WidenRow(prior: seq<Entries>, rec: Entries, columns: seq<string>, row: seq<Slot>, key: string, p: nat)
    requires RowMatches(prior, rec, columns, row)
    requires key !in RecordKeys(rec) && key !in UnionKeyList(prior)
    requires p <= |columns|
    ensures RowMatches(prior, rec, InsertAt(columns, p, key), InsertAt(row, p, Sentinel))
  {
    var cs := InsertAt(columns, p, key);
    var w := InsertAt(row, p, Sentinel);
    forall c | 0 <= c < |cs| ensures w[c] == ExpectedSlot(prior, rec, cs[c]) {
      if c > p {
        assert w[c] == row[c - 1] && cs[c] == columns[c - 1];
      }
    }
  }

  lemma WidenRows(recs: seq<Entries>, columns: seq<string>, rows: seq<seq<Slot>>, wide: seq<seq<Slot>>, key: string, p: nat)
    requires |rows| <= |recs|
    requires RowsMatch(recs, columns, rows)
    requires forall k :: k in UnionKeyList(recs[..|rows|]) ==> k in columns
    requires key !in columns && p <= |columns|
    requires forall r :: 0 <= r < |rows| ==> |rows[r]| == |columns|
    requires |wide| == |rows| && forall r :: 0 <= r < |rows| ==> wide[r] == InsertAt(rows[r], p, Sentinel)
    ensures RowsMatch(recs, InsertAt(columns, p, key), wide)
  {
    forall r | 0 <= r < |rows| ensures RowMatches(recs[..r], recs[r], InsertAt(columns, p, key), wide[r]) {
      UnionCovers(recs, r, |rows|, key);
      WidenRow(recs[..r], recs[r], columns, rows[r], key, p);
    }
  }

  lemma WidenPartialRow(rec: Entries, done: seq<string>, columns: seq<string>, row: seq<Slot>, key: string, p: nat)
    requires PartialRow(rec, done, columns, row)
    requires key !in columns && key !in done && p <= |columns|
    ensures PartialRow(rec, done + [key], InsertAt(columns, p, key),
      InsertAt(row, p, Sentinel)[p := Item(ParseValue(Get(rec, key)))])
  {
    var cs := InsertAt(columns, p, key);
    var w := InsertAt(row, p, Sentinel)[p := Item(ParseValue(Get(rec, key)))];
    forall c | 0 <= c < |cs|
      ensures w[c] == if cs[c] in done + [key] then Item(ParseValue(Get(rec, cs[c]))) else Hole
    {
      if c < p {
        assert cs[c] == columns[c] && cs[c] != key;
      } else if c > p {
        assert w[c] == row[c - 1] && cs[c] == columns[c - 1] && cs[c] != key;
      }
    }
  }

  lemma FillPartialRow(rec: Entries, done: seq<string>, columns: seq<string>, row: seq<Slot>, key: string, p: nat)
    requires PartialRow(rec, done, columns, row)
    requires p < |columns| && columns[p] == key && Distinct(columns)
    ensures PartialRow(rec, done + [key], columns, row[p := Item(ParseValue(Get(rec, key)))])
  {
    var w := row[p := Item(ParseValue(Get(rec, key)))];
    forall c | 0 <= c < |columns|
      ensures w[c] == if columns[c] in done + [key] then Item(ParseValue(Get(rec, columns[c]))) else Hole
    {
      if c != p {
        assert columns[c] != key by {
          if c < p { assert columns[c] != columns[p]; } else { assert columns[p] != columns[c]; }
        }
      }
    }
  }

  lemma FinishRow(prior: seq<Entries>, rec: Entries, columns: seq<string>, row: seq<Slot>)
    requires PartialRow(rec, RecordKeys(rec), columns, row)
    requires forall k :: k in columns ==> k in UnionKeyList(prior) || k in RecordKeys(rec)
    ensures RowMatches(prior, rec, columns, row)
  {
  }

  // ---------------------------------------------------------------------------
  // _prepInsert

  /** What holds of every JavaScript array of records: no object record has a key twice. */
  predicate WellFormedRecords(recs: seq<Value>)
  {
    forall i :: 0 <= i < |recs| ==> (recs[i].Obj? ==> DistinctKeys(recs[i].fields))
  }

  /**
   * What a layout promises, slot by slot: sorted columns without duplicates,
   * each the key of some record; rows as wide as the column list; a slot
   * holds `_parseValue(record[column])` when the record has the key, and
   * reads as `undefined` when it does not.
   */
  lemma LayoutSlots(recs: seq<Entries>, columns: seq<string>, rows: seq<seq<Slot>>, r: nat, c: nat)
    requires InsertLayout(recs, columns, rows) && r < |rows| && c < |columns|
    ensures StrictlySorted(columns) && Distinct(columns) && |rows[r]| == |columns|
    ensures exists q :: 0 <= q < |recs| && columns[c] in RecordKeys(recs[q])
    ensures columns[c] in RecordKeys(recs[r]) ==> rows[r][c] == Item(ParseValue(Get(recs[r], columns[c])))
    ensures columns[c] !in RecordKeys(recs[r]) ==> Read(rows[r][c]) == Undef
  {
    ColumnUnionSpec(recs);
    SortedDistinct(columns);
    UnionKeyListMembers(recs, columns[c]);
    assert RowMatches(recs[..r], recs[r], columns, rows[r]);
  }

  /** Each record as `Object.keys` and property access see it. */
  function Tables(recs: seq<Value>): (r: seq<Entries>)
    ensures |r| == |recs|
  {
    seq(|recs|, i requires 0 <= i < |recs| => OwnEntries(recs[i]))
  }

  /**
   * The result of `_prepInsert` on the records `recs`: the sorted union of
   * their keys as columns, and one row per record, each as `ExpectedSlot` says.
   */
  ghost predicate InsertLayout(recs: seq<Entries>, columns: seq<string>, rows: seq<seq<Slot>>)
  {
    columns == ColumnUnion(recs) && |rows| == |recs| && RowsMatch(recs, columns, rows)
  }

  /** The state after the first `i` records: their sorted key union, and one matching row each. */
  ghost predicate Prepared(recs: seq<Entries>, i: nat, columns: seq<string>, rows: seq<seq<Slot>>)
  {
    i <= |recs| && |rows| == i && StrictlySorted(columns)
    && (forall k :: k in columns <==> k in UnionKeyList(recs[..i]))
    && RowsMatch(recs, columns, rows)
  }

  /**
   * The columns while record `i` is processed, after its first `j` keys: the
   * keys of the earlier records and those `j` keys (all keys of the first
   * record, whose sorted keys are the initial columns).
   */
  ghost predicate ColumnsSoFar(recs: seq<Entries>, i: nat, j: nat, columns: seq<string>)
  {
    i < |recs| && j <= |RecordKeys(recs[i])|
    && forall k :: k in columns <==>
      k in UnionKeyList(recs[..i]) || k in RecordKeys(recs[i])[..j] || (i == 0 && k in RecordKeys(recs[i]))
  }

  /** The state while the row of record `i` is being filled, after its first `j` keys. */
  ghost predicate Filling(recs: seq<Entries>, i: nat, j: nat, columns: seq<string>, rows: seq<seq<Slot>>, row: seq<Slot>)
  {
    i < |recs| && j <= |RecordKeys(recs[i])| && |rows| == i && StrictlySorted(columns)
    && ColumnsSoFar(recs, i, j, columns)
    && RowsMatch(recs, columns, rows)
    && PartialRow(recs[i], RecordKeys(recs[i])[..j], columns, row)
  }

  /** `prepValues[k].splice(index, 0, undefined)` for every earlier row `k`. */
  method SpliceSentinel(rows: seq<seq<Slot>>, index: nat) returns (wide: seq<seq<Slot>>)
    requires forall r :: 0 <= r < |rows| ==> index <= |rows[r]|
    ensures |wide| == |rows|
    ensures forall r :: 0 <= r < |rows| ==> wide[r] == InsertAt(rows[r], index, Sentinel)
  {
    wide := rows;
    var k := 0;
    while k < |wide|
      invariant 0 <= k <= |wide| == |rows|
      invariant forall r :: 0 <= r < k ==> wide[r] == InsertAt(rows[r], index, Sentinel)
      invariant forall r :: k <= r < |rows| ==> wide[r] == rows[r]
    {
      wide := wide[k := InsertAt(wide[k], index, Sentinel)];
      k := k + 1;
    }
  }

  /**
   * The start of record `i`: the first record's sorted keys become the
   * columns, and the new row is all holes.
   */
  method StartRow(recs: seq<Entries>, i: nat, columns: seq<string>, rows: seq<seq<Slot>>)
    returns (cols: seq<string>, row: seq<Slot>)
    requires Prepared(recs, i, columns, rows) && i < |recs| && RecordWellFormed(recs[i])
    ensures Filling(recs, i, 0, cols, rows, row)
  {
    cols := columns;
    var keys := RecordKeys(recs[i]);
    if i == 0 {
      RecordKeysDistinct(recs[i]);
      SortSorted(keys);
      SortPermutes(keys);
      cols := Sort(keys);
      forall k ensures k in cols <==> k in keys {
        assert k in cols <==> k in multiset(cols);
      }
    }
    row := seq(|cols|, _ => Hole);
    assert keys[..0] == [];
  }

  /**
   * A column not seen before: `columns.concat(key).sort()` places it at its
   * sorted position, every earlier row gets an `undefined` there, and so
   * does the current row before the value is stored in it.
   */
  method WidenColumns(recs: seq<Entries>, columns: seq<string>, rows: seq<seq<Slot>>,
                      rec: Entries, done: seq<string>, row: seq<Slot>, key: string)
    returns (columns': seq<string>, rows': seq<seq<Slot>>, row': seq<Slot>)
    requires |rows| <= |recs| && StrictlySorted(columns) && key !in columns && key !in done
    requires forall k :: k in UnionKeyList(recs[..|rows|]) ==> k in columns
    requires RowsMatch(recs, columns, rows)
    requires PartialRow(rec, done, columns, row)
    ensures StrictlySorted(columns')
    ensures forall k :: k in columns' <==> k in columns || k == key
    ensures |rows'| == |rows|
    ensures RowsMatch(recs, columns', rows')
    ensures PartialRow(rec, done + [key], columns', row')
  {
    var p := InsertPos(columns, key);
    SortAppend(columns, key);
    columns' := Sort(columns + [key]);
    InsertAtMembers(columns, p, key);
    SortedIndexOf(columns', key, p);
    var index := IndexOf(columns', key);
    RowWidths(recs, columns, rows);
    rows' := SpliceSentinel(rows, index);
    WidenRows(recs, columns, rows, rows', key, p);
    WidenPartialRow(rec, done, columns, row, key, p);
    row' := InsertAt(row, index, Sentinel)[index := Item(ParseValue(Get(rec, key)))];
  }

  /**
   * A key of record `i` that no column has yet: the column is added, and the
   * value is stored in it.
   */
  method AddColumn(recs: seq<Entries>, i: nat, j: nat, columns: seq<string>, rows: seq<seq<Slot>>, row: seq<Slot>)
    returns (columns': seq<string>, rows': seq<seq<Slot>>, row': seq<Slot>)
    requires i < |recs| && j < |RecordKeys(recs[i])| && |rows| == i
    requires StrictlySorted(columns) && ColumnsSoFar(recs, i, j, columns) && RowsMatch(recs, columns, rows)
    requires PartialRow(recs[i], RecordKeys(recs[i])[..j], columns, row)
    requires RecordKeys(recs[i])[j] !in RecordKeys(recs[i])[..j]
    requires RecordKeys(recs[i])[j] !in columns
    ensures |rows'| == i && StrictlySorted(columns') && ColumnsSoFar(recs, i, j + 1, columns')
    ensures RowsMatch(recs, columns', rows')
    ensures PartialRow(recs[i], RecordKeys(recs[i])[..j + 1], columns', row')
  {
    var rec := recs[i];
    var keys := RecordKeys(rec);
    var key := keys[j];
    ColumnsCoverPrior(recs, i, j, columns);
    columns', rows', row' := WidenColumns(recs, columns, rows, rec, keys[..j], row, key);
    assert keys[..j + 1] == keys[..j] + [key];
    ColumnsStep(recs, i, j, columns, columns');
  }

  lemma RowWidths(recs: seq<Entries>, columns: seq<string>, rows: seq<seq<Slot>>)
    requires |rows| <= |recs|
    requires RowsMatch(recs, columns, rows)
    ensures forall r :: 0 <= r < |rows| ==> |rows[r]| == |columns|
  {
  }

  /** Storing key `j` of record `i` leaves the columns as `ColumnsSoFar` says, one key further. */
  lemma ColumnsStep(recs: seq<Entries>, i: nat, j: nat, columns: seq<string>, columns': seq<string>)
    requires ColumnsSoFar(recs, i, j, columns) && j < |RecordKeys(recs[i])|
    requires forall k :: k in columns' <==> k in columns || k == RecordKeys(recs[i])[j]
    ensures ColumnsSoFar(recs, i, j + 1, columns')
  {
    var keys := RecordKeys(recs[i]);
    assert keys[..j + 1] == keys[..j] + [keys[j]];
  }

  lemma DistinctFresh(s: seq<string>, j: nat)
    requires Distinct(s) && j < |s|
    ensures s[j] !in s[..j]
  {
  }

  /** The keys of the earlier records already have columns. */
  lemma ColumnsCoverPrior(recs: seq<Entries>, i: nat, j: nat, columns: seq<string>)
    requires ColumnsSoFar(recs, i, j, columns)
    ensures forall k :: k in UnionKeyList(recs[..i]) ==> k in columns
  {
  }

  /** One key of record `i`: its value is stored under its column, which is added first if new. */
  method FillCell(recs: seq<Entries>, i: nat, j: nat, columns: seq<string>, rows: seq<seq<Slot>>, row: seq<Slot>)
    returns (columns': seq<string>, rows': seq<seq<Slot>>, row': seq<Slot>)
    requires Filling(recs, i, j, columns, rows, row) && j < |RecordKeys(recs[i])|
    requires Distinct(RecordKeys(recs[i]))
    ensures Filling(recs, i, j + 1, columns', rows', row')
  {
    var rec := recs[i];
    var keys := RecordKeys(rec);
    var key := keys[j];
    var index := IndexOf(columns, key);
    if index == -1 {
      DistinctFresh(keys, j);
      columns', rows', row' := AddColumn(recs, i, j, columns, rows, row);
    } else {
      assert keys[..j + 1] == keys[..j] + [key];
      assert key in columns;
      ColumnsStep(recs, i, j, columns, columns);
      SortedDistinct(columns);
      FillPartialRow(rec, keys[..j], columns, row, key, index);
      columns', rows', row' := columns, rows, row[index := Item(ParseValue(Get(rec, key)))];
    }
  }

  /** The row of record `i` is complete once all its keys are stored. */
  lemma FinishRecord(recs: seq<Entries>, i: nat, columns: seq<string>, rows: seq<seq<Slot>>, row: seq<Slot>)
    requires i < |recs| && Filling(recs, i, |RecordKeys(recs[i])|, columns, rows, row)
    ensures Prepared(recs, i + 1, columns, rows + [row])
  {
    var keys := RecordKeys(recs[i]);
    assert keys[..|keys|] == keys;
    UnionKeyListStep(recs, i);
    FinishRow(recs[..i], recs[i], columns, row);
    var rows' := rows + [row];
    forall r | 0 <= r < i + 1 ensures RowMatches(recs[..r], recs[r], columns, rows'[r]) {
      if r < i {
        assert rows'[r] == rows[r];
      }
    }
  }

  /** The row of record `i`: its keys in `Object.keys` order, each stored under its column. */
  method BuildRow(recs: seq<Entries>, i: nat, columns: seq<string>, rows: seq<seq<Slot>>)
    returns (columns': seq<string>, rows': seq<seq<Slot>>)
    requires Prepared(recs, i, columns, rows) && i < |recs| && RecordWellFormed(recs[i])
    ensures Prepared(recs, i + 1, columns', rows')
  {
    var keys := RecordKeys(recs[i]);
    RecordKeysDistinct(recs[i]);
    var row;
    columns', row := StartRow(recs, i, columns, rows);
    rows' := rows;
    var j := 0;
    while j < |keys|
      invariant j <= |keys|
      invariant Filling(recs, i, j, columns', rows', row)
    {
      columns', rows', row := FillCell(recs, i, j, columns', rows', row);
      j := j + 1;
    }
    FinishRecord(recs, i, columns', rows', row);
    rows' := rows' + [row];
  }

  /** After `i` records, the state is the layout of exactly those records. */
  lemma FinishRecords(recs: seq<Entries>, i: nat, columns: seq<string>, rows: seq<seq<Slot>>)
    requires Prepared(recs, i, columns, rows)
    ensures InsertLayout(recs[..i], columns, rows)
  {
    var taken := recs[..i];
    ColumnUnionSpec(taken);
    SortedUnique(columns, ColumnUnion(taken));
    forall r | 0 <= r < i ensures RowMatches(taken[..r], taken[r], columns, rows[r]) {
      assert taken[..r] == recs[..r] && taken[r] == recs[r];
    }
  }

  lemma TableWellFormed(recs: seq<Value>, i: nat)
    requires WellFormedRecords(recs) && i < |recs|
    ensures RecordWellFormed(Tables(recs)[i])
  {
    OwnEntriesDistinct(recs[i]);
  }

  /** Stopping at the first nullish record `i` has taken the tables of the records before it. */
  lemma TakeTables(recs: seq<Value>, i: nat)
    requires i <= |recs|
    requires forall r :: 0 <= r < i ==> !IsNullish(recs[r])
    requires i == |recs| || IsNullish(recs[i])
    ensures Tables(TakeRecords(recs)) == Tables(recs)[..i]
  {
    TakeRecordsAt(recs, i);
  }

  /**
   * `_prepInsert`: the sorted union of the keys of the records before the
   * first null one, and one row per record whose slot for each column is as
   * `ExpectedSlot` says.
   */
  method PrepInsert(data: Value) returns (columns: seq<string>, rows: seq<seq<Slot>>)
    requires WellFormedRecords(Records(data))
    ensures InsertLayout(Tables(TakeRecords(Records(data))), columns, rows)
  {
    var recs := Records(data);
    var tables := Tables(recs);
    columns := [];
    rows := [];
    var i := 0;
    assert tables[..0] == [];
    while i < |recs|
      invariant Prepared(tables, i, columns, rows)
      invariant forall r :: 0 <= r < i ==> !IsNullish(recs[r])
    {
      if IsNullish(recs[i]) {
        break;
      }
      TableWellFormed(recs, i);
      columns, rows := BuildRow(tables, i, columns, rows);
      i := i + 1;
    }
    FinishRecords(tables, i, columns, rows);
    TakeTables(recs, i);
  }
}
