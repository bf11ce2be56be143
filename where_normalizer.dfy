/**
 * The WHERE tree normaliser (`_prepareWhereArray` / `_prepareWhereObject`):
 * a walk over the filter tree that rewrites every scalar entry whose key is
 * not an operator token into an explicit equality `{'==': v}`, so that the
 * compiler only ever meets `field: {op: value}` at the leaves.
 */
module WhereNormalizer {
  import opened JsText
  import opened JsValue
  import opened Operators

  /** `_prepareWhereArray`: objects and arrays in the list are normalised, other elements stay. */
  function PrepareWhereArray(items: seq<Value>): (r: seq<Value>)
    ensures |r| == |items|
    decreases items, 1
  {
    seq(|items|, i requires 0 <= i < |items| => PrepareElement(items[i]))
  }

  function PrepareElement(v: Value): (r: Value)
    ensures r.Obj? == v.Obj? && r.Arr? == v.Arr?
    ensures IsScalar(v) ==> r == v
    decreases v, 0
  {
    match v
    case Obj(fs) => Obj(PrepareWhereObject(fs))
    case Arr(items) => Arr(PrepareWhereArray(items))
    case _ => v
  }

  /** `_prepareWhereObject`: every entry is normalised in place, so the keys and their order stay. */
  function PrepareWhereObject(fs: seq<Field>): (r: seq<Field>)
    ensures KeysOf(r) == KeysOf(fs)
    decreases fs, 1
  {
    var r := seq(|fs|, i requires 0 <= i < |fs| => PrepareEntry(fs[i]));
    assert KeysOf(r) == KeysOf(fs);
    r
  }

  /**
   * One `forOwn` step: nested objects and arrays are walked; a scalar under a
   * key that is not an operator becomes `{'==': value}`.
   */
  function PrepareEntry(f: Field): (r: Field)
    ensures r.key == f.key
    decreases f, 0
  {
    match f.val
    case Obj(fs) => Field(f.key, Obj(PrepareWhereObject(fs)))
    case Arr(items) => Field(f.key, Arr(PrepareWhereArray(items)))
    case _ =>
      if !IsOperatorKey(f.key) then Field(f.key, Obj([Field(OperatorEqual, f.val)]))
      else f
  }

  /** The normal form: in every object of the tree, every scalar-valued key is an operator token. */
  predicate NormalizedArray(items: seq<Value>)
    decreases items, 1
  {
    forall i :: 0 <= i < |items| ==> NormalizedElement(items[i])
  }

  predicate NormalizedElement(v: Value)
    decreases v, 0
  {
    match v
    case Obj(fs) => NormalizedObject(fs)
    case Arr(items) => NormalizedArray(items)
    case _ => true
  }

  predicate NormalizedObject(fs: seq<Field>)
    decreases fs, 1
  {
    forall i :: 0 <= i < |fs| ==> NormalizedEntry(fs[i])
  }

  predicate NormalizedEntry(f: Field)
    decreases f, 0
  {
    match f.val
    case Obj(fs) => NormalizedObject(fs)
    case Arr(items) => NormalizedArray(items)
    case _ => IsOperatorKey(f.key)
  }

  /** After the pass, the tree is in normal form. */
  lemma {:induction false} PrepareArrayNormalizes(items: seq<Value>)
    ensures NormalizedArray(PrepareWhereArray(items))
    decreases items, 1
  {
    var r := PrepareWhereArray(items);
    forall i | 0 <= i < |items| ensures NormalizedElement(r[i]) {
      PrepareElementNormalizes(items[i]);
    }
  }

  lemma {:induction false} PrepareElementNormalizes(v: Value)
    ensures NormalizedElement(PrepareElement(v))
    decreases v, 0
  {
    match v
    case Obj(fs) => PrepareObjectNormalizes(fs);
    case Arr(items) => PrepareArrayNormalizes(items);
    case _ =>
  }

  lemma {:induction false} PrepareObjectNormalizes(fs: seq<Field>)
    ensures NormalizedObject(PrepareWhereObject(fs))
    decreases fs, 1
  {
    var r := PrepareWhereObject(fs);
    forall i | 0 <= i < |fs| ensures NormalizedEntry(r[i]) {
      PrepareEntryNormalizes(fs[i]);
    }
  }

  lemma {:induction false} PrepareEntryNormalizes(f: Field)
    ensures NormalizedEntry(PrepareEntry(f))
    decreases f, 0
  {
    match f.val
    case Obj(fs) => PrepareObjectNormalizes(fs);
    case Arr(items) => PrepareArrayNormalizes(items);
    case _ =>
      if !IsOperatorKey(f.key) {
        var w := [Field(OperatorEqual, f.val)];
        assert Upper(OperatorEqual) == OperatorEqual;
        assert NormalizedEntry(w[0]);
      }
  }

  /** A tree already in normal form is left exactly as it is. */
  lemma {:induction false} NormalizedArrayFixed(items: seq<Value>)
    requires NormalizedArray(items)
    ensures PrepareWhereArray(items) == items
    decreases items, 1
  {
    forall i | 0 <= i < |items| ensures PrepareElement(items[i]) == items[i] {
      NormalizedElementFixed(items[i]);
    }
  }

  lemma {:induction false} NormalizedElementFixed(v: Value)
    requires NormalizedElement(v)
    ensures PrepareElement(v) == v
    decreases v, 0
  {
    match v
    case Obj(fs) => NormalizedObjectFixed(fs);
    case Arr(items) => NormalizedArrayFixed(items);
    case _ =>
  }

  lemma {:induction false} NormalizedObjectFixed(fs: seq<Field>)
    requires NormalizedObject(fs)
    ensures PrepareWhereObject(fs) == fs
    decreases fs, 1
  {
    forall i | 0 <= i < |fs| ensures PrepareEntry(fs[i]) == fs[i] {
      NormalizedEntryFixed(fs[i]);
    }
  }

  lemma {:induction false} NormalizedEntryFixed(f: Field)
    requires NormalizedEntry(f)
    ensures PrepareEntry(f) == f
    decreases f, 0
  {
    match f.val
    case Obj(fs) => NormalizedObjectFixed(fs);
    case Arr(items) => NormalizedArrayFixed(items);
    case _ =>
  }

  /** Running the pass twice is running it once. */
  lemma PrepareIdempotent(items: seq<Value>)
    ensures PrepareWhereArray(PrepareWhereArray(items)) == PrepareWhereArray(items)
  {
    PrepareArrayNormalizes(items);
    NormalizedArrayFixed(PrepareWhereArray(items));
  }

  /**
   * Reads an explicit equality `{'==': v}` with a scalar `v` back as `v`, everywhere in a
   * tree: the one rewrite the normaliser performs, undone.
   */
  function Collapse(v: Value): Value
    decreases v, 0
  {
    match v
    case Obj(fs) =>
      if |fs| == 1 && fs[0].key == OperatorEqual && IsScalar(fs[0].val) then fs[0].val
      else Obj(CollapseFields(fs))
    case Arr(items) => Arr(CollapseItems(items))
    case _ => v
  }

  function CollapseItems(items: seq<Value>): (r: seq<Value>)
    ensures |r| == |items|
    decreases items, 1
  {
    seq(|items|, i requires 0 <= i < |items| => Collapse(items[i]))
  }

  function CollapseFields(fs: seq<Field>): (r: seq<Field>)
    ensures KeysOf(r) == KeysOf(fs)
    decreases fs, 1
  {
    var r := seq(|fs|, i requires 0 <= i < |fs| => Field(fs[i].key, Collapse(fs[i].val)));
    assert KeysOf(r) == KeysOf(fs);
    r
  }

  /** Nothing else changes: apart from the wrapping, the normalised tree is the input tree. */
  lemma {:induction false} PrepareArrayOnlyWraps(items: seq<Value>)
    ensures CollapseItems(PrepareWhereArray(items)) == CollapseItems(items)
    decreases items, 1
  {
    var r := PrepareWhereArray(items);
    forall i | 0 <= i < |items| ensures Collapse(r[i]) == Collapse(items[i]) {
      PrepareElementOnlyWraps(items[i]);
    }
  }

  lemma {:induction false} PrepareElementOnlyWraps(v: Value)
    ensures Collapse(PrepareElement(v)) == Collapse(v)
    decreases v, 0
  {
    match v
    case Obj(fs) =>
      PrepareObjectOnlyWraps(fs);
      var p := PrepareWhereObject(fs);
      if |fs| == 1 {
        assert p[0] == PrepareEntry(fs[0]);
        assert p[0].key == fs[0].key;
        if fs[0].key == OperatorEqual {
          assert Upper(OperatorEqual) == OperatorEqual;
          assert IsScalar(fs[0].val) ==> p[0] == fs[0];
          assert IsScalar(p[0].val) ==> IsScalar(fs[0].val);
        }
      }
    case Arr(items) => PrepareArrayOnlyWraps(items);
    case _ =>
  }

  lemma {:induction false} PrepareObjectOnlyWraps(fs: seq<Field>)
    ensures CollapseFields(PrepareWhereObject(fs)) == CollapseFields(fs)
    decreases fs, 1
  {
    var r := PrepareWhereObject(fs);
    forall i | 0 <= i < |fs| ensures Collapse(r[i].val) == Collapse(fs[i].val) {
      PrepareEntryOnlyWraps(fs[i]);
    }
  }

  lemma {:induction false} PrepareEntryOnlyWraps(f: Field)
    ensures Collapse(PrepareEntry(f).val) == Collapse(f.val)
    decreases f, 0
  {
    match f.val
    case Obj(fs) => PrepareElementOnlyWraps(f.val);
    case Arr(items) => PrepareArrayOnlyWraps(items);
    case _ =>
  }
}
