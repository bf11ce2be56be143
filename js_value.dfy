/**
 * The JavaScript values the adapter manipulates: JSON-shaped trees whose
 * objects are ordered lists of fields (property insertion order), with the
 * property read, property write, `Object.assign`, `Object.entries` and
 * `String(v)` behaviour the compiler depends on.
 */
module JsValue {
  import opened JsText

  datatype Value =
    | Str(s: string)
    | Num(n: int)
    | Bool(b: bool)
    | Null
    | Undef
    | Arr(items: seq<Value>)
    | Obj(fields: seq<Field>)

  datatype Field = Field(key: string, val: Value)

  /** The errors the core raises. */
  datatype Error =
    | TypeError        // thrown by the runtime (destructuring or calling a method on a non-string)
    | EmptyInput       // 'Empty input is invalid.'
    | InvalidInput     // 'Input is invalid.'
    | NothingToUpdate  // 'Update data does not contain any values to update.'

  datatype Result<T> = Ok(value: T) | Err(error: Error)

  /** `utils.isObject`: a plain object, neither an array nor null. */
  predicate IsObject(v: Value) { v.Obj? }

  /** Neither an object nor an array. */
  predicate IsScalar(v: Value) { !v.Obj? && !v.Arr? }

  /** `v == null`: null or undefined. */
  predicate IsNullish(v: Value) { v.Null? || v.Undef? }

  /** JavaScript truthiness. */
  predicate Truthy(v: Value)
  {
    match v
    case Str(s) => s != ""
    case Num(n) => n != 0
    case Bool(b) => b
    case Null => false
    case Undef => false
    case Arr(_) => true
    case Obj(_) => true
  }

  function KeysOf(fs: seq<Field>): (ks: seq<string>)
    ensures |ks| == |fs|
    ensures forall i :: 0 <= i < |fs| ==> ks[i] == fs[i].key
  {
    seq(|fs|, i requires 0 <= i < |fs| => fs[i].key)
  }

  /** What every JavaScript object satisfies: no key twice. */
  predicate DistinctKeys(fs: seq<Field>)
  {
    forall i, j :: 0 <= i < j < |fs| ==> fs[i].key != fs[j].key
  }

  /** Property read `obj[k]`: the value stored under `k`, or undefined when there is none. */
  function Get(fs: seq<Field>, k: string): (v: Value)
    ensures k !in KeysOf(fs) ==> v == Undef
  {
    if fs == [] then Undef
    else if fs[0].key == k then fs[0].val
    else
      assert KeysOf(fs) == [fs[0].key] + KeysOf(fs[1..]);
      Get(fs[1..], k)
  }

  /** In a JavaScript object, reading a field's key gives that field's value. */
  lemma {:induction false} GetAt(fs: seq<Field>, i: nat)
    requires DistinctKeys(fs) && i < |fs|
    ensures Get(fs, fs[i].key) == fs[i].val
  {
    if i > 0 {
      GetAt(fs[1..], i - 1);
    }
  }

  lemma {:induction false} GetAppend(fs: seq<Field>, f: Field, k: string)
    ensures Get(fs + [f], k) == if k in KeysOf(fs) then Get(fs, k) else if f.key == k then f.val else Undef
  {
    if fs != [] {
      assert (fs + [f])[1..] == fs[1..] + [f];
      assert KeysOf(fs) == [fs[0].key] + KeysOf(fs[1..]);
      GetAppend(fs[1..], f, k);
    }
  }

  /** Property write `obj[k] = v`: an existing key keeps its position, a new key goes last. */
  function SetProp(fs: seq<Field>, k: string, v: Value): (r: seq<Field>)
    ensures KeysOf(r) == if k in KeysOf(fs) then KeysOf(fs) else KeysOf(fs) + [k]
  {
    if fs == [] then [Field(k, v)]
    else if fs[0].key == k then
      var r := [Field(k, v)] + fs[1..];
      assert KeysOf(r) == [k] + KeysOf(fs[1..]) && KeysOf(fs) == [k] + KeysOf(fs[1..]);
      assert k in KeysOf(fs);
      r
    else
      var t := SetProp(fs[1..], k, v);
      var r := [fs[0]] + t;
      assert KeysOf(fs) == [fs[0].key] + KeysOf(fs[1..]);
      assert KeysOf(r) == [fs[0].key] + KeysOf(t);
      assert k in KeysOf(fs) <==> k in KeysOf(fs[1..]);
      r
  }

  /** After `obj[k] = v`, reading `k` gives `v` and every other key reads as before. */
  lemma {:induction false} SetPropGet(fs: seq<Field>, k: string, v: Value, k': string)
    ensures Get(SetProp(fs, k, v), k') == if k' == k then v else Get(fs, k')
  {
    if fs != [] && fs[0].key != k {
      SetPropGet(fs[1..], k, v, k');
    }
  }

  /** Writing a property keeps the keys of an object distinct. */
  lemma {:induction false} SetPropDistinct(fs: seq<Field>, k: string, v: Value)
    requires DistinctKeys(fs)
    ensures DistinctKeys(SetProp(fs, k, v))
  {
    var r := SetProp(fs, k, v);
    var ks := KeysOf(r);
    forall i, j | 0 <= i < j < |r| ensures r[i].key != r[j].key {
      assert ks[i] == r[i].key && ks[j] == r[j].key;
      if k in KeysOf(fs) {
        assert ks == KeysOf(fs);
        assert fs[i].key != fs[j].key;
      } else if j < |fs| {
        assert ks[..|fs|] == KeysOf(fs);
        assert fs[i].key != fs[j].key;
      } else {
        assert ks[j] == k && ks[i] == KeysOf(fs)[i];
      }
    }
  }

  /** `Object.assign(target, source)`: the source's properties written onto the target in order. */
  function Assign(target: seq<Field>, source: seq<Field>): seq<Field>
    decreases source
  {
    if source == [] then target
    else Assign(SetProp(target, source[0].key, source[0].val), source[1..])
  }

  /**
   * `Object.assign` keeps the target's keys in their positions, ahead of the
   * source's new keys, and leaves no key twice.
   */
  lemma {:induction false} AssignKeys(target: seq<Field>, source: seq<Field>)
    requires DistinctKeys(target)
    ensures var r := Assign(target, source);
      && DistinctKeys(r)
      && |r| >= |target|
      && KeysOf(r)[..|target|] == KeysOf(target)
      && (forall k :: k in KeysOf(r) <==> k in KeysOf(target) || k in KeysOf(source))
    decreases source
  {
    if source != [] {
      var f := source[0];
      var t := SetProp(target, f.key, f.val);
      SetPropDistinct(target, f.key, f.val);
      AssignKeys(t, source[1..]);
      var r := Assign(t, source[1..]);
      assert KeysOf(source) == [f.key] + KeysOf(source[1..]);
      assert KeysOf(t)[..|target|] == KeysOf(target);
      assert KeysOf(r)[..|target|] == KeysOf(r)[..|t|][..|target|];
    }
  }

  /** The first key of a JavaScript object does not occur again, and the rest is still an object. */
  lemma DistinctKeysTail(fs: seq<Field>)
    requires DistinctKeys(fs) && fs != []
    ensures DistinctKeys(fs[1..])
    ensures KeysOf(fs) == [fs[0].key] + KeysOf(fs[1..])
    ensures fs[0].key !in KeysOf(fs[1..])
  {
    var rest := fs[1..];
    forall i | 0 <= i < |rest| ensures rest[i].key != fs[0].key {
      assert rest[i] == fs[i + 1];
    }
    forall i, j | 0 <= i < j < |rest| ensures rest[i].key != rest[j].key {
      assert rest[i] == fs[i + 1] && rest[j] == fs[j + 1];
    }
  }

  /**
   * After `Object.assign`, a key the source has reads as the source's value
   * (the source wins every clash), and any other key reads as the target's.
   */
  lemma {:induction false} AssignGet(target: seq<Field>, source: seq<Field>, k: string)
    requires DistinctKeys(source)
    ensures Get(Assign(target, source), k) == if k in KeysOf(source) then Get(source, k) else Get(target, k)
    decreases source
  {
    if source != [] {
      var f := source[0];
      var rest := source[1..];
      var t := SetProp(target, f.key, f.val);
      DistinctKeysTail(source);
      AssignGet(t, rest, k);
      SetPropGet(target, f.key, f.val, k);
      assert Assign(target, source) == Assign(t, rest);
      if k == f.key {
        assert Get(source, k) == f.val;
      } else {
        assert Get(source, k) == Get(rest, k);
      }
    }
  }

  /** Assigning onto a fresh `{}` copies a JavaScript object unchanged. */
  lemma {:induction false} AssignOntoEmpty(acc: seq<Field>, source: seq<Field>)
    requires DistinctKeys(acc + source)
    ensures Assign(acc, source) == acc + source
    decreases source
  {
    if source != [] {
      var f := source[0];
      forall i | 0 <= i < |acc| ensures acc[i].key != f.key {
        assert (acc + source)[i] == acc[i] && (acc + source)[|acc|] == f;
      }
      AppendNewKey(acc, f);
      assert (acc + [f]) + source[1..] == acc + source;
      AssignOntoEmpty(acc + [f], source[1..]);
    }
  }

  lemma {:induction false} AppendNewKey(fs: seq<Field>, f: Field)
    requires f.key !in KeysOf(fs)
    ensures SetProp(fs, f.key, f.val) == fs + [f]
  {
    if fs != [] {
      assert KeysOf(fs) == [fs[0].key] + KeysOf(fs[1..]);
      AppendNewKey(fs[1..], f);
      assert [fs[0]] + (fs[1..] + [f]) == fs + [f];
    }
  }

  /** `String(v)`, as string concatenation and template literals render a value. */
  function ToStr(v: Value): string
    decreases v, 1
  {
    match v
    case Str(s) => s
    case Num(n) => IntToDecimal(n)
    case Bool(b) => if b then "true" else "false"
    case Null => "null"
    case Undef => "undefined"
    case Arr(items) => Join(JoinTexts(items), ",")
    case Obj(_) => "[object Object]"
  }

  /** How `Array.prototype.join` renders one element: null and undefined become empty. */
  function JoinText(v: Value): string
    decreases v, 2
  {
    if IsNullish(v) then "" else ToStr(v)
  }

  function JoinTexts(items: seq<Value>): (r: seq<string>)
    ensures |r| == |items|
    decreases items, 0
  {
    if items == [] then [] else [JoinText(items[0])] + JoinTexts(items[1..])
  }

  /**
   * `Object.keys(v)` paired with `v[key]`: an object's own fields; an array's
   * or a string's index names with their elements; nothing for other values.
   */
  function OwnEntries(v: Value): (r: seq<Field>)
  {
    match v
    case Obj(fs) => fs
    case Arr(items) => seq(|items|, i requires 0 <= i < |items| => Field(NatToDecimal(i), items[i]))
    case Str(s) => seq(|s|, i requires 0 <= i < |s| => Field(NatToDecimal(i), Str([s[i]])))
    case _ => []
  }

  /** Every value's own entries have distinct keys, as long as its object fields do. */
  lemma OwnEntriesDistinct(v: Value)
    requires v.Obj? ==> DistinctKeys(v.fields)
    ensures DistinctKeys(OwnEntries(v))
  {
    var es := OwnEntries(v);
    if !v.Obj? {
      forall i, j | 0 <= i < j < |es| ensures es[i].key != es[j].key {
        if es[i].key == es[j].key { NatToDecimalInjective(i, j); }
      }
    }
  }
}
