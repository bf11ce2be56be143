/**
 * The JavaScript string primitives the compiler relies on, written out over
 * `seq<char>`: `toUpperCase` (ASCII letters), `Array.prototype.join` on
 * strings, `split` on one character, `trim`, decimal rendering of integers,
 * and the default `Array.prototype.sort` order on strings.
 */
module JsText {

  // ---------------------------------------------------------------------------
  // toUpperCase

  predicate IsLowerAscii(c: char) { 'a' <= c <= 'z' }

  /** `String.prototype.toUpperCase` on one character; only ASCII letters change. */
  function UpperChar(c: char): (r: char)
    ensures !IsLowerAscii(r)
    ensures !IsLowerAscii(c) ==> r == c
  {
    if IsLowerAscii(c) then (c as int - 'a' as int + 'A' as int) as char else c
  }

  function Upper(s: string): (r: string)
    ensures |r| == |s|
    ensures forall i :: 0 <= i < |r| ==> !IsLowerAscii(r[i])
  {
    seq(|s|, i requires 0 <= i < |s| => UpperChar(s[i]))
  }

  /** Upper-casing twice is upper-casing once. */
  lemma UpperIdempotent(s: string)
    ensures Upper(Upper(s)) == Upper(s)
  {
    var u := Upper(s);
    forall i | 0 <= i < |u| ensures UpperChar(u[i]) == u[i] {
    }
  }

  // ---------------------------------------------------------------------------
  // Array.prototype.join over strings

  /** `parts.join(sep)`: the empty list joins to the empty string. */
  function Join(parts: seq<string>, sep: string): (r: string)
    ensures |parts| == 1 ==> r == parts[0]
  {
    if |parts| == 0 then ""
    else if |parts| == 1 then parts[0]
    else parts[0] + sep + Join(parts[1..], sep)
  }

  lemma {:induction false} JoinAppend(parts: seq<string>, last: string, sep: string)
    requires |parts| >= 1
    ensures Join(parts + [last], sep) == Join(parts, sep) + sep + last
  {
    if |parts| == 1 {
      assert parts + [last] == [parts[0], last];
    } else {
      assert (parts + [last])[1..] == parts[1..] + [last];
      JoinAppend(parts[1..], last, sep);
    }
  }

  // ---------------------------------------------------------------------------
  // String.prototype.split on a one-character separator

  /**
   * `s.split(sep)`: the pieces between separators, in order; the empty string
   * splits into one empty piece.
   */
  function Split(s: string, sep: char): (r: seq<string>)
    ensures |r| >= 1
    ensures forall i :: 0 <= i < |r| ==> sep !in r[i]
  {
    if s == [] then [""]
    else
      var rest := Split(s[1..], sep);
      if s[0] == sep then [""] + rest
      else [[s[0]] + rest[0]] + rest[1..]
  }

  /** Joining the pieces with the separator gives back the string. */
  lemma {:induction false} JoinSplit(s: string, sep: char)
    ensures Join(Split(s, sep), [sep]) == s
  {
    if s != [] {
      var rest := Split(s[1..], sep);
      JoinSplit(s[1..], sep);
      if s[0] == sep {
        assert ([""] + rest)[1..] == rest;
      } else if |rest| > 1 {
        var r := [[s[0]] + rest[0]] + rest[1..];
        assert r[1..] == rest[1..];
        assert Join(rest, [sep]) == rest[0] + [sep] + Join(rest[1..], [sep]);
      }
    }
  }

  /** Splitting a join of separator-free pieces gives back the pieces. */
  lemma {:induction false} SplitJoin(parts: seq<string>, sep: char)
    requires |parts| >= 1
    requires forall i :: 0 <= i < |parts| ==> sep !in parts[i]
    ensures Split(Join(parts, [sep]), sep) == parts
    decreases |parts|, |parts[0]|
  {
    var p0 := parts[0];
    if p0 == [] {
      if |parts| > 1 {
        var ps := parts[1..];
        SplitJoin(ps, sep);
        assert Join(parts, [sep]) == [sep] + Join(ps, [sep]);
        assert parts == [""] + ps;
      }
    } else {
      var tail := [p0[1..]] + parts[1..];
      assert tail[1..] == parts[1..];
      SplitJoin(tail, sep);
      if |parts| == 1 {
        assert Join(parts, [sep]) == [p0[0]] + Join(tail, [sep]);
      } else {
        assert Join(parts, [sep]) == [p0[0]] + Join(tail, [sep]);
      }
      var j := Join(parts, [sep]);
      assert j[1..] == Join(tail, [sep]);
      assert j[0] == p0[0] && j[0] != sep;
      assert p0 == [p0[0]] + p0[1..];
      assert Split(j, sep) == [[p0[0]] + tail[0]] + tail[1..];
    }
  }

  // ---------------------------------------------------------------------------
  // String.prototype.trim

  /** The ECMAScript WhiteSpace and LineTerminator code points. */
  predicate IsSpace(c: char)
  {
    c == '\t' || c == '\n' || c == '\U{000B}' || c == '\U{000C}' || c == '\r' || c == ' '
    || c == '\U{00A0}' || c == '\U{1680}' || ('\U{2000}' <= c <= '\U{200A}')
    || c == '\U{2028}' || c == '\U{2029}' || c == '\U{202F}' || c == '\U{205F}'
    || c == '\U{3000}' || c == '\U{FEFF}'
  }

  predicate AllSpace(s: string)
  {
    forall i :: 0 <= i < |s| ==> IsSpace(s[i])
  }

  /** Drops leading white space: the result is a suffix, and what was dropped is all white space. */
  function TrimStart(s: string): (r: string)
    ensures |r| <= |s| && r == s[|s| - |r|..]
    ensures AllSpace(s[..|s| - |r|])
    ensures r == [] || !IsSpace(r[0])
  {
    if s != [] && IsSpace(s[0]) then TrimStart(s[1..]) else s
  }

  /** Drops trailing white space: the result is a prefix, and what was dropped is all white space. */
  function TrimEnd(s: string): (r: string)
    ensures |r| <= |s| && r == s[..|r|]
    ensures AllSpace(s[|r|..])
    ensures r == [] || !IsSpace(r[|r| - 1])
  {
    if s != [] && IsSpace(s[|s| - 1]) then
      var r := TrimEnd(s[..|s| - 1]);
      assert s[|r|..] == s[..|s| - 1][|r|..] + [s[|s| - 1]];
      r
    else s
  }

  /** `s.trim()`: white space dropped at both ends (see `TrimStart` and `TrimEnd`), so none is left at either end. */
  function Trim(s: string): (r: string)
    ensures |r| <= |s|
    ensures r == [] || (!IsSpace(r[0]) && !IsSpace(r[|r| - 1]))
  {
    TrimEnd(TrimStart(s))
  }

  /** Trimming a word that neither starts nor ends with white space, after leading white space, gives the word. */
  lemma {:induction false} TrimAfterSpace(sp: string, x: string)
    requires AllSpace(sp)
    requires x == [] || (!IsSpace(x[0]) && !IsSpace(x[|x| - 1]))
    ensures Trim(sp + x) == x
  {
    TrimStartAfterSpace(sp, x);
  }

  lemma {:induction false} TrimStartAfterSpace(sp: string, x: string)
    requires AllSpace(sp)
    requires x == [] || !IsSpace(x[0])
    ensures TrimStart(sp + x) == x
  {
    if sp != [] {
      assert (sp + x)[1..] == sp[1..] + x;
      TrimStartAfterSpace(sp[1..], x);
    } else {
      assert sp + x == x;
    }
  }

  // ---------------------------------------------------------------------------
  // Decimal rendering of integers (Number.prototype.toString for integers)

  predicate IsDigit(c: char) { '0' <= c <= '9' }

  function DigitChar(d: int): (c: char)
    requires 0 <= d < 10
    ensures IsDigit(c)
  {
    ('0' as int + d) as char
  }

  function DigitValue(c: char): (d: nat)
    requires IsDigit(c)
    ensures d < 10 && DigitChar(d) == c
  {
    c as int - '0' as int
  }

  /** The decimal digits of `n`, without leading zeros. */
  function NatToDecimal(n: nat): (r: string)
    ensures |r| >= 1
    ensures forall i :: 0 <= i < |r| ==> IsDigit(r[i])
    ensures (|r| == 1) == (n < 10)
  {
    if n < 10 then [DigitChar(n)] else NatToDecimal(n / 10) + [DigitChar(n % 10)]
  }

  /** The value of a string of decimal digits. */
  function DecimalValue(s: string): nat
    requires forall i :: 0 <= i < |s| ==> IsDigit(s[i])
  {
    if s == [] then 0 else DecimalValue(s[..|s| - 1]) * 10 + DigitValue(s[|s| - 1])
  }

  /** Reading the rendered digits back gives the number. */
  lemma {:induction false} DecimalRoundTrip(n: nat)
    ensures DecimalValue(NatToDecimal(n)) == n
  {
    if n >= 10 {
      var r := NatToDecimal(n);
      assert r[..|r| - 1] == NatToDecimal(n / 10);
      DecimalRoundTrip(n / 10);
    }
  }

  /** Different numbers render differently. */
  lemma NatToDecimalInjective(a: nat, b: nat)
    requires NatToDecimal(a) == NatToDecimal(b)
    ensures a == b
  {
    DecimalRoundTrip(a);
    DecimalRoundTrip(b);
  }

  /** `String(n)` for an integer `n`. */
  function IntToDecimal(n: int): (r: string)
    ensures |r| >= 1
    ensures (r[0] == '-') == (n < 0)
  {
    if n < 0 then "-" + NatToDecimal(-n) else NatToDecimal(n)
  }

  /** After an optional `-`, the rendered digits read back as the magnitude of `n`. */
  lemma IntToDecimalReadBack(n: int)
    ensures var r := IntToDecimal(n);
      var digits := if r[0] == '-' then r[1..] else r;
      (forall i :: 0 <= i < |digits| ==> IsDigit(digits[i]))
      && DecimalValue(digits) == if n < 0 then -n else n
  {
    var r := IntToDecimal(n);
    var m: nat := if n < 0 then -n else n;
    var d := NatToDecimal(m);
    DecimalRoundTrip(m);
    if n < 0 {
      assert r == "-" + d;
      assert r[1..] == d;
    } else {
      assert r == d;
      assert IsDigit(d[0]);
    }
  }

  /** Different integers render differently. */
  lemma IntToDecimalInjective(a: int, b: int)
    requires IntToDecimal(a) == IntToDecimal(b)
    ensures a == b
  {
    IntToDecimalReadBack(a);
    IntToDecimalReadBack(b);
  }

  // ---------------------------------------------------------------------------
  // The default sort order on strings

  /** Lexicographic order on code points; a proper prefix comes first. */
  predicate StrLt(a: string, b: string)
  {
    if a == [] then b != []
    else if b == [] then false
    else if a[0] != b[0] then a[0] < b[0]
    else StrLt(a[1..], b[1..])
  }

  lemma {:induction false} StrLtIrreflexive(a: string)
    ensures !StrLt(a, a)
  {
    if a != [] { StrLtIrreflexive(a[1..]); }
  }

  lemma {:induction false} StrLtTotal(a: string, b: string)
    ensures a == b || StrLt(a, b) || StrLt(b, a)
  {
    if a != [] && b != [] && a[0] == b[0] {
      StrLtTotal(a[1..], b[1..]);
      if a[1..] == b[1..] {
        assert a == [a[0]] + a[1..] && b == [b[0]] + b[1..];
      }
    }
  }

  lemma {:induction false} StrLtAsymmetric(a: string, b: string)
    requires StrLt(a, b)
    ensures !StrLt(b, a)
  {
    if a != [] && b != [] && a[0] == b[0] {
      StrLtAsymmetric(a[1..], b[1..]);
    }
  }

  lemma {:induction false} StrLtTransitive(a: string, b: string, c: string)
    requires StrLt(a, b) && StrLt(b, c)
    ensures StrLt(a, c)
  {
    if a != [] && b != [] && c != [] && a[0] == b[0] && b[0] == c[0] {
      StrLtTransitive(a[1..], b[1..], c[1..]);
    }
  }

  predicate StrictlySorted(s: seq<string>)
  {
    forall i, j :: 0 <= i < j < |s| ==> StrLt(s[i], s[j])
  }

  /** `Array.prototype.splice(p, 0, x)`: `x` inserted before position `p`. */
  function InsertAt<T>(s: seq<T>, p: nat, x: T): (r: seq<T>)
    requires p <= |s|
    ensures |r| == |s| + 1 && r[p] == x
    ensures forall k :: 0 <= k < p ==> r[k] == s[k]
    ensures forall k :: p < k <= |s| ==> r[k] == s[k - 1]
  {
    s[..p] + [x] + s[p..]
  }

  /** How many leading elements of `s` sort before `x`. */
  function InsertPos(s: seq<string>, x: string): (p: nat)
    ensures p <= |s|
  {
    if s != [] && StrLt(s[0], x) then 1 + InsertPos(s[1..], x) else 0
  }

  /** One insertion step of insertion sort. */
  function InsertSorted(s: seq<string>, x: string): seq<string>
  {
    if s != [] && StrLt(s[0], x) then [s[0]] + InsertSorted(s[1..], x)
    else [x] + s
  }

  lemma {:induction false} InsertSortedPermutes(s: seq<string>, x: string)
    ensures multiset(InsertSorted(s, x)) == multiset(s) + multiset{x}
  {
    if s != [] && StrLt(s[0], x) {
      InsertSortedPermutes(s[1..], x);
      assert s == [s[0]] + s[1..];
    }
  }

  /** Insertion puts `x` at its insertion point and leaves the rest in order. */
  lemma {:induction false} InsertSortedAt(s: seq<string>, x: string)
    ensures InsertSorted(s, x) == InsertAt(s, InsertPos(s, x), x)
  {
    if s != [] && StrLt(s[0], x) {
      var t := s[1..];
      var p := InsertPos(t, x);
      InsertSortedAt(t, x);
      assert InsertPos(s, x) == p + 1;
      calc {
        InsertSorted(s, x);
        [s[0]] + InsertSorted(t, x);
        [s[0]] + (t[..p] + [x] + t[p..]);
        { assert s[..p + 1] == [s[0]] + t[..p]; assert s[p + 1..] == t[p..]; }
        s[..p + 1] + [x] + s[p + 1..];
      }
    }
  }

  /** `Array.prototype.sort()` on strings. */
  function Sort(s: seq<string>): seq<string>
  {
    if s == [] then [] else InsertSorted(Sort(s[..|s| - 1]), s[|s| - 1])
  }

  /** Sorting permutes: every element is kept, as often as it occurs. */
  lemma {:induction false} SortPermutes(s: seq<string>)
    ensures multiset(Sort(s)) == multiset(s)
  {
    if s != [] {
      var init := s[..|s| - 1];
      SortPermutes(init);
      InsertSortedPermutes(Sort(init), s[|s| - 1]);
      assert s == init + [s[|s| - 1]];
    }
  }

  /** In a strictly sorted list, the insertion point separates smaller and larger elements. */
  lemma {:induction false} InsertPosSplits(s: seq<string>, x: string)
    requires StrictlySorted(s) && x !in s
    ensures forall k :: 0 <= k < InsertPos(s, x) ==> StrLt(s[k], x)
    ensures forall k :: InsertPos(s, x) <= k < |s| ==> StrLt(x, s[k])
  {
    if s != [] {
      if StrLt(s[0], x) {
        InsertPosSplits(s[1..], x);
      } else {
        StrLtTotal(s[0], x);
        forall k | 0 <= k < |s| ensures StrLt(x, s[k]) {
          if k > 0 { StrLtTransitive(x, s[0], s[k]); }
        }
      }
    }
  }

  /** Inserting a new element keeps a list strictly sorted. */
  lemma InsertSortedKeepsSorted(s: seq<string>, x: string)
    requires StrictlySorted(s) && x !in s
    ensures StrictlySorted(InsertSorted(s, x))
  {
    InsertPosSplits(s, x);
    InsertSortedAt(s, x);
    var p := InsertPos(s, x);
    var r := InsertSorted(s, x);
    forall i, j | 0 <= i < j < |r| ensures StrLt(r[i], r[j]) {
      if j < p {
      } else if j == p {
      } else if i < p {
        StrLtTransitive(r[i], x, r[j]);
      } else if i == p {
      } else {
      }
    }
  }

  /** Sorting a list of distinct strings gives a strictly sorted list. */
  lemma {:induction false} SortSorted(s: seq<string>)
    requires forall i, j :: 0 <= i < j < |s| ==> s[i] != s[j]
    ensures StrictlySorted(Sort(s))
  {
    if s != [] {
      var init := s[..|s| - 1];
      var x := s[|s| - 1];
      SortSorted(init);
      SortPermutes(init);
      assert x !in multiset(init);
      assert x !in multiset(Sort(init));
      InsertSortedKeepsSorted(Sort(init), x);
    }
  }

  /** Sorting an already strictly sorted list changes nothing. */
  lemma {:induction false} SortOfSorted(s: seq<string>)
    requires StrictlySorted(s)
    ensures Sort(s) == s
  {
    if s != [] {
      var init := s[..|s| - 1];
      var x := s[|s| - 1];
      forall i, j | 0 <= i < j < |init| ensures StrLt(init[i], init[j]) {
        assert init[i] == s[i] && init[j] == s[j];
      }
      forall k | 0 <= k < |init| ensures StrLt(init[k], x) {
        assert init[k] == s[k];
      }
      SortOfSorted(init);
      InsertPosAll(init, x);
      InsertSortedAt(init, x);
      assert Sort(s) == InsertSorted(init, x);
      assert InsertAt(init, |init|, x) == init + [x] == s;
    }
  }

  lemma {:induction false} InsertPosAll(s: seq<string>, x: string)
    requires forall k :: 0 <= k < |s| ==> StrLt(s[k], x)
    ensures InsertPos(s, x) == |s|
  {
    if s != [] { InsertPosAll(s[1..], x); }
  }

  /** `cs.concat(x).sort()` on a strictly sorted `cs` is `x` spliced in at its insertion point. */
  lemma SortAppend(cs: seq<string>, x: string)
    requires StrictlySorted(cs) && x !in cs
    ensures Sort(cs + [x]) == InsertAt(cs, InsertPos(cs, x), x)
    ensures StrictlySorted(Sort(cs + [x]))
  {
    var s := cs + [x];
    assert s[..|s| - 1] == cs;
    SortOfSorted(cs);
    InsertSortedAt(cs, x);
    InsertSortedKeepsSorted(cs, x);
  }

  // ---------------------------------------------------------------------------
  // Array.prototype.indexOf

  /** `s.indexOf(x)`: the first position of `x`, or -1. */
  function IndexOf(s: seq<string>, x: string): (r: int)
    ensures -1 <= r < |s|
    ensures r == -1 <==> x !in s
    ensures r >= 0 ==> s[r] == x && x !in s[..r]
  {
    if s == [] then -1
    else if s[0] == x then 0
    else
      var k := IndexOf(s[1..], x);
      if k == -1 then -1 else (assert s[..k + 1] == [s[0]] + s[1..][..k]; k + 1)
  }
}
