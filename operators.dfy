/**
 * The operator vocabulary of the adapter and the three one-line formatters
 * every WHERE condition goes through: `_getOperator`, `_parseCondition` and
 * `_parseValue`.
 */
module Operators {
  import opened JsText
  import opened JsValue

  const KeywordAnd: string := "AND"
  const KeywordOr: string := "OR"

  /** The key the normaliser introduces for an implicit equality. */
  const OperatorEqual: string := "=="

  /** The frozen `OPERATORS` table: upper-cased query token to SQL operator. */
  const OperatorTable: map<string, string> := map[
    "=" := "=", OperatorEqual := "=", "EQ" := "=",
    "<>" := "<>", "!=" := "<>", "NEQ" := "<>",
    ">" := ">", "GT" := ">",
    ">=" := ">=", "GTE" := ">=",
    "<" := "<", "LT" := "<",
    "<=" := "<=", "LTE" := "<=",
    "IN" := "IN", "INQ" := "IN",
    "NOTIN" := "NOT IN", "NIN" := "NOT IN",
    "LIKE" := "LIKE", "NLIKE" := "NOT LIKE",
    "ILIKE" := "LIKE", "LIKEI" := "LIKE"
  ]

  /** The SQL operators the table can produce. */
  const SqlOperators: set<string> := {"=", "<>", ">", ">=", "<", "<=", "IN", "NOT IN", "LIKE", "NOT LIKE"}

  /** Top-level query keys that are never read as implicit conditions. */
  const ReservedKeywords: seq<string> := ["order", "orderBy", "sort", "limit", "offset", "skip", "where"]

  const CaseInsensitiveLikeOperators: seq<string> := ["ILIKE", "LIKEI"]

  /** Operators whose empty value list cannot be written in SQL. */
  const InListOperators: seq<string> := ["IN", "INQ", "NOTIN", "NIN"]

  /** What an empty IN or NOT IN list compiles to. */
  const UnattainableCondition: string := "1 = 0"

  /** `key.toUpperCase() in OPERATORS`: the key is an operator token, in any case. */
  predicate IsOperatorKey(key: string)
  {
    Upper(key) in OperatorTable
  }

  /** `_getOperator`: the SQL operator a token stands for, or the token upper-cased. */
  function GetOperator(op: string): (r: string)
    ensures IsOperatorKey(op) ==> r in SqlOperators
    ensures !IsOperatorKey(op) ==> r == Upper(op)
    ensures forall i :: 0 <= i < |r| ==> !IsLowerAscii(r[i])
  {
    var u := Upper(op);
    if u in OperatorTable then OperatorTable[u] else u
  }

  /** Tokens are compared without regard to ASCII case. */
  lemma GetOperatorCaseInsensitive(a: string, b: string)
    requires Upper(a) == Upper(b)
    ensures GetOperator(a) == GetOperator(b)
  {
  }

  /** A SQL operator maps to itself, so mapping twice is mapping once. */
  lemma GetOperatorIdempotent(op: string)
    ensures GetOperator(GetOperator(op)) == GetOperator(op)
  {
    var r := GetOperator(op);
    if IsOperatorKey(op) {
      assert r in SqlOperators;
      assert Upper(r) == r by { UpperIdempotentOnUpper(r); }
    } else {
      UpperIdempotent(op);
    }
  }

  /** Every SQL operator is already upper-case. */
  lemma UpperIdempotentOnUpper(s: string)
    requires s in SqlOperators
    ensures Upper(s) == s
  {
    forall i | 0 <= i < |s| ensures UpperChar(s[i]) == s[i] {
      assert !IsLowerAscii(s[i]);
    }
  }

  /** The spellings of equality. */
  lemma EqualityAliases()
    ensures GetOperator("=") == "=" && GetOperator("==") == "=" && GetOperator("eq") == "="
  {
    assert Upper("=") == "=" && Upper("==") == "==";
    assert Upper("eq") == "EQ";
  }

  /** The spellings of inequality. */
  lemma InequalityAliases()
    ensures GetOperator("<>") == "<>" && GetOperator("!=") == "<>" && GetOperator("neq") == "<>"
  {
    assert Upper("<>") == "<>" && Upper("!=") == "!=";
    assert Upper("neq") == "NEQ";
  }

  /** The spellings of the four orderings. */
  lemma ComparisonAliases()
    ensures GetOperator("gte") == ">=" && GetOperator("lte") == "<="
    ensures GetOperator("gt") == ">" && GetOperator("lt") == "<"
  {
    assert Upper("gte") == "GTE" && Upper("lte") == "LTE" && Upper("gt") == "GT" && Upper("lt") == "LT";
  }

  /** The four ordering symbols stand for themselves. */
  lemma OrderingSymbols()
    ensures GetOperator(">") == ">" && GetOperator(">=") == ">="
    ensures GetOperator("<") == "<" && GetOperator("<=") == "<="
  {
    assert Upper(">") == ">" && Upper(">=") == ">=" && Upper("<") == "<" && Upper("<=") == "<=";
  }

  /** The spellings of list membership. */
  lemma MembershipAliases()
    ensures GetOperator("in") == "IN" && GetOperator("inq") == "IN"
    ensures GetOperator("nin") == "NOT IN" && GetOperator("notin") == "NOT IN"
  {
    assert Upper("in") == "IN" && Upper("inq") == "INQ" && Upper("nin") == "NIN" && Upper("notin") == "NOTIN";
  }

  /** The spellings of pattern matching; the case-insensitive ones still map to LIKE. */
  lemma LikeAliases()
    ensures GetOperator("like") == "LIKE" && GetOperator("nlike") == "NOT LIKE"
    ensures GetOperator("ilike") == "LIKE" && GetOperator("likei") == "LIKE"
  {
    assert Upper("like") == "LIKE" && Upper("nlike") == "NLIKE" && Upper("ilike") == "ILIKE" && Upper("likei") == "LIKEI";
  }

  predicate IsCaseInsensitiveLike(op: string)
  {
    Upper(op) in CaseInsensitiveLikeOperators
  }

  /**
   * `_parseCondition`: `field OP value`, except that ILIKE and LIKEI lower-case
   * both sides of a plain LIKE.
   */
  function ParseCondition(field: string, op: string, value: string): (r: string)
    ensures IsCaseInsensitiveLike(op) ==> r == "LOWER(" + field + ") LIKE LOWER(" + value + ")"
    ensures !IsCaseInsensitiveLike(op) ==> r == field + " " + GetOperator(op) + " " + value
  {
    var operator := GetOperator(op);
    if Upper(op) in CaseInsensitiveLikeOperators then
      "LOWER(" + field + ") " + operator + " LOWER(" + value + ")"
    else
      field + " " + operator + " " + value
  }

  /** Both spellings of equality give the condition `field = value`. */
  lemma EqualityCondition(field: string, op: string, value: string)
    requires op == "=" || op == OperatorEqual
    ensures ParseCondition(field, op, value) == field + " = " + value
  {
    assert Upper(op) == op;
    assert GetOperator(op) == "=";
    assert !IsCaseInsensitiveLike(op);
    assert field + " " + "=" + " " + value == field + " = " + value;
  }

  /** The rendered value always appears in the condition, so its text is never lost. */
  lemma ParseConditionKeepsValue(field: string, op: string, value: string, c: char)
    requires c in value
    ensures c in ParseCondition(field, op, value)
  {
    var r := ParseCondition(field, op, value);
    if IsCaseInsensitiveLike(op) {
      assert r == ("LOWER(" + field + ") LIKE LOWER(") + value + ")";
    } else {
      assert r == (field + " " + GetOperator(op) + " ") + value;
    }
  }

  /** `_parseValue`: a string is wrapped in single quotes, any other value passes through. */
  function ParseValue(v: Value): (r: Value)
    ensures r.Str? <==> v.Str?
    ensures v.Str? ==> |r.s| == |v.s| + 2 && r.s[0] == '\'' && r.s[|r.s| - 1] == '\'' && r.s[1..|r.s| - 1] == v.s
    ensures !v.Str? ==> r == v
  {
    if v.Str? then Str("'" + v.s + "'") else v
  }

  /** Quoting loses nothing: distinct values stay distinct. */
  lemma ParseValueInjective(a: Value, b: Value)
    requires ParseValue(a) == ParseValue(b)
    ensures a == b
  {
    if a.Str? {
      assert a.s == ParseValue(a).s[1..|a.s| + 1];
    }
  }
}
