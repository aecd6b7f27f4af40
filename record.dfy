/** The normalisation of a parsed model reply in `SQLGenerationPipeline.generate_sql_for_question`
    (app.py:292-300): missing fields get defaults, and the SQL of an answer given with positive
    confidence goes through `validate_and_fix_sql`. */
module ResultRecord {
  import opened Wrappers
  import opened Text
  import SqlFix

  /** A JSON value as `json.loads` returns it; lists and objects are not looked into. */
  datatype Value = Null | Bool(b: bool) | Int(i: int) | Real(r: real) | Str(s: string) | Composite

  /** The six `setdefault` calls of app.py:292-297, in order: each key with its default. */
  function Defaults(questionId: int, question: string): seq<(string, Value)> {
    [("question_id", Int(questionId)),
     ("question", Str(question)),
     ("target_source", Str("N/A")),
     ("sql", Str("-- Error parsing response")),
     ("assumptions", Str("AI did not provide reasoning")),
     ("confidence", Real(0.0))]
  }

  /** `d.setdefault(key, value)` on the fields of a record. */
  function Defaulted(fields: map<string, Value>, key: string, value: Value): map<string, Value> {
    if key in fields then fields else fields[key := value]
  }

  /** The fields after a run of `setdefault` calls. */
  function WithDefaults(fields: map<string, Value>, defaults: seq<(string, Value)>): map<string, Value>
    decreases |defaults|
  {
    if defaults == [] then fields
    else WithDefaults(Defaulted(fields, defaults[0].0, defaults[0].1), defaults[1..])
  }

  /** `v > 0` for a JSON value: `None` where Python raises `TypeError`. A `bool` compares as
      the integer it is. */
  function Positive(v: Value): Option<bool> {
    match v
    case Bool(b) => Some(b)
    case Int(i) => Some(i > 0)
    case Real(r) => Some(r > 0.0)
    case _ => None
  }

  /** The guard of app.py:299: `Some(true)` when the SQL is to be fixed, `None` when evaluating
      it raises (a confidence that does not compare with 0, or an `sql` field that is not a
      string). */
  function ShouldFix(fields: map<string, Value>): Option<bool> {
    var confidence := if "confidence" in fields then fields["confidence"] else Int(0);
    match Positive(confidence)
    case None => None
    case Some(positive) =>
      if !positive || "sql" !in fields then Some(false)
      else match fields["sql"]
        case Str(s) => Some(!StartsWith(s, "--"))
        case _ => None
  }

  /** The fields after app.py:299-300 when the guard does not raise. */
  function FixedFields(fields: map<string, Value>): map<string, Value>
    requires ShouldFix(fields).Some?
  {
    if ShouldFix(fields) == Some(true) then fields["sql" := Str(SqlFix.FixSql(fields["sql"].s))]
    else fields
  }

  /** The parsed reply, a dictionary updated in place. */
  class Record {
    var fields: map<string, Value>

    constructor(fields: map<string, Value>)
      ensures this.fields == fields
    {
      this.fields := fields;
    }

    /** `result.setdefault(key, value)`. */
    method SetDefault(key: string, value: Value)
      modifies this
      ensures fields == Defaulted(old(fields), key, value)
    {
      if key !in fields {
        fields := fields[key := value];
      }
    }

    /** app.py:292-297. */
    method ApplyDefaults(questionId: int, question: string)
      modifies this
      ensures fields == WithDefaults(old(fields), Defaults(questionId, question))
    {
      ghost var d := Defaults(questionId, question);
      ghost var goal := WithDefaults(fields, d);
      SetDefault("question_id", Int(questionId));
      assert goal == WithDefaults(fields, d[1..]);
      SetDefault("question", Str(question));
      assert d[1..][1..] == d[2..];
      assert goal == WithDefaults(fields, d[2..]);
      SetDefault("target_source", Str("N/A"));
      assert d[2..][1..] == d[3..];
      assert goal == WithDefaults(fields, d[3..]);
      SetDefault("sql", Str("-- Error parsing response"));
      assert d[3..][1..] == d[4..];
      assert goal == WithDefaults(fields, d[4..]);
      SetDefault("assumptions", Str("AI did not provide reasoning"));
      assert d[4..][1..] == d[5..];
      assert goal == WithDefaults(fields, d[5..]);
      SetDefault("confidence", Real(0.0));
      assert d[5..][1..] == [];
      assert goal == WithDefaults(fields, []);
    }

    /** app.py:299-300. `raised` reports the `TypeError` or `AttributeError` the guard can
        raise, which the source's enclosing `except` turns into a retry; the fields are then
        unchanged. */
    method FixSqlIfConfident() returns (raised: bool)
      modifies this
      ensures raised <==> ShouldFix(old(fields)).None?
      ensures !raised ==> fields == FixedFields(old(fields))
      ensures raised ==> fields == old(fields)
    {
      var confidence := if "confidence" in fields then fields["confidence"] else Int(0);
      var positive := Positive(confidence);
      if positive.None? {
        return true;
      }
      if positive.value && "sql" in fields {
        var sql := fields["sql"];
        if !sql.Str? {
          return true;
        }
        if !StartsWith(sql.s, "--") {
          fields := fields["sql" := Str(SqlFix.FixSql(sql.s))];
        }
      }
      raised := false;
    }
  }

  /** After the defaults every key of the original fields keeps its value, every default key
      is present, and no other key is added. */
  lemma {:induction false} WithDefaultsKeeps(fields: map<string, Value>, defaults: seq<(string, Value)>)
    ensures var r := WithDefaults(fields, defaults);
      (forall key :: key in fields ==> key in r && r[key] == fields[key]) &&
      (forall i :: 0 <= i < |defaults| ==> defaults[i].0 in r) &&
      (forall key :: key in r ==> key in fields || exists i :: 0 <= i < |defaults| && defaults[i].0 == key)
    decreases |defaults|
  {
    if defaults != [] {
      var next := Defaulted(fields, defaults[0].0, defaults[0].1);
      WithDefaultsKeeps(next, defaults[1..]);
      var r := WithDefaults(fields, defaults);
      forall key | key in r
        ensures key in fields || exists i :: 0 <= i < |defaults| && defaults[i].0 == key
      {
        if key !in next {
          var i :| 0 <= i < |defaults[1..]| && defaults[1..][i].0 == key;
          assert defaults[i + 1].0 == key;
        } else if key !in fields {
          assert defaults[0].0 == key;
        }
      }
      forall i | 0 <= i < |defaults|
        ensures defaults[i].0 in r
      {
        if i > 0 {
          assert defaults[1..][i - 1] == defaults[i];
        }
      }
    }
  }

  /** A default fills a key the reply lacked: the first default for that key wins. */
  lemma {:induction false} WithDefaultsFills(fields: map<string, Value>, defaults: seq<(string, Value)>, i: nat)
    requires i < |defaults| && defaults[i].0 !in fields
    requires forall j :: 0 <= j < i ==> defaults[j].0 != defaults[i].0
    ensures var r := WithDefaults(fields, defaults); defaults[i].0 in r && r[defaults[i].0] == defaults[i].1
    decreases |defaults|
  {
    WithDefaultsKeeps(fields, defaults);
    var next := Defaulted(fields, defaults[0].0, defaults[0].1);
    if i == 0 {
      WithDefaultsKeeps(next, defaults[1..]);
    } else {
      forall j | 0 <= j < i - 1
        ensures defaults[1..][j].0 != defaults[1..][i - 1].0
      {
        assert defaults[1..][j] == defaults[j + 1];
      }
      WithDefaultsFills(next, defaults[1..], i - 1);
    }
  }

  /** After app.py:292-297 a reply without `sql` carries the placeholder query, which starts
      with `--`, so app.py:299 never rewrites it. */
  lemma PlaceholderSqlNotFixed(fields: map<string, Value>, questionId: int, question: string)
    requires "sql" !in fields
    ensures var r := WithDefaults(fields, Defaults(questionId, question));
      "sql" in r && r["sql"] == Str("-- Error parsing response") && ShouldFix(r) != Some(true)
  {
    var d := Defaults(questionId, question);
    WithDefaultsFills(fields, d, 3);
    WithDefaultsKeeps(fields, d);
  }

  /** After app.py:292-297 a reply without `confidence` has confidence 0.0, so its SQL is
      left alone and the guard cannot raise. */
  lemma MissingConfidenceNotFixed(fields: map<string, Value>, questionId: int, question: string)
    requires "confidence" !in fields
    ensures ShouldFix(WithDefaults(fields, Defaults(questionId, question))) == Some(false)
  {
    var d := Defaults(questionId, question);
    WithDefaultsFills(fields, d, 5);
    WithDefaultsKeeps(fields, d);
  }

  /** A query the guard lets through comes back from app.py:300 without a trailing `;`. */
  lemma FixedSqlClean(fields: map<string, Value>)
    requires ShouldFix(fields) == Some(true)
    ensures var r := FixedFields(fields);
      "sql" in r && r["sql"].Str? && (r["sql"].s == [] || r["sql"].s[|r["sql"].s| - 1] != ';')
  {
    SqlFix.NoTrailingSemicolon(fields["sql"].s);
  }
}
