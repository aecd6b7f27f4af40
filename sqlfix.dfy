/** `SQLGenerationPipeline.validate_and_fix_sql` (app.py:159-173): textual rewrites that
    turn SQL Server and MySQL habits in generated queries into PostgreSQL. Every pattern is
    matched with `re.IGNORECASE`, modelled here as ASCII case-insensitivity. The
    `target_source` argument of the source is never read by the function and is not part of
    the model. */
module SqlFix {
  import opened Wrappers
  import opened Text
  import opened Rewrite
  import opened Regex

  /** `TOP\s+(\d+)` (app.py:162). */
  const TopPattern := [Lit("TOP"), Run(Space, 1, false), Run(Digit, 1, true)]

  /** `SELECT\s+TOP\s+\d+`, replaced by `SELECT` (app.py:165). */
  const SelectTopPattern :=
    [Lit("SELECT"), Run(Space, 1, false), Lit("TOP"), Run(Space, 1, false), Run(Digit, 1, false)]
  const SelectTopRepl := [Text("SELECT")]

  /** The pattern of app.py:168, whose parentheses are spelt out as the words in `Header` and
      `Tag`, so that it matches only text that contains those words literally. */
  const Header := "DATE_SUBKATEX_INLINE_OPENCURRENT_DATE,"
  const Tag := "KATEX_INLINE_CLOSE"
  const DateSubPattern :=
    [Lit(Header), Run(Space, 0, false), Lit("INTERVAL"), Run(Space, 1, false), Run(Digit, 1, true),
     Run(Space, 1, false), Run(Word, 1, true), Lit(Tag)]
  const DateSubRepl := [Text("CURRENT_DATE - INTERVAL '"), Ref(1), Text(" "), Ref(2), Text("'")]

  /** `INTERVAL\s+'(\d+)'\s+<unit>`, replaced by `INTERVAL '\1 <lower>'` (app.py:170-172). */
  function IntervalPattern(unit: string): seq<Token> {
    [Lit("INTERVAL"), Run(Space, 1, false), Lit("'"), Run(Digit, 1, true), Lit("'"),
     Run(Space, 1, false), Lit(unit)]
  }
  /** `INTERVAL\s+'\d+'`, the part of the three interval patterns that does not depend on
      the unit. */
  const QuotedInterval := [Lit("INTERVAL"), Run(Space, 1, false), Lit("'"), Run(Digit, 1, true), Lit("'")]
  function IntervalRepl(lower: string): seq<Piece> {
    [Text("INTERVAL '"), Ref(1), Text(" " + lower + "'")]
  }

  const SelectTop := Rule(SelectTopPattern, SelectTopRepl)
  const DateSub := Rule(DateSubPattern, DateSubRepl)
  const Days := Rule(IntervalPattern("DAY"), IntervalRepl("day"))
  const Months := Rule(IntervalPattern("MONTH"), IntervalRepl("month"))
  const Years := Rule(IntervalPattern("YEAR"), IntervalRepl("year"))

  /** `re.search(r'TOP\s+(\d+)', ·, re.IGNORECASE)` tried at one position. */
  function TopAt(s: string): (r: Option<Match>)
    ensures r.Some? ==> |r.value.groups| == 1
  {
    Interp(TopPattern, Upper(s))
  }

  /** app.py:161-167: when the upper-cased query holds `TOP `, the number after the first
      `TOP` becomes a `LIMIT` (unless the query already mentions `LIMIT`) and every
      `SELECT TOP n` loses its `TOP n`. */
  function FixTop(sql: string): string {
    if !Contains(Upper(sql), "TOP ") then sql
    else match TopNumber(sql)
      case None => sql
      case Some(n) =>
        var t := SubAll(SelectTop, sql);
        if Contains(Upper(t), "LIMIT") then t else t + " LIMIT " + n
  }

  /** `re.search(r'TOP\s+(\d+)', sql, re.IGNORECASE).group(1)`: the digits after the first
      `TOP` that is followed by whitespace and digits. */
  function TopNumber(sql: string): (r: Option<string>)
    ensures r.Some? ==> r.value != [] && forall k :: 0 <= k < |r.value| ==> IsDigit(r.value[k])
  {
    match SearchAt(TopAt, sql)
    case None => None
    case Some(i) =>
      GroupTextOfClass(TopPattern, sql[i..], Digit, 0);
      Some(GroupText(sql[i..], TopAt(sql[i..]).value.groups[0]))
  }

  /** The whole of `validate_and_fix_sql`: trailing semicolons go, then the `TOP` fix, the
      `DATE_SUB` rewrite and the three `INTERVAL` rewrites run in the source's order. */
  function FixSql(sql: string): string {
    var limited := FixTop(TrimEndChar(sql, ';'));
    SubAll(Years, SubAll(Months, SubAll(Days, SubAll(DateSub, limited))))
  }

  /** No rewrite puts a `;` at the end of what it writes. */
  lemma ReplacementsEnd()
    ensures ReplAvoidsLast(SelectTop, ';')
    ensures ReplAvoidsLast(DateSub, ';')
    ensures ReplAvoidsLast(Days, ';')
    ensures ReplAvoidsLast(Months, ';')
    ensures ReplAvoidsLast(Years, ';')
  {
    RuleEnds(SelectTopPattern, SelectTopRepl, ';');
    RuleEnds(DateSubPattern, DateSubRepl, ';');
    RuleEnds(IntervalPattern("DAY"), IntervalRepl("day"), ';');
    RuleEnds(IntervalPattern("MONTH"), IntervalRepl("month"), ';');
    RuleEnds(IntervalPattern("YEAR"), IntervalRepl("year"), ';');
  }

  /** The `TOP` fix never leaves a `;` at the end of a query that had none. */
  lemma FixTopLastChar(sql: string)
    requires sql == [] || sql[|sql| - 1] != ';'
    ensures var r := FixTop(sql); r == [] || r[|r| - 1] != ';'
  {
    if Contains(Upper(sql), "TOP ") && TopNumber(sql).Some? {
      var t := SubAll(SelectTop, sql);
      ReplacementsEnd();
      SubAllLastChar(SelectTop, sql, ';');
      if !Contains(Upper(t), "LIMIT") {
        LimitClauseEnd(t, TopNumber(sql).value);
      }
    }
  }

  /** An appended `LIMIT n` ends with the last digit of `n`. */
  lemma LimitClauseEnd(t: string, n: string)
    requires n != [] && forall k :: 0 <= k < |n| ==> IsDigit(n[k])
    ensures var x := t + " LIMIT " + n; x[|x| - 1] != ';'
  {
    var x := t + " LIMIT " + n;
    assert x[|x| - 1] == n[|n| - 1];
  }

  /** The fixed query never ends with `;` (app.py:160 strips them, and no later rewrite
      writes one at the end). */
  lemma NoTrailingSemicolon(sql: string)
    ensures var r := FixSql(sql); r == [] || r[|r| - 1] != ';'
  {
    var limited := FixTop(TrimEndChar(sql, ';'));
    FixTopLastChar(TrimEndChar(sql, ';'));
    ReplacementsEnd();
    SubAllLastChar(DateSub, limited, ';');
    var dated := SubAll(DateSub, limited);
    SubAllLastChar(Days, dated, ';');
    SubAllLastChar(Months, SubAll(Days, dated), ';');
    SubAllLastChar(Years, SubAll(Months, SubAll(Days, dated)), ';');
  }

  /** A query that does not end with `;` and mentions neither `TOP ` nor `INTERVAL` (in any
      case) comes back unchanged. */
  lemma PlainUnchanged(sql: string)
    requires sql == [] || sql[|sql| - 1] != ';'
    requires !Contains(Upper(sql), "TOP ") && !Contains(Upper(sql), "INTERVAL")
    ensures FixSql(sql) == sql
  {
    assert TrimEndChar(sql, ';') == sql;
    assert FixTop(sql) == sql;
    RuleNeedsLiteral(DateSubPattern, DateSubRepl, 2);
    RuleNeedsLiteral(IntervalPattern("DAY"), IntervalRepl("day"), 0);
    RuleNeedsLiteral(IntervalPattern("MONTH"), IntervalRepl("month"), 0);
    RuleNeedsLiteral(IntervalPattern("YEAR"), IntervalRepl("year"), 0);
    KeywordFree(DateSub, "INTERVAL", sql);
    KeywordFree(Days, "INTERVAL", sql);
    KeywordFree(Months, "INTERVAL", sql);
    KeywordFree(Years, "INTERVAL", sql);
  }

  /** An interval rule fires only where `INTERVAL\s+'\d+'` matches. */
  lemma IntervalNeedsQuotedNumber(unit: string, lower: string, t: string)
    requires Fires(Rule(IntervalPattern(unit), IntervalRepl(lower)), t)
    ensures Interp(QuotedInterval, Upper(t)).Some?
  {
    assert IntervalPattern(unit) == QuotedInterval + [Run(Space, 1, false), Lit(unit)];
    InterpPrefix(QuotedInterval, [Run(Space, 1, false), Lit(unit)], Upper(t));
  }

  /** A text in which `INTERVAL\s+'\d+'` matches nowhere is left alone by an interval
      rule. */
  lemma QuotedIntervalFree(unit: string, lower: string, s: string)
    requires forall j :: 0 <= j <= |s| ==> Interp(QuotedInterval, Upper(s[j..])).None?
    ensures SubAll(Rule(IntervalPattern(unit), IntervalRepl(lower)), s) == s
  {
    var m := Rule(IntervalPattern(unit), IntervalRepl(lower));
    forall j | 0 <= j <= |s|
      ensures !Fires(m, s[j..])
    {
      if Fires(m, s[j..]) {
        IntervalNeedsQuotedNumber(unit, lower, s[j..]);
      }
    }
    SubAllNoMatch(m, s);
  }

  /** An interval rule leaves alone a text in which its pattern matches nowhere. */
  lemma IntervalFree(unit: string, lower: string, s: string)
    requires forall j :: 0 <= j <= |s| ==> Interp(IntervalPattern(unit), Upper(s[j..])).None?
    ensures SubAll(Rule(IntervalPattern(unit), IntervalRepl(lower)), s) == s
  {
    var m := Rule(IntervalPattern(unit), IntervalRepl(lower));
    assert forall j :: 0 <= j <= |s| ==> m(s[j..]).None?;
    SubAllNoMatch(m, s);
  }

  /** A query comes back unchanged when none of the steps of app.py:160-172 applies: it
      does not end with `;`, it holds no `TOP ` and not the header of the `DATE_SUB`
      pattern (in any case), and none of the three interval patterns matches anywhere in
      it. So `INTERVAL '30 days'`, `INTERVAL 7 DAY` and `INTERVAL '30' HOUR` are kept. */
  lemma UnchangedWithoutRewrites(sql: string)
    requires sql == [] || sql[|sql| - 1] != ';'
    requires !Contains(Upper(sql), "TOP ") && !Contains(Upper(sql), Header)
    requires forall j :: 0 <= j <= |sql| ==>
      && Interp(IntervalPattern("DAY"), Upper(sql[j..])).None?
      && Interp(IntervalPattern("MONTH"), Upper(sql[j..])).None?
      && Interp(IntervalPattern("YEAR"), Upper(sql[j..])).None?
    ensures FixSql(sql) == sql
  {
    assert TrimEndChar(sql, ';') == sql;
    assert FixTop(sql) == sql;
    RuleNeedsLiteral(DateSubPattern, DateSubRepl, 0);
    KeywordFree(DateSub, Header, sql);
    IntervalFree("DAY", "day", sql);
    IntervalFree("MONTH", "month", sql);
    IntervalFree("YEAR", "year", sql);
  }

  /** Once the `TOP` fix applies, the query has a `LIMIT`: the one it already had, or the
      number that followed `TOP`. */
  lemma FixTopAddsLimit(sql: string)
    requires Contains(Upper(sql), "TOP ") && TopNumber(sql).Some?
    ensures Contains(Upper(FixTop(sql)), "LIMIT")
  {
    var t := SubAll(SelectTop, sql);
    var n := TopNumber(sql).value;
    if !Contains(Upper(t), "LIMIT") {
      ContainsLiteral(t, " LIMIT ", n, 1, "LIMIT");
    }
  }

  /** A query in which the keyword `TOP ` does not occur, or `TOP` is never followed by
      whitespace and digits, is not touched by the `TOP` fix. */
  lemma FixTopNeedsTop(sql: string)
    requires !Contains(Upper(sql), "TOP ") || TopNumber(sql).None?
    ensures FixTop(sql) == sql
  {
  }

  /** A non-empty run of whitespace, as `\s+` matches it. */
  predicate Blanks(s: string) {
    s != [] && forall k :: 0 <= k < |s| ==> IsSpace(s[k])
  }

  /** A non-empty run of ASCII digits, as `\d+` matches it. */
  predicate Digits(d: string) {
    d != [] && forall k :: 0 <= k < |d| ==> IsDigit(d[k])
  }

  /** The pieces of `SELECT TOP n` as a query may write them: `k1` spells `SELECT` and `k2`
      spells `TOP` in any case, `s1` and `s2` are runs of whitespace, and `d` is the number. */
  predicate SelectTopPieces(k1: string, s1: string, k2: string, s2: string, d: string) {
    Upper(k1) == "SELECT" && Upper(k2) == "TOP" && Blanks(s1) && Blanks(s2) && Digits(d)
  }

  /** Upper-casing `SELECT TOP n` and the rest of a query spells the keywords in capitals
      and keeps the whitespace and the number. */
  lemma UpperSelectTop(k1: string, s1: string, k2: string, s2: string, d: string, rest: string)
    requires SelectTopPieces(k1, s1, k2, s2, d)
    ensures Upper(k1 + (s1 + (k2 + (s2 + (d + rest))))) == "SELECT" + (s1 + ("TOP" + (s2 + (d + Upper(rest)))))
  {
    UpperAppend(d, rest);
    UpperAppend(s2, d + rest);
    UpperAppend(k2, s2 + (d + rest));
    UpperAppend(s1, k2 + (s2 + (d + rest)));
    UpperAppend(k1, s1 + (k2 + (s2 + (d + rest))));
    UpperId(s1);
    UpperId(s2);
    UpperId(d);
  }

  /** The digits of `TOP <d>` form the group of `\d+` when no digit follows. */
  lemma TopDigits(d: string, y: string)
    requires d != [] && forall k :: 0 <= k < |d| ==> IsDigit(d[k])
    requires y == [] || !IsDigit(y[0])
    ensures Interp(TopPattern[2..], d + y) == Some(Match(|d|, [Group(|d + y|, |y|)]))
  {
    var u := d + y;
    var none: seq<Token> := [];
    assert Interp(none, y) == Some(Match(0, []));
    RunStep(Digit, 1, true, none, u, d, y, Match(0, []));
    assert TopPattern[2..] == [Run(Digit, 1, true)] + none;
    assert Captured(true, Group(|u|, |u| - |d|), []) == [Group(|u|, |y|)];
  }

  /** `TOP`, whitespace and digits `<d>` match `TOP\s+(\d+)` with `<d>` as the group when
      no digit follows. */
  lemma TopMatches(s2: string, d: string, y: string)
    requires Blanks(s2) && Digits(d)
    requires y == [] || !IsDigit(y[0])
    ensures Interp(TopPattern, "TOP" + (s2 + (d + y))) == Some(Match(3 + |s2| + |d|, [Group(|d + y|, |y|)]))
  {
    var x := d + y;
    var m := Match(|d|, [Group(|x|, |y|)]);
    calc {
      Interp(TopPattern, "TOP" + (s2 + x));
    == { assert TopPattern == [Lit("TOP"), Run(Space, 1, false)] + TopPattern[2..]; }
      Interp([Lit("TOP"), Run(Space, 1, false)] + TopPattern[2..], "TOP" + (s2 + x));
    == { TopDigits(d, y);
         assert x[0] == d[0];
         LitSpaceStep([Lit("TOP"), Run(Space, 1, false)] + TopPattern[2..], "TOP", TopPattern[2..],
                      "TOP" + (s2 + x), s2, x, m); }
      Some(Match(3 + |s2| + |d|, m.groups));
    }
  }


  /** Within `SELECT` and the whitespace after it no `TOP` starts. */
  lemma NoTopBefore(t: string, s1: string, v: string, j: nat)
    requires Upper(t) == "SELECT" + (s1 + v) && Blanks(s1) && j < 6 + |s1|
    ensures TopAt(t[j..]).None?
  {
    UpperSlice(t, j, |t|);
    var x := Upper(t[j..]);
    assert x == Upper(t)[j..];
    if j < 5 {
      assert x[0] == "SELECT"[j];
    } else if j == 5 {
      assert x[1] == s1[0];
    } else {
      assert x[0] == s1[j - 6];
    }
    assert !StartsWith(x, "TOP");
    InterpCons(Lit("TOP"), TopPattern[1..], x);
    assert TopPattern == [Lit("TOP")] + TopPattern[1..];
  }

  /** The number `re.search` reports is the group of the first match. */
  lemma TopNumberAt(sql: string, i: nat, m: Match)
    requires i <= |sql| && SearchAt(TopAt, sql) == Some(i) && TopAt(sql[i..]) == Some(m)
    ensures TopNumber(sql) == Some(GroupText(sql[i..], m.groups[0]))
  {
  }

  /** After `SELECT` and its whitespace, `TOP\s+(\d+)` matches with the number as its
      group; `v` is the upper-cased text from `TOP` on. */
  lemma TopAtKeyword(t: string, k1: string, s1: string, k2: string, s2: string, d: string, rest: string)
    returns (v: string)
    requires SelectTopPieces(k1, s1, k2, s2, d) && t == k1 + (s1 + (k2 + (s2 + (d + rest))))
    requires rest == [] || !IsDigit(rest[0])
    ensures Upper(t) == "SELECT" + (s1 + v)
    ensures TopAt(t[6 + |s1|..]) == Some(Match(3 + |s2| + |d|, [Group(|d + rest|, |rest|)]))
  {
    var r := Upper(rest);
    v := "TOP" + (s2 + (d + r));
    UpperSelectTop(k1, s1, k2, s2, d, rest);
    UpperSlice(t, 6 + |s1|, |t|);
    assert Upper(t[6 + |s1|..]) == v;
    assert r == [] || !IsDigit(r[0]) by {
      if rest != [] {
        ClassesIgnoreCase(Digit, rest[0]);
      }
    }
    TopMatches(s2, d, r);
  }

  /** The group `TOP\s+(\d+)` captures in `TOP <whitespace> <d> <rest>` is the number. */
  lemma SelectTopGroup(x: string, k2: string, s2: string, d: string, rest: string)
    requires x == k2 + (s2 + (d + rest)) && |k2| == 3
    ensures GroupText(x, Group(|d + rest|, |rest|)) == d
  {
    assert x[3 + |s2|..3 + |s2| + |d|] == d;
  }

  /** In `SELECT TOP <d> <rest>`, in any case and with any whitespace, the first `TOP`
      followed by whitespace and digits is the one after `SELECT`, and its number is `<d>`. */
  lemma TopNumberOfSelectTop(t: string, k1: string, s1: string, k2: string, s2: string, d: string, rest: string)
    requires SelectTopPieces(k1, s1, k2, s2, d) && t == k1 + (s1 + (k2 + (s2 + (d + rest))))
    requires rest == [] || !IsDigit(rest[0])
    ensures TopNumber(t) == Some(d)
  {
    var p := 6 + |s1|;
    var v := TopAtKeyword(t, k1, s1, k2, s2, d, rest);
    forall j | 0 <= j < p
      ensures TopAt(t[j..]).None?
    {
      NoTopBefore(t, s1, v, j);
    }
    SearchAtIs(TopAt, t, p);
    TopNumberAt(t, p, Match(3 + |s2| + |d|, [Group(|d + rest|, |rest|)]));
    assert t[p..] == k2 + (s2 + (d + rest));
    SelectTopGroup(t[p..], k2, s2, d, rest);
  }

  /** `TOP`, whitespace and digits not followed by a digit match `TOP\s+\d+`. */
  lemma TopRunMatches(v: string, s2: string, d: string, y: string)
    requires v == "TOP" + (s2 + (d + y)) && Blanks(s2) && Digits(d)
    requires y == [] || !IsDigit(y[0])
    ensures Interp([Lit("TOP"), Run(Space, 1, false), Run(Digit, 1, false)], v) == Some(Match(3 + |s2| + |d|, []))
  {
    var digits := [Run(Digit, 1, false)];
    calc {
      Interp([Lit("TOP"), Run(Space, 1, false), Run(Digit, 1, false)], v);
    == { assert [Lit("TOP"), Run(Space, 1, false), Run(Digit, 1, false)] ==
                [Lit("TOP"), Run(Space, 1, false)] + digits; }
      Interp([Lit("TOP"), Run(Space, 1, false)] + digits, v);
    == { LastRun(Digit, 1, false, d, y);
         assert (d + y)[0] == d[0];
         LitSpaceStep([Lit("TOP"), Run(Space, 1, false)] + digits, "TOP", digits, v, s2, d + y, Match(|d|, [])); }
      Some(Match(3 + |s2| + |d|, []));
    }
  }


  /** In `SELECT TOP <d> <rest>` upper-cased, the text `v` after `SELECT` and its whitespace
      starts with `TOP` and matches `TOP\s+\d+` up to the end of the number. */
  lemma SelectTopRun(t: string, k1: string, s1: string, k2: string, s2: string, d: string, rest: string)
    returns (v: string)
    requires SelectTopPieces(k1, s1, k2, s2, d) && t == k1 + (s1 + (k2 + (s2 + (d + rest))))
    requires rest == [] || !IsDigit(rest[0])
    ensures Upper(t) == "SELECT" + (s1 + v) && v != [] && v[0] == 'T'
    ensures Interp([Lit("TOP"), Run(Space, 1, false), Run(Digit, 1, false)], v) == Some(Match(3 + |s2| + |d|, []))
    ensures t[6 + |s1| + (3 + |s2| + |d|)..] == rest
  {
    var r := Upper(rest);
    v := "TOP" + (s2 + (d + r));
    UpperSelectTop(k1, s1, k2, s2, d, rest);
    assert r == [] || !IsDigit(r[0]) by {
      if rest != [] {
        ClassesIgnoreCase(Digit, rest[0]);
      }
    }
    TopRunMatches(v, s2, d, r);
  }



  /** A query whose upper-cased text is `SELECT`, whitespace and a text `v` that matches
      `TOP\s+\d+` over its first `n` characters: the scan of the `SELECT TOP` rule puts
      `SELECT` in place of all of that, and keeps a rest without another `SELECT`. */
  lemma SelectTopScan(t: string, s1: string, v: string, n: nat, rest: string)
    requires Upper(t) == "SELECT" + (s1 + v) && Blanks(s1) && v != [] && v[0] == 'T'
    requires Interp([Lit("TOP"), Run(Space, 1, false), Run(Digit, 1, false)], v) == Some(Match(n, []))
    requires t[6 + |s1| + n..] == rest && !Contains(Upper(rest), "SELECT")
    ensures SubAll(SelectTop, t) == "SELECT" + rest
  {
    var top := [Lit("TOP"), Run(Space, 1, false), Run(Digit, 1, false)];
    SpacedRuleReplaces(SelectTopPattern, "SELECT", top, SelectTopRepl, t, s1, v, Match(n, []), rest);
    assert GroupTexts(t, []) == [];
    assert Expand(SelectTopRepl, []) == "SELECT" by {
      assert SelectTopRepl[1..] == [];
    }
    RuleNeedsLiteral(SelectTopPattern, SelectTopRepl, 0);
    KeywordFree(SelectTop, "SELECT", rest);
  }

  /** `SELECT TOP <d> <rest>`, in any case and with any whitespace, loses its `TOP <d>`, and
      a rest without another `SELECT` is kept as it is. */
  lemma SubAllSelectTop(t: string, k1: string, s1: string, k2: string, s2: string, d: string, rest: string)
    requires SelectTopPieces(k1, s1, k2, s2, d) && t == k1 + (s1 + (k2 + (s2 + (d + rest))))
    requires rest == [] || !IsDigit(rest[0])
    requires !Contains(Upper(rest), "SELECT")
    ensures SubAll(SelectTop, t) == "SELECT" + rest
  {
    var v := SelectTopRun(t, k1, s1, k2, s2, d, rest);
    SelectTopScan(t, s1, v, 3 + |s2| + |d|, rest);
  }

  /** `SELECT` followed by a rest without `LIMIT` holds no `LIMIT`, in any case. */
  lemma NoLimitAfterSelect(rest: string)
    requires !Contains(Upper(rest), "LIMIT")
    ensures !Contains(Upper("SELECT" + rest), "LIMIT")
  {
    var s := "SELECT" + Upper(rest);
    UpperAppend("SELECT", rest);
    UpperId("SELECT");
    forall k | 0 <= k < 6
      ensures !StartsWith(s[k..], "LIMIT")
    {
      if k == 2 {
        assert s[3] == 'E';
      } else {
        assert s[k] != 'L';
      }
    }
    ContainsAfter("SELECT", Upper(rest), "LIMIT");
  }

  /** A SQL Server query `SELECT TOP <d> <rest>`, the keywords in any case and followed by
      any whitespace, becomes `SELECT <rest> LIMIT <d>`, with `SELECT` in capitals as the
      replacement writes it. The fix runs only when the query holds `TOP ` with a space
      (app.py:161): after `select top\t5` alone it does nothing (`FixTopNeedsTop`). */
  lemma FixTopOfSelectTop(t: string, k1: string, s1: string, k2: string, s2: string, d: string, rest: string)
    requires SelectTopPieces(k1, s1, k2, s2, d) && t == k1 + (s1 + (k2 + (s2 + (d + rest))))
    requires rest == [] || !IsDigit(rest[0])
    requires Contains(Upper(t), "TOP ")
    requires !Contains(Upper(rest), "SELECT") && !Contains(Upper(rest), "LIMIT")
    ensures FixTop(t) == "SELECT" + rest + " LIMIT " + d
  {
    TopNumberOfSelectTop(t, k1, s1, k2, s2, d, rest);
    SubAllSelectTop(t, k1, s1, k2, s2, d, rest);
    NoLimitAfterSelect(rest);
  }

  /** The closing quote, whitespace and the unit match at the start of `'<whitespace><unit>`. */
  lemma UnitMatches(unit: string, s2: string, tail: string)
    requires unit != [] && !IsSpace(unit[0]) && Blanks(s2)
    ensures Interp([Lit("'"), Run(Space, 1, false), Lit(unit)], "'" + (s2 + (unit + tail)))
            == Some(Match(1 + |s2| + |unit|, []))
  {
    assert Interp([Lit(unit)], unit + tail) == Some(Match(|unit|, [])) by {
      assert Interp([], tail) == Some(Match(0, []));
      LitStep(unit, [], unit + tail, tail, Match(0, []));
      assert [Lit(unit)] + [] == [Lit(unit)];
    }
    assert (unit + tail)[0] == unit[0];
    LitSpaceStep([Lit("'"), Run(Space, 1, false), Lit(unit)], "'", [Lit(unit)], "'" + (s2 + (unit + tail)), s2, unit + tail, Match(|unit|, []));
  }

  /** The quoted digits, then a text `y` on which the rest of the pattern matches: the
      digits are the group. */
  lemma DigitsMatch(rest: seq<Token>, d: string, y: string, u: string, k: nat)
    requires Digits(d) && u == d + y && y != [] && y[0] == '\''
    requires Interp(rest, y) == Some(Match(k, []))
    ensures Interp([Run(Digit, 1, true)] + rest, u) == Some(Match(|d| + k, [Group(|u|, |u| - |d|)]))
  {
    RunStep(Digit, 1, true, rest, u, d, y, Match(k, []));
    assert Captured(true, Group(|u|, |u| - |d|), []) == [Group(|u|, |u| - |d|)];
  }


  /** `INTERVAL`, whitespace, a quote and a text `x` on which the rest of the pattern
      matches: the whole pattern matches. */
  lemma IntervalMatches(unit: string, s1: string, x: string, u: string, m: Match)
    requires u == "INTERVAL" + (s1 + ("'" + x)) && Blanks(s1)
    requires Interp(IntervalPattern(unit)[3..], x) == Some(m)
    ensures Interp(IntervalPattern(unit), u) == Some(Match(8 + |s1| + 1 + m.len, m.groups))
  {
    var p := IntervalPattern(unit);
    LitStep("'", p[3..], "'" + x, x, m);
    assert p[2..] == [Lit("'")] + p[3..];
    LitSpaceStep(p, "INTERVAL", p[2..], u, s1, "'" + x, Match(1 + m.len, m.groups));
  }

  /** The pieces of `INTERVAL '<d>' <unit>` as a query may write them: `kw` spells
      `INTERVAL` in any case, `s1` and `s2` are runs of whitespace, `d` is the number. */
  predicate IntervalPieces(kw: string, s1: string, d: string, s2: string) {
    Upper(kw) == "INTERVAL" && Blanks(s1) && Digits(d) && Blanks(s2)
  }

  /** The query text of an interval, upper-cased: the keyword in capitals, the whitespace
      and the digits kept. */
  lemma UpperInterval(kw: string, s1: string, d: string, s2: string, w: string, tail: string)
    requires IntervalPieces(kw, s1, d, s2)
    ensures Upper(kw + (s1 + ("'" + (d + ("'" + (s2 + (w + tail)))))))
            == "INTERVAL" + (s1 + ("'" + (d + ("'" + (s2 + (Upper(w) + Upper(tail)))))))
  {
    UpperAppend(w, tail);
    UpperAppend(s2, w + tail);
    UpperAppend("'", s2 + (w + tail));
    UpperAppend(d, "'" + (s2 + (w + tail)));
    UpperAppend("'", d + ("'" + (s2 + (w + tail))));
    UpperAppend(s1, "'" + (d + ("'" + (s2 + (w + tail)))));
    UpperAppend(kw, s1 + ("'" + (d + ("'" + (s2 + (w + tail))))));
    UpperId(s1);
    UpperId(s2);
    UpperId(d);
    UpperId("'");
  }

  /** In an interval, upper-cased, the text `y` after the digits is the closing quote,
      whitespace and the unit, which match the end of the pattern. */
  lemma IntervalUpper(unit: string, t: string, kw: string, s1: string, d: string, s2: string, w: string, tail: string)
    returns (y: string)
    requires unit != [] && !IsSpace(unit[0]) && Upper(w) == unit
    requires IntervalPieces(kw, s1, d, s2) && t == kw + (s1 + ("'" + (d + ("'" + (s2 + (w + tail))))))
    ensures Upper(t) == "INTERVAL" + (s1 + ("'" + (d + y))) && y != [] && y[0] == '\''
    ensures Interp([Lit("'"), Run(Space, 1, false), Lit(unit)], y) == Some(Match(1 + |s2| + |unit|, []))
    ensures t[9 + |s1|..9 + |s1| + |d|] == d
    ensures t[9 + |s1| + |d| + (1 + |s2| + |unit|)..] == tail
  {
    y := "'" + (s2 + (unit + Upper(tail)));
    UpperInterval(kw, s1, d, s2, w, tail);
    assert |kw| == 8 && |w| == |unit|;
    UnitMatches(unit, s2, Upper(tail));
  }

  /** The replacement of an interval rule, filled with the digits as its group. */
  lemma IntervalText(lower: string, t: string, g: Group, d: string)
    requires GroupText(t, g) == d
    ensures Expand(IntervalRepl(lower), GroupTexts(t, [g])) == "INTERVAL '" + d + " " + lower + "'"
  {
    var tpl := IntervalRepl(lower);
    assert GroupTexts(t, [g]) == [d];
    assert Expand(tpl[2..], [d]) == " " + lower + "'" by {
      assert tpl[2..][1..] == [];
    }
    assert Expand(tpl[1..], [d]) == d + " " + lower + "'" by {
      assert tpl[1..][1..] == tpl[2..];
    }
  }

  /** A query whose upper-cased text is `INTERVAL`, whitespace, a quote, digits `<d>` and a
      text `y` on which the end of the pattern matches over `k` characters: the pattern
      matches with `<d>` as its group. */
  lemma IntervalMatchesAt(unit: string, t: string, s1: string, d: string, y: string, k: nat)
    returns (g: Group)
    requires Upper(t) == "INTERVAL" + (s1 + ("'" + (d + y))) && Blanks(s1) && Digits(d)
    requires y != [] && y[0] == '\''
    requires Interp([Lit("'"), Run(Space, 1, false), Lit(unit)], y) == Some(Match(k, []))
    requires t[9 + |s1|..9 + |s1| + |d|] == d
    ensures Interp(IntervalPattern(unit), Upper(t)) == Some(Match(9 + |s1| + |d| + k, [g]))
    ensures GroupText(t, g) == d
  {
    var u4 := d + y;
    g := Group(|u4|, |u4| - |d|);
    var after := [Lit("'"), Run(Space, 1, false), Lit(unit)];
    DigitsMatch(after, d, y, u4, k);
    assert IntervalPattern(unit)[3..] == [Run(Digit, 1, true)] + after;
    IntervalMatches(unit, s1, u4, Upper(t), Match(|d| + k, [g]));
    assert |t| == 9 + |s1| + |u4|;
  }

  /** So each `INTERVAL` rule turns `INTERVAL '<d>' <unit>`, the keyword and the unit
      written in any case and separated by any whitespace, into `INTERVAL '<d> <lower>'`,
      keeping the digits `<d>` as they were. Whatever follows the unit is left to the scan,
      even the rest of a word: `INTERVAL '7' DAYS` becomes `INTERVAL '7 day'S`. */
  lemma IntervalRewritten(unit: string, lower: string, t: string, kw: string, s1: string, d: string, s2: string, w: string, tail: string)
    requires unit != [] && !IsSpace(unit[0]) && Upper(w) == unit
    requires IntervalPieces(kw, s1, d, s2) && t == kw + (s1 + ("'" + (d + ("'" + (s2 + (w + tail))))))
    ensures RuleAt(IntervalPattern(unit), IntervalRepl(lower), t)
            == Some(Hit(|kw| + |s1| + |d| + |s2| + |w| + 2, "INTERVAL '" + d + " " + lower + "'"))
  {
    var y := IntervalUpper(unit, t, kw, s1, d, s2, w, tail);
    var g := IntervalMatchesAt(unit, t, s1, d, y, 1 + |s2| + |unit|);
    IntervalText(lower, t, g, d);
    assert |kw| == 8 && |w| == |unit|;
  }

  /** In the scan of `re.sub`, an interval at the front of the text is replaced and the
      scan goes on after its unit. */
  lemma IntervalReplaced(unit: string, lower: string, t: string, kw: string, s1: string, d: string, s2: string, w: string, tail: string)
    requires unit != [] && !IsSpace(unit[0]) && Upper(w) == unit
    requires IntervalPieces(kw, s1, d, s2) && t == kw + (s1 + ("'" + (d + ("'" + (s2 + (w + tail))))))
    ensures var m := Rule(IntervalPattern(unit), IntervalRepl(lower));
      SubAll(m, t) == "INTERVAL '" + d + " " + lower + "'" + SubAll(m, tail)
  {
    var y := IntervalUpper(unit, t, kw, s1, d, s2, w, tail);
    var k := 1 + |s2| + |unit|;
    var g := IntervalMatchesAt(unit, t, s1, d, y, k);
    RuleReplaces(IntervalPattern(unit), IntervalRepl(lower), t, Match(9 + |s1| + |d| + k, [g]), tail);
    IntervalText(lower, t, g, d);
  }


  /** As written, the pattern of app.py:168 needs the letter `K` of `KATEX`, so a query
      without a `K` in either case is never touched by it: among them the MySQL form
      `DATE_SUB(CURRENT_DATE, INTERVAL 7 DAY)` the rule was evidently aimed at. */
  lemma DateSubNeedsK(sql: string)
    requires 'K' !in sql && 'k' !in sql
    ensures SubAll(DateSub, sql) == sql
  {
    UpperAvoids(sql, 'K');
    assert Header[8] == 'K';
    MissingCharNotContained(Upper(sql), Header, 'K');
    RuleNeedsLiteral(DateSubPattern, DateSubRepl, 0);
    KeywordFree(DateSub, Header, sql);
  }
}
