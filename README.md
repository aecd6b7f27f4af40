# Text-to-SQL pipeline: the text-processing core

`app.py` drives a text-to-SQL generator. It reads business questions and warehouse schemas, asks a
language model for a JSON answer per question, then normalises and records those answers. This
project models, in Dafny, the parts of that pipeline that are plain computation on text and data:

- **Question selection** (`QuestionSelection`, `selection.dfy`). `parse_question_selection` turns
  what the user types (`1-6`, `1,5,7`, `15-20`, or nothing) into the sorted list of question
  IDs. Python's `int()` is modelled, including surrounding whitespace (Python's whitespace
  except the separators U+001C..U+001F, which `int()` does not skip), an ASCII sign, `_`
  between digits, and digits of every script Unicode 15.0 lists as decimal (category Nd), such
  as the fullwidth `３`. Ranges and single IDs are kept only inside `1..total`. When nothing valid is chosen,
  every question is selected. The loop over the parts is a method with an invariant; the result
  is specified by the function `Selection`.
- **SQL repair** (`SqlFix`, `sqlfix.dfy`). `validate_and_fix_sql` works in four steps:
  - it drops trailing `;`;
  - it turns SQL Server's `SELECT TOP n` into `... LIMIT n`;
  - it applies the `DATE_SUB` rewrite exactly as its pattern is written;
  - it normalises `INTERVAL 'n' DAY|MONTH|YEAR`.

  The patterns run on a model of Python's `re`: greedy runs with backtracking, capturing groups,
  `re.IGNORECASE`, and `re.sub` scanning left to right (`Regex`, `Rewrite`).
- **JSON extraction** (`JsonExtract`, `jsonextract.dfy`). `extract_json_from_response`:
  - strips code fences and cuts the text from the first `{` to the last `}`;
  - glues lines that lie inside a string literal, using the in-string flag loop, a method over
    the lines;
  - parses the result, and if that fails, parses it again with trailing commas removed.

  `json.loads` is a parameter: `None` stands for a parse error.
- **Answer normalisation** (`ResultRecord`, `record.dfy`). After parsing, the six `setdefault`
  calls fill in missing fields. They are modelled as methods of a class whose `map` field is
  updated in place. Then comes the confidence guard that sends the SQL through the repair. A
  guard that raises in Python is reported, not hidden.
- **Summary tally** (`SummaryStatistics`, `summary.dfy`). This counts how many results chose
  each target source.

`Text` (`text.dfy`) holds the Python string operations the code relies on: `strip`,
`rstrip(c)`, `split`, `join`, `upper`, `count` and substring tests. `Wrappers` holds `Option`.

## Model

| member | source | states |
|---|---|---|
| QuestionSelection.ParseQuestionSelection | app.py:46-84 | the IDs returned are exactly `Selection(selection, total)`: all IDs for blank input or when nothing valid was chosen, otherwise the chosen IDs sorted |
| QuestionSelection.Selection | app.py:46-84 | the definition of the result: all IDs for blank input, else the sorted IDs the parts name, else all IDs; its meaning is stated by `SelectionMeaning` |
| QuestionSelection.SelectionMeaning | app.py:50-84 | the selection is strictly increasing (sorted, no duplicates) and within `1..total`; blank input, or no valid part, gives every ID; otherwise an ID is selected exactly when some part names it |
| QuestionSelection.CollectParts | app.py:53-78 | the loop over the comma-separated parts yields the union of what each part adds, in order |
| QuestionSelection.AddPart | app.py:57-78 | one turn of the loop: the set grows by exactly the IDs the stripped part names |
| QuestionSelection.PartIds | app.py:57-78 | every ID a part adds lies in `1..total` |
| QuestionSelection.RangeIds | app.py:58-69 | a part with a dash adds only IDs in `1..total`; its ends are read by `ParseInt`, digits of any script included |
| QuestionSelection.SingleIds | app.py:70-78 | a part without a dash adds only IDs in `1..total`; it is read by `ParseInt`, digits of any script included |
| QuestionSelection.Chosen | app.py:53-78 | the union of the parts' IDs lies in `1..total` |
| QuestionSelection.Range | app.py:65 | `range(start, end + 1)`: `k` is a member exactly when `start <= k <= end` |
| QuestionSelection.AllIds | app.py:51 | `list(range(1, total + 1))`: length `total`, `i`-th element `i + 1` |
| QuestionSelection.Ascending | app.py:84 | `sorted(...)`: strictly increasing, within bounds, same members as the set |
| QuestionSelection.SelectionRange | app.py:58-65 | typing `a-b` with `1 <= a <= b <= total` selects exactly `a, a+1, ..., b` |
| QuestionSelection.RangePart | app.py:58-67 | a decimal `a-b` adds `a..b` when `1 <= a <= b <= total`, and nothing otherwise |
| QuestionSelection.SinglePart | app.py:70-76 | a decimal `q` adds `{q}` when `1 <= q <= total`, and nothing otherwise |
| QuestionSelection.ManyDashesAddNothing | app.py:59-60 | a part with two or more dashes adds nothing |
| QuestionSelection.DashedPart | app.py:59-67 | a stripped part that splits into `x` and `y` adds the range of their parses, when both parse and lie in order within bounds |
| QuestionSelection.ParseDecimal | app.py:62-63 | `int(str(n)) == n` for every natural `n` |
| QuestionSelection.ParseDigits | app.py:72 | a run of ASCII digits parses as its decimal value |
| QuestionSelection.DecimalDigits | app.py:62-63 | a decimal rendering is non-empty, all digits, and reads back as the number |
| QuestionSelection.IncreasingUnique | app.py:84 | two strictly increasing lists with the same members are equal, so the sorted result is unique |
| QuestionSelection.ParseInt | app.py:62-63 | `int()` in base 10: surrounding whitespace other than U+001C..U+001F, an optional ASCII sign, then decimal digits of any script with single `_` between digits; anything else is the `ValueError` path; its meaning is stated by `ParseDecimal`, `ParseOneDigit` and `FullwidthDigit` |
| QuestionSelection.DigitZero | app.py:72 | the search over the 68 runs of Unicode decimal digits: a run found holds the code point within its ten digits |
| QuestionSelection.DigitValue | app.py:72 | a decimal digit's value is below 10, and an ASCII digit's value is its distance from `0` |
| QuestionSelection.GapNotDecimal | app.py:72 | no code point below `0`, between `9` and U+0660, or in the two later gaps that hold Python's non-ASCII whitespace is a decimal digit |
| QuestionSelection.DecimalIsPlain | app.py:57-72 | a decimal digit is not whitespace, a sign, `_` or `,`, so `strip()`, the sign test and the split on `,` leave it alone |
| QuestionSelection.FullwidthFrom | app.py:72 | the run search from any run up to the fullwidth one finds U+FF10 as the zero of U+FF13 |
| QuestionSelection.FullwidthThree | app.py:72 | the fullwidth `３` is a decimal digit worth 3 |
| QuestionSelection.AsciiDecimal | app.py:72 | an ASCII digit is a decimal digit |
| QuestionSelection.ParseUnsigned | app.py:72 | unpadded digit groups without a sign parse as their value |
| QuestionSelection.DigitGroups | app.py:72 | a non-empty run of ASCII digits is a well-formed digit group |
| QuestionSelection.ParseOneDigit | app.py:72 | a lone decimal digit of any script parses as its value |
| QuestionSelection.IntTrimStart | app.py:62-63 | the leading whitespace `int()` skips: the result is a suffix of the text, everything dropped is such whitespace, and the result does not start with it |
| QuestionSelection.IntTrimEnd | app.py:62-63 | the trailing whitespace `int()` skips: the result is a prefix of the text, everything dropped is such whitespace, and the result does not end with it |
| QuestionSelection.IntStrip | app.py:62-63 | what `int()` reads after skipping whitespace: it neither starts nor ends with whitespace `int()` skips |
| QuestionSelection.IntStripIsSlice | app.py:62-63 | that text is a contiguous slice of the input, with only skippable whitespace before and after it |
| QuestionSelection.SeparatorRejected | app.py:62-63 | a digit followed by one of U+001C..U+001F is a `ValueError` for `int()`, though `str.strip()` would drop that character |
| QuestionSelection.SeparatorBeforeDash | app.py:57-84 | so a range such as `1\x1c-3`, typed alone, selects every question: the part splits at the dash, its first half does not parse, and nothing valid is chosen |
| QuestionSelection.NumberPart | app.py:70-74 | a stripped dashless part that parses as an ID within bounds adds exactly that ID |
| QuestionSelection.OneDigitSelects | app.py:70-84 | typing one decimal digit of any script, worth an existing ID, selects exactly that ID |
| QuestionSelection.FullwidthDigit | app.py:70-84 | `int` reads the fullwidth `３` as 3, and typing it selects question 3 |
| SqlFix.NoTrailingSemicolon | app.py:159-173 | the repaired query never ends with `;` |
| SqlFix.PlainUnchanged | app.py:159-173 | a query without a trailing `;` that mentions neither `TOP ` nor `INTERVAL`, in any case, is returned unchanged |
| SqlFix.UnchangedWithoutRewrites | app.py:159-173 | a query without a trailing `;`, without `TOP `, without the literal head of the `DATE_SUB` pattern as written, `DATE_SUBKATEX_INLINE_OPENCURRENT_DATE,`, in any case, and with no position where one of the three interval patterns matches, is returned unchanged; this covers `INTERVAL '30 days'`, `INTERVAL 7 DAY` and `INTERVAL '30' HOUR` |
| SqlFix.IntervalFree | app.py:170-172 | an interval rule leaves alone a text where its pattern matches at no position |
| SqlFix.IntervalNeedsQuotedNumber | app.py:170-172 | an interval rewrite fires only where `INTERVAL`, whitespace and a quoted run of digits begin the text |
| SqlFix.QuotedIntervalFree | app.py:170-172 | an interval rewrite leaves alone a text where no position begins with `INTERVAL`, whitespace and quoted digits |
| SqlFix.FixSql | app.py:159-173 | the definition of `validate_and_fix_sql`: `rstrip(';')`, the `TOP` fix, then the four rewrites in the source's order; its meaning is stated by `NoTrailingSemicolon`, `PlainUnchanged`, `UnchangedWithoutRewrites` and `IntervalRewritten` |
| SqlFix.FixTop | app.py:161-167 | the definition of the `TOP` fix; its meaning is stated by `FixTopOfSelectTop`, `FixTopAddsLimit` and `FixTopNeedsTop` |
| SqlFix.FixTopOfSelectTop | app.py:161-167 | `SELECT TOP d rest`, the keywords in any case and followed by any non-empty whitespace, where the query holds `TOP ` and `rest` has no further `SELECT` or `LIMIT`, becomes `SELECT rest LIMIT d` |
| SqlFix.FixTopAddsLimit | app.py:161-167 | once the `TOP` rewrite applies, the query contains `LIMIT` |
| SqlFix.FixTopNeedsTop | app.py:161-163 | without `TOP `, or without a `TOP` followed by whitespace and digits, the query is unchanged |
| SqlFix.TopNumber | app.py:162-164 | the reported `TOP` number is a non-empty run of digits |
| SqlFix.TopNumberOfSelectTop | app.py:162-164 | in `SELECT TOP d rest`, in any case and with any whitespace, the number reported is `d` |
| SqlFix.NoTopBefore | app.py:162 | no match of `TOP\s+(\d+)` starts within `SELECT` or the whitespace after it |
| SqlFix.TopAtKeyword | app.py:162 | after `SELECT` and its whitespace, `TOP\s+(\d+)` matches with the number as its group |
| SqlFix.SubAllSelectTop | app.py:165 | `SELECT TOP d rest`, in any case and with any whitespace, loses its `TOP d`, and the rest is kept when it holds no other `SELECT` |
| SqlFix.SelectTopScan | app.py:165 | where `SELECT\s+TOP\s+\d+` matches at the front, the scan puts `SELECT` in place of the match and keeps a rest without another `SELECT` |
| SqlFix.TopAt | app.py:162 | a match of `TOP\s+(\d+)` has exactly one group |
| SqlFix.TopMatches | app.py:162 | `TOP`, whitespace and `d` with no digit after it match `TOP\s+(\d+)` over all of them, with `d` as the group |
| SqlFix.IntervalRewritten | app.py:170-172 | `INTERVAL 'd' <unit>`, the keyword and the unit in any case and separated by any non-empty whitespace, becomes `INTERVAL 'd <lower>'`, keeping the digits and matching up to the end of the unit |
| SqlFix.IntervalReplaced | app.py:170-172 | in the scan, such an interval at the front of the text is replaced and the scan goes on after the unit |
| SqlFix.IntervalMatchesAt | app.py:170-172 | `INTERVAL`, whitespace, a quote and digits `d`, then the closing quote, whitespace and the unit, match the interval pattern with `d` as its one group |
| SqlFix.DateSubNeedsK | app.py:168-169 | the `DATE_SUB` rule as written needs a `K`, in either case, so a query without one is not changed by it, including MySQL's `DATE_SUB(CURRENT_DATE, INTERVAL 7 DAY)` |
| SqlFix.FixTopLastChar | app.py:161-167 | the `TOP` rewrite does not create a trailing `;` |
| SqlFix.ReplacementsEnd | app.py:165-172 | no replacement text of the five rewrites ends with `;` |
| JsonExtract.ExtractJsonFromResponse | app.py:175-202 | the method returns exactly `ExtractJson(response, parse)`: the parse of the repaired candidate, else the parse with trailing commas fixed, else `None` |
| JsonExtract.ExtractJsonNeedsBraces | app.py:177-180 | without both `{` and `}` in the reply, nothing is returned, whatever the parser accepts |
| JsonExtract.ExtractJsonParsesRepaired | app.py:182-195 | with both braces, a parser that accepts the repaired candidate decides the result |
| JsonExtract.ExtractJsonSource | app.py:175-202 | a returned value is the parse of a text that differs from the brace-delimited candidate only in commas and whitespace |
| JsonExtract.CandidateExists | app.py:176-180 | the fence-stripped reply has a candidate exactly when the reply has both braces |
| JsonExtract.Candidate | app.py:177-181 | there is no candidate exactly when a brace is missing |
| JsonExtract.CandidateIsOutermost | app.py:177-181 | the candidate is the slice from the first `{` to the last `}`, both included |
| JsonExtract.CandidateBackwards | app.py:181 | when every `}` comes before the first `{`, the candidate is empty, as Python's slice is |
| JsonExtract.OutermostBraces | app.py:177-178 | `find` and `rfind` give the first `{` and the last `}` |
| JsonExtract.IndexOf | app.py:177 | `str.find`: `-1` exactly when absent, otherwise the first occurrence |
| JsonExtract.LastIndexOf | app.py:178 | `str.rfind`: `-1` exactly when absent, otherwise the last occurrence |
| JsonExtract.StripFencesKeeps | app.py:176 | removing the fences deletes only backquotes and the letters of `json`; every other character survives, in order |
| JsonExtract.StripFences | app.py:176 | the definition of the two `replace` calls; its meaning is stated by `StripFencesKeeps`, `StripFencesBlock` and `StripFencesLeavesNoFence` |
| JsonExtract.LiteralFires | app.py:176 | `str.replace`'s matcher fires exactly where the text starts with the pattern, and then consumes the pattern |
| JsonExtract.StripFencesBlock | app.py:176 | a reply made of a fenced `json` block whose body holds no backquote comes back as the body alone |
| JsonExtract.StripFencesLeavesNoFence | app.py:176 | no three backquotes in a row survive the fence removal |
| JsonExtract.NoFenceLeft | app.py:176 | removing every fence leaves no three backquotes in a row, even where removals bring backquotes together |
| JsonExtract.FenceResidue | app.py:176 | a fence-removal result that starts with two backquotes comes from a text that starts with them |
| JsonExtract.FenceFirst | app.py:176 | a fence-removal result that starts with a backquote comes from a text that starts with one |
| JsonExtract.RepairLines | app.py:182-192 | the loop, with `cleaned_lines[-1]` updated in place, yields exactly `Repaired(lines).lines` |
| JsonExtract.RepairStep | app.py:185-192 | the definition of one turn of the loop; its meaning is stated by `RepairedGlues` |
| JsonExtract.Repaired | app.py:182-192 | the definition of the loop as a fold; its meaning is stated by `RepairedFlag`, `RepairedCount`, `RepairedKeepsContent` and `BalancedLinesStripped` |
| JsonExtract.RepairedFlag | app.py:186-188 | after the loop, the in-string flag is set exactly when an odd number of lines toggled it |
| JsonExtract.RepairedGlues | app.py:189-192 | a line is glued onto the last cleaned line, after a space, exactly when the flag is set after it and a cleaned line exists; otherwise it is appended stripped |
| JsonExtract.RepairedCount | app.py:183-192 | repair never adds lines, and keeps at least one when there was one |
| JsonExtract.BalancedLinesStripped | app.py:185-192 | when no line has an odd count of unescaped quotes, the lines are only stripped, one for one, and the flag ends unset |
| JsonExtract.RepairedKeepsContent | app.py:182-193 | the repaired text holds the candidate's non-whitespace characters, in order |
| JsonExtract.RepairedSingleLines | app.py:189-192 | no cleaned line holds a line break |
| JsonExtract.RepairedLineCount | app.py:182-193 | the repaired text has no more line breaks than the candidate |
| JsonExtract.GluedBlankLineKeepsSpace | app.py:190 | gluing a blank line leaves a trailing space: `["\"a", ""]` repairs to `["\"a "]` |
| JsonExtract.FixCommasKeeps | app.py:197-198 | the trailing-comma fixes delete only commas and whitespace; every other character survives, in order |
| JsonExtract.CommaMatch | app.py:197-198 | a match of `,\s*}` or `,\s*]` is a comma, whitespace, then the bracket |
| JsonExtract.FixCommas | app.py:197-198 | the definition of the two trailing-comma rewrites; its meaning is stated by `FixCommasKeeps` and `CommaRuleRemoves` |
| JsonExtract.CommaRuleFires | app.py:197-198 | a comma, whitespace, then the bracket always matches, over exactly those characters, and is replaced by the bracket |
| JsonExtract.CommaPatternMatches | app.py:197-198 | `,\s*` followed by the bracket matches a comma, whitespace and the bracket, with no group |
| JsonExtract.CommaRuleRemoves | app.py:197-198 | a comma and whitespace before the bracket are deleted, and the scan goes on after the bracket |
| JsonExtract.ExtractJson | app.py:175-202 | the definition of the whole extraction; its meaning is stated by `ExtractJsonNeedsBraces`, `ExtractJsonParsesRepaired` and `ExtractJsonSource` |
| ResultRecord.Record.SetDefault | app.py:292-297 | `setdefault`: the key keeps its value when present and gets the default otherwise |
| ResultRecord.Record.ApplyDefaults | app.py:292-297 | the fields become `WithDefaults(old fields, the six defaults)` |
| ResultRecord.WithDefaultsKeeps | app.py:292-297 | after the defaults, every original key keeps its value, every default key is present, and no other key appears |
| ResultRecord.WithDefaultsFills | app.py:292-297 | a missing key gets the first default given for it |
| ResultRecord.Record.FixSqlIfConfident | app.py:299-300 | raises exactly when the guard raises, leaving the fields unchanged; otherwise `sql` is repaired exactly when confidence is positive and the SQL is a string that does not start with `--` |
| ResultRecord.PlaceholderSqlNotFixed | app.py:295-300 | a reply without `sql` ends up with the placeholder, which the guard never rewrites |
| ResultRecord.MissingConfidenceNotFixed | app.py:297-299 | a reply without `confidence` gets `0.0`, so its SQL is left alone and the guard does not raise |
| ResultRecord.FixedSqlClean | app.py:299-300 | SQL that passes the guard comes back without a trailing `;` |
| ResultRecord.ShouldFix | app.py:299 | the definition of the guard, `None` where it raises; its meaning is stated by `FixSqlIfConfident`, `PlaceholderSqlNotFixed` and `MissingConfidenceNotFixed` |
| ResultRecord.FixedFields | app.py:299-300 | the definition of the fields after the guard; `FixSqlIfConfident` and `FixedSqlClean` state what it does |
| SummaryStatistics.TallySources | app.py:445-448 | a source is in the tally exactly when some result chose it, and its count is the number of results that chose it |
| SummaryStatistics.Occurrences | app.py:445-448 | the count is at most the number of results, and positive exactly when some result chose the source |
| SummaryStatistics.OccurrencesSum | app.py:445-450 | over distinct sources covering every result, the counts add up to the number of results |
| Text.Strip | app.py:57 | `str.strip()`: no whitespace at either end, and the same non-whitespace characters in order |
| Text.StripIsSlice | app.py:57 | `str.strip()` keeps a contiguous slice, interior whitespace included, and drops only whitespace before and after it |
| Text.TrimmedEnd | app.py:57 | a prefix of a tail of the text, followed only by whitespace, is a slice of the text with only whitespace after it |
| Text.TrimEndChar | app.py:160 | `str.rstrip(';')`: drops exactly the trailing run of `;` |
| Text.Split | app.py:54 | `str.split(sep)`: one more piece than separators, and no piece holds the separator |
| Text.JoinSplit | app.py:182-193 | joining the pieces of `split` with the separator gives back the text |
| Text.SplitJoin | app.py:59 | splitting the join of non-empty-list, separator-free pieces gives back the pieces |
| Text.Upper | app.py:161 | `str.upper()`: same length, ASCII letters upper-cased |
| Text.CountChar | app.py:186 | `str.count(c)`: zero exactly when `c` is absent |
| Text.CountEscapedQuotes | app.py:186 | counts the two-character sequence backslash-quote, never more often than the quotes themselves |
| Rewrite.SubAllIsLeftmost | app.py:165-172 | `re.sub` as a left-to-right scan equals the textbook reading: replace the leftmost match and go on after it |
| Rewrite.SearchAt | app.py:162 | `re.search` reports the leftmost position where the pattern matches, and none when no position matches |
| Rewrite.SubAllKeeps | app.py:176 | a rewrite whose replacements keep a set of characters keeps them in the whole text |
| Rewrite.SubAllLastChar | app.py:165-172 | if neither the text nor any replacement ends with `c`, neither does the result |
| Rewrite.SubAll | app.py:165-172 | the definition of `re.sub` and `str.replace` as a left-to-right scan; its meaning is stated by `SubAllIsLeftmost`, `SubAllKeeps` and `SubAllLastChar` |
| Regex.GreedyRest | app.py:162 | a greedy run takes a length after which the rest of the pattern matches |
| Regex.GreedyLongest | app.py:162 | that length is the largest such length |
| Regex.GreedyFails | app.py:162 | a run fails only when no length from its minimum upward lets the rest match |
| Regex.ClassesIgnoreCase | app.py:162 | under `re.IGNORECASE`, `\s`, `\d` and `\w` do not tell a letter from its upper case |
| Regex.RuleNeedsLiteral | app.py:168 | a rule fires only on text that contains, up to case, each literal of its pattern |
| Regex.Interp | app.py:162 | a match of a pattern spans at most the text and has one group per capturing run |
| Regex.Greedy | app.py:162 | a greedy run takes between its minimum and the available count, and the rest's match fits after it; `GreedyRest`, `GreedyLongest` and `GreedyFails` state which count it takes |
| Regex.RuleAt | app.py:162-172 | `re.match` with `re.IGNORECASE` and a replacement template: a match spans at most the text |
| Regex.SpacedRuleReplaces | app.py:165-172 | for a pattern made of a literal, `\s+` and a rest: where the upper-cased text starts with the literal, whitespace and a match of the rest, `re.sub` replaces all of that and goes on after it |
| Regex.RuleReplaces | app.py:165-172 | where a pattern matches at the front, `re.sub` puts the filled template in place of the match and goes on after it |
| Regex.InterpPrefix | app.py:170-172 | when a pattern matches, every prefix of the pattern matches too |

## Left out

- Console input, printing and colours are not modelled. The typed selection is a parameter of
  `ParseQuestionSelection`. The out-of-bounds and invalid-ID messages are not modelled, and the
  tally is neither sorted nor printed.
- The model-service call, clocks, latency and token logs, the retry-and-sleep loop, file loading,
  prompt building and output writing are I/O. They are not part of this model.
- `json.loads` is the parameter `parse`. Which texts it accepts is not modelled. An exception
  other than a parse error on the first attempt is not distinguished from a parse error.
- `JsonExtract.ExtractJsonFromResponse`: the reply's outer `strip()` (app.py:286) is done by the
  caller and is not modelled.
- JSON values are the datatype `Value`. Lists and objects are one opaque case, `Composite`. Floats
  are modelled as `real`, with no rounding.
- `ResultRecord`: a parsed reply that is not an object, such as a JSON list, makes `setdefault`
  raise. The model assumes an object.
- `SummaryStatistics.TallySources`: Python merges `True`, `1` and `1.0` into one dictionary key.
  The model keeps them apart. A list or object as a source makes Python raise. Both cases cover
  non-string sources only.
- Case handling covers ASCII only. Python's `str.upper()` and `re.IGNORECASE` also fold
  non-ASCII letters. `\d` and `\w` are their ASCII forms, while `\s` and `strip()` use Python's
  full whitespace set.
- `QuestionSelection.ParseInt`: CPython refuses to convert a string of more than 4300 digits
  (a limit that can be configured, and one that older versions do not have), so a long run of
  leading zeros is a `ValueError` there. The model reads digit strings of any length. The
  decimal digits are those of Unicode 15.0; later Unicode versions add more.
- The `target_source` argument of `validate_and_fix_sql` is unused by the function and is
  dropped.
- The `DATE_SUB` rewrite (app.py:168) is modelled exactly as its pattern is written. Its
  parentheses are spelt out as the words `KATEX_INLINE_OPEN` and `KATEX_INLINE_CLOSE`, so it
  matches only text that contains those words. The parenthesised form it was evidently meant to
  match is not modelled.
- `JsonExtract.RepairLines`: a cleaned line is not always free of surrounding whitespace. Gluing a
  blank line leaves a trailing space, and gluing onto an empty line leaves a leading space. See
  `GluedBlankLineKeepsSpace`.
- An exception raised by the guard of app.py:299 is reported as `raised` by
  `FixSqlIfConfident`. The retry it triggers is not modelled.
