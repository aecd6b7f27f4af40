/** `SQLGenerationPipeline.extract_json_from_response` (app.py:175-202): the steps that turn a
    model's reply into the text handed to `json.loads`. The parser itself is not part of this
    model: it is a parameter `parse`, whose `None` stands for a `JSONDecodeError`. */
module JsonExtract {
  import opened Wrappers
  import opened Text
  import opened Rewrite
  import opened Regex

  /** `s.replace(pat, sub)` as a matcher: `pat` compared character for character. */
  function Literal(pat: string, sub: string): Matcher {
    s => if StartsWith(s, pat) then Some(Hit(|pat|, sub)) else None
  }

  /** The two code-fence removals of app.py:176. */
  const JsonFence := Literal("```json", "")
  const Fence := Literal("```", "")

  function StripFences(text: string): string {
    SubAll(Fence, SubAll(JsonFence, text))
  }

  /** A character no fence removal can touch. */
  predicate Unfenced(c: char) {
    c != '`' && c != 'j' && c != 's' && c != 'o' && c != 'n'
  }

  /** `str.find(c)`: the first position of `c`, or -1. */
  function IndexOf(s: string, c: char): (r: int)
    ensures -1 <= r < |s|
    ensures r == -1 <==> c !in s
    ensures r >= 0 ==> s[r] == c && c !in s[..r]
    decreases |s|
  {
    if s == [] then -1
    else if s[0] == c then 0
    else
      var k := IndexOf(s[1..], c);
      if k == -1 then -1
      else
        assert s[..k + 1] == [s[0]] + s[1..][..k];
        k + 1
  }

  /** `str.rfind(c)`: the last position of `c`, or -1. */
  function LastIndexOf(s: string, c: char): (r: int)
    ensures -1 <= r < |s|
    ensures r == -1 <==> c !in s
    ensures r >= 0 ==> s[r] == c && c !in s[r + 1..]
    decreases |s|
  {
    if s == [] then -1
    else if s[|s| - 1] == c then |s| - 1
    else
      var k := LastIndexOf(s[..|s| - 1], c);
      if k == -1 then -1
      else
        assert s[k + 1..] == s[..|s| - 1][k + 1..] + [s[|s| - 1]];
        k
  }

  /** app.py:177-181: the text from the first `{` to the last `}`, both included, or `None`
      when either brace is missing. Python's slice `text[start:end + 1]` is empty when the last
      `}` comes before the first `{`. */
  function Candidate(text: string): (r: Option<string>)
    ensures r.None? <==> '{' !in text || '}' !in text
  {
    var start, end := IndexOf(text, '{'), LastIndexOf(text, '}');
    if start == -1 || end == -1 then None
    else if end < start then Some([])
    else Some(text[start..end + 1])
  }

  /** `find` and `rfind` locate the outermost braces. */
  lemma OutermostBraces(text: string, i: nat, j: nat)
    requires i < |text| && j < |text| && text[i] == '{' && text[j] == '}'
    requires '{' !in text[..i] && '}' !in text[j + 1..]
    ensures IndexOf(text, '{') == i && LastIndexOf(text, '}') == j
  {
  }

  /** The candidate is exactly the slice between the outermost braces: the slice from a `{`
      with no `{` before it to a `}` with no `}` after it. */
  lemma CandidateIsOutermost(text: string, i: nat, j: nat)
    requires i <= j < |text| && text[i] == '{' && text[j] == '}'
    requires '{' !in text[..i] && '}' !in text[j + 1..]
    ensures Candidate(text) == Some(text[i..j + 1])
  {
    OutermostBraces(text, i, j);
  }

  /** When every `}` comes before the first `{`, the candidate is the empty text. */
  lemma CandidateBackwards(text: string, i: nat, j: nat)
    requires j < i < |text| && text[i] == '{' && text[j] == '}'
    requires '{' !in text[..i] && '}' !in text[j + 1..]
    ensures Candidate(text) == Some([])
  {
    OutermostBraces(text, i, j);
  }

  /** The fence removals delete backquotes and the letters of `json` only: every other
      character survives, in order. */
  lemma StripFencesKeeps(text: string)
    ensures Kept(Unfenced, StripFences(text)) == Kept(Unfenced, text)
  {
    FenceKeeps("```json");
    FenceKeeps("```");
    SubAllKeeps(JsonFence, Unfenced, text);
    SubAllKeeps(Fence, Unfenced, SubAll(JsonFence, text));
  }

  lemma FenceKeeps(pat: string)
    requires pat != [] && forall k :: 0 <= k < |pat| ==> !Unfenced(pat[k])
    ensures ReplKeeps(Literal(pat, ""), Unfenced)
  {
    forall t | Fires(Literal(pat, ""), t)
      ensures Kept(Unfenced, Literal(pat, "")(t).value.repl) == Kept(Unfenced, t[..|pat|])
    {
      KeptNone(Unfenced, pat);
    }
  }

  /** A literal fires exactly where the text starts with it, and is replaced whole. */
  lemma LiteralFires(pat: string, sub: string, t: string)
    requires pat != []
    ensures Fires(Literal(pat, sub), t) <==> StartsWith(t, pat)
    ensures StartsWith(t, pat) ==> Literal(pat, sub)(t) == Some(Hit(|pat|, sub))
  {
  }

  /** A block fenced as ```` ```json ```` … ```` ``` ```` whose body holds no backtick comes
      out as its body. */
  lemma StripFencesBlock(body: string)
    requires '`' !in body
    ensures StripFences("```json" + body + "```") == body
  {
    var t, tail := "```json" + body + "```", body + "```";
    assert SubAll(JsonFence, t) == tail by {
      LiteralFires("```json", "", t);
      assert t[..7] == "```json" && t[7..] == tail;
      SubAllFires(JsonFence, t);
      forall j | 0 <= j <= |tail|
        ensures !Fires(JsonFence, tail[j..])
      {
        LiteralFires("```json", "", tail[j..]);
        if j < |body| {
          assert tail[j..][0] == body[j];
        }
      }
      SubAllNoMatch(JsonFence, tail);
    }
    assert SubAll(Fence, tail) == body by {
      forall j | 0 <= j < |body|
        ensures !Fires(Fence, tail[j..])
      {
        LiteralFires("```", "", tail[j..]);
        assert tail[j..][0] == body[j];
      }
      SubAllKeepsPrefix(Fence, tail, |body|);
      assert tail[..|body|] == body && tail[|body|..] == "```";
      LiteralFires("```", "", "```");
      SubAllFires(Fence, "```");
      assert "```"[3..] == [];
    }
  }

  /** After the plain fences are removed no three backticks are left in a row. */
  lemma {:induction false} NoFenceLeft(x: string)
    ensures !Contains(SubAll(Fence, x), "```")
    decreases |x|
  {
    if x != [] {
      LiteralFires("```", "", x);
      if StartsWith(x, "```") {
        assert SubAll(Fence, x) == SubAll(Fence, x[3..]) by {
          SubAllFires(Fence, x);
        }
        NoFenceLeft(x[3..]);
      } else {
        var r := SubAll(Fence, x[1..]);
        NoFenceLeft(x[1..]);
        assert SubAll(Fence, x) == [x[0]] + r;
        assert !StartsWith([x[0]] + r, "```") by {
          if StartsWith([x[0]] + r, "```") {
            assert ([x[0]] + r)[1..] == r;
            FenceResidue(x[1..]);
          }
        }
        assert ([x[0]] + r)[1..] == r;
      }
    }
  }

  /** What the removal leaves starts with two backticks only where the text does. */
  lemma FenceResidue(y: string)
    requires StartsWith(SubAll(Fence, y), "``")
    ensures StartsWith(y, "``")
  {
    LiteralFires("```", "", y);
    if !Fires(Fence, y) {
      var r := SubAll(Fence, y[1..]);
      assert SubAll(Fence, y) == [y[0]] + r;
      assert ([y[0]] + r)[0] == y[0] && ([y[0]] + r)[1] == r[0];
      assert SubAll(Fence, y)[1] == "``"[1];
      FenceFirst(y[1..]);
      assert y[..2] == [y[0], y[1..][0]];
    } else {
      assert y[..2] == y[..3][..2];
    }
  }

  /** What the removal leaves starts with a backtick only where the text does. */
  lemma FenceFirst(z: string)
    requires SubAll(Fence, z) != [] && SubAll(Fence, z)[0] == '`'
    ensures z != [] && z[0] == '`'
  {
    LiteralFires("```", "", z);
    if z != [] && Fires(Fence, z) {
      assert z[..3][0] == z[0];
    }
  }

  /** The fence-stripped text never holds three backticks in a row. */
  lemma StripFencesLeavesNoFence(text: string)
    ensures !Contains(StripFences(text), "```")
  {
    NoFenceLeft(SubAll(JsonFence, text));
  }

  /** A reply holds both braces exactly when its fence-stripped text does, so the extraction
      gives up (app.py:179-180) exactly when the reply lacks a brace. */
  lemma CandidateExists(text: string)
    ensures Candidate(StripFences(text)).Some? <==> '{' in text && '}' in text
  {
    StripFencesKeeps(text);
    KeptIn(Unfenced, StripFences(text), '{');
    KeptIn(Unfenced, text, '{');
    KeptIn(Unfenced, StripFences(text), '}');
    KeptIn(Unfenced, text, '}');
  }

  /** Whether a line toggles the in-string flag (app.py:186-188): its `"` count less its `\"`
      count is odd. The difference is never negative, so Python's `%` agrees with Dafny's. */
  predicate OddQuotes(line: string) {
    (CountChar(line, '"') - CountEscapedQuotes(line)) % 2 == 1
  }

  /** The state of the repair loop: the cleaned lines so far and the in-string flag. */
  datatype Repair = Repair(lines: seq<string>, inString: bool)

  /** One turn of the loop of app.py:185-192. */
  function RepairStep(r: Repair, line: string): Repair {
    var flag := if OddQuotes(line) then !r.inString else r.inString;
    if flag && r.lines != [] then
      Repair(r.lines[|r.lines| - 1 := r.lines[|r.lines| - 1] + " " + Strip(line)], flag)
    else
      Repair(r.lines + [Strip(line)], flag)
  }

  /** The state after the loop has visited every line, in order. */
  function Repaired(lines: seq<string>): Repair
    decreases |lines|
  {
    if lines == [] then Repair([], false)
    else RepairStep(Repaired(lines[..|lines| - 1]), lines[|lines| - 1])
  }

  lemma RepairedSnoc(lines: seq<string>, i: nat)
    requires i < |lines|
    ensures Repaired(lines[..i + 1]) == RepairStep(Repaired(lines[..i]), lines[i])
  {
    assert lines[..i + 1][..i] == lines[..i];
  }

  lemma RepairedAppend(init: seq<string>, line: string)
    ensures Repaired(init + [line]) == RepairStep(Repaired(init), line)
  {
    assert (init + [line])[..|init|] == init;
  }

  /** The loop of app.py:183-192, with `cleaned_lines[-1]` updated in place. */
  method RepairLines(lines: seq<string>) returns (cleaned: seq<string>)
    ensures cleaned == Repaired(lines).lines
  {
    cleaned := [];
    var inString := false;
    for i := 0 to |lines|
      invariant Repaired(lines[..i]) == Repair(cleaned, inString)
    {
      ghost var before := Repair(cleaned, inString);
      var line := lines[i];
      var quoteCount := CountChar(line, '"') - CountEscapedQuotes(line);
      if quoteCount % 2 == 1 {
        inString := !inString;
      }
      assert inString == (if OddQuotes(line) then !before.inString else before.inString);
      if inString && cleaned != [] {
        cleaned := cleaned[|cleaned| - 1 := cleaned[|cleaned| - 1] + " " + Strip(line)];
      } else {
        cleaned := cleaned + [Strip(line)];
      }
      assert Repair(cleaned, inString) == RepairStep(before, line);
      RepairedSnoc(lines, i);
    }
    assert lines[..|lines|] == lines;
  }

  /** Number of lines that toggle the flag. */
  function OddLines(lines: seq<string>): nat
    decreases |lines|
  {
    if lines == [] then 0
    else OddLines(lines[..|lines| - 1]) + (if OddQuotes(lines[|lines| - 1]) then 1 else 0)
  }

  /** Repair never adds lines, and keeps at least one when there was one. */
  lemma {:induction false} RepairedCount(lines: seq<string>)
    ensures |Repaired(lines).lines| <= |lines|
    ensures lines != [] ==> Repaired(lines).lines != []
    decreases |lines|
  {
    if lines != [] {
      RepairedCount(lines[..|lines| - 1]);
    }
  }

  /** After the loop the flag is set exactly when an odd number of lines toggled it. */
  lemma {:induction false} RepairedFlag(lines: seq<string>)
    ensures Repaired(lines).inString <==> OddLines(lines) % 2 == 1
    decreases |lines|
  {
    if lines != [] {
      var init := lines[..|lines| - 1];
      var line := lines[|lines| - 1];
      var odd := OddQuotes(line);
      calc {
        Repaired(lines).inString;
      == { assert lines == init + [line]; RepairedAppend(init, line); }
        RepairStep(Repaired(init), line).inString;
        Repaired(init).inString != odd;
      == { RepairedFlag(init); }
        (OddLines(init) % 2 == 1) != odd;
      == { ParityStep(OddLines(init), odd); }
        (OddLines(init) + if odd then 1 else 0) % 2 == 1;
      == { assert lines == init + [line]; OddLinesAppend(init, line); }
        OddLines(lines) % 2 == 1;
      }
    }
  }

  lemma OddLinesAppend(init: seq<string>, line: string)
    ensures OddLines(init + [line]) == OddLines(init) + if OddQuotes(line) then 1 else 0
  {
    assert (init + [line])[..|init|] == init;
  }

  lemma ParityStep(n: nat, b: bool)
    ensures ((n + if b then 1 else 0) % 2 == 1) == ((n % 2 == 1) != b)
  {
  }

  /** A line is glued onto the previous cleaned line exactly when the flag is set after it and
      a cleaned line exists; the line count drops by one for each glued line. */
  lemma RepairedGlues(lines: seq<string>, line: string)
    ensures var before := Repaired(lines);
      var after := Repaired(lines + [line]);
      var glued := after.inString && before.lines != [];
      |after.lines| == |before.lines| + (if glued then 0 else 1) &&
      (glued ==> after.lines[|after.lines| - 1] == before.lines[|before.lines| - 1] + " " + Strip(line)) &&
      (!glued ==> after.lines[|after.lines| - 1] == Strip(line))
  {
    assert (lines + [line])[..|lines|] == lines;
  }

  /** Every line stripped, in order: `[line.strip() for line in lines]`. */
  function StripEach(lines: seq<string>): (r: seq<string>)
    ensures |r| == |lines|
    ensures forall i :: 0 <= i < |lines| ==> r[i] == Strip(lines[i])
    decreases |lines|
  {
    if lines == [] then []
    else StripEach(lines[..|lines| - 1]) + [Strip(lines[|lines| - 1])]
  }

  /** Lines that are balanced, each with an even number of unescaped quotes, are only
      stripped. */
  lemma {:induction false} BalancedLinesStripped(lines: seq<string>)
    requires forall i :: 0 <= i < |lines| ==> !OddQuotes(lines[i])
    ensures Repaired(lines) == Repair(StripEach(lines), false)
    decreases |lines|
  {
    if lines != [] {
      var init := lines[..|lines| - 1];
      BalancedLinesStripped(init);
      assert Repaired(lines) == RepairStep(Repaired(init), lines[|lines| - 1]) by {
        RepairedSnoc(lines, |lines| - 1);
        assert lines[..|lines|] == lines;
      }
    }
  }

  /** Gluing a blank line leaves the space that joins it: a cleaned line need not be stripped
      at its end. */
  lemma GluedBlankLineKeepsSpace(first: string)
    requires first != [] && !IsSpace(first[0]) && !IsSpace(first[|first| - 1])
    requires OddQuotes(first)
    ensures Repaired([first, ""]).lines == [first + " "]
  {
    calc {
      Repaired([first, ""]);
    == { assert [first, ""] == [first] + [""]; RepairedAppend([first], ""); }
      RepairStep(Repaired([first]), "");
    == { assert [first] == [] + [first]; RepairedAppend([], first); StripUnpadded(first); }
      RepairStep(Repair([first], true), "");
    == { assert !OddQuotes("") && Strip("") == [];
         assert first + " " + Strip("") == first + " "; }
      Repair([first + " "], true);
    }
  }

  /** No cleaned line holds a line break when no input line does. */
  predicate SingleLines(lines: seq<string>) {
    forall i :: 0 <= i < |lines| ==> '\n' !in lines[i]
  }

  lemma RepairStepSingleLines(r: Repair, line: string)
    requires SingleLines(r.lines) && '\n' !in line
    ensures SingleLines(RepairStep(r, line).lines)
  {
    var after := RepairStep(r, line).lines;
    assert '\n' !in Strip(line);
    forall i | 0 <= i < |after|
      ensures '\n' !in after[i]
    {
      if i < |r.lines| {
        assert after[i] == r.lines[i] || after[i] == r.lines[i] + " " + Strip(line);
      }
    }
  }

  lemma {:induction false} RepairedSingleLines(lines: seq<string>)
    requires SingleLines(lines)
    ensures SingleLines(Repaired(lines).lines)
    decreases |lines|
  {
    if lines != [] {
      var init := lines[..|lines| - 1];
      assert SingleLines(init) by {
        forall i | 0 <= i < |init|
          ensures '\n' !in init[i]
        {
          assert init[i] == lines[i];
        }
      }
      RepairedSingleLines(init);
      RepairStepSingleLines(Repaired(init), lines[|lines| - 1]);
    }
  }

  /** One turn adds the non-whitespace characters of its line after those already kept. */
  lemma RepairStepKeeps(r: Repair, line: string)
    ensures var after := RepairStep(r, line).lines;
      Kept(NotSpace, Join(after, "\n")) ==
        (if r.lines == [] then [] else Kept(NotSpace, Join(r.lines, "\n"))) + Kept(NotSpace, line)
  {
    var after := RepairStep(r, line);
    var piece := Strip(line);
    assert Kept(NotSpace, piece) == Kept(NotSpace, line);
    if after.inString && r.lines != [] {
      assert after.lines == r.lines[|r.lines| - 1 := r.lines[|r.lines| - 1] + " " + piece];
      GlueKept(r.lines, piece);
    } else if r.lines == [] {
      assert after.lines == [piece];
      assert Join([piece], "\n") == piece;
    } else {
      assert after.lines == r.lines + [piece];
      JoinSnocKept(r.lines, piece);
    }
  }

  /** Gluing a piece onto the last line adds its non-whitespace characters to those of the
      joined text. */
  lemma GlueKept(lines: seq<string>, piece: string)
    requires lines != []
    ensures var n := |lines|;
      Kept(NotSpace, Join(lines[n - 1 := lines[n - 1] + " " + piece], "\n")) ==
        Kept(NotSpace, Join(lines, "\n")) + Kept(NotSpace, piece)
  {
    var n := |lines|;
    calc {
      Kept(NotSpace, Join(lines[n - 1 := lines[n - 1] + " " + piece], "\n"));
    == { assert lines[n - 1] + " " + piece == lines[n - 1] + (" " + piece);
         JoinUpdateLast(lines, " " + piece, "\n"); }
      Kept(NotSpace, Join(lines, "\n") + (" " + piece));
    == { KeptAppend(NotSpace, Join(lines, "\n"), " " + piece); }
      Kept(NotSpace, Join(lines, "\n")) + Kept(NotSpace, " " + piece);
    == { KeptAppend(NotSpace, " ", piece); KeptNone(NotSpace, " "); }
      Kept(NotSpace, Join(lines, "\n")) + Kept(NotSpace, piece);
    }
  }

  /** Repair only moves whitespace: the repaired text holds the non-whitespace characters of
      the candidate, in order. */
  lemma {:induction false} RepairedKeepsContent(lines: seq<string>)
    ensures Kept(NotSpace, Join(Repaired(lines).lines, "\n")) == Kept(NotSpace, Join(lines, "\n"))
    decreases |lines|
  {
    if lines != [] {
      var init := lines[..|lines| - 1];
      var line := lines[|lines| - 1];
      assert lines == init + [line];
      calc {
        Kept(NotSpace, Join(Repaired(lines).lines, "\n"));
        Kept(NotSpace, Join(Repaired(init + [line]).lines, "\n"));
      == { RepairedKeepsContent(init); RepairedKeepsLast(init, line); }
        Kept(NotSpace, Join(init + [line], "\n"));
        Kept(NotSpace, Join(lines, "\n"));
      }
    }
  }

  lemma RepairedKeepsLast(init: seq<string>, line: string)
    requires Kept(NotSpace, Join(Repaired(init).lines, "\n")) == Kept(NotSpace, Join(init, "\n"))
    ensures Kept(NotSpace, Join(Repaired(init + [line]).lines, "\n")) == Kept(NotSpace, Join(init + [line], "\n"))
  {
    var before := Repaired(init);
    assert Repaired(init + [line]) == RepairStep(before, line) by {
      assert (init + [line])[..|init|] == init;
    }
    RepairStepKeeps(before, line);
    if init == [] {
      assert init + [line] == [line];
    } else {
      RepairedCount(init);
      JoinSnocKept(init, line);
    }
  }

  /** A further line adds its non-whitespace characters to those of the joined text. */
  lemma JoinSnocKept(init: seq<string>, line: string)
    requires init != []
    ensures Kept(NotSpace, Join(init + [line], "\n")) == Kept(NotSpace, Join(init, "\n")) + Kept(NotSpace, line)
  {
    JoinSnoc(init, line, "\n");
    KeptAppend(NotSpace, Join(init, "\n") + "\n", line);
    KeptAppend(NotSpace, Join(init, "\n"), "\n");
  }

  /** Extending the last piece extends the joined text. */
  lemma {:induction false} JoinUpdateLast(parts: seq<string>, x: string, sep: string)
    requires parts != []
    ensures Join(parts[|parts| - 1 := parts[|parts| - 1] + x], sep) == Join(parts, sep) + x
    decreases |parts|
  {
    var n := |parts|;
    var updated := parts[n - 1 := parts[n - 1] + x];
    if n > 1 {
      assert updated[1..] == parts[1..][n - 2 := parts[1..][n - 2] + x];
      JoinUpdateLast(parts[1..], x, sep);
    }
  }

  /** The repaired text has no more lines than the candidate. */
  lemma RepairedLineCount(candidate: string)
    ensures var repaired := Join(Repaired(Split(candidate, '\n')).lines, "\n");
      CountChar(repaired, '\n') <= CountChar(candidate, '\n')
  {
    var lines := Split(candidate, '\n');
    var cleaned := Repaired(lines).lines;
    RepairedCount(lines);
    RepairedSingleLines(lines);
    SplitJoin(cleaned, '\n');
  }

  /** `,\s*<close>` replaced by `<close>` (app.py:197-198). The pattern holds no letters,
      so matching it without `re.IGNORECASE`, as the source does, finds the same matches. */
  function CommaRule(close: string): Matcher {
    Rule(CommaPattern(close), [Text(close)])
  }

  function CommaPattern(close: string): seq<Token> {
    [Lit(","), Run(Space, 0, false), Lit(close)]
  }

  const CommaBrace := CommaRule("}")
  const CommaBracket := CommaRule("]")

  /** The two trailing-comma fixes, applied one after the other. */
  function FixCommas(s: string): string {
    SubAll(CommaBracket, SubAll(CommaBrace, s))
  }

  /** Neither a comma nor whitespace. */
  predicate Solid(c: char) {
    c != ',' && !IsSpace(c)
  }

  /** The comma fixes delete commas and whitespace only: every other character survives, in
      order. */
  lemma FixCommasKeeps(s: string)
    ensures Kept(Solid, FixCommas(s)) == Kept(Solid, s)
  {
    CommaRuleKeeps("}");
    CommaRuleKeeps("]");
    SubAllKeeps(CommaBrace, Solid, s);
    SubAllKeeps(CommaBracket, Solid, SubAll(CommaBrace, s));
  }

  lemma CommaRuleKeeps(close: string)
    requires close == "}" || close == "]"
    ensures ReplKeeps(CommaRule(close), Solid)
  {
    forall t | Fires(CommaRule(close), t)
      ensures Kept(Solid, CommaRule(close)(t).value.repl) == Kept(Solid, t[..CommaRule(close)(t).value.len])
    {
      var n := CommaMatch(close, t);
      var between := t[1..1 + n];
      assert t[..2 + n] == [','] + between + close;
      KeptAppend(Solid, [','] + between, close);
      KeptAppend(Solid, [','], between);
      KeptNone(Solid, between);
      assert GroupTexts(t, []) == [];
      assert Expand([Text(close)], []) == close;
      assert Kept(Solid, [',']) == [];
      assert Kept(Solid, close) == close;
    }
  }

  /** A match of `,\s*<close>` is a comma, `n` whitespace characters and the bracket. */
  lemma CommaMatch(close: string, t: string) returns (n: nat)
    requires close == "}" || close == "]"
    requires Fires(CommaRule(close), t)
    ensures 2 + n == CommaRule(close)(t).value.len <= |t|
    ensures t[0] == ',' && t[1 + n] == close[0]
    ensures forall k :: 1 <= k < 1 + n ==> IsSpace(t[k])
    ensures Interp(CommaPattern(close), Upper(t)).value.groups == []
  {
    var u := Upper(t);
    n := CommaMatchUpper(close, u);
    forall k | 1 <= k < 1 + n
      ensures IsSpace(t[k])
    {
      ClassesIgnoreCase(Space, t[k]);
    }
  }

  lemma CommaMatchUpper(close: string, u: string) returns (n: nat)
    requires close == "}" || close == "]"
    requires Interp(CommaPattern(close), u).Some?
    ensures Interp(CommaPattern(close), u).value == Match(2 + n, [])
    ensures 2 + n <= |u| && u[0] == ',' && u[1 + n] == close[0]
    ensures forall k :: 1 <= k < 1 + n ==> IsSpace(u[k])
  {
    assert CommaPattern(close) == [Lit(",")] + [Run(Space, 0, false), Lit(close)];
    LitMatched(",", [Run(Space, 0, false), Lit(close)], u);
    var u1 := u[1..];
    assert [Run(Space, 0, false), Lit(close)] == [Run(Space, 0, false)] + [Lit(close)];
    n := RunMatched(Space, 0, [Lit(close)], u1);
    assert [Lit(close)] == [Lit(close)] + [];
    LitMatched(close, [], u1[n..]);
    assert u[1 + n] == u1[n..][0];
    forall k | 1 <= k < 1 + n
      ensures IsSpace(u[k])
    {
      assert u[k] == u1[k - 1];
    }
  }

  /** Conversely, a comma, whitespace and the closer are always matched, and the match is
      replaced by the closer alone. */
  lemma CommaRuleFires(close: string, ws: string, y: string)
    requires close == "}" || close == "]"
    requires forall k :: 0 <= k < |ws| ==> IsSpace(ws[k])
    ensures CommaRule(close)("," + ws + close + y) == Some(Hit(2 + |ws|, close))
  {
    var t := "," + ws + close + y;
    assert Upper(t) == "," + ws + close + Upper(y) by {
      UpperAppend("," + ws + close, y);
      UpperAppend("," + ws, close);
      UpperAppend(",", ws);
      UpperId(",");
      UpperId(ws);
      UpperId(close);
    }
    CommaPatternMatches(close, ws, Upper(y));
    assert GroupTexts(t, []) == [];
    assert Expand([Text(close)], []) == close;
  }

  /** The comma pattern matches a comma, whitespace and the closer. */
  lemma CommaPatternMatches(close: string, ws: string, z: string)
    requires close == "}" || close == "]"
    requires forall k :: 0 <= k < |ws| ==> IsSpace(ws[k])
    ensures Interp(CommaPattern(close), "," + ws + close + z) == Some(Match(2 + |ws|, []))
  {
    assert Interp([Lit(close)], close + z) == Some(Match(1, [])) by {
      assert [Lit(close)] == [Lit(close)] + [];
      LitStep(close, [], close + z, z, Match(0, []));
    }
    assert Interp([Run(Space, 0, false), Lit(close)], ws + close + z) == Some(Match(|ws| + 1, [])) by {
      assert [Run(Space, 0, false), Lit(close)] == [Run(Space, 0, false)] + [Lit(close)];
      RunStep(Space, 0, false, [Lit(close)], ws + close + z, ws, close + z, Match(1, []));
    }
    assert CommaPattern(close) == [Lit(",")] + [Run(Space, 0, false), Lit(close)];
    assert "," + ws + close + z == "," + (ws + close + z);
    LitStep(",", [Run(Space, 0, false), Lit(close)], "," + ws + close + z, ws + close + z, Match(|ws| + 1, []));
  }

  /** So the scan replaces a comma, whitespace and a closer at the front by the closer and
      goes on after it. */
  lemma CommaRuleRemoves(close: string, ws: string, y: string)
    requires close == "}" || close == "]"
    requires forall k :: 0 <= k < |ws| ==> IsSpace(ws[k])
    ensures SubAll(CommaRule(close), "," + ws + close + y) == close + SubAll(CommaRule(close), y)
  {
    var t := "," + ws + close + y;
    CommaRuleFires(close, ws, y);
    SubAllFires(CommaRule(close), t);
    assert t[2 + |ws|..] == y;
  }

  /** The text handed to `json.loads` first (app.py:182-193). */
  function RepairedText(candidate: string): string {
    Join(Repaired(Split(candidate, '\n')).lines, "\n")
  }

  /** app.py:175-202, with `json.loads` as `parse`: the repaired candidate is parsed, and when
      that fails, the repaired candidate with its trailing commas removed. */
  function ExtractJson<J>(text: string, parse: string -> Option<J>): Option<J> {
    match Candidate(StripFences(text))
    case None => None
    case Some(candidate) =>
      var repaired := RepairedText(candidate);
      if parse(repaired).Some? then parse(repaired) else parse(FixCommas(repaired))
  }

  /** The loop and the calls of app.py:175-202, in the source's order. */
  method ExtractJsonFromResponse<J>(response: string, parse: string -> Option<J>) returns (r: Option<J>)
    ensures r == ExtractJson(response, parse)
  {
    var text := StripFences(response);
    var start := IndexOf(text, '{');
    var end := LastIndexOf(text, '}');
    if start == -1 || end == -1 {
      return None;
    }
    var jsonStr := if end < start then [] else text[start..end + 1];
    ghost var candidate := jsonStr;
    assert Candidate(text) == Some(candidate);
    var lines := Split(jsonStr, '\n');
    var cleaned := RepairLines(lines);
    jsonStr := Join(cleaned, "\n");
    assert jsonStr == RepairedText(candidate);
    r := parse(jsonStr);
    if r.None? {
      jsonStr := FixCommas(jsonStr);
      r := parse(jsonStr);
    }
  }

  /** Without both braces in the reply nothing is parsed, whatever the parser accepts. */
  lemma ExtractJsonNeedsBraces<J>(text: string, parse: string -> Option<J>)
    requires '{' !in text || '}' !in text
    ensures ExtractJson(text, parse) == None
  {
    CandidateExists(text);
  }

  /** With both braces in the reply a parser that accepts the repaired candidate gives its
      value. */
  lemma ExtractJsonParsesRepaired<J>(text: string, parse: string -> Option<J>)
    requires '{' in text && '}' in text
    ensures var candidate := Candidate(StripFences(text));
      candidate.Some? &&
      (parse(RepairedText(candidate.value)).Some? ==> ExtractJson(text, parse) == parse(RepairedText(candidate.value)))
  {
    CandidateExists(text);
  }

  /** Whatever is returned is the parse of a text that differs from the brace-delimited
      candidate only in commas and whitespace. */
  lemma ExtractJsonSource<J>(text: string, parse: string -> Option<J>) returns (x: string)
    requires ExtractJson(text, parse).Some?
    ensures '{' in text && '}' in text
    ensures parse(x) == ExtractJson(text, parse)
    ensures Kept(Solid, x) == Kept(Solid, Candidate(StripFences(text)).value)
  {
    CandidateExists(text);
    var candidate := Candidate(StripFences(text)).value;
    var repaired := RepairedText(candidate);
    x := if parse(repaired).Some? then repaired else FixCommas(repaired);
    calc {
      Kept(Solid, repaired);
    == { KeptFiner(Solid, NotSpace, repaired); }
      Kept(Solid, Kept(NotSpace, repaired));
    == { RepairedKeepsContent(Split(candidate, '\n')); JoinSplit(candidate, '\n'); }
      Kept(Solid, Kept(NotSpace, candidate));
    == { KeptFiner(Solid, NotSpace, candidate); }
      Kept(Solid, candidate);
    }
    FixCommasKeeps(repaired);
  }
}
