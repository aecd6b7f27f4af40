/** `SQLGenerationPipeline.parse_question_selection` (app.py:46-84): the text a user types,
    such as `1-6`, `1,5,7` or `15-20`, becomes the sorted list of question IDs to process.
    The text is a parameter here; the source reads it from the console. */
module QuestionSelection {
  import opened Wrappers
  import opened Text

  /** The number of runs of Unicode decimal digits (general category Nd) in Unicode 15.0. */
  const RunCount := 68

  /** The code point of the digit zero of run `i`, the runs in increasing order, looked up
      by halving the index range. Each run holds the digits zero to nine in order, so a
      digit's value is its distance from its run's zero. */
  function RunZero(i: nat): int
    requires i < RunCount
  {
    if i < 32 then
      if i < 16 then
        if i < 8 then
          if i < 4 then
            if i < 2 then (if i == 0 then 0x30 else 0x660) else (if i == 2 then 0x6F0 else 0x7C0)
          else
            if i < 6 then (if i == 4 then 0x966 else 0x9E6) else (if i == 6 then 0xA66 else 0xAE6)
        else
          if i < 12 then
            if i < 10 then (if i == 8 then 0xB66 else 0xBE6) else (if i == 10 then 0xC66 else 0xCE6)
          else
            if i < 14 then (if i == 12 then 0xD66 else 0xDE6) else (if i == 14 then 0xE50 else 0xED0)
      else
        if i < 24 then
          if i < 20 then
            if i < 18 then (if i == 16 then 0xF20 else 0x1040) else (if i == 18 then 0x1090 else 0x17E0)
          else
            if i < 22 then (if i == 20 then 0x1810 else 0x1946) else (if i == 22 then 0x19D0 else 0x1A80)
        else
          if i < 28 then
            if i < 26 then (if i == 24 then 0x1A90 else 0x1B50) else (if i == 26 then 0x1BB0 else 0x1C40)
          else
            if i < 30 then (if i == 28 then 0x1C50 else 0xA620) else (if i == 30 then 0xA8D0 else 0xA900)
    else
      if i < 48 then
        if i < 40 then
          if i < 36 then
            if i < 34 then (if i == 32 then 0xA9D0 else 0xA9F0) else (if i == 34 then 0xAA50 else 0xABF0)
          else
            if i < 38 then (if i == 36 then 0xFF10 else 0x104A0) else (if i == 38 then 0x10D30 else 0x11066)
        else
          if i < 44 then
            if i < 42 then (if i == 40 then 0x110F0 else 0x11136) else (if i == 42 then 0x111D0 else 0x112F0)
          else
            if i < 46 then (if i == 44 then 0x11450 else 0x114D0) else (if i == 46 then 0x11650 else 0x116C0)
      else
        if i < 56 then
          if i < 52 then
            if i < 50 then (if i == 48 then 0x11730 else 0x118E0) else (if i == 50 then 0x11950 else 0x11C50)
          else
            if i < 54 then (if i == 52 then 0x11D50 else 0x11DA0) else (if i == 54 then 0x11F50 else 0x16A60)
        else
          if i < 60 then
            if i < 58 then (if i == 56 then 0x16AC0 else 0x16B50) else (if i == 58 then 0x1D7CE else 0x1D7D8)
          else
            if i < 64 then
              if i < 62 then (if i == 60 then 0x1D7E2 else 0x1D7EC) else (if i == 62 then 0x1D7F6 else 0x1E140)
            else
              if i < 66 then (if i == 64 then 0x1E2F0 else 0x1E4F0) else (if i == 66 then 0x1E950 else 0x1FBF0)
  }

  /** The zero of the run at or after run `i` that holds code point `x`. */
  function DigitZero(x: int, i: nat): (z: Option<int>)
    ensures z.Some? ==> z.value <= x < z.value + 10
    decreases RunCount - i
  {
    if i >= RunCount then None
    else if RunZero(i) <= x < RunZero(i) + 10 then Some(RunZero(i))
    else DigitZero(x, i + 1)
  }

  /** A character `int()` reads as a decimal digit: any Unicode decimal digit, such as the
      fullwidth `\U{FF13}` or the Arabic-Indic `\U{0663}`, not only the ASCII ones. */
  predicate IsDecimal(c: char) {
    DigitZero(c as int, 0).Some?
  }

  /** The value of a decimal digit. */
  function DigitValue(c: char): (v: nat)
    ensures v < 10
    ensures IsDigit(c) ==> v == c as int - '0' as int
  {
    match DigitZero(c as int, 0)
    case Some(z) => c as int - z
    case None => 0
  }

  /** Code points in the gaps between runs: below the ASCII digits, between them and the
      Arabic-Indic digits, and two later gaps that hold all of Python's non-ASCII
      whitespace. */
  predicate InGap(x: int) {
    x < 0x30 || 0x3A <= x < 0x660 || 0x109A <= x < 0x17E0 || 0x1C5A <= x < 0xA620
  }

  /** The search from any run finds no run holding a code point in a gap. */
  lemma {:induction false} GapNotDecimal(x: int, i: nat)
    requires InGap(x)
    ensures DigitZero(x, i).None?
    decreases RunCount - i
  {
    if i < RunCount {
      GapNotDecimal(x, i + 1);
    }
  }

  /** A decimal digit is neither whitespace, nor a sign, nor an underscore, nor a comma. */
  lemma DecimalIsPlain(c: char)
    requires IsDecimal(c)
    ensures !IsSpace(c) && c != '+' && c != '-' && c != '_' && c != ','
  {
    if IsSpace(c) || c == '+' || c == '-' || c == '_' || c == ',' {
      GapNotDecimal(c as int, 0);
    }
  }

  /** The search reaches run 36, whose zero is U+FF10, for the fullwidth three: every run
      before it lies below U+FF13. */
  lemma {:induction false} FullwidthFrom(i: nat)
    requires i <= 36
    ensures DigitZero(0xFF13, i) == Some(0xFF10)
    decreases 36 - i
  {
    if i < 36 {
      FullwidthFrom(i + 1);
    }
  }

  /** The fullwidth three is the decimal digit three. */
  lemma FullwidthThree()
    ensures IsDecimal('\U{FF13}') && DigitValue('\U{FF13}') == 3
  {
    FullwidthFrom(0);
  }

  /** What `int()` accepts after the sign: decimal digits, with single underscores between
      digits. */
  predicate IsDigitGroups(s: string) {
    && s != [] && IsDecimal(s[0]) && IsDecimal(s[|s| - 1])
    && (forall k :: 0 <= k < |s| ==> IsDecimal(s[k]) || s[k] == '_')
    && (forall k :: 0 <= k < |s| - 1 && s[k] == '_' ==> s[k + 1] != '_')
  }

  /** An ASCII digit is a decimal digit. */
  lemma AsciiDecimal(c: char)
    requires IsDigit(c)
    ensures IsDecimal(c)
  {
  }

  /** The decimal value of the digits, underscores skipped. */
  function DigitsValue(s: string): nat
    decreases |s|
  {
    if s == [] then 0
    else if s[|s| - 1] == '_' then DigitsValue(s[..|s| - 1])
    else DigitsValue(s[..|s| - 1]) * 10 + DigitValue(s[|s| - 1])
  }

  /** The whitespace `int()` skips around a number: Python's whitespace except the ASCII
      separators U+001C..U+001F, which `str.isspace()` counts but `int()` keeps, and then
      rejects. */
  predicate IntSpace(c: char) {
    IsSpace(c) && !('\U{1C}' <= c <= '\U{1F}')
  }

  /** `text` without the whitespace `int()` skips in front of a number. */
  function IntTrimStart(text: string): (r: string)
    ensures |r| <= |text| && r == text[|text| - |r|..]
    ensures forall k :: 0 <= k < |text| - |r| ==> IntSpace(text[k])
    ensures r != [] ==> !IntSpace(r[0])
    decreases |text|
  {
    if text != [] && IntSpace(text[0]) then IntTrimStart(text[1..]) else text
  }

  /** `text` without the whitespace `int()` skips after a number. */
  function IntTrimEnd(text: string): (r: string)
    ensures |r| <= |text| && r == text[..|r|]
    ensures forall k :: |r| <= k < |text| ==> IntSpace(text[k])
    ensures r != [] ==> !IntSpace(r[|r| - 1])
    decreases |text|
  {
    if text != [] && IntSpace(text[|text| - 1]) then IntTrimEnd(text[..|text| - 1]) else text
  }

  /** The text `int()` reads the number from: `text` without the whitespace it skips at
      either end. */
  function IntStrip(text: string): (r: string)
    ensures r != [] ==> !IntSpace(r[0]) && !IntSpace(r[|r| - 1])
  {
    IntTrimEnd(IntTrimStart(text))
  }

  /** What `int()` skips is whitespace at either end of one slice of the text, which it
      keeps whole. */
  lemma IntStripIsSlice(text: string) returns (i: nat)
    ensures i + |IntStrip(text)| <= |text| && IntStrip(text) == text[i..i + |IntStrip(text)|]
    ensures forall k :: 0 <= k < i ==> IntSpace(text[k])
    ensures forall k :: i + |IntStrip(text)| <= k < |text| ==> IntSpace(text[k])
  {
    var t := IntTrimStart(text);
    var r := IntTrimEnd(t);
    i := |text| - |t|;
    assert t == text[i..];
    forall k | i + |r| <= k < |text|
      ensures IntSpace(text[k])
    {
      assert text[k] == t[k - i];
    }
  }

  /** Python's `int(text)` in base 10: the whitespace it skips around, an optional ASCII
      sign, then digit groups of Unicode decimal digits; anything else is the `ValueError`
      path, `None` here. */
  function ParseInt(text: string): Option<int> {
    var t := IntStrip(text);
    if t != [] && (t[0] == '+' || t[0] == '-') then
      if IsDigitGroups(t[1..]) then
        var v: int := DigitsValue(t[1..]);
        Some(if t[0] == '-' then -v else v)
      else None
    else if IsDigitGroups(t) then Some(DigitsValue(t))
    else None
  }

  /** `str(n)` for a natural number. */
  function Decimal(n: nat): string
    decreases n
  {
    if n < 10 then [('0' as int + n) as char]
    else Decimal(n / 10) + [('0' as int + n % 10) as char]
  }

  /** The rendering is plain digits and reads back as the number. */
  lemma {:induction false} DecimalDigits(n: nat)
    ensures |Decimal(n)| >= 1
    ensures forall k :: 0 <= k < |Decimal(n)| ==> IsDigit(Decimal(n)[k])
    ensures DigitsValue(Decimal(n)) == n
    decreases n
  {
    if n >= 10 {
      DecimalDigits(n / 10);
      var d := Decimal(n);
      assert d[..|d| - 1] == Decimal(n / 10);
    }
  }

  /** `int(str(n)) == n`. */
  lemma ParseDecimal(n: nat)
    ensures ParseInt(Decimal(n)) == Some(n)
  {
    DecimalDigits(n);
    ParseDigits(Decimal(n));
  }

  /** A run of ASCII digits parses as its decimal value. */
  lemma ParseDigits(d: string)
    requires d != [] && forall k :: 0 <= k < |d| ==> IsDigit(d[k])
    ensures ParseInt(d) == Some(DigitsValue(d))
  {
    DigitGroups(d);
    ParseUnsigned(d);
  }

  /** Unsigned digit groups parse as their value. */
  lemma ParseUnsigned(t: string)
    requires IsDigitGroups(t)
    ensures ParseInt(t) == Some(DigitsValue(t))
  {
    DecimalIsPlain(t[0]);
    DecimalIsPlain(t[|t| - 1]);
    assert IntStrip(t) == t;
  }

  /** Digits with no underscores are digit groups. */
  lemma DigitGroups(d: string)
    requires d != [] && forall k :: 0 <= k < |d| ==> IsDigit(d[k])
    ensures IsDigitGroups(d)
  {
    forall k | 0 <= k < |d| ensures IsDecimal(d[k]) {
      AsciiDecimal(d[k]);
    }
  }

  /** The IDs `lo..hi`, as `range(lo, hi + 1)` yields them. */
  function Range(lo: int, hi: int): (r: set<int>)
    ensures forall k :: k in r <==> lo <= k <= hi
    decreases hi - lo
  {
    if lo > hi then {} else {lo} + Range(lo + 1, hi)
  }

  /** The IDs one comma-separated part adds to the selection (app.py:57-78): `a-b` adds
      `a..b` when `1 <= a <= b <= total`, a single number adds itself when it lies in
      `1..total`, and everything else adds nothing. */
  function PartIds(part: string, total: nat): (ids: set<int>)
    ensures forall id :: id in ids ==> 1 <= id <= total
  {
    var p := Strip(part);
    if '-' in p then RangeIds(p, total) else SingleIds(p, total)
  }

  /** A stripped part with a dash (app.py:58-69). */
  function RangeIds(p: string, total: nat): (ids: set<int>)
    ensures forall id :: id in ids ==> 1 <= id <= total
  {
    var ends := Split(p, '-');
    if |ends| == 2 then
      var start, end := ParseInt(ends[0]), ParseInt(ends[1]);
      if start.Some? && end.Some? && 1 <= start.value <= end.value <= total
      then Range(start.value, end.value)
      else {}
    else {}
  }

  /** A stripped part without a dash (app.py:70-78). */
  function SingleIds(p: string, total: nat): (ids: set<int>)
    ensures forall id :: id in ids ==> 1 <= id <= total
  {
    var qid := ParseInt(p);
    if qid.Some? && 1 <= qid.value <= total then {qid.value} else {}
  }

  /** The union of what the parts add, in the order the loop visits them. */
  function Chosen(parts: seq<string>, total: nat): (ids: set<int>)
    ensures forall id :: id in ids ==> 1 <= id <= total
    decreases |parts|
  {
    if parts == [] then {}
    else Chosen(parts[..|parts| - 1], total) + PartIds(parts[|parts| - 1], total)
  }

  predicate StrictlyIncreasing(s: seq<int>) {
    forall i, j :: 0 <= i < j < |s| ==> s[i] < s[j]
  }

  /** `list(range(1, total + 1))`: every question. */
  function AllIds(total: nat): (r: seq<int>)
    ensures |r| == total
    ensures forall i :: 0 <= i < total ==> r[i] == i + 1
  {
    seq(total, i requires 0 <= i < total => i + 1)
  }

  /** `sorted(ids)` for a set of IDs that all lie in `lo..hi`: the members in increasing
      order. */
  function Ascending(ids: set<int>, lo: int, hi: int): (r: seq<int>)
    ensures StrictlyIncreasing(r)
    ensures forall i :: 0 <= i < |r| ==> lo <= r[i] <= hi
    ensures forall x :: x in r <==> x in ids && lo <= x <= hi
    decreases hi - lo
  {
    if lo > hi then [] else (if lo in ids then [lo] else []) + Ascending(ids, lo + 1, hi)
  }

  /** What `parse_question_selection` returns for the typed text `selection`. */
  function Selection(selection: string, total: nat): seq<int> {
    var sel := Strip(selection);
    if sel == [] then AllIds(total)
    else
      var ids := Chosen(Split(sel, ','), total);
      if ids == {} then AllIds(total) else Ascending(ids, 1, total)
  }

  /** The parser itself: a loop over the comma-separated parts that grows a set of IDs, then
      sorts it; with nothing typed, or nothing valid typed, every question is selected. */
  method ParseQuestionSelection(selection: string, total: nat) returns (ids: seq<int>)
    ensures ids == Selection(selection, total)
  {
    var sel := Strip(selection);
    if sel == [] {
      return AllIds(total);
    }
    var selected := CollectParts(Split(sel, ','), total);
    if selected == {} {
      return AllIds(total);
    }
    ids := Ascending(selected, 1, total);
  }

  /** The parser's loop (app.py:56-78): starting from the empty set, each part in turn adds
      its IDs. */
  method CollectParts(parts: seq<string>, total: nat) returns (selected: set<int>)
    ensures selected == Chosen(parts, total)
  {
    selected := {};
    for i := 0 to |parts|
      invariant selected == Chosen(parts[..i], total)
    {
      selected := AddPart(selected, parts[i], total);
      assert parts[..i + 1][..i] == parts[..i];
    }
    assert parts[..|parts|] == parts;
  }

  /** One turn of the parser's loop (app.py:57-78): the IDs of one part join the set. */
  method AddPart(selected: set<int>, rawPart: string, total: nat) returns (grown: set<int>)
    ensures grown == selected + PartIds(rawPart, total)
  {
    var part := Strip(rawPart);
    var added: set<int> := {};
    if '-' in part {
      assert PartIds(rawPart, total) == RangeIds(part, total);
      var ends := Split(part, '-');
      if |ends| == 2 {
        var start := ParseInt(ends[0]);
        var end := ParseInt(ends[1]);
        if start.Some? && end.Some? && 1 <= start.value <= end.value <= total {
          added := Range(start.value, end.value);
        }
      }
      assert added == RangeIds(part, total);
    } else {
      assert PartIds(rawPart, total) == SingleIds(part, total);
      var qid := ParseInt(part);
      if qid.Some? && 1 <= qid.value <= total {
        added := {qid.value};
      }
      assert added == SingleIds(part, total);
    }
    grown := selected + added;
  }

  /** Two dash-free texts joined by one dash split back into the two. */
  lemma SplitDash(x: string, y: string)
    requires '-' !in x && '-' !in y
    ensures Split(x + "-" + y, '-') == [x, y]
  {
    assert Join([x, y], ['-']) == x + "-" + y;
    SplitJoin([x, y], '-');
  }

  /** A decimal rendering has no dash and no surrounding whitespace. */
  lemma DecimalPlain(n: nat)
    ensures '-' !in Decimal(n)
    ensures !IsSpace(Decimal(n)[0]) && !IsSpace(Decimal(n)[|Decimal(n)| - 1])
  {
    DecimalDigits(n);
    var d := Decimal(n);
    assert forall k :: 0 <= k < |d| ==> d[k] != '-';
  }

  /** The selection is always sorted, without duplicates, and within `1..total`. Blank
      input, or input in which no part names a valid question, selects every question;
      otherwise exactly the IDs the parts name are selected. */
  lemma SelectionMeaning(selection: string, total: nat)
    ensures StrictlyIncreasing(Selection(selection, total))
    ensures forall i :: 0 <= i < |Selection(selection, total)| ==>
      1 <= Selection(selection, total)[i] <= total
    ensures Strip(selection) == [] ==> Selection(selection, total) == AllIds(total)
    ensures Strip(selection) != [] ==>
      var chosen := Chosen(Split(Strip(selection), ','), total);
      (chosen == {} ==> Selection(selection, total) == AllIds(total)) &&
      (chosen != {} ==> forall id :: id in Selection(selection, total) <==> id in chosen)
  {
  }

  /** A text without the separator splits into itself alone. */
  lemma SplitNone(s: string, sep: char)
    requires sep !in s
    ensures Split(s, sep) == [s]
  {
    JoinSplit(s, sep);
  }

  /** Typing `a-b` with `1 <= a <= b <= total` selects exactly `a, a+1, ..., b`. */
  lemma SelectionRange(a: nat, b: nat, total: nat)
    requires 1 <= a <= b <= total
    ensures Selection(Decimal(a) + "-" + Decimal(b), total) == seq(b - a + 1, i => a + i)
  {
    var p := Decimal(a) + "-" + Decimal(b);
    assert PartIds(p, total) == Range(a, b) != {} by {
      RangePart(a, b, total);
      assert a in Range(a, b);
    }
    assert Selection(p, total) == Ascending(Range(a, b), 1, total) by {
      DecimalPlain(a);
      DecimalPlain(b);
      DashedPlain(Decimal(a), Decimal(b));
      NoCommaInRange(a, b);
      OnePart(p, total);
    }
    AscendingRange(a, b, total);
  }

  /** A decimal range `a-b` holds no comma. */
  lemma NoCommaInRange(a: nat, b: nat)
    ensures ',' !in Decimal(a) + "-" + Decimal(b)
  {
    DecimalDigits(a);
    DecimalDigits(b);
    var p := Decimal(a) + "-" + Decimal(b);
    assert forall k :: 0 <= k < |p| ==> IsDigit(p[k]) || p[k] == '-';
  }

  /** Text without a comma is a single part. */
  lemma OnePart(p: string, total: nat)
    requires p != [] && Strip(p) == p && ',' !in p
    ensures Selection(p, total) ==
      if PartIds(p, total) == {} then AllIds(total) else Ascending(PartIds(p, total), 1, total)
  {
    SplitNone(p, ',');
    assert Chosen([p], total) == PartIds(p, total);
  }

  /** Sorting the IDs `a..b` lists them in order. */
  lemma AscendingRange(a: int, b: int, total: nat)
    requires 1 <= a <= b <= total
    ensures Ascending(Range(a, b), 1, total) == seq(b - a + 1, i => a + i)
  {
    var want := seq(b - a + 1, i => a + i);
    forall x ensures x in want <==> x in Ascending(Range(a, b), 1, total) {
      if a <= x <= b {
        assert want[x - a] == x;
      }
    }
    IncreasingUnique(Ascending(Range(a, b), 1, total), want);
  }

  /** A part `a-b` written in decimal adds exactly `a..b` when `1 <= a <= b <= total`, and
      nothing otherwise. */
  lemma RangePart(a: nat, b: nat, total: nat)
    ensures PartIds(Decimal(a) + "-" + Decimal(b), total) ==
            if 1 <= a <= b <= total then Range(a, b) else {}
  {
    var da, db := Decimal(a), Decimal(b);
    DecimalPlain(a);
    DecimalPlain(b);
    DashedPlain(da, db);
    SplitDash(da, db);
    ParseDecimal(a);
    ParseDecimal(b);
    DashedPart(da + "-" + db, da, db, total);
  }

  /** Two texts without surrounding whitespace joined by a dash have none either. */
  lemma DashedPlain(x: string, y: string)
    requires x != [] && y != []
    requires !IsSpace(x[0]) && !IsSpace(y[|y| - 1])
    ensures Strip(x + "-" + y) == x + "-" + y && '-' in x + "-" + y
  {
    var p := x + "-" + y;
    assert p[|x|] == '-' && p[0] == x[0] && p[|p| - 1] == y[|y| - 1];
    StripUnpadded(p);
  }

  /** A part that is already stripped and splits at its one dash into `x` and `y`. */
  lemma DashedPart(p: string, x: string, y: string, total: nat)
    requires Strip(p) == p && '-' in p && Split(p, '-') == [x, y]
    ensures PartIds(p, total) ==
      var start, end := ParseInt(x), ParseInt(y);
      if start.Some? && end.Some? && 1 <= start.value <= end.value <= total
      then Range(start.value, end.value) else {}
  {
  }

  /** A single decimal number adds itself when it lies in `1..total`, and nothing otherwise. */
  lemma SinglePart(q: nat, total: nat)
    ensures PartIds(Decimal(q), total) == if 1 <= q <= total then {q} else {}
  {
    var d := Decimal(q);
    assert Strip(d) == d && '-' !in d by {
      DecimalPlain(q);
      StripUnpadded(d);
    }
    assert ParseInt(d) == Some(q) by {
      ParseDecimal(q);
    }
  }

  /** `int()` reads a lone decimal digit of any script as its value. */
  lemma ParseOneDigit(c: char)
    requires IsDecimal(c)
    ensures ParseInt([c]) == Some(DigitValue(c))
  {
    DecimalIsPlain(c);
    var p := [c];
    assert p[..0] == [];
    ParseUnsigned(p);
  }

  /** A dashless part that parses as an ID in range adds that ID. */
  lemma NumberPart(p: string, q: int, total: nat)
    requires Strip(p) == p && '-' !in p && ParseInt(p) == Some(q) && 1 <= q <= total
    ensures PartIds(p, total) == {q}
  {
  }

  /** Typing a lone decimal digit of any script selects that question when it exists. */
  lemma OneDigitSelects(c: char, total: nat)
    requires IsDecimal(c) && 1 <= DigitValue(c) <= total
    ensures Selection([c], total) == [DigitValue(c)]
  {
    var p, q := [c], DigitValue(c);
    DecimalIsPlain(c);
    assert Strip(p) == p && '-' !in p && ',' !in p by {
      StripUnpadded(p);
    }
    ParseOneDigit(c);
    NumberPart(p, q, total);
    OnePart(p, total);
    assert Range(q, q) == {q};
    AscendingRange(q, q, total);
  }

  /** The fullwidth three parses as 3, and typing it selects question 3. */
  lemma FullwidthDigit(total: nat)
    requires total >= 3
    ensures ParseInt("\U{FF13}") == Some(3)
    ensures Selection("\U{FF13}", total) == [3]
  {
    FullwidthThree();
    ParseOneDigit('\U{FF13}');
    OneDigitSelects('\U{FF13}', total);
  }

  /** A digit followed by one of the separators U+001C..U+001F is not a number for `int()`,
      although `str.strip()` would remove the separator. */
  lemma SeparatorRejected(c: char, sep: char)
    requires IsDecimal(c) && '\U{1C}' <= sep <= '\U{1F}'
    ensures ParseInt([c, sep]) == None
  {
    DecimalIsPlain(c);
    GapNotDecimal(sep as int, 0);
    var t := [c, sep];
    assert IntStrip(t) == t;
    assert !IsDigitGroups(t) by {
      assert !IsDecimal(t[1]) && t[1] != '_';
    }
  }

  /** So in a range such as `1\x1c-3` the first end raises `ValueError` and the part adds
      nothing: typed alone, it selects every question. */
  lemma SeparatorBeforeDash(c: char, sep: char, e: char, total: nat)
    requires IsDecimal(c) && IsDecimal(e) && '\U{1C}' <= sep <= '\U{1F}'
    ensures Selection([c, sep, '-', e], total) == AllIds(total)
  {
    DecimalIsPlain(c);
    DecimalIsPlain(e);
    var x, y := [c, sep], [e];
    var p := x + "-" + y;
    assert p == [c, sep, '-', e];
    assert Strip(p) == p by {
      StripUnpadded(p);
    }
    assert '-' in p && ',' !in p;
    SplitDash(x, y);
    SeparatorRejected(c, sep);
    DashedPart(p, x, y, total);
    OnePart(p, total);
  }

  /** A part with more than one `-` adds nothing, whatever surrounds the dashes. */
  lemma ManyDashesAddNothing(part: string, total: nat)
    requires CountChar(Strip(part), '-') >= 2
    ensures PartIds(part, total) == {}
  {
  }

  /** Two increasing lists with the same members are the same list. */
  lemma {:induction false} IncreasingUnique(s: seq<int>, t: seq<int>)
    requires StrictlyIncreasing(s) && StrictlyIncreasing(t)
    requires forall x :: x in s <==> x in t
    ensures s == t
    decreases |s|
  {
    assert |s| == 0 || s[0] in s;
    assert |t| == 0 || t[0] in t;
    if s != [] {
      assert s[0] in t && t[0] in s;
      assert s[0] == t[0];
      forall x ensures x in s[1..] <==> x in t[1..] {
        if x in s[1..] {
          assert x in s && x > s[0];
        }
        if x in t[1..] {
          assert x in t && x > t[0];
        }
      }
      IncreasingUnique(s[1..], t[1..]);
      assert s == [s[0]] + s[1..] && t == [t[0]] + t[1..];
    }
  }
}
