/** The Python string operations the pipeline is built from (`str.strip`, `str.rstrip`,
    `str.split`, `str.join`, `str.upper`, `str.count`, `in`), over `seq<char>`. */
module Text {

  /** Python's `str.isspace()`: the controls U+0009..U+000D and U+001C..U+001F, the space,
      and the further Unicode separators Python counts as whitespace. */
  predicate IsSpace(c: char) {
    || c == ' ' || ('\t' <= c <= '\r') || ('\U{1C}' <= c <= '\U{1F}')
    || c == '\U{85}' || c == '\U{A0}' || c == '\U{1680}' || ('\U{2000}' <= c <= '\U{200A}')
    || c == '\U{2028}' || c == '\U{2029}' || c == '\U{202F}' || c == '\U{205F}' || c == '\U{3000}'
  }

  /** An ASCII decimal digit (the `\d` of the model). */
  predicate IsDigit(c: char) {
    '0' <= c <= '9'
  }

  /** An ASCII word character (the `\w` of the model). */
  predicate IsWordChar(c: char) {
    ('a' <= c <= 'z') || ('A' <= c <= 'Z') || IsDigit(c) || c == '_'
  }

  function UpperChar(c: char): (u: char)
    ensures 'a' <= c <= 'z' ==> 'A' <= u <= 'Z'
    ensures !('a' <= c <= 'z') ==> u == c
  {
    if 'a' <= c <= 'z' then (c as int - 32) as char else c
  }

  /** `str.upper()` on ASCII letters. */
  function Upper(s: string): (r: string)
    ensures |r| == |s|
    ensures forall i :: 0 <= i < |s| ==> r[i] == UpperChar(s[i])
  {
    seq(|s|, i requires 0 <= i < |s| => UpperChar(s[i]))
  }

  lemma UpperAppend(a: string, b: string)
    ensures Upper(a + b) == Upper(a) + Upper(b)
  {
  }

  lemma UpperSlice(s: string, i: nat, j: nat)
    requires i <= j <= |s|
    ensures Upper(s[i..j]) == Upper(s)[i..j]
  {
  }

  /** A text without lower-case ASCII letters is its own upper case. */
  lemma UpperId(s: string)
    requires forall k :: 0 <= k < |s| ==> !('a' <= s[k] <= 'z')
    ensures Upper(s) == s
  {
  }

  /** Upper-casing puts a capital letter only where the text has that letter in some case. */
  lemma UpperAvoids(s: string, c: char)
    requires 'A' <= c <= 'Z' && c !in s && (c as int + 32) as char !in s
    ensures c !in Upper(s)
  {
    forall k | 0 <= k < |s|
      ensures Upper(s)[k] != c
    {
      assert s[k] != c && s[k] != (c as int + 32) as char;
    }
  }

  predicate StartsWith(s: string, prefix: string) {
    |prefix| <= |s| && s[..|prefix|] == prefix
  }

  /** The substring test `t in s`. */
  predicate Contains(s: string, t: string)
    decreases |s|
  {
    StartsWith(s, t) || (s != [] && Contains(s[1..], t))
  }

  lemma {:induction false} ContainsAt(s: string, t: string, k: nat)
    requires k <= |s| && StartsWith(s[k..], t)
    ensures Contains(s, t)
    decreases k
  {
    if k > 0 {
      assert s[1..][k - 1..] == s[k..];
      ContainsAt(s[1..], t, k - 1);
    }
  }

  /** Every occurrence is found at some position. */
  lemma {:induction false} ContainsWitness(s: string, t: string) returns (k: nat)
    requires Contains(s, t)
    ensures k <= |s| && StartsWith(s[k..], t)
    decreases |s|
  {
    if StartsWith(s, t) {
      k := 0;
    } else {
      var k' := ContainsWitness(s[1..], t);
      assert s[1..][k'..] == s[k' + 1..];
      k := k' + 1;
    }
  }

  lemma ContainsSuffix(a: string, t: string)
    ensures Contains(a + t, t)
  {
    assert (a + t)[|a|..] == t;
    ContainsAt(a + t, t, |a|);
  }

  lemma ContainsPrefix(a: string, b: string, t: string)
    requires Contains(a, t)
    ensures Contains(a + b, t)
  {
    var k := ContainsWitness(a, t);
    assert (a + b)[k..][..|t|] == a[k..][..|t|];
    ContainsAt(a + b, t, k);
  }

  /** An occurrence in a tail of a text is an occurrence in the text. */
  lemma ContainsTail(s: string, j: nat, t: string)
    requires j <= |s|
    ensures Contains(s[j..], t) ==> Contains(s, t)
  {
    if Contains(s[j..], t) {
      var k := ContainsWitness(s[j..], t);
      assert s[j..][k..] == s[j + k..];
      ContainsAt(s, t, j + k);
    }
  }

  /** An occurrence in the upper-cased tail of a text is an occurrence in the upper-cased
      text. */
  lemma ContainsInTail(s: string, j: nat, t: string)
    requires j <= |s|
    ensures Contains(Upper(s[j..]), t) ==> Contains(Upper(s), t)
  {
    if Contains(Upper(s[j..]), t) {
      var k := ContainsWitness(Upper(s[j..]), t);
      UpperSlice(s, j, |s|);
      assert Upper(s[j..])[k..] == Upper(s)[j + k..];
      ContainsAt(Upper(s), t, j + k);
    }
  }

  /** Upper-cased, a text holds every upper-case literal written inside it. */
  lemma ContainsLiteral(a: string, b: string, c: string, i: nat, kw: string)
    requires i + |kw| <= |b| && b[i..i + |kw|] == kw && Upper(kw) == kw
    ensures Contains(Upper(a + b + c), kw)
  {
    var x := a + b + c;
    assert Upper(x)[|a| + i..][..|kw|] == kw by {
      forall k | 0 <= k < |kw|
        ensures Upper(x)[|a| + i + k] == kw[k]
      {
        assert x[|a| + i + k] == b[i + k] == kw[k];
        assert Upper(kw)[k] == UpperChar(kw[k]);
      }
    }
    ContainsAt(Upper(x), kw, |a| + i);
  }

  /** When `t` starts at none of the positions of `a`, it occurs in `a + b` exactly when it
      occurs in `b`. */
  lemma {:induction false} ContainsAfter(a: string, b: string, t: string)
    requires forall k :: 0 <= k < |a| ==> !StartsWith((a + b)[k..], t)
    ensures Contains(a + b, t) == Contains(b, t)
    decreases |a|
  {
    if a == [] {
      assert a + b == b;
    } else {
      assert (a + b)[0..] == a + b;
      assert (a + b)[1..] == a[1..] + b;
      forall k | 0 <= k < |a[1..]|
        ensures !StartsWith((a[1..] + b)[k..], t)
      {
        assert (a[1..] + b)[k..] == (a + b)[k + 1..];
      }
      ContainsAfter(a[1..], b, t);
    }
  }

  /** A text missing one of the characters of `t` does not contain `t`. */
  lemma {:induction false} MissingCharNotContained(s: string, t: string, c: char)
    requires c in t && c !in s
    ensures !Contains(s, t)
    decreases |s|
  {
    var i :| 0 <= i < |t| && t[i] == c;
    assert |t| <= |s| ==> s[..|t|][i] != t[i];
    if s != [] {
      MissingCharNotContained(s[1..], t, c);
    }
  }

  /** Strips leading whitespace (`str.lstrip()`). */
  function TrimStart(s: string): (r: string)
    ensures |r| <= |s| && r == s[|s| - |r|..]
    ensures forall k :: 0 <= k < |s| - |r| ==> IsSpace(s[k])
    ensures r != [] ==> !IsSpace(r[0])
    decreases |s|
  {
    if s != [] && IsSpace(s[0]) then TrimStart(s[1..]) else s
  }

  /** Strips trailing whitespace (`str.rstrip()`). */
  function TrimEnd(s: string): (r: string)
    ensures |r| <= |s| && r == s[..|r|]
    ensures forall k :: |r| <= k < |s| ==> IsSpace(s[k])
    ensures r != [] ==> !IsSpace(r[|r| - 1])
    decreases |s|
  {
    if s != [] && IsSpace(s[|s| - 1]) then TrimEnd(s[..|s| - 1]) else s
  }

  /** `str.strip()`: the text between the first and the last non-whitespace character. */
  function Strip(s: string): (r: string)
    ensures |r| <= |s|
    ensures r != [] ==> !IsSpace(r[0]) && !IsSpace(r[|r| - 1])
    ensures forall c :: c in r ==> c in s
    ensures Kept(NotSpace, r) == Kept(NotSpace, s)
  {
    var t := TrimStart(s);
    StripKeepsContent(s);
    TrimEnd(t)
  }

  predicate NotSpace(c: char) {
    !IsSpace(c)
  }

  /** The characters of `s` that `keep` selects, in order. */
  function Kept(keep: char -> bool, s: string): string
    decreases |s|
  {
    if s == [] then [] else (if keep(s[0]) then [s[0]] else []) + Kept(keep, s[1..])
  }

  lemma {:induction false} KeptAppend(keep: char -> bool, a: string, b: string)
    ensures Kept(keep, a + b) == Kept(keep, a) + Kept(keep, b)
    decreases |a|
  {
    if a == [] {
      assert a + b == b;
    } else {
      var head := if keep(a[0]) then [a[0]] else [];
      assert Kept(keep, a + b) == head + Kept(keep, a[1..] + b) by {
        assert (a + b)[0] == a[0];
        assert (a + b)[1..] == a[1..] + b;
      }
      KeptAppend(keep, a[1..], b);
      assert Kept(keep, a) == head + Kept(keep, a[1..]);
    }
  }

  lemma {:induction false} KeptNone(keep: char -> bool, s: string)
    requires forall k :: 0 <= k < |s| ==> !keep(s[k])
    ensures Kept(keep, s) == []
    decreases |s|
  {
    if s != [] {
      KeptNone(keep, s[1..]);
    }
  }

  /** A selected character is in the selection exactly when it is in the text. */
  lemma {:induction false} KeptIn(keep: char -> bool, s: string, c: char)
    requires keep(c)
    ensures c in Kept(keep, s) <==> c in s
    decreases |s|
  {
    if s != [] {
      KeptIn(keep, s[1..], c);
      assert s == [s[0]] + s[1..];
    }
  }

  /** Selecting with a finer test after a coarser one is selecting with the finer one. */
  lemma {:induction false} KeptFiner(fine: char -> bool, coarse: char -> bool, s: string)
    requires forall c :: fine(c) ==> coarse(c)
    ensures Kept(fine, Kept(coarse, s)) == Kept(fine, s)
    decreases |s|
  {
    if s != [] {
      KeptFiner(fine, coarse, s[1..]);
      var head := if coarse(s[0]) then [s[0]] else [];
      KeptAppend(fine, head, Kept(coarse, s[1..]));
    }
  }

  /** Stripping only removes whitespace. */
  lemma StripKeepsContent(s: string)
    ensures Kept(NotSpace, TrimEnd(TrimStart(s))) == Kept(NotSpace, s)
  {
    TrimStartKeepsContent(s);
    TrimEndKeepsContent(TrimStart(s));
  }

  lemma {:induction false} TrimStartKeepsContent(s: string)
    ensures Kept(NotSpace, TrimStart(s)) == Kept(NotSpace, s)
    decreases |s|
  {
    if s != [] && IsSpace(s[0]) {
      TrimStartKeepsContent(s[1..]);
    }
  }

  lemma {:induction false} TrimEndKeepsContent(s: string)
    ensures Kept(NotSpace, TrimEnd(s)) == Kept(NotSpace, s)
    decreases |s|
  {
    if s != [] && IsSpace(s[|s| - 1]) {
      var init := s[..|s| - 1];
      TrimEndKeepsContent(init);
      assert s == init + [s[|s| - 1]];
      KeptAppend(NotSpace, init, [s[|s| - 1]]);
      assert Kept(NotSpace, [s[|s| - 1]]) == [];
    }
  }

  /** The stripped text is one slice of the text, and only whitespace lies outside it. */
  lemma StripIsSlice(s: string) returns (i: nat)
    ensures i + |Strip(s)| <= |s| && Strip(s) == s[i..i + |Strip(s)|]
    ensures forall k :: 0 <= k < i ==> IsSpace(s[k])
    ensures forall k :: i + |Strip(s)| <= k < |s| ==> IsSpace(s[k])
  {
    var t := TrimStart(s);
    i := |s| - |t|;
    TrimmedEnd(s, i, t, TrimEnd(t));
  }

  /** Trimming the end of the suffix `t` of `s` keeps a slice of `s` and drops
      whitespace. */
  lemma TrimmedEnd(s: string, i: nat, t: string, r: string)
    requires i <= |s| && t == s[i..]
    requires |r| <= |t| && r == t[..|r|] && forall k :: |r| <= k < |t| ==> IsSpace(t[k])
    ensures r == s[i..i + |r|]
    ensures forall k :: i + |r| <= k < |s| ==> IsSpace(s[k])
  {
    forall k | i + |r| <= k < |s|
      ensures IsSpace(s[k])
    {
      assert s[k] == t[k - i];
    }
  }

  /** A text with no whitespace at either end is its own strip. */
  lemma StripUnpadded(s: string)
    requires s != [] ==> !IsSpace(s[0]) && !IsSpace(s[|s| - 1])
    ensures Strip(s) == s
  {
  }

  /** `str.rstrip(c)`: drops every trailing `c`. */
  function TrimEndChar(s: string, c: char): (r: string)
    ensures |r| <= |s| && r == s[..|r|]
    ensures forall k :: |r| <= k < |s| ==> s[k] == c
    ensures r == [] || r[|r| - 1] != c
    decreases |s|
  {
    if s != [] && s[|s| - 1] == c then TrimEndChar(s[..|s| - 1], c) else s
  }

  /** Number of occurrences of the character `c`. */
  function CountChar(s: string, c: char): (n: nat)
    ensures n <= |s|
    ensures n == 0 <==> c !in s
    decreases |s|
  {
    if s == [] then 0 else (if s[0] == c then 1 else 0) + CountChar(s[1..], c)
  }

  /** `str.split(sep)` with a one-character separator: the pieces between separators,
      empty ones included. */
  function Split(s: string, sep: char): (parts: seq<string>)
    ensures |parts| == CountChar(s, sep) + 1
    ensures forall i :: 0 <= i < |parts| ==> sep !in parts[i]
    decreases |s|
  {
    if s == [] then [[]]
    else
      var rest := Split(s[1..], sep);
      if s[0] == sep then [[]] + rest else [[s[0]] + rest[0]] + rest[1..]
  }

  /** `sep.join(parts)`. */
  function Join(parts: seq<string>, sep: string): string
    decreases |parts|
  {
    if parts == [] then []
    else if |parts| == 1 then parts[0]
    else parts[0] + sep + Join(parts[1..], sep)
  }

  lemma {:induction false} JoinSnoc(parts: seq<string>, x: string, sep: string)
    requires parts != []
    ensures Join(parts + [x], sep) == Join(parts, sep) + sep + x
    decreases |parts|
  {
    if |parts| > 1 {
      assert (parts + [x])[1..] == parts[1..] + [x];
      JoinSnoc(parts[1..], x, sep);
    }
  }

  /** Joining the pieces with the separator gives back the text. */
  lemma {:induction false} JoinSplit(s: string, sep: char)
    ensures Join(Split(s, sep), [sep]) == s
    decreases |s|
  {
    if s != [] {
      var rest := Split(s[1..], sep);
      JoinSplit(s[1..], sep);
      if s[0] != sep {
        if |rest| > 1 {
          assert ([[s[0]] + rest[0]] + rest[1..])[1..] == rest[1..];
        }
      }
    }
  }

  lemma {:induction false} SplitPrefix(x: string, y: string, sep: char)
    requires sep !in x
    ensures Split(x + y, sep) == [x + Split(y, sep)[0]] + Split(y, sep)[1..]
    decreases |x|
  {
    var r := Split(y, sep);
    if x == [] {
      assert x + y == y;
      assert [] + r[0] == r[0];
      assert [r[0]] + r[1..] == r;
    } else {
      assert (x + y)[0] == x[0];
      assert (x + y)[1..] == x[1..] + y;
      SplitPrefix(x[1..], y, sep);
      assert [x[0]] + (x[1..] + r[0]) == x + r[0];
    }
  }

  /** Splitting a join gives back the pieces when none of them holds the separator. */
  lemma {:induction false} SplitJoin(parts: seq<string>, sep: char)
    requires parts != []
    requires forall i :: 0 <= i < |parts| ==> sep !in parts[i]
    ensures Split(Join(parts, [sep]), sep) == parts
    decreases |parts|
  {
    if |parts| == 1 {
      SplitPrefix(parts[0], [], sep);
      assert parts[0] + [] == parts[0];
    } else {
      var tail := Join(parts[1..], [sep]);
      SplitJoin(parts[1..], sep);
      assert Join(parts, [sep]) == parts[0] + ([sep] + tail);
      SplitPrefix(parts[0], [sep] + tail, sep);
      assert ([sep] + tail)[0] == sep;
      assert ([sep] + tail)[1..] == tail;
      assert Split([sep] + tail, sep) == [[]] + parts[1..];
      assert parts[0] + [] == parts[0];
    }
  }

  /** Number of non-overlapping occurrences of the two characters `\"`, counted left to right
      as `str.count` does. */
  function CountEscapedQuotes(s: string): (n: nat)
    ensures n <= CountChar(s, '"')
    decreases |s|
  {
    if |s| < 2 then 0
    else if s[0] == '\\' && s[1] == '"' then 1 + CountEscapedQuotes(s[2..])
    else CountEscapedQuotes(s[1..])
  }
}
