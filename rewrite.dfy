/** Python's `re.sub`, `str.replace` and `re.search` for the fixed patterns of the pipeline.
    None of those patterns looks behind its starting point, so each is modelled as a matcher
    anchored at the start of the text it is given; trying it on every suffix of a text is
    trying it at every position. */
module Rewrite {
  import opened Wrappers
  import opened Text

  /** A match at the very start of a text: how many characters it spans, and what takes
      their place. */
  datatype Hit = Hit(len: nat, repl: string)

  /** A fixed pattern, tried at the start of the text it is given. */
  type Matcher = string -> Option<Hit>

  /** The pattern matches a non-empty prefix of `s`. */
  predicate Fires(m: Matcher, s: string) {
    m(s).Some? && 1 <= m(s).value.len <= |s|
  }

  /** The pattern matches at none of the first `n` positions of `s`. */
  predicate NoFireBefore(m: Matcher, s: string, n: nat) {
    forall j {:trigger Fires(m, s[j..])} :: 0 <= j < n && j <= |s| ==> !Fires(m, s[j..])
  }

  /** `re.sub(pattern, repl, s)` and `s.replace(old, new)`: scanning left to right, every
      match is replaced and the scan goes on after it; every other character is kept. */
  function SubAll(m: Matcher, s: string): string
    decreases |s|
  {
    if s == [] then []
    else if Fires(m, s) then m(s).value.repl + SubAll(m, s[m(s).value.len..])
    else [s[0]] + SubAll(m, s[1..])
  }

  /** The leftmost position at which the pattern matches. */
  function FirstFire(m: Matcher, s: string): (r: Option<nat>)
    ensures r.Some? ==> r.value < |s| && Fires(m, s[r.value..]) && NoFireBefore(m, s, r.value)
    ensures r.None? ==> NoFireBefore(m, s, |s|)
    decreases |s|
  {
    if s == [] then None
    else if Fires(m, s) then Some(0)
    else
      var r := FirstFire(m, s[1..]);
      assert forall j :: 1 <= j <= |s| ==> s[j..] == s[1..][j - 1..];
      if r.None? then None else Some(r.value + 1)
  }

  /** `re.search(pattern, s)`: the leftmost position, the end of the text included, at which
      a pattern matches, for a pattern that reports its groups rather than a replacement. */
  function SearchAt<G>(m: string -> Option<G>, s: string): (r: Option<nat>)
    ensures r.Some? ==> r.value <= |s| && m(s[r.value..]).Some?
    ensures r.Some? ==> forall j :: 0 <= j < r.value ==> m(s[j..]).None?
    ensures r.None? ==> forall j :: 0 <= j <= |s| ==> m(s[j..]).None?
    decreases |s|
  {
    if m(s).Some? then Some(0)
    else if s == [] then None
    else
      var r := SearchAt(m, s[1..]);
      assert forall j :: 1 <= j <= |s| ==> s[j..] == s[1..][j - 1..];
      if r.None? then None else Some(r.value + 1)
  }

  /** The search reports the position it is given when the pattern matches there and at no
      earlier position. */
  lemma {:induction false} SearchAtIs<G>(m: string -> Option<G>, s: string, k: nat)
    requires k <= |s| && m(s[k..]).Some?
    requires forall j :: 0 <= j < k ==> m(s[j..]).None?
    ensures SearchAt(m, s) == Some(k)
    decreases k
  {
    if k == 0 {
      assert s[0..] == s;
    } else {
      assert s[0..] == s;
      assert forall j :: 1 <= j <= |s| ==> s[j..] == s[1..][j - 1..];
      SearchAtIs(m, s[1..], k - 1);
    }
  }

  /** The groups of the leftmost match, as `re.search(...).group(...)` reports them. */
  function Search<G>(m: string -> Option<G>, s: string): Option<G> {
    match SearchAt(m, s)
    case None => None
    case Some(k) => m(s[k..])
  }

  /** The textbook reading of `re.sub`: find the leftmost match, keep what precedes it, put
      the replacement in its place and carry on with what follows it. */
  function SubLeftmost(m: Matcher, s: string): string
    decreases |s|, 1
  {
    SubAt(m, s, FirstFire(m, s))
  }

  /** The leftmost reading once the leftmost match `f` is known. */
  function SubAt(m: Matcher, s: string, f: Option<nat>): string
    requires f.Some? ==> f.value < |s| && Fires(m, s[f.value..])
    decreases |s|, 0
  {
    match f
    case None => s
    case Some(k) => s[..k] + m(s[k..]).value.repl + SubLeftmost(m, s[k + m(s[k..]).value.len..])
  }


  /** Text in front of the first match is copied unchanged. */
  lemma {:induction false} SubAllKeepsPrefix(m: Matcher, s: string, n: nat)
    requires n <= |s| && NoFireBefore(m, s, n)
    ensures SubAll(m, s) == s[..n] + SubAll(m, s[n..])
    decreases n
  {
    if n > 0 {
      var t := s[1..];
      SubAllKeepsFirst(m, s, n);
      SubAllKeepsPrefix(m, t, n - 1);
      calc {
        SubAll(m, s);
      ==
        [s[0]] + SubAll(m, t);
      ==
        [s[0]] + (t[..n - 1] + SubAll(m, t[n - 1..]));
      == { assert t[n - 1..] == s[n..]; }
        ([s[0]] + t[..n - 1]) + SubAll(m, s[n..]);
      == { assert [s[0]] + t[..n - 1] == s[..n]; }
        s[..n] + SubAll(m, s[n..]);
      }
    }
  }

  /** Where the pattern does not match, the first character is kept and the scan goes on. */
  lemma SubAllKeepsFirst(m: Matcher, s: string, n: nat)
    requires 0 < n <= |s| && NoFireBefore(m, s, n)
    ensures SubAll(m, s) == [s[0]] + SubAll(m, s[1..])
    ensures NoFireBefore(m, s[1..], n - 1)
  {
    assert s[0..] == s;
    forall j | 0 <= j < n - 1 && j <= |s[1..]|
      ensures !Fires(m, s[1..][j..])
    {
      assert s[1..][j..] == s[j + 1..];
    }
  }


  /** The scanner and the textbook reading agree on every text. */
  lemma {:induction false} SubAllIsLeftmost(m: Matcher, s: string)
    ensures SubAll(m, s) == SubLeftmost(m, s)
    decreases |s|
  {
    match FirstFire(m, s)
    case None =>
      SubAllKeepsPrefix(m, s, |s|);
      assert s[..|s|] == s;
    case Some(k) =>
      var rest := s[k + m(s[k..]).value.len..];
      SubAllIsLeftmost(m, rest);
      SubAllFirstFire(m, s, k);
  }

  /** Both readings replace the leftmost match and go on after it. */
  lemma SubAllFirstFire(m: Matcher, s: string, k: nat)
    requires FirstFire(m, s) == Some(k)
    requires var rest := s[k + m(s[k..]).value.len..]; SubAll(m, rest) == SubLeftmost(m, rest)
    ensures SubAll(m, s) == SubLeftmost(m, s)
  {
    var t := s[k..];
    var h := m(t).value;
    var rest := s[k + h.len..];
    SubAllKeepsPrefix(m, s, k);
    SubAllFires(m, t);
    assert t[h.len..] == rest;
    SubLeftmostAt(m, s, k);
    assert SubAll(m, s) == s[..k] + (h.repl + SubAll(m, rest));
  }

  lemma SubAllFires(m: Matcher, t: string)
    requires Fires(m, t)
    ensures SubAll(m, t) == m(t).value.repl + SubAll(m, t[m(t).value.len..])
  {
  }

  lemma SubLeftmostAt(m: Matcher, s: string, k: nat)
    requires FirstFire(m, s) == Some(k)
    ensures SubLeftmost(m, s) == s[..k] + m(s[k..]).value.repl + SubLeftmost(m, s[k + m(s[k..]).value.len..])
  {
  }

  /** A text the pattern never matches is left as it is. */
  lemma SubAllNoMatch(m: Matcher, s: string)
    requires NoFireBefore(m, s, |s|)
    ensures SubAll(m, s) == s
  {
    SubAllKeepsPrefix(m, s, |s|);
    assert s[..|s|] == s;
  }

  /** No replacement of the pattern ends with `c`. */
  ghost predicate ReplAvoidsLast(m: Matcher, c: char) {
    forall t :: m(t).Some? ==> m(t).value.repl != [] && m(t).value.repl[|m(t).value.repl| - 1] != c
  }

  /** If neither the text nor any replacement ends with `c`, neither does the result. */
  lemma {:induction false} SubAllLastChar(m: Matcher, s: string, c: char)
    requires ReplAvoidsLast(m, c)
    requires s == [] || s[|s| - 1] != c
    ensures var r := SubAll(m, s); r == [] || r[|r| - 1] != c
    decreases |s|
  {
    if s != [] {
      if Fires(m, s) {
        var h := m(s).value;
        var rest := s[h.len..];
        assert rest == [] || rest[|rest| - 1] == s[|s| - 1];
        SubAllLastChar(m, rest, c);
      } else {
        var rest := s[1..];
        assert rest == [] || rest[|rest| - 1] == s[|s| - 1];
        SubAllLastChar(m, rest, c);
      }
    }
  }

  /** Every replacement keeps the `keep` characters of the text it replaces. */
  ghost predicate ReplKeeps(m: Matcher, keep: char -> bool) {
    forall t :: Fires(m, t) ==> Kept(keep, m(t).value.repl) == Kept(keep, t[..m(t).value.len])
  }

  /** Then the whole rewrite changes only characters outside `keep`. */
  lemma {:induction false} SubAllKeeps(m: Matcher, keep: char -> bool, s: string)
    requires ReplKeeps(m, keep)
    ensures Kept(keep, SubAll(m, s)) == Kept(keep, s)
    decreases |s|
  {
    if s != [] {
      if Fires(m, s) {
        var h := m(s).value;
        SubAllKeeps(m, keep, s[h.len..]);
        KeptAppend(keep, h.repl, SubAll(m, s[h.len..]));
        assert s == s[..h.len] + s[h.len..];
        KeptAppend(keep, s[..h.len], s[h.len..]);
      } else {
        SubAllKeeps(m, keep, s[1..]);
        KeptAppend(keep, [s[0]], SubAll(m, s[1..]));
        assert s == [s[0]] + s[1..];
        KeptAppend(keep, [s[0]], s[1..]);
      }
    }
  }

  /** Every match of the pattern holds the keyword `kw`, up to case. */
  ghost predicate NeedsKeyword(m: Matcher, kw: string) {
    forall t :: Fires(m, t) ==> Contains(Upper(t), kw)
  }

  /** A text without the keyword is left as it is. */
  lemma KeywordFree(m: Matcher, kw: string, s: string)
    requires NeedsKeyword(m, kw)
    requires !Contains(Upper(s), kw)
    ensures SubAll(m, s) == s
  {
    forall j | 0 <= j <= |s|
      ensures !Fires(m, s[j..])
    {
      ContainsInTail(s, j, kw);
    }
    SubAllNoMatch(m, s);
  }
}
