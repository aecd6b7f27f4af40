/** The fragment of Python's `re` that the pipeline's patterns use: literals compared under
    `re.IGNORECASE`, greedy runs `\s*`, `\s+`, `\d+`, `\w+` with backtracking, capturing
    groups around runs, and replacement templates with `\1`-style group references. */
module Regex {
  import opened Wrappers
  import opened Text
  import opened Rewrite

  /** The character classes `\s`, `\d` and `\w`. */
  datatype Class = Space | Digit | Word

  predicate InClass(cls: Class, c: char) {
    match cls
    case Space => IsSpace(c)
    case Digit => IsDigit(c)
    case Word => IsWordChar(c)
  }

  /** Length of the longest prefix of `s` in the class: how far a greedy run can reach. */
  function RunLength(cls: Class, s: string): (n: nat)
    ensures n <= |s|
    decreases |s|
  {
    if s != [] && InClass(cls, s[0]) then 1 + RunLength(cls, s[1..]) else 0
  }

  /** The prefix a run can reach is all in the class, and the character after it is not. */
  lemma {:induction false} RunLengthSpans(cls: Class, s: string)
    ensures forall k :: 0 <= k < RunLength(cls, s) ==> InClass(cls, s[k])
    ensures RunLength(cls, s) < |s| ==> !InClass(cls, s[RunLength(cls, s)])
    decreases |s|
  {
    if s != [] && InClass(cls, s[0]) {
      RunLengthSpans(cls, s[1..]);
      forall k | 1 <= k < RunLength(cls, s)
        ensures InClass(cls, s[k])
      {
        assert s[k] == s[1..][k - 1];
      }
    }
  }

  /** A run of the class followed by a character outside it reaches exactly to its end. */
  lemma {:induction false} RunLengthOf(cls: Class, x: string, y: string)
    requires forall k :: 0 <= k < |x| ==> InClass(cls, x[k])
    requires y != [] ==> !InClass(cls, y[0])
    ensures RunLength(cls, x + y) == |x|
    decreases |x|
  {
    if x == [] {
      assert x + y == y;
    } else {
      assert (x + y)[0] == x[0];
      assert (x + y)[1..] == x[1..] + y;
      RunLengthOf(cls, x[1..], y);
    }
  }

  /** One element of a pattern: a literal, or a greedy run of at least `min` characters of
      a class, which is a capturing group when `capture` is set. */
  datatype Token = Lit(text: string) | Run(cls: Class, min: nat, capture: bool)

  /** Where a group lies, counted from the end of the text: it starts `startBack` and ends
      `endBack` characters before the end. Counted this way a position does not change as
      the matcher moves along the text. */
  datatype Group = Group(startBack: nat, endBack: nat)

  /** A match at the start of a text: its length and its groups, in order. */
  datatype Match = Match(len: nat, groups: seq<Group>)

  /** Number of capturing groups of a pattern. */
  function Captures(p: seq<Token>): nat
    decreases |p|
  {
    if p == [] then 0
    else (if p[0].Run? && p[0].capture then 1 else 0) + Captures(p[1..])
  }

  /** The match of `p` at the start of `u` that the backtracking engine reports first, each
      run taking as many characters as still lets the rest of the pattern match. Literals
      are compared exactly: `re.IGNORECASE` is obtained by matching upper-case literals
      against the upper-cased text (see `RuleAt`). */
  function Interp(p: seq<Token>, u: string): (r: Option<Match>)
    ensures r.Some? ==> r.value.len <= |u| && |r.value.groups| == Captures(p)
    decreases |p|, 1, 0
  {
    if p == [] then Some(Match(0, [])) else Step(p[0], p[1..], u)
  }

  /** The match of the token `t` followed by the pattern `rest` at the start of `u`. */
  function Step(t: Token, rest: seq<Token>, u: string): (r: Option<Match>)
    ensures r.Some? ==> r.value.len <= |u| && |r.value.groups| == Captures([t] + rest)
    decreases |rest| + 1, 0, 0
  {
    assert ([t] + rest)[0] == t && ([t] + rest)[1..] == rest;
    match t
    case Lit(kw) =>
      if !StartsWith(u, kw) then None
      else (match Interp(rest, u[|kw|..])
        case None => None
        case Some(m) => Some(Match(|kw| + m.len, m.groups)))
    case Run(cls, min, capture) =>
      var g := Greedy(rest, min, u, RunLength(cls, u));
      if g.None? then None
      else
        var n := g.value.0;
        Some(Match(n + g.value.1.len, Captured(capture, Group(|u|, |u| - n), g.value.1.groups)))
  }

  /** The groups of a match of a run followed by those of the rest of the pattern. */
  function Captured(capture: bool, g: Group, groups: seq<Group>): (r: seq<Group>)
    ensures |r| == |groups| + (if capture then 1 else 0)
  {
    if capture then [g] + groups else groups
  }

  /** The backtracking of a greedy run of at least `min` characters followed by `rest` when
      at most `n` characters of its class are available: counts are tried from `n` down to
      `min`, and the first after which `rest` matches is taken, with that match of `rest`. */
  function Greedy(rest: seq<Token>, min: nat, u: string, n: nat): (r: Option<(nat, Match)>)
    requires n <= |u|
    ensures r.Some? ==> min <= r.value.0 <= n && r.value.1.len <= |u| - r.value.0
    ensures r.Some? ==> |r.value.1.groups| == Captures(rest)
    decreases |rest|, 2, n
  {
    if n < min then None
    else match Interp(rest, u[n..])
      case Some(m) => Some((n, m))
      case None => if n == 0 then None else Greedy(rest, min, u, n - 1)
  }

  /** The count the run takes is one after which the rest of the pattern matches. */
  lemma {:induction false} GreedyRest(rest: seq<Token>, min: nat, u: string, n: nat)
    requires n <= |u| && Greedy(rest, min, u, n).Some?
    ensures Interp(rest, u[Greedy(rest, min, u, n).value.0..]) == Some(Greedy(rest, min, u, n).value.1)
    decreases n
  {
    if Interp(rest, u[n..]).None? {
      GreedyRest(rest, min, u, n - 1);
    }
  }

  /** It is the largest such count. */
  lemma {:induction false} GreedyLongest(rest: seq<Token>, min: nat, u: string, n: nat)
    requires n <= |u| && Greedy(rest, min, u, n).Some?
    ensures forall k :: Greedy(rest, min, u, n).value.0 < k <= n ==> Interp(rest, u[k..]).None?
    decreases n
  {
    if Interp(rest, u[n..]).None? {
      GreedyLongest(rest, min, u, n - 1);
    }
  }

  /** No count is found only when no count from `min` up to `n` lets the rest match. */
  lemma {:induction false} GreedyFails(rest: seq<Token>, min: nat, u: string, n: nat)
    requires n <= |u| && Greedy(rest, min, u, n).None?
    ensures forall k :: min <= k <= n ==> Interp(rest, u[k..]).None?
    decreases n
  {
    if min <= n && n > 0 {
      GreedyFails(rest, min, u, n - 1);
    }
  }

  /** Where a pattern matches, so does every prefix of it: what follows can only make the
      pattern harder to match. */
  lemma {:induction false} InterpPrefix(p: seq<Token>, q: seq<Token>, u: string)
    requires Interp(p + q, u).Some?
    ensures Interp(p, u).Some?
    decreases |p|
  {
    if p != [] {
      var t, rest := p[0], p[1..];
      assert p == [t] + rest && p + q == [t] + (rest + q);
      InterpCons(t, rest + q, u);
      InterpCons(t, rest, u);
      match t
      case Lit(kw) =>
        InterpPrefix(rest, q, u[|kw|..]);
      case Run(cls, min, capture) =>
        var len := RunLength(cls, u);
        var n := Greedy(rest + q, min, u, len).value.0;
        GreedyRest(rest + q, min, u, len);
        InterpPrefix(rest, q, u[n..]);
        if Greedy(rest, min, u, len).None? {
          GreedyFails(rest, min, u, len);
          assert false;
        }
    }
  }

  /** One piece of a replacement template: text, or `\i`, the text of group `i`. */
  datatype Piece = Text(text: string) | Ref(group: nat)

  /** The text of a group of a match in `t`. */
  function GroupText(t: string, g: Group): string {
    if g.endBack <= g.startBack <= |t| then t[|t| - g.startBack..|t| - g.endBack] else []
  }

  /** The texts of the groups of a match in `t`. */
  function GroupTexts(t: string, groups: seq<Group>): (r: seq<string>)
    ensures |r| == |groups|
  {
    seq(|groups|, i requires 0 <= i < |groups| => GroupText(t, groups[i]))
  }

  /** The replacement a template produces from the texts of a match's groups. Every
      reference in the pipeline's templates names an existing group; a reference to a
      missing group, which Python refuses, yields nothing here. */
  function Expand(tpl: seq<Piece>, groups: seq<string>): string
    decreases |tpl|
  {
    if tpl == [] then [] else PieceText(tpl[0], groups) + Expand(tpl[1..], groups)
  }

  /** What one piece of a template contributes. */
  function PieceText(piece: Piece, groups: seq<string>): string {
    match piece
    case Text(x) => x
    case Ref(i) => if 1 <= i <= |groups| then groups[i - 1] else []
  }

  /** `re.match(p, t, re.IGNORECASE)` with the replacement `tpl` gives for the match. The
      classes `\s`, `\d` and `\w` do not tell a letter from its upper case (see
      `ClassesIgnoreCase`), so matching the upper-cased text finds the same match. */
  function RuleAt(p: seq<Token>, tpl: seq<Piece>, t: string): (r: Option<Hit>)
    ensures r.Some? ==> r.value.len <= |t|
  {
    match Interp(p, Upper(t))
    case None => None
    case Some(m) => Some(Hit(m.len, Expand(tpl, GroupTexts(t, m.groups))))
  }

  /** `re.sub(p, tpl, ·, flags=re.IGNORECASE)` as a matcher for the scanner. */
  function Rule(p: seq<Token>, tpl: seq<Piece>): Matcher {
    t => RuleAt(p, tpl, t)
  }

  /** Where the pattern matches at the front of the upper-cased text, `re.sub` puts the
      template, filled with the texts of the groups, in place of the match and goes on
      after it. */
  lemma RuleReplaces(p: seq<Token>, tpl: seq<Piece>, t: string, m: Match, rest: string)
    requires Interp(p, Upper(t)) == Some(m) && 1 <= m.len && t[m.len..] == rest
    ensures SubAll(Rule(p, tpl), t) == Expand(tpl, GroupTexts(t, m.groups)) + SubAll(Rule(p, tpl), rest)
  {
    SubAllFires(Rule(p, tpl), t);
  }

  /** A rule whose pattern is a literal, whitespace and a rest: where the upper-cased text
      starts with the literal, a run of whitespace and a text the rest matches, `re.sub`
      replaces all of that and goes on after it. */
  lemma SpacedRuleReplaces(p: seq<Token>, kw: string, rest: seq<Token>, tpl: seq<Piece>, t: string,
                           sp: string, x: string, m: Match, after: string)
    requires p == [Lit(kw), Run(Space, 1, false)] + rest
    requires Upper(t) == kw + (sp + x) && |kw| + |sp| + m.len <= |t|
    requires sp != [] && forall k :: 0 <= k < |sp| ==> IsSpace(sp[k])
    requires x == [] || !IsSpace(x[0])
    requires Interp(rest, x) == Some(m)
    requires t[|kw| + |sp| + m.len..] == after
    ensures SubAll(Rule(p, tpl), t) == Expand(tpl, GroupTexts(t, m.groups)) + SubAll(Rule(p, tpl), after)
  {
    var n := Match(|kw| + |sp| + m.len, m.groups);
    LitSpaceStep(p, kw, rest, Upper(t), sp, x, m);
    RuleReplaces(p, tpl, t, n, after);
  }

  /** A character and its upper case belong to the same classes. */
  lemma ClassesIgnoreCase(cls: Class, c: char)
    ensures InClass(cls, UpperChar(c)) == InClass(cls, c)
  {
  }

  /** Every literal of a pattern occurs in whatever the pattern matches. */
  lemma {:induction false} LiteralsOccur(p: seq<Token>, u: string, i: nat)
    requires Interp(p, u).Some? && i < |p| && p[i].Lit?
    ensures Contains(u, p[i].text)
    decreases |p|
  {
    var rest := p[1..];
    match p[0]
    case Lit(kw) =>
      if i == 0 {
        assert u[0..] == u;
        ContainsAt(u, kw, 0);
      } else {
        LiteralsOccur(rest, u[|kw|..], i - 1);
        ContainsTail(u, |kw|, p[i].text);
      }
    case Run(cls, min, capture) =>
      GreedyRest(rest, min, u, RunLength(cls, u));
      var n := Greedy(rest, min, u, RunLength(cls, u)).value.0;
      LiteralsOccur(rest, u[n..], i - 1);
      ContainsTail(u, n, p[i].text);
  }

  /** So a rule never fires on a text without, up to case, one of the pattern's literals. */
  lemma RuleNeedsLiteral(p: seq<Token>, tpl: seq<Piece>, i: nat)
    requires i < |p| && p[i].Lit?
    ensures NeedsKeyword(Rule(p, tpl), p[i].text)
  {
    forall t | Fires(Rule(p, tpl), t)
      ensures Contains(Upper(t), p[i].text)
    {
      LiteralsOccur(p, Upper(t), i);
    }
  }

  /** A template that ends with non-empty text not ending in `c` never yields a replacement
      ending in `c`. */
  lemma {:induction false} ExpandEnds(tpl: seq<Piece>, groups: seq<string>, c: char)
    requires tpl != [] && tpl[|tpl| - 1].Text?
    requires var x := tpl[|tpl| - 1].text; x != [] && x[|x| - 1] != c
    ensures var e := Expand(tpl, groups); e != [] && e[|e| - 1] != c
    decreases |tpl|
  {
    var e := Expand(tpl, groups);
    var tail := Expand(tpl[1..], groups);
    assert e == PieceText(tpl[0], groups) + tail;
    if |tpl| > 1 {
      assert tpl[1..][|tpl| - 2] == tpl[|tpl| - 1];
      ExpandEnds(tpl[1..], groups, c);
      assert e[|e| - 1] == tail[|tail| - 1];
    } else {
      assert tail == [];
      assert e == tpl[0].text;
    }
  }

  lemma RuleEnds(p: seq<Token>, tpl: seq<Piece>, c: char)
    requires tpl != [] && tpl[|tpl| - 1].Text?
    requires var x := tpl[|tpl| - 1].text; x != [] && x[|x| - 1] != c
    ensures ReplAvoidsLast(Rule(p, tpl), c)
  {
    forall t | Rule(p, tpl)(t).Some?
      ensures Rule(p, tpl)(t).value.repl != [] && Rule(p, tpl)(t).value.repl[|Rule(p, tpl)(t).value.repl| - 1] != c
    {
      ExpandEnds(tpl, GroupTexts(t, Interp(p, Upper(t)).value.groups), c);
    }
  }

  /** A run that ends a pattern takes all the characters of its class that start the text. */
  lemma LastRun(cls: Class, min: nat, capture: bool, x: string, y: string)
    requires min <= |x| && forall k :: 0 <= k < |x| ==> InClass(cls, x[k])
    requires y == [] || !InClass(cls, y[0])
    ensures Interp([Run(cls, min, capture)], x + y) ==
      Some(Match(|x|, Captured(capture, Group(|x + y|, |y|), [])))
  {
    var none: seq<Token> := [];
    assert Interp(none, y) == Some(Match(0, []));
    RunStep(cls, min, capture, none, x + y, x, y, Match(0, []));
    assert [Run(cls, min, capture)] == [Run(cls, min, capture)] + none;
  }

  /** A literal, whitespace, and then the rest of a pattern, on the literal's text, a run
      of whitespace `sp` and a text the rest matches and that does not start with
      whitespace: the run takes all of `sp`, and the pattern `p` made of the three matches. */
  lemma LitSpaceStep(p: seq<Token>, kw: string, rest: seq<Token>, u: string, sp: string, x: string, m: Match)
    requires p == [Lit(kw), Run(Space, 1, false)] + rest
    requires u == kw + (sp + x)
    requires sp != [] && forall k :: 0 <= k < |sp| ==> IsSpace(sp[k])
    requires x == [] || !IsSpace(x[0])
    requires Interp(rest, x) == Some(m)
    ensures Interp(p, u) == Some(Match(|kw| + |sp| + m.len, m.groups))
  {
    var tail := [Run(Space, 1, false)] + rest;
    RunStep(Space, 1, false, rest, sp + x, sp, x, m);
    assert Captured(false, Group(|sp + x|, |x|), m.groups) == m.groups;
    LitStep(kw, tail, u, sp + x, Match(|sp| + m.len, m.groups));
    assert [Lit(kw), Run(Space, 1, false)] + rest == [Lit(kw)] + tail;
  }

  /** A literal followed by the rest of a pattern matches a text `u` made of the literal
      followed by a text `y` on which the rest matches with `m`. */
  lemma LitStep(kw: string, rest: seq<Token>, u: string, y: string, m: Match)
    requires u == kw + y
    requires Interp(rest, y) == Some(m)
    ensures Interp([Lit(kw)] + rest, u) == Some(Match(|kw| + m.len, m.groups))
  {
    assert u[|kw|..] == y;
    InterpCons(Lit(kw), rest, u);
  }

  /** A run followed by the rest of a pattern, on a text `u` made of a run `x` of its class
      and a text `y` on which the rest matches with `m`, takes the whole of `x`. */
  lemma RunStep(cls: Class, min: nat, capture: bool, rest: seq<Token>, u: string, x: string, y: string, m: Match)
    requires u == x + y
    requires min <= |x| && forall i :: 0 <= i < |x| ==> InClass(cls, x[i])
    requires y == [] || !InClass(cls, y[0])
    requires Interp(rest, y) == Some(m)
    ensures Interp([Run(cls, min, capture)] + rest, u) ==
      Some(Match(|x| + m.len, Captured(capture, Group(|u|, |u| - |x|), m.groups)))
  {
    calc {
      Interp([Run(cls, min, capture)] + rest, u);
    == { InterpCons(Run(cls, min, capture), rest, u); }
      Step(Run(cls, min, capture), rest, u);
    == { RunLengthOf(cls, x, y);
         assert u[|x|..] == y;
         RunCase(cls, min, capture, rest, u, |x|, m); }
      Some(Match(|x| + m.len, Captured(capture, Group(|u|, |u| - |x|), m.groups)));
    }
  }


  /** A match of a pattern that starts with a literal is the literal followed by a match of
      the rest. */
  lemma LitMatched(kw: string, rest: seq<Token>, u: string)
    requires Interp([Lit(kw)] + rest, u).Some?
    ensures StartsWith(u, kw) && Interp(rest, u[|kw|..]).Some?
    ensures Interp([Lit(kw)] + rest, u).value ==
      Match(|kw| + Interp(rest, u[|kw|..]).value.len, Interp(rest, u[|kw|..]).value.groups)
  {
    InterpCons(Lit(kw), rest, u);
  }

  /** A match of a pattern that starts with a non-capturing run is `n` characters of the
      class followed by a match of the rest. */
  lemma RunMatched(cls: Class, min: nat, rest: seq<Token>, u: string) returns (n: nat)
    requires Interp([Run(cls, min, false)] + rest, u).Some?
    ensures min <= n <= |u| && Interp(rest, u[n..]).Some?
    ensures forall k :: 0 <= k < n ==> InClass(cls, u[k])
    ensures Interp([Run(cls, min, false)] + rest, u).value ==
      Match(n + Interp(rest, u[n..]).value.len, Interp(rest, u[n..]).value.groups)
  {
    InterpCons(Run(cls, min, false), rest, u);
    n := Greedy(rest, min, u, RunLength(cls, u)).value.0;
    GreedyRest(rest, min, u, RunLength(cls, u));
    RunLengthSpans(cls, u);
  }

  /** A pattern is matched token by token. */
  lemma InterpCons(t: Token, rest: seq<Token>, u: string)
    ensures Interp([t] + rest, u) == Step(t, rest, u)
  {
    assert ([t] + rest)[0] == t && ([t] + rest)[1..] == rest;
  }

  /** A run's match is the count its backtracking settles on followed by the rest's match. */
  lemma RunCase(cls: Class, min: nat, capture: bool, rest: seq<Token>, u: string, n: nat, m: Match)
    requires RunLength(cls, u) == n && Greedy(rest, min, u, n) == Some((n, m))
    ensures Step(Run(cls, min, capture), rest, u) ==
      Some(Match(n + m.len, Captured(capture, Group(|u|, |u| - n), m.groups)))
  {
  }

  /** When every capturing run of a pattern is a run of class `cls` of at least one
      character, every group of a match is a non-empty run of that class. */
  lemma {:induction false} GroupsOfClass(p: seq<Token>, u: string, cls: Class)
    requires Interp(p, u).Some?
    requires forall i :: 0 <= i < |p| && p[i].Run? && p[i].capture ==> p[i].cls == cls && p[i].min >= 1
    ensures forall g :: g in Interp(p, u).value.groups ==>
      g.endBack < g.startBack <= |u| &&
      forall k :: |u| - g.startBack <= k < |u| - g.endBack ==> InClass(cls, u[k])
    decreases |p|
  {
    if p != [] {
      var rest := p[1..];
      match p[0]
      case Lit(kw) =>
        GroupsOfClass(rest, u[|kw|..], cls);
      case Run(c, min, capture) =>
        RunLengthSpans(c, u);
        GreedyRest(rest, min, u, RunLength(c, u));
        var r := Greedy(rest, min, u, RunLength(c, u)).value;
        GroupsOfClass(rest, u[r.0..], cls);
    }
  }

  /** So, read in the original text, such a group is a non-empty run of the class. */
  lemma GroupTextOfClass(p: seq<Token>, t: string, cls: Class, j: nat)
    requires Interp(p, Upper(t)).Some? && j < Captures(p)
    requires forall i :: 0 <= i < |p| && p[i].Run? && p[i].capture ==> p[i].cls == cls && p[i].min >= 1
    ensures var x := GroupText(t, Interp(p, Upper(t)).value.groups[j]);
      x != [] && forall k :: 0 <= k < |x| ==> InClass(cls, x[k])
  {
    var g := Interp(p, Upper(t)).value.groups[j];
    GroupsOfClass(p, Upper(t), cls);
    assert g in Interp(p, Upper(t)).value.groups;
    forall k | |t| - g.startBack <= k < |t| - g.endBack
      ensures InClass(cls, t[k])
    {
      ClassesIgnoreCase(cls, t[k]);
    }
  }
}
