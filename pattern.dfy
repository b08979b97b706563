/**
 * The regular expressions the page parsers use, and `str.split` on a
 * separator character.
 *
 * A pattern is a sequence of tokens: literal text, one whitespace
 * character (`\s`), a run of whitespace (`\s+`), and the two capturing
 * runs `([0-9]+)` / `(\d+)` and `([0-9,]+)`. Every run is matched greedily
 * and never given back. In each pattern the parsers use, a run is either
 * last or followed by literal text whose first character lies outside the
 * run's class, so a backtracking engine could never find a shorter run
 * that still matches: the greedy match is the match `re.search` reports.
 */
module Pattern {
  import opened Base
  import opened Text

  datatype Tok =
    | Lit(text: string)   // the text itself
    | Space               // `\s`
    | Spaces              // `\s+`
    | Digits              // `([0-9]+)` or `(\d+)`, captured
    | NumText             // `([0-9,]+)`, captured

  predicate InClass(t: Tok, c: char)
  {
    match t
    case Lit(_) => false
    case Space => IsSpace(c)
    case Spaces => IsSpace(c)
    case Digits => IsDigit(c)
    case NumText => IsDigit(c) || c == ','
  }

  predicate IsGroup(t: Tok)
  {
    t.Digits? || t.NumText?
  }

  /** The capturing tokens of a pattern, in order. */
  function Groups(p: seq<Tok>): seq<Tok>
  {
    if p == [] then [] else (if IsGroup(p[0]) then [p[0]] else []) + Groups(p[1..])
  }

  /** A captured text: non-empty, every character in the group's class. */
  predicate Fits(t: Tok, g: string)
  {
    g != [] && forall k :: 0 <= k < |g| ==> InClass(t, g[k])
  }

  predicate GroupsFit(p: seq<Tok>, gs: seq<string>)
  {
    |gs| == |Groups(p)| && forall k :: 0 <= k < |gs| ==> Fits(Groups(p)[k], gs[k])
  }

  /** Length of the longest prefix of `s` whose characters are all in the class of `t`. */
  function RunLen(t: Tok, s: string): (n: nat)
    ensures n <= |s|
    ensures forall k :: 0 <= k < n ==> InClass(t, s[k])
    ensures n < |s| ==> !InClass(t, s[n])
  {
    if s != [] && InClass(t, s[0]) then 1 + RunLen(t, s[1..]) else 0
  }

  /** A run length is fixed by where the class ends. */
  lemma RunLenIs(t: Tok, s: string, n: nat)
    requires n <= |s| && forall k :: 0 <= k < n ==> InClass(t, s[k])
    requires n < |s| ==> !InClass(t, s[n])
    ensures RunLen(t, s) == n
  {
  }

  /** A token outside any group leaves the captures of the rest of the pattern as they are. */
  lemma GroupsFitSkip(p: seq<Tok>, gs: seq<string>)
    requires p != [] && !IsGroup(p[0]) && GroupsFit(p[1..], gs)
    ensures GroupsFit(p, gs)
  {
    assert Groups(p) == Groups(p[1..]);
  }

  /** A group token puts its capture in front of the captures of the rest of the pattern. */
  lemma GroupsFitCons(p: seq<Tok>, g: string, gs: seq<string>)
    requires p != [] && IsGroup(p[0]) && Fits(p[0], g) && GroupsFit(p[1..], gs)
    ensures GroupsFit(p, [g] + gs)
  {
    var r := [g] + gs;
    assert Groups(p) == [p[0]] + Groups(p[1..]);
    forall k | 1 <= k < |r| ensures Fits(Groups(p)[k], r[k]) {
      assert r[k] == gs[k - 1] && Groups(p)[k] == Groups(p[1..])[k - 1];
    }
  }

  /** The groups of `p` matched at the start of `s`, or `None` when `p` does not match there. */
  function Match(p: seq<Tok>, s: string): (r: Option<seq<string>>)
    ensures r.Some? ==> GroupsFit(p, r.value)
    decreases |p|
  {
    if p == [] then Some([])
    else
      var t := p[0];
      var rest := if t.Lit? then (if t.text <= s then Some(|t.text|) else None)
                  else if t.Space? then (if s != [] && IsSpace(s[0]) then Some(1) else None)
                  else (var n := RunLen(t, s); if n == 0 then None else Some(n));
      match rest
      case None => None
      case Some(n) =>
        match Match(p[1..], s[n..])
        case None => None
        case Some(gs) =>
          if IsGroup(t) then
            GroupsFitCons(p, s[..n], gs);
            Some([s[..n]] + gs)
          else
            GroupsFitSkip(p, gs);
            Some(gs)
  }

  /** `p` matches the text from position `j` on. */
  predicate MatchesAt(p: seq<Tok>, s: string, j: nat)
    requires j <= |s|
  {
    Match(p, s[j..]).Some?
  }

  /** For each start position `j` from 0 to `|s|`, whether `p` matches there. */
  function Hits(p: seq<Tok>, s: string): (r: seq<bool>)
    ensures |r| == |s| + 1 && forall j :: 0 <= j <= |s| ==> r[j] == MatchesAt(p, s, j)
  {
    seq(|s| + 1, j requires 0 <= j <= |s| => MatchesAt(p, s, j))
  }

  /** The first position at or after `i` that is marked in `at`. */
  function FirstHit(at: seq<bool>, i: nat): (r: Option<nat>)
    requires i <= |at|
    ensures r.Some? ==> i <= r.value < |at| && at[r.value]
    ensures r.Some? ==> forall j :: i <= j < r.value ==> !at[j]
    ensures r.None? ==> forall j :: i <= j < |at| ==> !at[j]
    decreases |at| - i
  {
    if i == |at| then None
    else if at[i] then Some(i)
    else FirstHit(at, i + 1)
  }

  /** The leftmost position at or after `i` where `p` matches, as `re.search` scans. */
  function SearchFrom(p: seq<Tok>, s: string, i: nat): (r: Option<nat>)
    requires i <= |s|
    ensures r.Some? ==> i <= r.value <= |s| && MatchesAt(p, s, r.value)
    ensures r.Some? ==> forall j :: i <= j < r.value ==> !MatchesAt(p, s, j)
    ensures r.None? ==> forall j :: i <= j <= |s| ==> !MatchesAt(p, s, j)
  {
    var at := Hits(p, s);
    var r := FirstHit(at, i);
    assert r.Some? ==> at[r.value];
    r
  }

  /** `re.search(p, s)`: the groups of the leftmost match. */
  function Search(p: seq<Tok>, s: string): (r: Option<seq<string>>)
    ensures r.Some? ==> GroupsFit(p, r.value)
  {
    match SearchFrom(p, s, 0)
    case None => None
    case Some(i) => Match(p, s[i..])
  }

  /** When `p` matches at `i` and nowhere before, the search reports the match at `i`. */
  lemma SearchFinds(p: seq<Tok>, s: string, i: nat)
    requires i <= |s| && Match(p, s[i..]).Some?
    requires forall j :: 0 <= j < i ==> Match(p, s[j..]).None?
    ensures Search(p, s) == Match(p, s[i..])
  {
    assert MatchesAt(p, s, i);
    var r := SearchFrom(p, s, 0);
    assert r.Some? ==> MatchesAt(p, s, r.value);
  }

  /** A pattern that matches nowhere is not found. */
  lemma SearchMisses(p: seq<Tok>, s: string)
    requires forall j :: 0 <= j <= |s| ==> Match(p, s[j..]).None?
    ensures Search(p, s).None?
  {
    var r := SearchFrom(p, s, 0);
    assert r.Some? ==> MatchesAt(p, s, r.value);
  }

  lemma MatchLit(p: seq<Tok>, t: string, u: string)
    requires p != [] && p[0] == Lit(t)
    ensures Match(p, t + u) == Match(p[1..], u)
  {
    assert t <= t + u;
    assert (t + u)[|t|..] == u;
  }

  lemma MatchSpace(p: seq<Tok>, c: char, u: string)
    requires p != [] && p[0] == Space && IsSpace(c)
    ensures Match(p, [c] + u) == Match(p[1..], u)
  {
    assert ([c] + u)[1..] == u;
  }

  lemma MatchSpaces(p: seq<Tok>, c: char, u: string)
    requires p != [] && p[0] == Spaces && IsSpace(c)
    requires u == [] || !IsSpace(u[0])
    ensures Match(p, [c] + u) == Match(p[1..], u)
  {
    RunLenIs(Spaces, [c] + u, 1);
    assert ([c] + u)[1..] == u;
  }

  /** A group token captures the whole run in front of it. */
  lemma MatchGroup(p: seq<Tok>, d: string, u: string)
    requires p != [] && IsGroup(p[0]) && Fits(p[0], d)
    requires u == [] || !InClass(p[0], u[0])
    ensures Match(p, d + u) == match Match(p[1..], u) { case None => None case Some(gs) => Some([d] + gs) }
  {
    var s := d + u;
    assert forall k :: 0 <= k < |d| ==> s[k] == d[k];
    RunLenIs(p[0], s, |d|);
    assert s[|d|..] == u;
    assert s[..|d|] == d;
  }

  // Matching a pattern built token by token in front of a pattern already matched.

  lemma LitThen(t: string, q: seq<Tok>, u: string, gs: seq<string>)
    requires Match(q, u) == Some(gs)
    ensures Match([Lit(t)] + q, t + u) == Some(gs)
  {
    MatchLit([Lit(t)] + q, t, u);
    assert ([Lit(t)] + q)[1..] == q;
  }

  lemma SpaceThen(q: seq<Tok>, c: char, u: string, gs: seq<string>)
    requires IsSpace(c) && Match(q, u) == Some(gs)
    ensures Match([Space] + q, [c] + u) == Some(gs)
  {
    MatchSpace([Space] + q, c, u);
    assert ([Space] + q)[1..] == q;
  }

  lemma SpacesThen(q: seq<Tok>, c: char, u: string, gs: seq<string>)
    requires IsSpace(c) && (u == [] || !IsSpace(u[0])) && Match(q, u) == Some(gs)
    ensures Match([Spaces] + q, [c] + u) == Some(gs)
  {
    MatchSpaces([Spaces] + q, c, u);
    assert ([Spaces] + q)[1..] == q;
  }

  lemma GroupThen(g: Tok, q: seq<Tok>, d: string, u: string, gs: seq<string>)
    requires IsGroup(g) && Fits(g, d) && (u == [] || !InClass(g, u[0])) && Match(q, u) == Some(gs)
    ensures Match([g] + q, d + u) == Some([d] + gs)
  {
    MatchGroup([g] + q, d, u);
    assert ([g] + q)[1..] == q;
  }

  // ---------------------------------------------------------------------
  // str.split

  /** `s.split(c)`: the pieces between the occurrences of `c`, the empty text giving `[""]`. */
  function Split(s: string, c: char): (r: seq<string>)
    ensures |r| >= 1
    ensures forall k :: 0 <= k < |r| ==> c !in r[k]
    decreases |s|
  {
    if s == [] then [""]
    else
      var front := Split(s[..|s| - 1], c);
      var x := s[|s| - 1];
      if x == c then front + [""]
      else front[..|front| - 1] + [front[|front| - 1] + [x]]
  }

  /** `c.join(xs)`. */
  function Join(xs: seq<string>, c: char): string
  {
    if xs == [] then ""
    else if |xs| == 1 then xs[0]
    else Join(xs[..|xs| - 1], c) + [c] + xs[|xs| - 1]
  }

  /** Joining the pieces back with the separator gives the text. */
  lemma {:induction false} SplitJoin(s: string, c: char)
    ensures Join(Split(s, c), c) == s
    decreases |s|
  {
    if s != [] {
      var t := s[..|s| - 1];
      var front := Split(t, c);
      var x := s[|s| - 1];
      SplitJoin(t, c);
      var r := Split(s, c);
      if x == c {
        assert r[..|r| - 1] == front;
      } else if |front| == 1 {
        assert r == [front[0] + [x]];
      } else {
        assert r[..|r| - 1] == front[..|front| - 1];
        var ff := front[..|front| - 1];
        assert Join(front, c) == Join(ff, c) + [c] + front[|front| - 1];
      }
      assert s == t + [x];
    }
  }

  /** A text without the separator is one piece. */
  lemma {:induction false} SplitNoSep(s: string, c: char)
    requires c !in s
    ensures Split(s, c) == [s]
    decreases |s|
  {
    if s != [] {
      var t := s[..|s| - 1];
      SplitNoSep(t, c);
      assert s == t + [s[|s| - 1]];
    }
  }

  /** A piece after the last separator becomes the last element. */
  lemma {:induction false} SplitAppendPiece(a: string, c: char, l: string)
    requires c !in l
    ensures Split(a + [c] + l, c) == Split(a, c) + [l]
    decreases |l|
  {
    if l == [] {
      assert (a + [c] + l)[..|a + [c] + l| - 1] == a;
    } else {
      var l' := l[..|l| - 1];
      SplitAppendPiece(a, c, l');
      var s := a + [c] + l;
      assert s[..|s| - 1] == a + [c] + l';
      assert l == l' + [l[|l| - 1]];
    }
  }

  /** Splitting undoes joining, when no piece holds the separator. */
  lemma {:induction false} JoinSplit(xs: seq<string>, c: char)
    requires |xs| >= 1
    requires forall k :: 0 <= k < |xs| ==> c !in xs[k]
    ensures Split(Join(xs, c), c) == xs
  {
    if |xs| == 1 {
      SplitNoSep(xs[0], c);
    } else {
      var front := xs[..|xs| - 1];
      JoinSplit(front, c);
      SplitAppendPiece(Join(front, c), c, xs[|xs| - 1]);
      assert xs == front + [xs[|xs| - 1]];
    }
  }
}
