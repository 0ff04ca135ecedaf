/** The regular expressions of the inliner all have the shape
      l0 .*? l1 .*? ... .*? ln
    (literals separated by lazy "any character but a line terminator" gaps, one gap
    possibly captured, the whole thing under the `i` and `g` flags). This module is an
    explicit scanner for exactly that shape: leftmost match, lazy gaps, `.` stopping at
    line terminators, literals compared without case. */
module Scan {
  import opened Wrappers
  import opened Text

  /** `lits[0] .*? lits[1] .*? ... lits[n-1]`; when `cap > 0` the gap just before
      `lits[cap]` is the capture group `(.*?)`. */
  datatype Pattern = Pattern(lits: seq<string>, cap: nat) {
    predicate Valid() {
      |lits| > 0 && |lits[0]| > 0 && cap < |lits|
    }
  }

  /** One match: the span `[start, end)` and the text of the capture group
      (empty when the pattern has none). */
  datatype Match = Match(start: nat, end: nat, group: string)

  /** `lit` occurs at index `i` of `s`, ignoring case. */
  predicate LitAt(s: string, lit: string, i: nat) {
    i + |lit| <= |s| && forall k :: 0 <= k < |lit| ==> SameLetter(s[i + k], lit[k])
  }

  /** The span `s[i..j]` can be consumed by `.*?`: it holds no line terminator. */
  predicate OnOneLine(s: string, i: nat, j: nat) {
    i <= j <= |s| && forall k :: i <= k < j ==> !IsLineTerminator(s[k])
  }

  /** Where a lazy `.*?` followed by `lit` stops when the search starts at `from`
      (its contract is `FindLitIsEarliest`). */
  function FindLit(s: string, lit: string, from: nat): Option<nat>
    decreases |s| - from
  {
    if from + |lit| > |s| then None
    else if LitAt(s, lit, from) then Some(from)
    else if IsLineTerminator(s[from]) then None
    else FindLit(s, lit, from + 1)
  }

  /** `FindLit` finds the earliest occurrence of `lit` at or after `from` that can be reached
      without crossing a line terminator, and fails only when there is none. */
  lemma {:induction false} FindLitIsEarliest(s: string, lit: string, from: nat)
    ensures var r := FindLit(s, lit, from);
      r.Some? ==> from <= r.value && LitAt(s, lit, r.value) && OnOneLine(s, from, r.value)
    ensures var r := FindLit(s, lit, from);
      r.Some? ==> forall j :: from <= j < r.value ==> !LitAt(s, lit, j)
    ensures FindLit(s, lit, from).None? ==> forall j :: from <= j && OnOneLine(s, from, j) ==> !LitAt(s, lit, j)
    decreases |s| - from
  {
    if from + |lit| <= |s| && !LitAt(s, lit, from) && !IsLineTerminator(s[from]) {
      FindLitIsEarliest(s, lit, from + 1);
      assert forall j :: from < j && OnOneLine(s, from, j) ==> OnOneLine(s, from + 1, j);
    }
  }

  /** Positions `q` of `lits[k..]`, the first searched from `pos`, every later one after
      the end of its predecessor, each gap on one line: the ways the regex can match. */
  ghost predicate Chain(s: string, lits: seq<string>, k: nat, pos: nat, q: seq<nat>)
    requires k <= |lits|
    decreases |lits| - k
  {
    if k == |lits| then q == []
    else
      |q| > 0 && OnOneLine(s, pos, q[0]) && LitAt(s, lits[k], q[0])
      && Chain(s, lits, k + 1, q[0] + |lits[k]|, q[1..])
  }

  /** Places each literal at its earliest possible position. */
  function Place(s: string, lits: seq<string>, k: nat, pos: nat): (r: Option<seq<nat>>)
    requires k <= |lits|
    ensures r.Some? ==> |r.value| == |lits| - k
    decreases |lits| - k
  {
    if k == |lits| then Some([])
    else
      match FindLit(s, lits[k], pos)
      case None => None
      case Some(i) =>
        match Place(s, lits, k + 1, i + |lits[k]|)
        case None => None
        case Some(rest) => Some([i] + rest)
  }

  /** Whatever `Place` finds is a way to match. */
  lemma {:induction false} PlaceSound(s: string, lits: seq<string>, k: nat, pos: nat)
    requires k <= |lits| && Place(s, lits, k, pos).Some?
    ensures Chain(s, lits, k, pos, Place(s, lits, k, pos).value)
    decreases |lits| - k
  {
    if k < |lits| {
      FindLitIsEarliest(s, lits[k], pos);
      var i := FindLit(s, lits[k], pos).value;
      PlaceSound(s, lits, k + 1, i + |lits[k]|);
      var q := Place(s, lits, k, pos).value;
      assert q[1..] == Place(s, lits, k + 1, i + |lits[k]|).value;
    }
  }

  /** Positions of a chain are ordered and inside `s`. */
  lemma {:induction false} ChainBounds(s: string, lits: seq<string>, k: nat, pos: nat, q: seq<nat>)
    requires k <= |lits| && Chain(s, lits, k, pos, q)
    ensures |q| == |lits| - k
    ensures forall j :: 0 <= j < |q| ==> pos <= q[j] && q[j] + |lits[k + j]| <= |s|
    ensures forall j :: 0 < j < |q| ==> q[j - 1] + |lits[k + j - 1]| <= q[j]
    decreases |lits| - k
  {
    if k < |lits| {
      ChainBounds(s, lits, k + 1, q[0] + |lits[k]|, q[1..]);
      forall j | 0 < j < |q| ensures pos <= q[j] && q[j - 1] + |lits[k + j - 1]| <= q[j] {
        assert q[j] == q[1..][j - 1];
        if j > 1 { assert q[j - 1] == q[1..][j - 2]; }
      }
      forall j | 0 < j < |q| ensures q[j] + |lits[k + j]| <= |s| {
        assert q[j] == q[1..][j - 1];
      }
    }
  }

  /** A chain may start searching earlier, if the extra span is on one line. */
  lemma ChainEarlier(s: string, lits: seq<string>, k: nat, p: nat, p': nat, q: seq<nat>)
    requires k <= |lits| && Chain(s, lits, k, p', q) && OnOneLine(s, p, p')
    ensures Chain(s, lits, k, p, q)
  {
  }

  /** A case-insensitive occurrence of a one-line literal is itself on one line. */
  lemma LitOnOneLine(s: string, lit: string, i: nat)
    requires LitAt(s, lit, i) && OneLine(lit)
    ensures OnOneLine(s, i, i + |lit|)
  {
    forall k | i <= k < i + |lit| ensures !IsLineTerminator(s[k]) {
      SameLetterKeepsTerminators(s[k], lit[k - i]);
    }
  }

  /** Two adjacent one-line spans make one. */
  lemma OnOneLineJoin(s: string, i: nat, j: nat, k: nat)
    requires OnOneLine(s, i, j) && OnOneLine(s, j, k)
    ensures OnOneLine(s, i, k)
  {
  }

  lemma OnOneLineSuffix(s: string, i: nat, j: nat, k: nat)
    requires OnOneLine(s, i, k) && i <= j <= k
    ensures OnOneLine(s, j, k)
  {
  }

  /** `a` is below `b` position by position. */
  predicate Below(a: seq<nat>, b: seq<nat>) {
    |a| == |b| && forall j :: 0 <= j < |a| ==> a[j] <= b[j]
  }

  /** The greedy placement is the LEAST way to match, position by position. Since a
      backtracking engine tries shorter lazy gaps first, it returns the lexicographically
      least chain, and a pointwise least chain is that one: `Place` (a chain itself, by
      `PlaceSound`) is what JavaScript finds. In particular `Place` fails only when no way to
      match exists. */
  lemma {:induction false} PlaceIsLeast(s: string, lits: seq<string>, k: nat, pos: nat, q: seq<nat>)
    requires k <= |lits|
    requires forall j :: k <= j < |lits| ==> OneLine(lits[j])
    requires Chain(s, lits, k, pos, q)
    ensures Place(s, lits, k, pos).Some?
    ensures Below(Place(s, lits, k, pos).value, q)
    decreases |lits| - k
  {
    if k < |lits| {
      var lit := lits[k];
      FirstLiteral(s, lits, k, pos, q);
      var i := FindLit(s, lit, pos).value;
      PlaceIsLeast(s, lits, k + 1, i + |lit|, q[1..]);
      var rest := Place(s, lits, k + 1, i + |lit|).value;
      var r := [i] + rest;
      assert Place(s, lits, k, pos) == Some(r);
      assert r[0] == i && r[1..] == rest;
      BelowCons(i, rest, q);
    }
  }

  /** The first literal of a chain: the search finds it no later than the chain has it, and
      the rest of the chain can start right after the literal found. */
  lemma FirstLiteral(s: string, lits: seq<string>, k: nat, pos: nat, q: seq<nat>)
    requires k < |lits| && OneLine(lits[k]) && Chain(s, lits, k, pos, q)
    ensures FindLit(s, lits[k], pos).Some?
    ensures var i := FindLit(s, lits[k], pos).value;
      i <= q[0] && LitAt(s, lits[k], i) && OnOneLine(s, pos, i)
      && Chain(s, lits, k + 1, i + |lits[k]|, q[1..])
  {
    var lit := lits[k];
    FindLitIsEarliest(s, lit, pos);
    var i := FindLit(s, lit, pos).value;
    LitOnOneLine(s, lit, q[0]);
    OnOneLineJoin(s, pos, q[0], q[0] + |lit|);
    OnOneLineSuffix(s, pos, i + |lit|, q[0] + |lit|);
    ChainEarlier(s, lits, k + 1, i + |lit|, q[0] + |lit|, q[1..]);
  }

  lemma BelowCons(i: nat, rest: seq<nat>, q: seq<nat>)
    requires |q| > 0 && i <= q[0] && Below(rest, q[1..])
    ensures Below([i] + rest, q)
  {
    forall j | 0 < j < |q| ensures ([i] + rest)[j] <= q[j] {
      assert q[j] == q[1..][j - 1];
    }
  }

  /** The match of `p` starting exactly at `start`, if any. */
  function MatchAt(s: string, p: Pattern, start: nat): (r: Option<Match>)
    requires p.Valid()
    ensures r.Some? ==> r.value.start == start && start + |p.lits[0]| <= r.value.end <= |s|
    ensures r.Some? <==> LitAt(s, p.lits[0], start) && Place(s, p.lits, 1, start + |p.lits[0]|).Some?
  {
    if !LitAt(s, p.lits[0], start) then None
    else
      match Place(s, p.lits, 1, start + |p.lits[0]|)
      case None => None
      case Some(ps) =>
        MatchShape(s, p, start, ps);
        var q := [start] + ps;
        Some(Match(start, MatchEnd(p, q), Capture(s, p, q)))
  }

  /** Where a match whose literals sit at `q` ends: after its last literal. */
  function MatchEnd(p: Pattern, q: seq<nat>): nat
    requires p.Valid() && |q| == |p.lits|
  {
    q[|q| - 1] + |p.lits[|q| - 1]|
  }

  /** The text between the literal before the capture and the literal after it (empty
      when the pattern captures nothing). */
  function Capture(s: string, p: Pattern, q: seq<nat>): string
    requires p.Valid() && |q| == |p.lits|
  {
    if p.cap == 0 then ""
    else
      var x, y := q[p.cap - 1] + |p.lits[p.cap - 1]|, q[p.cap];
      if x <= y <= |s| then s[x..y] else ""
  }

  /** `MatchAt` read backwards from a placement. */
  lemma MatchAtIs(s: string, p: Pattern, start: nat, ps: seq<nat>)
    requires p.Valid() && LitAt(s, p.lits[0], start)
    requires Place(s, p.lits, 1, start + |p.lits[0]|) == Some(ps)
    ensures |ps| == |p.lits| - 1
    ensures MatchAt(s, p, start) == Some(Match(start, MatchEnd(p, [start] + ps), Capture(s, p, [start] + ps)))
  {
    MatchShape(s, p, start, ps);
  }

  /** The facts about a placement that `MatchAt` needs to cut the match and its group. */
  lemma MatchShape(s: string, p: Pattern, start: nat, ps: seq<nat>)
    requires p.Valid() && LitAt(s, p.lits[0], start)
    requires Place(s, p.lits, 1, start + |p.lits[0]|) == Some(ps)
    ensures |ps| == |p.lits| - 1
    ensures var q := [start] + ps;
      forall j :: 0 < j < |q| ==> q[j - 1] + |p.lits[j - 1]| <= q[j]
    ensures var q := [start] + ps;
      forall j :: 0 <= j < |q| ==> q[j] + |p.lits[j]| <= |s|
    ensures forall j :: 0 <= j < |ps| ==> start + |p.lits[0]| <= ps[j]
  {
    PlaceSound(s, p.lits, 1, start + |p.lits[0]|);
    ChainBounds(s, p.lits, 1, start + |p.lits[0]|, ps);
    var q := [start] + ps;
    forall j | 0 < j < |q| ensures q[j - 1] + |p.lits[j - 1]| <= q[j] && q[j] + |p.lits[j]| <= |s| {
      assert q[j] == ps[j - 1];
      if j > 1 { assert q[j - 1] == ps[j - 2]; }
    }
  }

  /** The leftmost match starting at or after `from`. */
  function FindMatch(s: string, p: Pattern, from: nat): (r: Option<Match>)
    requires p.Valid()
    ensures r.Some? ==> from <= r.value.start && MatchAt(s, p, r.value.start) == r
    ensures r.Some? ==> forall j :: from <= j < r.value.start ==> MatchAt(s, p, j).None?
    ensures r.None? ==> forall j :: from <= j ==> MatchAt(s, p, j).None?
    decreases |s| - from
  {
    if from >= |s| then None
    else
      match MatchAt(s, p, from)
      case Some(m) => Some(m)
      case None => FindMatch(s, p, from + 1)
  }

  /** What `String.prototype.match` returns for a global pattern: every match, each search
      resuming where the previous match ended (matches are never empty here). */
  function MatchAll(s: string, p: Pattern, from: nat): (ms: seq<Match>)
    requires p.Valid()
    ensures forall i :: 0 <= i < |ms| ==> from <= ms[i].start && MatchAt(s, p, ms[i].start) == Some(ms[i])
    ensures forall i :: 0 < i < |ms| ==> ms[i - 1].end <= ms[i].start
    decreases |s| - from
  {
    if from > |s| then []
    else
      match FindMatch(s, p, from)
      case None => []
      case Some(m) =>
        var rest := MatchAll(s, p, m.end);
        var ms := [m] + rest;
        assert forall i :: 0 < i < |ms| ==> ms[i] == rest[i - 1];
        ms
  }

  /** Where the search resumes after the first `i` matches. */
  function Resume(from: nat, ms: seq<Match>, i: nat): nat
    requires i <= |ms|
  {
    if i == 0 then from else ms[i - 1].end
  }

  /** No match is skipped: before each match, and after the last one, no other position
      (from where the search resumed) starts a match. */
  lemma {:induction false} MatchAllLeftmost(s: string, p: Pattern, from: nat, i: nat, j: nat)
    requires p.Valid()
    requires i <= |MatchAll(s, p, from)|
    requires Resume(from, MatchAll(s, p, from), i) <= j
    requires i < |MatchAll(s, p, from)| ==> j < MatchAll(s, p, from)[i].start
    ensures MatchAt(s, p, j).None?
    decreases |s| - from
  {
    var ms := MatchAll(s, p, from);
    if from > |s| {
      assert !LitAt(s, p.lits[0], j);
    } else {
      match FindMatch(s, p, from)
      case None =>
      case Some(m) =>
        var rest := MatchAll(s, p, m.end);
        assert ms == [m] + rest;
        if i > 0 {
          assert Resume(from, ms, i) == Resume(m.end, rest, i - 1);
          if i - 1 < |rest| { assert rest[i - 1] == ms[i]; }
          MatchAllLeftmost(s, p, m.end, i - 1, j);
        }
    }
  }

  /** How a match is replaced: by its capture group (`'$1'`) or by a fixed text
      (a replacer function returning a constant, so no `$` pattern is expanded). */
  datatype Replacement = Group | Literal(text: string)

  function Substitute(m: Match, rep: Replacement): string {
    match rep
    case Group => m.group
    case Literal(t) => t
  }

  /** `s.replace(globalPattern, rep)` on the part of `s` from index `from` on. */
  function ReplaceFrom(s: string, p: Pattern, rep: Replacement, from: nat): string
    requires p.Valid() && from <= |s|
    decreases |s| - from
  {
    match FindMatch(s, p, from)
    case None => s[from..]
    case Some(m) => s[from..m.start] + Substitute(m, rep) + ReplaceFrom(s, p, rep, m.end)
  }

  function Replace(s: string, p: Pattern, rep: Replacement): string
    requires p.Valid()
  {
    ReplaceFrom(s, p, rep, 0)
  }

  /** `gaps[0] + fills[0] + gaps[1] + ... + fills[n-1] + gaps[n]`. */
  function Weave(gaps: seq<string>, fills: seq<string>): string
    requires |gaps| == |fills| + 1
    decreases |fills|
  {
    if |fills| == 0 then gaps[0] else gaps[0] + fills[0] + Weave(gaps[1..], fills[1..])
  }

  /** The text between consecutive matches (and before the first, after the last). */
  function Gaps(s: string, from: nat, ms: seq<Match>): (g: seq<string>)
    requires from <= |s|
    requires forall i :: 0 <= i < |ms| ==> ms[i].start <= ms[i].end <= |s|
    requires |ms| > 0 ==> from <= ms[0].start
    requires forall i :: 0 < i < |ms| ==> ms[i - 1].end <= ms[i].start
    ensures |g| == |ms| + 1
    decreases |ms|
  {
    if |ms| == 0 then [s[from..]]
    else [s[from..ms[0].start]] + Gaps(s, ms[0].end, ms[1..])
  }

  /** The matched text of each match. */
  function Spans(s: string, ms: seq<Match>): (t: seq<string>)
    requires forall i :: 0 <= i < |ms| ==> ms[i].start <= ms[i].end <= |s|
    ensures |t| == |ms|
  {
    seq(|ms|, i requires 0 <= i < |ms| => s[ms[i].start..ms[i].end])
  }

  /** What each match is replaced by. */
  function Fills(ms: seq<Match>, rep: Replacement): (t: seq<string>)
    ensures |t| == |ms|
  {
    seq(|ms|, i requires 0 <= i < |ms| => Substitute(ms[i], rep))
  }

  /** Global replacement keeps the text outside the matches as it was and puts exactly
      the replacement where each match was: the input is the gaps woven with the matched
      spans, and the output is the same gaps woven with the replacements. */
  lemma {:induction false} ReplaceWeaves(s: string, p: Pattern, rep: Replacement, from: nat)
    requires p.Valid() && from <= |s|
    ensures var ms := MatchAll(s, p, from);
      s[from..] == Weave(Gaps(s, from, ms), Spans(s, ms))
      && ReplaceFrom(s, p, rep, from) == Weave(Gaps(s, from, ms), Fills(ms, rep))
    decreases |s| - from
  {
    var ms := MatchAll(s, p, from);
    match FindMatch(s, p, from)
    case None =>
    case Some(m) =>
      ReplaceWeaves(s, p, rep, m.end);
      var rest := MatchAll(s, p, m.end);
      assert ms == [m] + rest;
      WeaveCons(s, from, m, rest, rep);
      SplitThree(s, from, m.start, m.end);
  }

  /** Unfolding `Gaps`, `Spans` and `Fills` over the first match. */
  lemma WeaveCons(s: string, from: nat, m: Match, rest: seq<Match>, rep: Replacement)
    requires from <= m.start <= m.end <= |s|
    requires forall i :: 0 <= i < |rest| ==> rest[i].start <= rest[i].end <= |s|
    requires |rest| > 0 ==> m.end <= rest[0].start
    requires forall i :: 0 < i < |rest| ==> rest[i - 1].end <= rest[i].start
    ensures Weave(Gaps(s, from, [m] + rest), Spans(s, [m] + rest))
      == s[from..m.start] + s[m.start..m.end] + Weave(Gaps(s, m.end, rest), Spans(s, rest))
    ensures Weave(Gaps(s, from, [m] + rest), Fills([m] + rest, rep))
      == s[from..m.start] + Substitute(m, rep) + Weave(Gaps(s, m.end, rest), Fills(rest, rep))
  {
    var ms := [m] + rest;
    assert ms[1..] == rest;
    assert forall i :: 0 < i < |ms| ==> ms[i] == rest[i - 1];
    assert Spans(s, ms)[1..] == Spans(s, rest);
    assert Fills(ms, rep)[1..] == Fills(rest, rep);
  }

  lemma SplitThree(s: string, a: nat, b: nat, c: nat)
    requires a <= b <= c <= |s|
    ensures s[a..] == s[a..b] + s[b..c] + s[c..]
  {
  }

  /** A text without any match is left exactly as it was. */
  lemma NoMatchNoChange(s: string, p: Pattern, rep: Replacement)
    requires p.Valid() && MatchAll(s, p, 0) == []
    ensures Replace(s, p, rep) == s
  {
    ReplaceWeaves(s, p, rep, 0);
  }
}
