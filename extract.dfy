/** Reference extraction (imagely.js `renderFile`, lines 84-89): the external script
    sources and the stylesheet names a document refers to, found with the regular
    expressions of the source, modelled as `Scan` patterns. */
module Extract {
  import opened Wrappers
  import opened Text
  import opened Scan

  /** `/<script .*?src="(.*?)".*?<\/script>/gi` */
  const ScriptTag := Pattern(["<script ", "src=\"", "\"", "</script>"], 2)

  /** `/<link .*?rel="stylesheet".*?>/gi` */
  const StylesheetTag := Pattern(["<link ", "rel=\"stylesheet\"", ">"], 0)

  /** `/<link .*?href="(.*?)".*?>/gi` */
  const HrefAttr := Pattern(["<link ", "href=\"", "\"", ">"], 2)

  /** `'<script .*?src="' + name + '".*?</script>'`, the name taken literally. */
  function ExternalScript(name: string): (p: Pattern)
    ensures p.Valid()
    ensures OneLine(name) ==> forall j :: 0 <= j < |p.lits| ==> OneLine(p.lits[j])
  {
    Pattern(["<script ", "src=\"" + name + "\"", "</script>"], 0)
  }

  /** `'<link .*?href="' + name + '".*?>'`, the name taken literally. */
  function ExternalStylesheet(name: string): (p: Pattern)
    ensures p.Valid()
    ensures OneLine(name) ==> forall j :: 0 <= j < |p.lits| ==> OneLine(p.lits[j])
  {
    Pattern(["<link ", "href=\"" + name + "\"", ">"], 0)
  }

  /** The text of each match. */
  function Tags(s: string, p: Pattern): (tags: seq<string>)
    requires p.Valid()
    ensures |tags| == |MatchAll(s, p, 0)|
  {
    var ms := MatchAll(s, p, 0);
    seq(|ms|, i requires 0 <= i < |ms| => s[ms[i].start..ms[i].end])
  }

  /** `tags.map(t => t.replace(p, rep))` */
  function Rewrite(tags: seq<string>, p: Pattern, rep: Replacement): (r: seq<string>)
    requires p.Valid()
    ensures |r| == |tags|
  {
    seq(|tags|, i requires 0 <= i < |tags| => Replace(tags[i], p, rep))
  }

  /** The captures of a list of matches. */
  function Groups(ms: seq<Match>): (r: seq<string>)
    ensures |r| == |ms|
  {
    seq(|ms|, i requires 0 <= i < |ms| => ms[i].group)
  }

  /** `html.match(ScriptTag)`, each tag then replaced by its `src` capture; `None` is the
      `null` that `match` returns when nothing matches. */
  function ScriptSources(html: string): Option<seq<string>> {
    var tags := Tags(html, ScriptTag);
    if |tags| == 0 then None else Some(Rewrite(tags, ScriptTag, Group))
  }

  /** `html.match(StylesheetTag)`, each tag then rewritten by replacing every `HrefAttr`
      match in it by its `href` capture. A tag in which `HrefAttr` does not match stays
      whole. */
  function StylesheetNames(html: string): Option<seq<string>> {
    var tags := Tags(html, StylesheetTag);
    if |tags| == 0 then None else Some(Rewrite(tags, HrefAttr, Group))
  }

  /** Positions moved left by `a`. */
  function ShiftAll(ps: seq<nat>, a: nat): (r: seq<nat>)
    ensures |r| == |ps|
  {
    if |ps| == 0 then [] else [if ps[0] >= a then ps[0] - a else 0] + ShiftAll(ps[1..], a)
  }

  lemma LitWindow(s: string, lit: string, a: nat, b: nat, i: nat)
    requires a <= i && i + |lit| <= b <= |s|
    ensures LitAt(s[a..b], lit, i - a) == LitAt(s, lit, i)
  {
    var t := s[a..b];
    forall k | 0 <= k < |lit| ensures SameLetter(t[i - a + k], lit[k]) == SameLetter(s[i + k], lit[k]) {
      assert t[i - a + k] == s[i + k];
    }
  }

  /** Searching a literal inside the window `s[a..b]` finds what the search in `s` finds,
      when that lies inside the window. */
  lemma FindLitWindow(s: string, lit: string, a: nat, b: nat, pos: nat)
    requires a <= pos && a <= b <= |s|
    requires FindLit(s, lit, pos).Some? && FindLit(s, lit, pos).value + |lit| <= b
    ensures FindLit(s[a..b], lit, pos - a) == Some(FindLit(s, lit, pos).value - a)
  {
    FindLitIsEarliest(s, lit, pos);
    FindLitWindowAt(s, lit, a, b, pos, FindLit(s, lit, pos).value);
  }

  lemma FindLitWindowAt(s: string, lit: string, a: nat, b: nat, pos: nat, i: nat)
    requires a <= pos <= i && i + |lit| <= b <= |s|
    requires LitAt(s, lit, i) && OnOneLine(s, pos, i) && forall j :: pos <= j < i ==> !LitAt(s, lit, j)
    ensures FindLit(s[a..b], lit, pos - a) == Some(i - a)
  {
    LitWindow(s, lit, a, b, i);
    NoLitWindow(s, lit, a, b, pos, i);
    OnOneLineWindow(s, a, b, pos, i);
    FindLitUnique(s[a..b], lit, pos - a, i - a);
  }

  /** No occurrence before `i` in the text, none before `i - a` in the window. */
  lemma NoLitWindow(s: string, lit: string, a: nat, b: nat, pos: nat, i: nat)
    requires a <= pos <= i && i + |lit| <= b <= |s|
    requires forall j :: pos <= j < i ==> !LitAt(s, lit, j)
    ensures forall j :: pos - a <= j < i - a ==> !LitAt(s[a..b], lit, j)
  {
    forall j | pos - a <= j < i - a ensures !LitAt(s[a..b], lit, j) {
      LitWindow(s, lit, a, b, j + a);
    }
  }

  /** A one-line span of the text is a one-line span of the window. */
  lemma OnOneLineWindow(s: string, a: nat, b: nat, i: nat, j: nat)
    requires a <= i && j <= b <= |s| && OnOneLine(s, i, j)
    ensures OnOneLine(s[a..b], i - a, j - a)
  {
    var t := s[a..b];
    forall k | i - a <= k < j - a ensures !IsLineTerminator(t[k]) {
      assert t[k] == s[k + a];
    }
  }

  /** `FindLit` is determined by its contract. */
  lemma FindLitUnique(t: string, lit: string, from: nat, x: nat)
    requires from <= x && LitAt(t, lit, x) && OnOneLine(t, from, x)
    requires forall j :: from <= j < x ==> !LitAt(t, lit, j)
    ensures FindLit(t, lit, from) == Some(x)
  {
    FindLitIsEarliest(t, lit, from);
  }

  /** Every position of `ps` (literals `lits[k..]`) lies in the window `[a, b)`. */
  predicate Within(ps: seq<nat>, lits: seq<string>, k: nat, a: nat, b: nat)
    decreases |ps|
  {
    |ps| == 0 || (k < |lits| && a <= ps[0] && ps[0] + |lits[k]| <= b && Within(ps[1..], lits, k + 1, a, b))
  }

  /** The same for a whole placement. */
  lemma {:induction false} PlaceWindow(s: string, lits: seq<string>, k: nat, pos: nat, a: nat, b: nat)
    requires k <= |lits| && a <= pos && a <= b <= |s|
    requires Place(s, lits, k, pos).Some? && Within(Place(s, lits, k, pos).value, lits, k, a, b)
    ensures Place(s[a..b], lits, k, pos - a) == Some(ShiftAll(Place(s, lits, k, pos).value, a))
    decreases |lits| - k
  {
    if k < |lits| {
      var ps := Place(s, lits, k, pos).value;
      var i := ps[0];
      var next := i + |lits[k]|;
      PlaceUnfold(s, lits, k, pos);
      var rest := ps[1..];
      assert Within(rest, lits, k + 1, a, b);
      PlaceWindow(s, lits, k + 1, next, a, b);
      PlaceWindowStep(s, lits, k, pos, a, b, ps, next - a);
    }
  }

  /** The inductive step of `PlaceWindow`, stated without `Place` on `s` so that its
      proof stays small. */
  lemma PlaceWindowStep(s: string, lits: seq<string>, k: nat, pos: nat, a: nat, b: nat, ps: seq<nat>, n: nat)
    requires k < |lits| && a <= pos && a <= b <= |s| && |ps| > 0
    requires FindLit(s, lits[k], pos) == Some(ps[0]) && a <= ps[0] && ps[0] + |lits[k]| <= b
    requires n == (ps[0] - a) + |lits[k]| && Place(s[a..b], lits, k + 1, n) == Some(ShiftAll(ps[1..], a))
    ensures Place(s[a..b], lits, k, pos - a) == Some(ShiftAll(ps, a))
  {
    FindLitWindow(s, lits[k], a, b, pos);
    PlaceStep(s[a..b], lits, k, pos - a, ps[0] - a, ShiftAll(ps[1..], a));
    ShiftAllCons(ps, a);
  }

  /** `Place` read backwards: what its first position and the rest are. */
  lemma PlaceUnfold(s: string, lits: seq<string>, k: nat, pos: nat)
    requires k < |lits| && Place(s, lits, k, pos).Some?
    ensures var ps := Place(s, lits, k, pos).value;
      |ps| > 0 && FindLit(s, lits[k], pos) == Some(ps[0])
      && Place(s, lits, k + 1, ps[0] + |lits[k]|) == Some(ps[1..])
  {
  }

  lemma ShiftAllCons(ps: seq<nat>, a: nat)
    requires |ps| > 0 && a <= ps[0]
    ensures ShiftAll(ps, a) == [ps[0] - a] + ShiftAll(ps[1..], a)
  {
  }

  /** One unfolding of `Place`. */
  lemma PlaceStep(t: string, lits: seq<string>, k: nat, pos: nat, x: nat, r: seq<nat>)
    requires k < |lits|
    requires FindLit(t, lits[k], pos) == Some(x) && Place(t, lits, k + 1, x + |lits[k]|) == Some(r)
    ensures Place(t, lits, k, pos) == Some([x] + r)
  {
  }


  lemma {:induction false} ShiftAllAt(ps: seq<nat>, a: nat, j: nat)
    requires j < |ps| && a <= ps[j]
    ensures ShiftAll(ps, a)[j] == ps[j] - a
    decreases |ps|
  {
    if j > 0 { ShiftAllAt(ps[1..], a, j - 1); }
  }

  /** A chain that ends before `b` lies in the window `[a, b)`. */
  lemma {:induction false} ChainWithin(s: string, lits: seq<string>, k: nat, pos: nat, q: seq<nat>, a: nat, b: nat)
    requires k <= |lits| && Chain(s, lits, k, pos, q) && a <= pos
    requires |q| > 0 ==> k + |q| - 1 < |lits| && q[|q| - 1] + |lits[k + |q| - 1]| <= b
    ensures Within(q, lits, k, a, b)
    decreases |lits| - k
  {
    if k < |lits| {
      ChainBounds(s, lits, k, pos, q);
      ChainWithin(s, lits, k + 1, q[0] + |lits[k]|, q[1..], a, b);
      if |q| > 1 {
        assert q[1..][0] == q[1];
        assert q[1] + |lits[k + 1]| <= b by { WithinHead(q[1..], lits, k + 1, a, b); }
      }
    }
  }

  lemma WithinHead(ps: seq<nat>, lits: seq<string>, k: nat, a: nat, b: nat)
    requires Within(ps, lits, k, a, b) && |ps| > 0
    ensures k < |lits| && ps[0] + |lits[k]| <= b
  {
  }

  lemma {:induction false} WithinAt(ps: seq<nat>, lits: seq<string>, k: nat, a: nat, b: nat, j: nat)
    requires Within(ps, lits, k, a, b) && j < |ps|
    ensures k + j < |lits| && a <= ps[j] && ps[j] + |lits[k + j]| <= b
    decreases j
  {
    if j > 0 { WithinAt(ps[1..], lits, k + 1, a, b, j - 1); }
  }

  lemma SliceOfSlice(s: string, a: nat, b: nat, x: nat, y: nat)
    requires a <= x <= y <= b <= |s|
    ensures s[a..b][x - a..y - a] == s[x..y]
  {
    var t := s[a..b];
    forall i | 0 <= i < y - x ensures t[x - a..y - a][i] == s[x..y][i] {
      assert t[x - a..y - a][i] == t[x - a + i] == s[x + i];
    }
  }

  /** The placement behind a match, and the same placement inside the cut-out match. */
  lemma MatchWindowPlace(s: string, p: Pattern, a: nat, ps: seq<nat>)
    requires p.Valid() && LitAt(s, p.lits[0], a)
    requires Place(s, p.lits, 1, a + |p.lits[0]|) == Some(ps)
    ensures |ps| == |p.lits| - 1
    ensures var b := MatchEnd(p, [a] + ps);
      a + |p.lits[0]| <= b <= |s|
      && Within(ps, p.lits, 1, a, b)
      && LitAt(s[a..b], p.lits[0], 0)
      && Place(s[a..b], p.lits, 1, |p.lits[0]|) == Some(ShiftAll(ps, a))
  {
    var lits := p.lits;
    var pos := a + |lits[0]|;
    PlaceEnd(s, p, a, ps);
    var b := MatchEnd(p, [a] + ps);
    PlaceWithin(s, lits, pos, ps, a, b);
    LitWindow(s, lits[0], a, b, a);
    PlaceWindow(s, lits, 1, pos, a, b);
  }

  /** Where the match behind a placement ends: after the first literal, inside `s`, right
      after the last literal placed. */
  lemma PlaceEnd(s: string, p: Pattern, a: nat, ps: seq<nat>)
    requires p.Valid() && LitAt(s, p.lits[0], a)
    requires Place(s, p.lits, 1, a + |p.lits[0]|) == Some(ps)
    ensures |ps| == |p.lits| - 1
    ensures a + |p.lits[0]| <= MatchEnd(p, [a] + ps) <= |s|
    ensures |ps| > 0 ==> ps[|ps| - 1] + |p.lits[|ps|]| == MatchEnd(p, [a] + ps)
  {
    var lits := p.lits;
    MatchShape(s, p, a, ps);
    var q := [a] + ps;
    assert q[|q| - 1] + |lits[|q| - 1]| <= |s|;
    if |ps| > 0 {
      assert q[|ps|] == ps[|ps| - 1];
      assert a + |lits[0]| <= ps[|ps| - 1];
    }
  }

  /** A placement that ends before `b` lies in the window `[a, b)`. */
  lemma PlaceWithin(s: string, lits: seq<string>, pos: nat, ps: seq<nat>, a: nat, b: nat)
    requires 1 <= |lits| && Place(s, lits, 1, pos) == Some(ps) && a <= pos
    requires |ps| > 0 ==> |ps| < |lits| && ps[|ps| - 1] + |lits[|ps|]| <= b
    ensures Within(ps, lits, 1, a, b)
  {
    PlaceSound(s, lits, 1, pos);
    ChainWithin(s, lits, 1, pos, ps, a, b);
  }

  /** The positions of a placement inside the window, shifted by the window's start. */
  lemma Shifted(ps: seq<nat>, lits: seq<string>, a: nat, b: nat)
    requires Within(ps, lits, 1, a, b)
    ensures |ShiftAll(ps, a)| == |ps|
    ensures forall j :: 0 <= j <= |ps| ==> a <= ([a] + ps)[j] && ([0] + ShiftAll(ps, a))[j] == ([a] + ps)[j] - a
  {
    forall j | 0 <= j <= |ps| ensures a <= ([a] + ps)[j] && ([0] + ShiftAll(ps, a))[j] == ([a] + ps)[j] - a {
      if j > 0 {
        WithinAt(ps, lits, 1, a, b, j - 1);
        ShiftAllAt(ps, a, j - 1);
      }
    }
  }

  /** The capture read in the window is the capture read in the text. */
  lemma CaptureShift(s: string, p: Pattern, a: nat, b: nat, q: seq<nat>, q': seq<nat>)
    requires p.Valid() && |q| == |q'| == |p.lits| && a <= b <= |s|
    requires p.cap > 0 ==> a <= q[p.cap - 1] && q[p.cap - 1] + |p.lits[p.cap - 1]| <= q[p.cap] <= b
    requires p.cap > 0 ==> q'[p.cap - 1] == q[p.cap - 1] - a && q'[p.cap] == q[p.cap] - a
    ensures Capture(s[a..b], p, q') == Capture(s, p, q)
  {
    if p.cap > 0 {
      var x, y := q[p.cap - 1] + |p.lits[p.cap - 1]|, q[p.cap];
      SliceOfSlice(s, a, b, x, y);
    }
  }

  /** A match, cut out of the text, is a match of the cut-out text from its start,
      with the same end (shifted) and the same capture. */
  lemma MatchWindow(s: string, p: Pattern, a: nat)
    requires p.Valid() && MatchAt(s, p, a).Some?
    ensures var m := MatchAt(s, p, a).value;
      MatchAt(s[a..m.end], p, 0) == Some(Match(0, m.end - a, m.group))
  {
    var ps := Place(s, p.lits, 1, a + |p.lits[0]|).value;
    MatchAtIs(s, p, a, ps);
    MatchWindowPlace(s, p, a, ps);
    var m := MatchAt(s, p, a).value;
    MatchAtWindow(s, s[a..m.end], p, a, ps, m.end);
  }

  /** The match read in the window `t == s[a..b]` that a placement spans. */
  lemma MatchAtWindow(s: string, t: string, p: Pattern, a: nat, ps: seq<nat>, b: nat)
    requires p.Valid() && LitAt(s, p.lits[0], a)
    requires Place(s, p.lits, 1, a + |p.lits[0]|) == Some(ps) && |ps| == |p.lits| - 1
    requires b == MatchEnd(p, [a] + ps) && a + |p.lits[0]| <= b <= |s| && Within(ps, p.lits, 1, a, b)
    requires t == s[a..b] && LitAt(t, p.lits[0], 0) && Place(t, p.lits, 1, |p.lits[0]|) == Some(ShiftAll(ps, a))
    ensures MatchAt(t, p, 0) == Some(Match(0, b - a, Capture(s, p, [a] + ps)))
  {
    CaptureWindow(s, p, a, ps, b);
    MatchAtOf(t, p, ShiftAll(ps, a), b - a, Capture(s, p, [a] + ps));
  }

  /** A placement at the start fixes the match read there. */
  lemma MatchAtOf(t: string, p: Pattern, qs: seq<nat>, e: nat, c: string)
    requires p.Valid() && LitAt(t, p.lits[0], 0) && Place(t, p.lits, 1, |p.lits[0]|) == Some(qs)
    requires MatchEnd(p, [0] + qs) == e && Capture(t, p, [0] + qs) == c
    ensures MatchAt(t, p, 0) == Some(Match(0, e, c))
  {
    MatchAtIs(t, p, 0, qs);
  }

  /** The end and the capture of a placement, read in the window that ends at the match's
      end. */
  lemma CaptureWindow(s: string, p: Pattern, a: nat, ps: seq<nat>, b: nat)
    requires p.Valid() && LitAt(s, p.lits[0], a)
    requires Place(s, p.lits, 1, a + |p.lits[0]|) == Some(ps) && |ps| == |p.lits| - 1
    requires b == MatchEnd(p, [a] + ps) && a <= b <= |s| && Within(ps, p.lits, 1, a, b)
    ensures MatchEnd(p, [0] + ShiftAll(ps, a)) == b - a
    ensures Capture(s[a..b], p, [0] + ShiftAll(ps, a)) == Capture(s, p, [a] + ps)
  {
    EndWindow(p, a, ps, b);
    CaptureInWindow(s, p, a, ps, b);
  }

  /** The end of a shifted placement is the end of the placement, shifted. */
  lemma EndWindow(p: Pattern, a: nat, ps: seq<nat>, b: nat)
    requires p.Valid() && |ps| == |p.lits| - 1
    requires b == MatchEnd(p, [a] + ps) && Within(ps, p.lits, 1, a, b)
    ensures MatchEnd(p, [0] + ShiftAll(ps, a)) == b - a
  {
    ShiftedAt(ps, p.lits, a, b, |ps|);
  }

  /** The capture of a shifted placement, read in the window. */
  lemma CaptureInWindow(s: string, p: Pattern, a: nat, ps: seq<nat>, b: nat)
    requires p.Valid() && LitAt(s, p.lits[0], a)
    requires Place(s, p.lits, 1, a + |p.lits[0]|) == Some(ps) && |ps| == |p.lits| - 1
    requires a <= b <= |s| && Within(ps, p.lits, 1, a, b)
    ensures Capture(s[a..b], p, [0] + ShiftAll(ps, a)) == Capture(s, p, [a] + ps)
  {
    var lits := p.lits;
    var q, q' := [a] + ps, [0] + ShiftAll(ps, a);
    ShiftedAt(ps, lits, a, b, |ps|);
    if p.cap > 0 {
      GapAt(s, p, a, ps, p.cap);
      ShiftedAt(ps, lits, a, b, p.cap - 1);
      ShiftedAt(ps, lits, a, b, p.cap);
      WithinAt(ps, lits, 1, a, b, p.cap - 1);
      assert q[p.cap] == ps[p.cap - 1];
    }
    CaptureShift(s, p, a, b, q, q');
  }

  /** One position of a shifted placement. */
  lemma ShiftedAt(ps: seq<nat>, lits: seq<string>, a: nat, b: nat, j: nat)
    requires Within(ps, lits, 1, a, b) && j <= |ps|
    ensures |ShiftAll(ps, a)| == |ps|
    ensures a <= ([a] + ps)[j] && ([0] + ShiftAll(ps, a))[j] == ([a] + ps)[j] - a
  {
    Shifted(ps, lits, a, b);
  }

  /** One gap of a placement: literal `j - 1` ends before literal `j` starts. */
  lemma GapAt(s: string, p: Pattern, a: nat, ps: seq<nat>, j: nat)
    requires p.Valid() && LitAt(s, p.lits[0], a)
    requires Place(s, p.lits, 1, a + |p.lits[0]|) == Some(ps)
    requires 0 < j < |p.lits|
    ensures |ps| == |p.lits| - 1 && ([a] + ps)[j - 1] + |p.lits[j - 1]| <= ([a] + ps)[j]
  {
    MatchShape(s, p, a, ps);
  }

  /** Replacing, inside a matched tag, the match by its capture leaves exactly the capture. */
  lemma ReplaceOwnTag(s: string, p: Pattern, m: Match)
    requires p.Valid() && MatchAt(s, p, m.start) == Some(m)
    ensures Replace(s[m.start..m.end], p, Group) == m.group
  {
    var t := s[m.start..m.end];
    MatchWindow(s, p, m.start);
    assert FindMatch(t, p, 0) == Some(Match(0, |t|, m.group));
    assert FindMatch(t, p, |t|) == None;
    assert ReplaceFrom(t, p, Group, |t|) == "";
    assert ReplaceFrom(t, p, Group, 0) == t[0..0] + m.group + "";
  }

  /** Rewriting every tag by its own pattern leaves the captures, in document order. */
  lemma RewriteOwnTags(s: string, p: Pattern)
    requires p.Valid()
    ensures Rewrite(Tags(s, p), p, Group) == Groups(MatchAll(s, p, 0))
  {
    var ms := MatchAll(s, p, 0);
    var tags := Tags(s, p);
    forall i | 0 <= i < |ms| ensures Rewrite(tags, p, Group)[i] == Groups(ms)[i] {
      ReplaceOwnTag(s, p, ms[i]);
    }
  }

  /** The script sources are the `src` captures of the script tags, in document order;
      with no script tag there is nothing (the source's `null`). */
  lemma ScriptSourcesAreCaptures(html: string)
    ensures var ms := MatchAll(html, ScriptTag, 0);
      ScriptSources(html) == if ms == [] then None else Some(Groups(ms))
  {
    RewriteOwnTags(html, ScriptTag);
  }

  /** The stylesheet names, one per `rel="stylesheet"` tag in document order (none: the
      source's `null`): each is its tag with every `href` match replaced by its capture and
      the text around those matches kept, so a tag without an `href` match is its own name. */
  lemma StylesheetNamesAreRewrites(html: string)
    ensures var ms := MatchAll(html, StylesheetTag, 0);
      var r := StylesheetNames(html);
      (r.None? <==> ms == [])
      && (r.Some? ==>
            |r.value| == |ms|
            && forall i :: 0 <= i < |ms| ==>
                 var tag := html[ms[i].start..ms[i].end];
                 var hs := MatchAll(tag, HrefAttr, 0);
                 tag == Weave(Gaps(tag, 0, hs), Spans(tag, hs))
                 && r.value[i] == Weave(Gaps(tag, 0, hs), Fills(hs, Group))
                 && (hs == [] ==> r.value[i] == tag))
  {
    var ms := MatchAll(html, StylesheetTag, 0);
    var tags := Tags(html, StylesheetTag);
    if |tags| > 0 {
      var r := Rewrite(tags, HrefAttr, Group);
      forall i | 0 <= i < |ms|
        ensures var tag := html[ms[i].start..ms[i].end];
          var hs := MatchAll(tag, HrefAttr, 0);
          tag == Weave(Gaps(tag, 0, hs), Spans(tag, hs))
          && r[i] == Weave(Gaps(tag, 0, hs), Fills(hs, Group))
          && (hs == [] ==> r[i] == tag)
      {
        var tag := html[ms[i].start..ms[i].end];
        assert tags[i] == tag;
        assert r[i] == Replace(tag, HrefAttr, Group);
        TagRewrite(tag);
      }
    }
  }

  /** One tag rewritten by `HrefAttr`: its `href` matches replaced by their captures, the
      text around them kept, and the tag whole when nothing matches. */
  lemma TagRewrite(tag: string)
    ensures var hs := MatchAll(tag, HrefAttr, 0);
      tag == Weave(Gaps(tag, 0, hs), Spans(tag, hs))
      && Replace(tag, HrefAttr, Group) == Weave(Gaps(tag, 0, hs), Fills(hs, Group))
      && (hs == [] ==> Replace(tag, HrefAttr, Group) == tag)
  {
    ReplaceWeaves(tag, HrefAttr, Group, 0);
    assert tag[0..] == tag;
    if MatchAll(tag, HrefAttr, 0) == [] { NoMatchNoChange(tag, HrefAttr, Group); }
  }

  /** The pattern built from a script's `src` finds, where the script tag starts, a match:
      each extracted script is inlined at its own tag (lines 84-85 with 98 and 134). The
      source is one line, so the pattern built from it is well behaved. */
  lemma ExternalScriptFindsItsTag(html: string, a: nat)
    requires MatchAt(html, ScriptTag, a).Some?
    ensures OneLine(MatchAt(html, ScriptTag, a).value.group)
    ensures MatchAt(html, ExternalScript(MatchAt(html, ScriptTag, a).value.group), a).Some?
  {
    var lits := ScriptTag.lits;
    assert |lits[0]| == 8;
    var ps := Place(html, lits, 1, a + 8).value;
    MatchAtIs(html, ScriptTag, a, ps);
    PlaceSound(html, lits, 1, a + 8);
    ScriptChainParts(html, a, ps);
    var n := ScriptCapture(html, a, ps);
    FoundFromParts(html, a, ps[0], ps[1], ps[2], n);
  }

  /** The pattern built from the text between `src="` and `"` matches at `a`. */
  lemma FoundFromParts(html: string, a: nat, x: nat, y: nat, z: nat, n: string)
    requires LitAt(html, "<script ", a)
    requires OnOneLine(html, a + 8, x) && LitAt(html, "src=\"", x)
    requires x + 5 <= y && OnOneLine(html, x + 5, y) && LitAt(html, "\"", y)
    requires OnOneLine(html, y + 1, z) && LitAt(html, "</script>", z)
    requires n == html[x + 5..y]
    ensures OneLine(n) && MatchAt(html, ExternalScript(n), a).Some?
  {
    OnOneLineSlice(html, x + 5, y);
    ExternalChain(html, a, x, y, z, n);
    var e := ExternalScript(n);
    PlaceIsLeast(html, e.lits, 1, a + 8, [x, z]);
    MatchAtFromPlace(html, e, a);
  }

  /** The `src` capture of a script tag whose literals sit at `a` and `ps`. */
  lemma ScriptCapture(html: string, a: nat, ps: seq<nat>) returns (n: string)
    requires |ps| == 3 && ps[0] + 5 <= ps[1] <= |html|
    ensures n == html[ps[0] + 5..ps[1]] && Capture(html, ScriptTag, [a] + ps) == n
  {
    var q := [a] + ps;
    assert q[1] == ps[0] && q[2] == ps[1];
    n := html[ps[0] + 5..ps[1]];
  }

  /** A pattern matches where its first literal sits and the others can be placed. */
  lemma MatchAtFromPlace(s: string, p: Pattern, a: nat)
    requires p.Valid() && LitAt(s, p.lits[0], a) && Place(s, p.lits, 1, a + |p.lits[0]|).Some?
    ensures MatchAt(s, p, a).Some?
  {
  }

  /** The literals of a script tag match, one by one. */
  lemma ScriptChainParts(html: string, a: nat, ps: seq<nat>)
    requires Chain(html, ScriptTag.lits, 1, a + 8, ps)
    ensures |ps| == 3
    ensures OnOneLine(html, a + 8, ps[0]) && LitAt(html, "src=\"", ps[0])
    ensures OnOneLine(html, ps[0] + 5, ps[1]) && LitAt(html, "\"", ps[1])
    ensures OnOneLine(html, ps[1] + 1, ps[2]) && LitAt(html, "</script>", ps[2])
  {
    var lits := ScriptTag.lits;
    assert Chain(html, lits, 2, ps[0] + 5, ps[1..]);
    assert Chain(html, lits, 3, ps[1] + 1, ps[2..]);
    assert Chain(html, lits, 4, ps[2] + 9, ps[3..]);
  }

  /** A span on one line holds no line terminator. */
  lemma OnOneLineSlice(s: string, i: nat, j: nat)
    requires OnOneLine(s, i, j)
    ensures OneLine(s[i..j])
  {
    forall k | 0 <= k < j - i ensures !IsLineTerminator(s[i..j][k]) {
      assert s[i..j][k] == s[i + k];
    }
  }

  /** The literals of the pattern built from the source `n` sit where the script tag's do. */
  lemma ExternalChain(html: string, a: nat, x: nat, y: nat, z: nat, n: string)
    requires OnOneLine(html, a + 8, x) && LitAt(html, "src=\"", x)
    requires x + 5 <= y && OnOneLine(html, x + 5, y) && LitAt(html, "\"", y)
    requires OnOneLine(html, y + 1, z) && LitAt(html, "</script>", z)
    requires n == html[x + 5..y]
    ensures Chain(html, ExternalScript(n).lits, 1, a + 8, [x, z])
  {
    var lits := ExternalScript(n).lits;
    var lit := "src=\"" + n + "\"";
    assert lits[1] == lit && |lit| == y + 1 - x;
    forall k | 0 <= k < |lit| ensures SameLetter(html[x + k], lit[k]) {
      if k < 5 {
        assert lit[k] == "src=\""[k];
      } else if k < 5 + |n| {
        assert lit[k] == n[k - 5] == html[x + k];
      } else {
        assert lit[k] == '"' && x + k == y;
      }
    }
    assert LitAt(html, lits[1], x);
    assert Chain(html, lits, 3, z + 9, []);
    assert Chain(html, lits, 2, y + 1, [z]);
    assert [x, z][1..] == [z];
  }

}
