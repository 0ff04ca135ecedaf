/** The `window.data` injection of `renderFile` (imagely.js, lines 117-124): the compact
    JSON goes into a script right after the first literal `<head>`. */
module Inject {
  import opened Wrappers

  /** The literal searched for: a string pattern, so case-sensitive and without gaps. */
  const Head := "<head>"

  const ScriptOpen := "<script>window.data = "
  const ScriptClose := "</script>"

  /** `'<script>' + 'window.data = ' + json + '</script>'`, with no trailing semicolon. */
  function DataScript(json: string): string {
    ScriptOpen + json + ScriptClose
  }

  /** `pat` occurs in `s` at `i`, exactly (case-sensitive). */
  predicate OccursAt(s: string, pat: string, i: nat) {
    i + |pat| <= |s| && s[i..i + |pat|] == pat
  }

  /** The first occurrence of `pat` in `s` at or after `from`, as `String.prototype.indexOf`. */
  function FindFrom(s: string, pat: string, from: nat): Option<nat>
    decreases |s| - from
  {
    if from + |pat| > |s| then None
    else if OccursAt(s, pat, from) then Some(from)
    else FindFrom(s, pat, from + 1)
  }

  /** `FindFrom` finds the first occurrence, and finds nothing only when there is none. */
  lemma {:induction false} FindFromIsFirst(s: string, pat: string, from: nat)
    ensures var r := FindFrom(s, pat, from);
      (r.Some? ==> from <= r.value && OccursAt(s, pat, r.value))
      && (r.Some? ==> forall j :: from <= j < r.value ==> !OccursAt(s, pat, j))
      && (r.None? ==> forall j :: from <= j ==> !OccursAt(s, pat, j))
    decreases |s| - from
  {
    if from + |pat| <= |s| && !OccursAt(s, pat, from) {
      FindFromIsFirst(s, pat, from + 1);
    }
  }

  /** The search is determined by where the first occurrence is. */
  lemma FindFromUnique(s: string, pat: string, x: nat)
    requires OccursAt(s, pat, x) && forall j :: 0 <= j < x ==> !OccursAt(s, pat, j)
    ensures FindFrom(s, pat, 0) == Some(x)
  {
    FindFromIsFirst(s, pat, 0);
  }

  /** JavaScript's `GetSubstitution` for a string pattern (no capture groups): `$$` is a
      dollar sign, `$&` the matched text, `` $` `` the text before the match, `$'` the text
      after it; every other character, a `$` included, stands for itself. */
  function Expand(t: string, matched: string, before: string, after: string): string
    decreases |t|
  {
    if |t| == 0 then ""
    else if t[0] == '$' && |t| >= 2 && t[1] == '$' then "$" + Expand(t[2..], matched, before, after)
    else if t[0] == '$' && |t| >= 2 && t[1] == '&' then matched + Expand(t[2..], matched, before, after)
    else if t[0] == '$' && |t| >= 2 && t[1] == '`' then before + Expand(t[2..], matched, before, after)
    else if t[0] == '$' && |t| >= 2 && t[1] == '\'' then after + Expand(t[2..], matched, before, after)
    else [t[0]] + Expand(t[1..], matched, before, after)
  }

  /** A replacement text without a dollar sign is inserted as it is. */
  lemma {:induction false} ExpandPlain(a: string, b: string, matched: string, before: string, after: string)
    requires '$' !in a
    ensures Expand(a + b, matched, before, after) == a + Expand(b, matched, before, after)
    decreases |a|
  {
    if |a| > 0 {
      assert (a + b)[0] == a[0] && (a + b)[1..] == a[1..] + b;
      assert a[0] in a;
      assert Expand(a + b, matched, before, after) == [a[0]] + Expand(a[1..] + b, matched, before, after);
      ExpandPlain(a[1..], b, matched, before, after);
      assert [a[0]] + a[1..] == a;
      assert [a[0]] + (a[1..] + Expand(b, matched, before, after)) == a + Expand(b, matched, before, after);
    } else {
      assert a + b == b;
    }
  }

  /** `html.replace('<head>', '<head>' + script)` as written: the replacement is a string,
      so its `$` sequences are expanded. */
  function InjectAsWritten(html: string, json: string): string {
    match FindFrom(html, Head, 0)
    case None => html
    case Some(i) =>
      FindFromIsFirst(html, Head, 0);
      html[..i] + Expand(Head + DataScript(json), Head, html[..i], html[i + |Head|..]) + html[i + |Head|..]
  }

  /** The injection as intended: the script inserted literally after the first `<head>`;
      a document without `<head>` is returned unchanged. */
  function InjectData(html: string, json: string): string {
    match FindFrom(html, Head, 0)
    case None => html
    case Some(i) =>
      FindFromIsFirst(html, Head, 0);
      html[..i + |Head|] + DataScript(json) + html[i + |Head|..]
  }

  /** The injected document is the original with exactly the data script inserted right after
      its first `<head>`: the text up to and including that `<head>` and the text after it
      (later `<head>`s included) are kept; with no `<head>` nothing changes. */
  lemma InjectDataInserts(html: string, json: string)
    ensures var r := InjectData(html, json);
      match FindFrom(html, Head, 0)
      case None => r == html
      case Some(i) =>
        var e, sc := i + |Head|, DataScript(json);
        e <= |html| && |r| == |html| + |sc| && OccursAt(html, Head, i)
        && r[..e] == html[..e] && r[e..e + |sc|] == sc && r[e + |sc|..] == html[e..]
  {
    FindFromIsFirst(html, Head, 0);
    match FindFrom(html, Head, 0)
    case None =>
    case Some(i) =>
      var e, sc := i + |Head|, DataScript(json);
      var r := InjectData(html, json);
      assert r == html[..e] + sc + html[e..];
      assert r[..e] == html[..e];
      assert r[e..e + |sc|] == sc;
      assert r[e + |sc|..] == html[e..];
  }

  /** The first `<head>` of the injected document is where it was, both for the code as
      written and for the intended injection. */
  lemma InjectKeepsFirstHead(html: string, json: string)
    ensures FindFrom(InjectAsWritten(html, json), Head, 0) == FindFrom(html, Head, 0)
    ensures FindFrom(InjectData(html, json), Head, 0) == FindFrom(html, Head, 0)
  {
    InjectDataInserts(html, json);
    InjectAsWrittenInserts(html, json);
    FindFromIsFirst(html, Head, 0);
    match FindFrom(html, Head, 0)
    case None =>
    case Some(i) =>
      var e := i + |Head|;
      var r, w := InjectData(html, json), InjectAsWritten(html, json);
      assert e <= |html| <= |r| && r[..e] == html[..e];
      assert w == html[..e] + (Expand(DataScript(json), Head, html[..i], html[e..]) + html[e..]);
      assert e <= |w| && w[..e] == html[..e];
      SamePrefixSameFirst(html, r, i);
      SamePrefixSameFirst(html, w, i);
  }

  /** A text that agrees with `html` up to the end of its first `<head>` has its first
      `<head>` at the same place. */
  lemma SamePrefixSameFirst(html: string, r: string, i: nat)
    requires FindFrom(html, Head, 0) == Some(i)
    requires i + |Head| <= |html| && i + |Head| <= |r| && r[..i + |Head|] == html[..i + |Head|]
    ensures FindFrom(r, Head, 0) == Some(i)
  {
    FindFromIsFirst(html, Head, 0);
    var e := i + |Head|;
    forall j | 0 <= j <= i ensures OccursAt(r, Head, j) == OccursAt(html, Head, j) {
      PrefixSlice(r, e, j, j + |Head|);
      PrefixSlice(html, e, j, j + |Head|);
    }
    FindFromUnique(r, Head, i);
  }

  /** As written, the document keeps everything up to and including its first `<head>` and
      everything after it; in between comes the data script with its `$` patterns expanded
      against that `<head>`. A document without `<head>` is unchanged. */
  lemma InjectAsWrittenInserts(html: string, json: string)
    ensures var r := InjectAsWritten(html, json);
      match FindFrom(html, Head, 0)
      case None => r == html
      case Some(i) =>
        var e := i + |Head|;
        e <= |html| && OccursAt(html, Head, i)
        && r == html[..e] + Expand(DataScript(json), Head, html[..i], html[e..]) + html[e..]
  {
    FindFromIsFirst(html, Head, 0);
    match FindFrom(html, Head, 0)
    case None =>
    case Some(i) =>
      AsWrittenShape(html, json, i);
  }

  /** The same, once the first `<head>` is known to be at `i`. */
  lemma AsWrittenShape(html: string, json: string, i: nat)
    requires FindFrom(html, Head, 0) == Some(i)
    ensures i + |Head| <= |html|
    ensures InjectAsWritten(html, json) == html[..i + |Head|]
      + Expand(DataScript(json), Head, html[..i], html[i + |Head|..]) + html[i + |Head|..]
  {
    AsWrittenAt(html, json, i);
    FindFromIsFirst(html, Head, 0);
    var e := i + |Head|;
    var before, after := html[..i], html[e..];
    NoDollarPieces();
    ExpandPlain(Head, DataScript(json), Head, before, after);
    HeadPrefix(html, i);
    Splice(before, Head, Expand(DataScript(json), Head, before, after), after,
           Expand(Head + DataScript(json), Head, before, after), html[..e]);
  }

  lemma Splice(before: string, h: string, x: string, after: string, full: string, pre: string)
    requires full == h + x && pre == before + h
    ensures before + full + after == pre + x + after
  {
  }

  /** `InjectAsWritten` once the first `<head>` is known to be at `i`. */
  lemma AsWrittenAt(html: string, json: string, i: nat)
    requires FindFrom(html, Head, 0) == Some(i)
    ensures i + |Head| <= |html|
    ensures InjectAsWritten(html, json)
      == html[..i] + Expand(Head + DataScript(json), Head, html[..i], html[i + |Head|..]) + html[i + |Head|..]
  {
    FindFromIsFirst(html, Head, 0);
  }

  lemma PrefixSlice(s: string, e: nat, j: nat, k: nat)
    requires j <= k <= e <= |s|
    ensures s[..e][j..k] == s[j..k]
  {
  }

  /** With no dollar sign in the JSON the code as written does what is intended. */
  lemma InjectAgreesWithoutDollar(html: string, json: string)
    requires '$' !in json
    ensures InjectAsWritten(html, json) == InjectData(html, json)
  {
    match FindFrom(html, Head, 0)
    case None =>
    case Some(i) =>
      FindFromIsFirst(html, Head, 0);
      var t := Head + DataScript(json);
      ScriptPlain(json);
      ExpandPlain(t, "", Head, html[..i], html[i + |Head|..]);
      assert t + "" == t;
      HeadPrefix(html, i);
  }

  /** The replacement built from a dollar-free JSON text has no dollar sign. */
  lemma ScriptPlain(json: string)
    requires '$' !in json
    ensures '$' !in Head + DataScript(json)
  {
    NoDollarPieces();
  }

  /** The fixed parts of the replacement hold no dollar sign. */
  lemma NoDollarPieces()
    ensures '$' !in Head && '$' !in ScriptOpen && '$' !in ScriptClose
  {
  }

  lemma HeadPrefix(html: string, i: nat)
    requires OccursAt(html, Head, i)
    ensures html[..i] + Head == html[..i + |Head|]
  {
    assert html[..i + |Head|] == html[..i] + html[i..i + |Head|];
  }

  /** A doubled dollar sign between plain text comes out single. */
  lemma ExpandDoubleDollar(pre: string, post: string, matched: string, before: string, after: string)
    requires '$' !in pre && '$' !in post
    ensures Expand(pre + "$$" + post, matched, before, after) == pre + "$" + post
  {
    assert pre + "$$" + post == pre + ("$$" + post);
    ExpandPlain(pre, "$$" + post, matched, before, after);
    assert ("$$" + post)[2..] == post + "";
    ExpandPlain(post, "", matched, before, after);
    assert post + "" == post;
  }

  /** The replacement for a JSON text `"` + `x` + `"`, split around `x`. */
  lemma QuotedScript(x: string)
    ensures Head + DataScript("\"" + x + "\"") == (Head + ScriptOpen + "\"") + x + ("\"" + ScriptClose)
  {
  }

  /** On the document `<head>` alone, the code as written expands the whole replacement. */
  lemma AsWrittenOnHead(json: string)
    ensures InjectAsWritten(Head, json) == Expand(Head + DataScript(json), Head, "", "")
  {
    assert OccursAt(Head, Head, 0);
    FindFromUnique(Head, Head, 0);
    assert Head[..0] == "" && Head[0 + |Head|..] == "";
  }

  /** On the document `<head>` alone, the intended injection appends the script. */
  lemma InjectOnHead(json: string)
    ensures InjectData(Head, json) == Head + DataScript(json)
  {
    assert OccursAt(Head, Head, 0);
    FindFromUnique(Head, Head, 0);
    assert Head[..0 + |Head|] == Head && Head[0 + |Head|..] == "";
  }

  /** The discrepancy: as written, the JSON string value `"$$"` is injected as if it were
      `"$"`, where the intended injection keeps it as it is. */
  lemma DollarsCollapseAsWritten()
    ensures InjectAsWritten(Head, "\"$$\"") == Head + DataScript("\"$\"")
    ensures InjectData(Head, "\"$$\"") == Head + DataScript("\"$$\"")
  {
    var pre, post := Head + ScriptOpen + "\"", "\"" + ScriptClose;
    AsWrittenOnHead("\"$$\"");
    assert "\"$$\"" == "\"" + "$$" + "\"";
    assert "\"$\"" == "\"" + "$" + "\"";
    QuotedScript("$$");
    QuotedScript("$");
    NoDollarPieces();
    ExpandDoubleDollar(pre, post, Head, "", "");
    InjectOnHead("\"$$\"");
  }
}
