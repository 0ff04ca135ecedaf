/** The asset table of `renderFile` (imagely.js, lines 91-115), the fetch routing of
    `fetchFile` (lines 167-175), the all-or-nothing fetch gate (lines 126-127, 154-158)
    and the inlining pass (lines 128-142). */
module Assets {
  import opened Wrappers
  import opened Text
  import opened Scan
  import opened Extract

  /** `/^https?:\/\//.test(str)`: the text `http`, an optional `s` (tried first, then
      without), and `://`, anchored at the start and case-sensitive. */
  function IsUrl(str: string): (b: bool)
    ensures b <==> StartsWith(str, "http://") || StartsWith(str, "https://")
  {
    StartsWithConcat(str, "http", "://");
    StartsWithConcat(str, "http", "s://");
    if !StartsWith(str, "http") then false
    else
      var rest := str[4..];
      StartsWithConcat(rest, "s", "://");
      (|rest| > 0 && rest[0] == 's' && StartsWith(rest[1..], "://")) || StartsWith(rest, "://")
  }

  /** A prefix made of two parts is the first part followed by the second. */
  lemma StartsWithConcat(s: string, a: string, b: string)
    ensures StartsWith(s, a + b) <==> StartsWith(s, a) && StartsWith(s[|a|..], b)
  {
    if StartsWith(s, a) && StartsWith(s[|a|..], b) {
      assert s[..|a + b|] == s[..|a|] + s[|a|..][..|b|];
    }
    if StartsWith(s, a + b) {
      assert s[..|a|] == (a + b)[..|a|];
      assert s[|a|..][..|b|] == (a + b)[|a|..];
    }
  }

  /** `path.resolve(path.dirname(htmlFile), name)`, kept symbolic. */
  datatype FilePath = Resolve(htmlFile: string, name: string)

  /** What `fetchFile` asks for: an HTTP GET (`request`) or a local read. */
  datatype Request = HttpGet(url: string) | ReadFile(path: FilePath)

  /** The fetch a reference leads to: a URL is fetched as given; any other name is resolved
      against the HTML file's directory and read from disk. */
  function Target(htmlFile: string, name: string): (r: Request)
    ensures r.HttpGet? <==> IsUrl(name)
    ensures r.HttpGet? ==> r.url == name
    ensures r.ReadFile? ==> r.path == Resolve(htmlFile, name)
  {
    if IsUrl(name) then HttpGet(name) else ReadFile(Resolve(htmlFile, name))
  }

  /** The name a request was made for. */
  function NameOf(r: Request): string {
    match r
    case HttpGet(url) => url
    case ReadFile(path) => path.name
  }

  /** The names behind a list of requests. */
  function Names(rs: seq<Request>): (ns: seq<string>)
    ensures |ns| == |rs|
  {
    seq(|rs|, i requires 0 <= i < |rs| => NameOf(rs[i]))
  }

  datatype Kind = Script | Style

  /** `inlineTagName` */
  function TagName(k: Kind): string {
    match k
    case Script => "script"
    case Style => "style"
  }

  /** One entry of `files`: the pattern of the external tag, the inline tag and the fetch. */
  datatype Asset = Asset(externalTag: Pattern, kind: Kind, request: Request)

  function AssetFor(htmlFile: string, name: string, k: Kind): (a: Asset)
    ensures a.externalTag == (if k == Script then ExternalScript(name) else ExternalStylesheet(name))
    ensures a.externalTag.Valid() && a.kind == k && a.request == Target(htmlFile, name)
  {
    match k
    case Script => Asset(ExternalScript(name), Script, Target(htmlFile, name))
    case Style => Asset(ExternalStylesheet(name), Style, Target(htmlFile, name))
  }

  /** `files`: the entries by name, and the order in which the names became keys (the order
      in which the object's keys are enumerated). */
  datatype Table = Table(order: seq<string>, files: map<string, Asset>)

  const EmptyTable := Table([], map[])

  /** Every key once in the order, the order holding exactly the keys, every pattern valid. */
  ghost predicate TableValid(t: Table) {
    (forall i, j :: 0 <= i < j < |t.order| ==> t.order[i] != t.order[j])
    && (forall n :: n in t.order <==> n in t.files)
    && (forall n :: n in t.files ==> t.files[n].externalTag.Valid())
  }

  /** `files[name] = asset`: a new key goes last, an existing key keeps its place. */
  function Put(t: Table, name: string, a: Asset): Table {
    Table(if name in t.files then t.order else t.order + [name], t.files[name := a])
  }

  /** The entries of `names`, one `forEach` over them. */
  function AddAll(t: Table, htmlFile: string, names: seq<string>, k: Kind): Table
    decreases |names|
  {
    if |names| == 0 then t
    else
      var last := names[|names| - 1];
      Put(AddAll(t, htmlFile, names[..|names| - 1], k), last, AssetFor(htmlFile, last, k))
  }

  /** The table after both loops, scripts first, then stylesheets: one entry per distinct
      name, for either kind; a stylesheet's entry replaces a script's entry of the same
      name; the order holds each key once, the script names first. */
  function TableOf(htmlFile: string, scripts: seq<string>, styles: seq<string>): (t: Table)
    ensures TableValid(t)
    ensures forall n :: n in t.files <==> n in scripts || n in styles
    ensures forall n :: n in styles ==> t.files[n] == AssetFor(htmlFile, n, Style)
    ensures forall n :: n in scripts && n !in styles ==> t.files[n] == AssetFor(htmlFile, n, Script)
    ensures AddAll(EmptyTable, htmlFile, scripts, Script).order <= t.order
  {
    var first := AddAll(EmptyTable, htmlFile, scripts, Script);
    AddAllFacts(EmptyTable, htmlFile, scripts, Script);
    AddAllFacts(first, htmlFile, styles, Style);
    AddAll(first, htmlFile, styles, Style)
  }

  /** The key order of the table, which is the order of the inlining pass: each script name
      once in the order of its first appearance, then each stylesheet name that is not a
      script name, once, in the order of its first appearance. */
  lemma TableOrder(htmlFile: string, scripts: seq<string>, styles: seq<string>)
    ensures TableOf(htmlFile, scripts, styles).order == NewKeys([], scripts) + NewKeys(NewKeys([], scripts), styles)
  {
    var first := AddAll(EmptyTable, htmlFile, scripts, Script);
    AddAllFacts(EmptyTable, htmlFile, scripts, Script);
    AddAllOrder(EmptyTable, htmlFile, scripts, Script);
    AddAllOrder(first, htmlFile, styles, Style);
    assert first.order == NewKeys([], scripts);
  }

  /** The fetch each occurrence issues (`fetchFile` is called on every iteration). */
  function Requests(htmlFile: string, names: seq<string>): (rs: seq<Request>)
    ensures |rs| == |names|
    ensures forall i :: 0 <= i < |names| ==> rs[i] == Target(htmlFile, names[i])
  {
    seq(|names|, i requires 0 <= i < |names| => Target(htmlFile, names[i]))
  }

  /** Each fetch can be traced back to its occurrence: the requests name the references in
      order; only `http://`/`https://` addresses are fetched over the network, and what is
      read from disk is a non-URL name resolved against the HTML file. */
  lemma RequestsRoundTrip(htmlFile: string, names: seq<string>)
    ensures Names(Requests(htmlFile, names)) == names
    ensures forall r :: r in Requests(htmlFile, names) ==>
      (r.HttpGet? ==> StartsWith(r.url, "http://") || StartsWith(r.url, "https://"))
      && (r.ReadFile? ==> r.path.htmlFile == htmlFile
                          && !StartsWith(r.path.name, "http://") && !StartsWith(r.path.name, "https://"))
  {
    var rs := Requests(htmlFile, names);
    forall i | 0 <= i < |names| ensures Names(rs)[i] == names[i] {
      assert rs[i] == Target(htmlFile, names[i]);
    }
    forall r | r in rs
      ensures (r.HttpGet? ==> StartsWith(r.url, "http://") || StartsWith(r.url, "https://"))
      ensures r.ReadFile? ==> r.path.htmlFile == htmlFile
                              && !StartsWith(r.path.name, "http://") && !StartsWith(r.path.name, "https://")
    {
      var i :| 0 <= i < |rs| && rs[i] == r;
      assert r == Target(htmlFile, names[i]);
    }
  }

  lemma PutValid(t: Table, name: string, a: Asset)
    requires TableValid(t) && a.externalTag.Valid()
    ensures var t' := Put(t, name, a);
      TableValid(t') && t'.files == t.files[name := a]
      && (forall n :: n in t'.files <==> n in t.files || n == name)
      && t.order <= t'.order
  {
    var t' := Put(t, name, a);
    if name !in t.files {
      forall i, j | 0 <= i < j < |t'.order| ensures t'.order[i] != t'.order[j] {
        if j == |t.order| { assert t'.order[i] == t.order[i] && t.order[i] in t.order; }
      }
    }
  }

  /** `t'` is `t` with the entries of `names` added: valid, holding exactly the old keys and
      those names, each name bound to its own entry, every other entry as it was, and no key
      moved. */
  ghost predicate Extends(t: Table, t': Table, htmlFile: string, names: seq<string>, k: Kind) {
    TableValid(t')
    && (forall n :: n in t'.files <==> n in t.files || n in names)
    && (forall n :: n in names ==> t'.files[n] == AssetFor(htmlFile, n, k))
    && (forall n :: n in t.files && n !in names ==> t'.files[n] == t.files[n])
    && t.order <= t'.order
  }

  lemma ExtendsPut(t: Table, mid: Table, htmlFile: string, init: seq<string>, last: string, k: Kind)
    requires Extends(t, mid, htmlFile, init, k)
    ensures Extends(t, Put(mid, last, AssetFor(htmlFile, last, k)), htmlFile, init + [last], k)
  {
    PutValid(mid, last, AssetFor(htmlFile, last, k));
    forall n ensures n in init + [last] <==> n in init || n == last {
    }
  }

  /** Adding a list of names keeps the table valid, adds exactly those keys, binds each of
      them to its own entry, leaves every other entry alone and never moves a key. */
  lemma {:induction false} AddAllFacts(t: Table, htmlFile: string, names: seq<string>, k: Kind)
    requires TableValid(t)
    ensures Extends(t, AddAll(t, htmlFile, names, k), htmlFile, names, k)
    decreases |names|
  {
    if |names| > 0 {
      var init, last := names[..|names| - 1], names[|names| - 1];
      var mid := AddAll(t, htmlFile, init, k);
      assert init + [last] == names;
      assert AddAll(t, htmlFile, names, k) == Put(mid, last, AssetFor(htmlFile, last, k));
      AddAllFacts(t, htmlFile, init, k);
      ExtendsPut(t, mid, htmlFile, init, last, k);
    } else {
      ExtendsNothing(t, htmlFile, k);
    }
  }

  /** Adding no name changes nothing. */
  lemma ExtendsNothing(t: Table, htmlFile: string, k: Kind)
    requires TableValid(t)
    ensures Extends(t, t, htmlFile, [], k)
  {
    assert t.order <= t.order;
  }

  /** The names of `names` not in `seen`, each once, in the order of their first
      appearance: the keys a `forEach` adds to an object that already has the keys `seen`. */
  function NewKeys(seen: seq<string>, names: seq<string>): seq<string>
    decreases |names|
  {
    if |names| == 0 then []
    else if names[0] in seen then NewKeys(seen, names[1..])
    else [names[0]] + NewKeys(seen + [names[0]], names[1..])
  }

  /** One more name at the end adds it last, unless it was seen or already added. */
  lemma {:induction false} NewKeysSnoc(seen: seq<string>, xs: seq<string>, x: string)
    ensures NewKeys(seen, xs + [x])
      == NewKeys(seen, xs) + (if x in seen || x in NewKeys(seen, xs) then [] else [x])
    decreases |xs|
  {
    if |xs| > 0 {
      assert (xs + [x])[0] == xs[0] && (xs + [x])[1..] == xs[1..] + [x];
      if xs[0] in seen {
        NewKeysSnoc(seen, xs[1..], x);
      } else {
        var seen' := seen + [xs[0]];
        NewKeysSnoc(seen', xs[1..], x);
        assert x in seen' <==> x in seen || x == xs[0];
      }
    } else {
      assert xs + [x] == [x];
    }
  }

  /** The key order after one `forEach`: the old keys, then each new name once, in the order
      in which it first appears. */
  lemma {:induction false} AddAllOrder(t: Table, htmlFile: string, names: seq<string>, k: Kind)
    requires TableValid(t)
    ensures AddAll(t, htmlFile, names, k).order == t.order + NewKeys(t.order, names)
    decreases |names|
  {
    if |names| > 0 {
      var init, last := names[..|names| - 1], names[|names| - 1];
      var mid := AddAll(t, htmlFile, init, k);
      assert init + [last] == names;
      assert AddAll(t, htmlFile, names, k) == Put(mid, last, AssetFor(htmlFile, last, k));
      AddAllOrder(t, htmlFile, init, k);
      AddAllFacts(t, htmlFile, init, k);
      NewKeysSnoc(t.order, init, last);
      PutOrder(t.order, NewKeys(t.order, init), mid, last, AssetFor(htmlFile, last, k));
    } else {
      assert t.order + [] == t.order;
    }
  }

  /** The order after one `files[name] = asset`, given how the order so far was built. */
  lemma PutOrder(before: seq<string>, added: seq<string>, mid: Table, last: string, a: Asset)
    requires TableValid(mid) && mid.order == before + added
    ensures Put(mid, last, a).order
      == before + (added + (if last in before || last in added then [] else [last]))
  {
    assert last in mid.files <==> last in before || last in added;
  }

  /** The two `forEach` loops building `files`, each iteration issuing its fetch. */
  method CollectAssets(htmlFile: string, scripts: seq<string>, styles: seq<string>)
      returns (t: Table, issued: seq<Request>)
    ensures t == TableOf(htmlFile, scripts, styles)
    ensures issued == Requests(htmlFile, scripts) + Requests(htmlFile, styles)
  {
    var scriptRequests, styleRequests;
    t, scriptRequests := AddEach(EmptyTable, htmlFile, scripts, Script);
    t, styleRequests := AddEach(t, htmlFile, styles, Style);
    issued := scriptRequests + styleRequests;
  }

  /** One of those loops: `files[name]` set for each name in turn, with its fetch. */
  method AddEach(t0: Table, htmlFile: string, names: seq<string>, k: Kind)
      returns (t: Table, issued: seq<Request>)
    ensures t == AddAll(t0, htmlFile, names, k)
    ensures issued == Requests(htmlFile, names)
  {
    t, issued := t0, [];
    var i := 0;
    while i < |names|
      invariant 0 <= i <= |names|
      invariant t == AddAll(t0, htmlFile, names[..i], k)
      invariant issued == Requests(htmlFile, names[..i])
    {
      assert names[..i + 1][..i] == names[..i];
      t := Put(t, names[i], AssetFor(htmlFile, names[i], k));
      issued := issued + [Target(htmlFile, names[i])];
      i := i + 1;
    }
    assert names[..i] == names;
  }

  /** How a fetch settles: with the file's text, or rejected (the rejection as the text that
      string concatenation makes of it). */
  datatype Fetched = Content(text: string) | Failed(reason: string)

  /** `Promise.all` over the entries named in `names`, in that order: every content when all
      fetches succeed; otherwise the rejection of a failing one. */
  function GateFrom(names: seq<string>, files: map<string, Asset>, fetch: Request -> Fetched): (r: Result<map<string, string>, string>)
    requires forall n :: n in names ==> n in files
    ensures r.Success? <==> forall n :: n in names ==> fetch(files[n].request).Content?
    ensures r.Success? ==> forall n :: n in r.value <==> n in names
    ensures r.Success? ==> forall n :: n in names ==> r.value[n] == fetch(files[n].request).text
    ensures r.Failure? ==> exists n :: n in names && fetch(files[n].request) == Failed(r.error)
    decreases |names|
  {
    if |names| == 0 then Success(map[])
    else
      var n := names[0];
      assert n in names;
      match fetch(files[n].request)
      case Failed(e) => Failure(e)
      case Content(c) =>
        match GateFrom(names[1..], files, fetch)
        case Failure(e) => Failure(e)
        case Success(m) =>
          assert forall x :: x in names <==> x == n || x in names[1..];
          Success(m[n := c])
  }

  /** The gate over the whole table. */
  function Gate(t: Table, fetch: Request -> Fetched): Result<map<string, string>, string>
    requires TableValid(t)
  {
    GateFrom(t.order, t.files, fetch)
  }

  /** The gate opens exactly when every entry's fetch succeeds, and then holds each entry's
      content; when it stays shut, the reason is the rejection of some entry's fetch. */
  lemma GateFacts(t: Table, fetch: Request -> Fetched)
    requires TableValid(t)
    ensures var r := Gate(t, fetch);
      (r.Success? <==> forall n :: n in t.files ==> fetch(t.files[n].request).Content?)
      && (r.Success? ==> forall n :: n in t.files ==> n in r.value && r.value[n] == fetch(t.files[n].request).text)
      && (r.Failure? ==> exists n :: n in t.files && fetch(t.files[n].request) == Failed(r.error))
  {
  }

  /** An open gate holds a content for every entry. */
  lemma GateKeys(t: Table, fetch: Request -> Fetched)
    requires TableValid(t) && Gate(t, fetch).Success?
    ensures forall n :: n in t.files ==> n in Gate(t, fetch).value
  {
  }

  /** `'<' + tag + '>' + content + '</' + tag + '>'` */
  function InlineTag(k: Kind, content: string): string {
    "<" + TagName(k) + ">" + content + "</" + TagName(k) + ">"
  }

  /** `html.replace(file.externalTag, () => inlineTag)`: a replacer function, so the inline
      tag is inserted literally. */
  function InlineOne(html: string, a: Asset, content: string): string
    requires a.externalTag.Valid()
  {
    Replace(html, a.externalTag, Literal(InlineTag(a.kind, content)))
  }

  /** Every occurrence of the entry's external tag (each non-overlapping match, leftmost
      first) is replaced by exactly the inline tag, which is taken literally, and the text
      between the occurrences is kept. */
  lemma InlineOneWeaves(html: string, a: Asset, content: string)
    requires a.externalTag.Valid()
    ensures var ms := MatchAll(html, a.externalTag, 0);
      var tag := InlineTag(a.kind, content);
      html == Weave(Gaps(html, 0, ms), Spans(html, ms))
      && InlineOne(html, a, content) == Weave(Gaps(html, 0, ms), seq(|ms|, i requires 0 <= i < |ms| => tag))
  {
    var ms := MatchAll(html, a.externalTag, 0);
    var tag := InlineTag(a.kind, content);
    ReplaceWeaves(html, a.externalTag, Literal(tag), 0);
    assert Fills(ms, Literal(tag)) == seq(|ms|, i requires 0 <= i < |ms| => tag);
  }

  /** The inlining pass over the first names of the order. */
  function InlineAll(html: string, names: seq<string>, files: map<string, Asset>, contents: map<string, string>): string
    requires forall n :: n in names ==> n in files && n in contents && files[n].externalTag.Valid()
    decreases |names|
  {
    if |names| == 0 then html
    else
      var last := names[|names| - 1];
      InlineOne(InlineAll(html, names[..|names| - 1], files, contents), files[last], contents[last])
  }

  /** `inlineExternalContent`: `html` reassigned once per entry, in key order. */
  method InlineExternalContent(html: string, t: Table, contents: map<string, string>) returns (r: string)
    requires TableValid(t) && forall n :: n in t.files ==> n in contents
    ensures r == InlineAll(html, t.order, t.files, contents)
  {
    r := html;
    var i := 0;
    while i < |t.order|
      invariant 0 <= i <= |t.order|
      invariant r == InlineAll(html, t.order[..i], t.files, contents)
    {
      assert t.order[..i + 1][..i] == t.order[..i];
      var name := t.order[i];
      assert name in t.order;
      var file := t.files[name];
      r := Replace(r, file.externalTag, Literal(InlineTag(file.kind, contents[name])));
      i := i + 1;
    }
    assert t.order[..i] == t.order;
  }
}
