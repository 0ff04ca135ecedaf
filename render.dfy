/** `imagely`, `renderUrl`, `renderFile` and `renderPage` (imagely.js, lines 25-159 and
    188-212) as a session that appends engine commands, fetches, callback reports and
    thrown exceptions to a trace. The engine, the file system, the network and the image
    size probe are inputs. */
module Render {
  import opened Wrappers
  import opened Scan
  import opened Extract
  import opened Inject
  import opened Assets

  datatype Callback = Callback(id: nat)

  /** The documented options; an absent property is `None`. */
  datatype Options = Options(width: Option<real>, height: Option<real>, scale: Option<real>,
                             bg: Option<string>, json: Option<string>)

  const NoOptions := Options(None, None, None, None, None)

  /** JavaScript truthiness of a number and of a string. */
  predicate NumberTruthy(v: Option<real>) { v.Some? && v.value != 0.0 }
  predicate TextTruthy(v: Option<string>) { v.Some? && v.value != "" }

  /** The third argument of `imagely`: an options object, a falsy value, or a function. */
  datatype OptionsArg = Given(options: Options) | Falsy | FunctionArg(f: Callback)

  /** `isFunction(options)` */
  predicate IsFunction(arg: OptionsArg) { arg.FunctionArg? }

  /** Lines 26-32: a function in third place is the callback and the options are `{}`;
      a falsy options value becomes `{}`. */
  function Normalise(arg: OptionsArg, callback: Option<Callback>): (r: (Options, Option<Callback>))
    ensures IsFunction(arg) ==> r == (NoOptions, Some(arg.f))
    ensures arg.Falsy? ==> r == (NoOptions, callback)
    ensures arg.Given? ==> r == (arg.options, callback)
  {
    match arg
    case FunctionArg(f) => (NoOptions, Some(f))
    case Falsy => (NoOptions, callback)
    case Given(o) => (o, callback)
  }

  /** What `image-size` gives, `null` being `None`. */
  datatype Dimensions = Dimensions(width: Option<int>, height: Option<int>)

  /** What a callback call passes: the dimensions, as the second argument after a `null`
      error (line 210); or the error, as the only argument: an `Error` object (line 59) or
      a string (line 156). */
  datatype Reported = Rendered(dims: Dimensions) | ErrorObject(message: string) | ErrorString(text: string)

  /** An exception thrown out of `imagely` itself. */
  datatype Thrown = ReadFailed(reason: string) | NullMatch | JsonFailed(reason: string)

  datatype Command =
    | CreateEngine
    | CreatePage
    | Open(url: string)
    | SetContent(html: string)
    | SetViewport(width: Option<real>, height: Option<real>)
    | SetZoom(scale: real)
    | SetBackground(bg: string)
    | Render(destination: string)
    | Exit
    | Fetch(request: Request)
    | Report(callback: Callback, result: Reported)
    | Throw(error: Thrown)

  /** The world the session runs against: the status `page.open` reports, the size probe
      (`None` when it throws), `fs.readFileSync`, the read-parse-stringify of the JSON
      file, and how each fetch settles. */
  datatype Env = Env(status: string, probe: Option<Dimensions>,
                     readText: string -> Result<string, string>,
                     compactJson: string -> Result<string, string>,
                     fetch: Request -> Fetched)

  /** The dimensions passed to the callback: the probe's, or `{width: null, height: null}`. */
  function Probed(probe: Option<Dimensions>): Dimensions {
    if probe.Some? then probe.value else Dimensions(None, None)
  }

  function LoadMessage(url: string): string {
    "Error loading URL \"" + url + "\""
  }

  function FileMessage(filepath: string, err: string): string {
    "Error rendering file \"" + filepath + "\": " + err
  }

  /** The optional steps of `renderPage`. */
  function ViewportStep(o: Options): seq<Command> {
    if NumberTruthy(o.width) || NumberTruthy(o.height) then [SetViewport(o.width, o.height)] else []
  }

  function ZoomStep(o: Options): seq<Command> {
    if NumberTruthy(o.scale) then [SetZoom(o.scale.value)] else []
  }

  function BackgroundStep(o: Options): seq<Command> {
    if TextTruthy(o.bg) then [SetBackground(o.bg.value)] else []
  }

  function ReportStep(cb: Option<Callback>, probe: Option<Dimensions>): seq<Command> {
    if cb.Some? then [Report(cb.value, Rendered(Probed(probe)))] else []
  }

  /** `renderPage`, lines 188-212. */
  function PageTrace(destination: string, o: Options, cb: Option<Callback>, probe: Option<Dimensions>): seq<Command> {
    ViewportStep(o) + ZoomStep(o) + BackgroundStep(o) + [Render(destination), Exit] + ReportStep(cb, probe)
  }

  /** `renderUrl`, lines 51-67. */
  function UrlTrace(url: string, destination: string, o: Options, cb: Option<Callback>, env: Env): seq<Command> {
    [CreateEngine, CreatePage, Open(url)]
    + if env.status == "success" then PageTrace(destination, o, cb, env.probe)
      else if cb.Some? then [Report(cb.value, ErrorObject(LoadMessage(url)))]
      else []
  }

  function FetchCommands(rs: seq<Request>): (cs: seq<Command>)
    ensures |cs| == |rs| && forall i :: 0 <= i < |rs| ==> cs[i] == Fetch(rs[i])
  {
    seq(|rs|, i requires 0 <= i < |rs| => Fetch(rs[i]))
  }

  /** Lines 126-158 once `html` holds the document to inline: the gate, then inlining and
      rendering, or the error report. */
  function SettleTrace(filepath: string, destination: string, o: Options, cb: Option<Callback>, env: Env,
                       html: string, t: Table): seq<Command>
    requires TableValid(t)
  {
    match Gate(t, env.fetch)
    case Failure(e) => if cb.Some? then [Report(cb.value, ErrorString(FileMessage(filepath, e)))] else []
    case Success(contents) =>
      GateKeys(t, env.fetch);
      [CreateEngine, CreatePage, SetContent(InlineAll(html, t.order, t.files, contents))]
      + PageTrace(destination, o, cb, env.probe)
  }

  /** Lines 117-158: the JSON injection (a failure to read or parse the JSON file throws),
      then the gate. */
  function InjectTrace(filepath: string, destination: string, o: Options, cb: Option<Callback>, env: Env,
                       html: string, t: Table): seq<Command>
    requires TableValid(t)
  {
    if !TextTruthy(o.json) then SettleTrace(filepath, destination, o, cb, env, html, t)
    else match env.compactJson(o.json.value)
      case Failure(e) => [Throw(JsonFailed(e))]
      case Success(json) => SettleTrace(filepath, destination, o, cb, env, InjectAsWritten(html, json), t)
  }

  /** Lines 91-158 once the references are known: one fetch per occurrence, then the rest. */
  function ReferencedTrace(filepath: string, destination: string, o: Options, cb: Option<Callback>, env: Env,
                           html: string, scripts: seq<string>, styles: seq<string>): seq<Command> {
    FetchCommands(Requests(filepath, scripts) + Requests(filepath, styles))
    + InjectTrace(filepath, destination, o, cb, env, html, TableOf(filepath, scripts, styles))
  }

  /** `renderFile`, lines 80-159. */
  function FileTrace(filepath: string, destination: string, o: Options, cb: Option<Callback>, env: Env): seq<Command> {
    match env.readText(filepath)
    case Failure(e) => [Throw(ReadFailed(e))]
    case Success(html) =>
      if ScriptSources(html).None? || StylesheetNames(html).None? then [Throw(NullMatch)]
      else ReferencedTrace(filepath, destination, o, cb, env, html, ScriptSources(html).value, StylesheetNames(html).value)
  }

  /** `imagely`, lines 25-40. */
  function ImagelyTrace(source: string, destination: string, arg: OptionsArg, callback: Option<Callback>, env: Env): seq<Command> {
    var (o, cb) := Normalise(arg, callback);
    if IsUrl(source) then UrlTrace(source, destination, o, cb, env)
    else FileTrace(source, destination, o, cb, env)
  }

  /** The command kinds, for counting. */
  datatype CommandKind = EngineKind | PageKind | OpenKind | ContentKind | ViewportKind | ZoomKind
    | BackgroundKind | RenderKind | ExitKind | FetchKind | ReportKind | ThrowKind

  function KindOf(c: Command): CommandKind {
    match c
    case CreateEngine => EngineKind
    case CreatePage => PageKind
    case Open(_) => OpenKind
    case SetContent(_) => ContentKind
    case SetViewport(_, _) => ViewportKind
    case SetZoom(_) => ZoomKind
    case SetBackground(_) => BackgroundKind
    case Render(_) => RenderKind
    case Exit => ExitKind
    case Fetch(_) => FetchKind
    case Report(_, _) => ReportKind
    case Throw(_) => ThrowKind
  }

  /** How many commands of a kind a trace holds. */
  function Count(tr: seq<Command>, k: CommandKind): nat
    decreases |tr|
  {
    if |tr| == 0 then 0 else (if KindOf(tr[0]) == k then 1 else 0) + Count(tr[1..], k)
  }

  lemma {:induction false} CountAppend(a: seq<Command>, b: seq<Command>, k: CommandKind)
    ensures Count(a + b, k) == Count(a, k) + Count(b, k)
    decreases |a|
  {
    if |a| == 0 {
      assert a + b == b;
    } else {
      assert (a + b)[0] == a[0] && (a + b)[1..] == a[1..] + b;
      CountAppend(a[1..], b, k);
    }
  }

  lemma CountOne(c: Command, k: CommandKind)
    ensures Count([c], k) == if KindOf(c) == k then 1 else 0
  {
    assert [c][1..] == [];
  }

  /** Counting over three leading commands. */
  lemma CountThreeThen(a: Command, b: Command, c: Command, rest: seq<Command>, k: CommandKind)
    ensures Count([a, b, c] + rest, k)
      == (if KindOf(a) == k then 1 else 0) + (if KindOf(b) == k then 1 else 0)
         + (if KindOf(c) == k then 1 else 0) + Count(rest, k)
  {
    assert [a, b, c] + rest == [a] + ([b] + ([c] + rest));
    CountAppend([a], [b] + ([c] + rest), k);
    CountAppend([b], [c] + rest, k);
    CountAppend([c], rest, k);
    CountOne(a, k);
    CountOne(b, k);
    CountOne(c, k);
  }

  /** A trace without a command of a kind counts none of it. */
  lemma {:induction false} CountNone(tr: seq<Command>, k: CommandKind)
    requires forall i :: 0 <= i < |tr| ==> KindOf(tr[i]) != k
    ensures Count(tr, k) == 0
    decreases |tr|
  {
    if |tr| > 0 {
      assert forall i :: 0 <= i < |tr| - 1 ==> tr[1..][i] == tr[i + 1];
      CountNone(tr[1..], k);
    }
  }


  /** How many commands of each kind `renderPage` issues. */
  lemma PageCount(destination: string, o: Options, cb: Option<Callback>, probe: Option<Dimensions>, k: CommandKind)
    ensures Count(PageTrace(destination, o, cb, probe), k)
      == Count(ViewportStep(o), k) + Count(ZoomStep(o), k) + Count(BackgroundStep(o), k)
       + (if k == RenderKind || k == ExitKind then 1 else 0) + Count(ReportStep(cb, probe), k)
  {
    var v, z, g, rp := ViewportStep(o), ZoomStep(o), BackgroundStep(o), ReportStep(cb, probe);
    var re := [Render(destination), Exit];
    CountRenderExit(destination, k);
    CountAppend(v, z, k);
    CountAppend(v + z, g, k);
    CountAppend(v + z + g, re, k);
    CountAppend(v + z + g + re, rp, k);
  }

  lemma CountRenderExit(destination: string, k: CommandKind)
    ensures Count([Render(destination), Exit], k) == if k == RenderKind || k == ExitKind then 1 else 0
  {
    CountOne(Render(destination), k);
    CountOne(Exit, k);
    assert [Render(destination)] + [Exit] == [Render(destination), Exit];
    CountAppend([Render(destination)], [Exit], k);
  }

  /** The count of one kind in `renderPage`'s trace. */
  lemma PageCountOf(destination: string, o: Options, cb: Option<Callback>, probe: Option<Dimensions>, k: CommandKind)
    ensures Count(PageTrace(destination, o, cb, probe), k)
      == (if (NumberTruthy(o.width) || NumberTruthy(o.height)) && k == ViewportKind then 1 else 0)
       + (if NumberTruthy(o.scale) && k == ZoomKind then 1 else 0)
       + (if TextTruthy(o.bg) && k == BackgroundKind then 1 else 0)
       + (if k == RenderKind || k == ExitKind then 1 else 0)
       + (if cb.Some? && k == ReportKind then 1 else 0)
  {
    PageCount(destination, o, cb, probe, k);
    ViewportCount(o, k);
    ZoomCount(o, k);
    BackgroundCount(o, k);
    ReportCount(cb, probe, k);
  }

  /** Each optional step counts one command of its own kind when it is taken. */
  lemma ViewportCount(o: Options, k: CommandKind)
    ensures Count(ViewportStep(o), k) == if (NumberTruthy(o.width) || NumberTruthy(o.height)) && k == ViewportKind then 1 else 0
  {
    if NumberTruthy(o.width) || NumberTruthy(o.height) { CountOne(SetViewport(o.width, o.height), k); }
  }

  lemma ZoomCount(o: Options, k: CommandKind)
    ensures Count(ZoomStep(o), k) == if NumberTruthy(o.scale) && k == ZoomKind then 1 else 0
  {
    if NumberTruthy(o.scale) { CountOne(SetZoom(o.scale.value), k); }
  }

  lemma BackgroundCount(o: Options, k: CommandKind)
    ensures Count(BackgroundStep(o), k) == if TextTruthy(o.bg) && k == BackgroundKind then 1 else 0
  {
    if TextTruthy(o.bg) { CountOne(SetBackground(o.bg.value), k); }
  }

  lemma ReportCount(cb: Option<Callback>, probe: Option<Dimensions>, k: CommandKind)
    ensures Count(ReportStep(cb, probe), k) == if cb.Some? && k == ReportKind then 1 else 0
  {
    if cb.Some? { CountOne(Report(cb.value, Rendered(Probed(probe))), k); }
  }




  /** How often `renderPage` issues each command: the viewport iff width or height is
      truthy, the zoom iff scale is, the background iff bg is; one render and one exit; one
      report iff there is a callback; no open, fetch or throw. */
  lemma PageTraceCounts(destination: string, o: Options, cb: Option<Callback>, probe: Option<Dimensions>)
    ensures var tr := PageTrace(destination, o, cb, probe);
      (Count(tr, ViewportKind) == if NumberTruthy(o.width) || NumberTruthy(o.height) then 1 else 0)
      && (Count(tr, ZoomKind) == if NumberTruthy(o.scale) then 1 else 0)
      && (Count(tr, BackgroundKind) == if TextTruthy(o.bg) then 1 else 0)
      && Count(tr, RenderKind) == 1 && Count(tr, ExitKind) == 1
      && (Count(tr, ReportKind) == if cb.Some? then 1 else 0)
      && Count(tr, OpenKind) == 0 && Count(tr, FetchKind) == 0 && Count(tr, ThrowKind) == 0
  {
    PageCountOf(destination, o, cb, probe, ViewportKind);
    PageCountOf(destination, o, cb, probe, ZoomKind);
    PageCountOf(destination, o, cb, probe, BackgroundKind);
    PageCountOf(destination, o, cb, probe, RenderKind);
    PageCountOf(destination, o, cb, probe, ExitKind);
    PageCountOf(destination, o, cb, probe, ReportKind);
    PageCountOf(destination, o, cb, probe, OpenKind);
    PageCountOf(destination, o, cb, probe, FetchKind);
    PageCountOf(destination, o, cb, probe, ThrowKind);
  }

  /** The order of `renderPage`: the viewport is set iff width or height is truthy (with
      exactly those values), the exit comes right after the render, and the callback, if
      any, is reported to last, with the probed dimensions or nulls. */
  lemma PageTraceOrder(destination: string, o: Options, cb: Option<Callback>, probe: Option<Dimensions>)
    ensures var tr := PageTrace(destination, o, cb, probe);
      (SetViewport(o.width, o.height) in tr <==> NumberTruthy(o.width) || NumberTruthy(o.height))
      && (exists i :: 0 <= i < |tr| - 1 && tr[i] == Render(destination) && tr[i + 1] == Exit)
      && (cb.Some? ==> tr[|tr| - 1] == Report(cb.value, Rendered(Probed(probe))))
  {
    var tr := PageTrace(destination, o, cb, probe);
    if NumberTruthy(o.width) || NumberTruthy(o.height) {
      assert tr[0] == SetViewport(o.width, o.height);
    } else {
      PageCountOf(destination, o, cb, probe, ViewportKind);
      CountZeroNotIn(tr, SetViewport(o.width, o.height));
    }
    var i := |ViewportStep(o) + ZoomStep(o) + BackgroundStep(o)|;
    assert tr[i] == Render(destination) && tr[i + 1] == Exit;
  }

  /** A trace counting no command of `c`'s kind does not hold `c`. */
  lemma {:induction false} CountZeroNotIn(tr: seq<Command>, c: Command)
    requires Count(tr, KindOf(c)) == 0
    ensures c !in tr
    decreases |tr|
  {
    if |tr| > 0 {
      CountZeroNotIn(tr[1..], c);
      assert tr == [tr[0]] + tr[1..];
    }
  }

  /** When the page does not load, nothing is rendered and the engine is not exited; the
      callback, if any, gets `Error loading URL "<url>"`, and nothing else follows. */
  lemma UrlLoadFailure(url: string, destination: string, o: Options, cb: Option<Callback>, env: Env)
    requires env.status != "success"
    ensures var tr := UrlTrace(url, destination, o, cb, env);
      Count(tr, RenderKind) == 0 && Count(tr, ExitKind) == 0
      && (cb.Some? ==> tr == [CreateEngine, CreatePage, Open(url), Report(cb.value, ErrorObject(LoadMessage(url)))])
      && (cb.None? ==> tr == [CreateEngine, CreatePage, Open(url)])
  {
    var tr := UrlTrace(url, destination, o, cb, env);
    CountNone(tr, RenderKind);
    CountNone(tr, ExitKind);
  }

  /** When the page loads, the page is rendered once and the engine exited once. */
  lemma UrlLoaded(url: string, destination: string, o: Options, cb: Option<Callback>, env: Env)
    requires env.status == "success"
    ensures var tr := UrlTrace(url, destination, o, cb, env);
      Count(tr, RenderKind) == 1 && Count(tr, ExitKind) == 1 && Count(tr, OpenKind) == 1
      && Count(tr, FetchKind) == 0
  {
    PageCountOf(destination, o, cb, env.probe, RenderKind);
    PageCountOf(destination, o, cb, env.probe, ExitKind);
    PageCountOf(destination, o, cb, env.probe, OpenKind);
    PageCountOf(destination, o, cb, env.probe, FetchKind);
    var page := PageTrace(destination, o, cb, env.probe);
    CountThreeThen(CreateEngine, CreatePage, Open(url), page, RenderKind);
    CountThreeThen(CreateEngine, CreatePage, Open(url), page, ExitKind);
    CountThreeThen(CreateEngine, CreatePage, Open(url), page, OpenKind);
    CountThreeThen(CreateEngine, CreatePage, Open(url), page, FetchKind);
  }

  /** A document without a script tag or without a stylesheet tag throws before any fetch
      is issued. */
  lemma MissingTagsThrow(filepath: string, destination: string, o: Options, cb: Option<Callback>, env: Env)
    requires env.readText(filepath).Success?
    requires var html := env.readText(filepath).value;
      MatchAll(html, ScriptTag, 0) == [] || MatchAll(html, StylesheetTag, 0) == []
    ensures FileTrace(filepath, destination, o, cb, env) == [Throw(NullMatch)]
  {
  }

  /** With both kinds of tag present, the trace opens with one fetch per reference
      occurrence, scripts first, each in document order. */
  lemma FetchesFirst(filepath: string, destination: string, o: Options, cb: Option<Callback>, env: Env)
    requires env.readText(filepath).Success?
    requires var html := env.readText(filepath).value;
      ScriptSources(html).Some? && StylesheetNames(html).Some?
    ensures var html := env.readText(filepath).value;
      var rs := Requests(filepath, ScriptSources(html).value) + Requests(filepath, StylesheetNames(html).value);
      var tr := FileTrace(filepath, destination, o, cb, env);
      |rs| <= |tr| && tr[..|rs|] == FetchCommands(rs)
  {
  }

  /** When the fetch of some entry fails, nothing is inlined, no engine is created and
      nothing is rendered: the callback, if any, gets `Error rendering file "<filepath>":
      <err>` with the rejection of a failing fetch of the table, and that is all. */
  lemma SettleFailure(filepath: string, destination: string, o: Options, cb: Option<Callback>, env: Env,
                      html: string, t: Table)
    requires TableValid(t)
    requires exists n :: n in t.files && env.fetch(t.files[n].request).Failed?
    ensures var tr := SettleTrace(filepath, destination, o, cb, env, html, t);
      && (cb.None? ==> tr == [])
      && (cb.Some? ==> exists n, e :: n in t.files && env.fetch(t.files[n].request) == Failed(e)
                                      && tr == [Report(cb.value, ErrorString(FileMessage(filepath, e)))])
  {
    GateFacts(t, env.fetch);
    var e := Gate(t, env.fetch).error;
    var n :| n in t.files && env.fetch(t.files[n].request) == Failed(e);
  }

  /** When every entry's fetch succeeds, the page content is the document with every entry
      inlined, and the page is rendered once and the engine exited once. */
  lemma SettleSuccess(filepath: string, destination: string, o: Options, cb: Option<Callback>, env: Env,
                      html: string, t: Table)
    requires TableValid(t)
    requires forall n :: n in t.files ==> env.fetch(t.files[n].request).Content?
    ensures Gate(t, env.fetch).Success?
    ensures var tr := SettleTrace(filepath, destination, o, cb, env, html, t);
      var contents := Gate(t, env.fetch).value;
      (forall n :: n in t.files ==> n in contents && contents[n] == env.fetch(t.files[n].request).text)
      && |tr| >= 3
      && tr[..3] == [CreateEngine, CreatePage, SetContent(InlineAll(html, t.order, t.files, contents))]
      && Count(tr, RenderKind) == 1 && Count(tr, ExitKind) == 1
  {
    GateFacts(t, env.fetch);
    var contents := Gate(t, env.fetch).value;
    var page := PageTrace(destination, o, cb, env.probe);
    var c := SetContent(InlineAll(html, t.order, t.files, contents));
    PageCountOf(destination, o, cb, env.probe, RenderKind);
    PageCountOf(destination, o, cb, env.probe, ExitKind);
    CountThreeThen(CreateEngine, CreatePage, c, page, RenderKind);
    CountThreeThen(CreateEngine, CreatePage, c, page, ExitKind);
  }

  /** URL sources go to `renderUrl` only (the page is opened, nothing is read or fetched);
      every other source goes to `renderFile` (no page is opened by URL). */
  lemma Dispatch(source: string, destination: string, arg: OptionsArg, callback: Option<Callback>, env: Env)
    ensures var tr := ImagelyTrace(source, destination, arg, callback, env);
      var (o, cb) := Normalise(arg, callback);
      (IsUrl(source) ==> tr[..3] == [CreateEngine, CreatePage, Open(source)] && Count(tr, FetchKind) == 0)
      && (!IsUrl(source) ==> tr == FileTrace(source, destination, o, cb, env) && Count(tr, OpenKind) == 0)
  {
    var (o, cb) := Normalise(arg, callback);
    if IsUrl(source) {
      var rest := if env.status == "success" then PageTrace(destination, o, cb, env.probe)
        else if cb.Some? then [Report(cb.value, ErrorObject(LoadMessage(source)))] else [];
      assert UrlTrace(source, destination, o, cb, env) == [CreateEngine, CreatePage, Open(source)] + rest;
      CountThreeThen(CreateEngine, CreatePage, Open(source), rest, FetchKind);
      if env.status == "success" {
        PageCountOf(destination, o, cb, env.probe, FetchKind);
      } else {
        CountNone(rest, FetchKind);
      }
    } else {
      FileNeverOpens(source, destination, o, cb, env);
    }
  }

  /** The short forms of lines 26-32: `imagely(source, destination, f)` behaves as
      `imagely(source, destination, undefined, f)`, whatever is passed fourth, and a falsy
      options value behaves as `{}`. */
  lemma ShortForms(source: string, destination: string, f: Callback, callback: Option<Callback>, env: Env)
    ensures ImagelyTrace(source, destination, FunctionArg(f), callback, env)
      == ImagelyTrace(source, destination, Falsy, Some(f), env)
    ensures ImagelyTrace(source, destination, Falsy, callback, env)
      == ImagelyTrace(source, destination, Given(NoOptions), callback, env)
  {
  }

  /** With JSON data free of `$`, the injection the program performs is the intended one. */
  lemma InjectTraceWithoutDollar(filepath: string, destination: string, o: Options, cb: Option<Callback>, env: Env,
                                 html: string, t: Table)
    requires TableValid(t)
    requires TextTruthy(o.json) && env.compactJson(o.json.value).Success?
    requires '$' !in env.compactJson(o.json.value).value
    ensures InjectTrace(filepath, destination, o, cb, env, html, t)
      == SettleTrace(filepath, destination, o, cb, env, InjectData(html, env.compactJson(o.json.value).value), t)
  {
    InjectAgreesWithoutDollar(html, env.compactJson(o.json.value).value);
  }

  /** `renderFile` never opens a page by URL. */
  lemma FileNeverOpens(filepath: string, destination: string, o: Options, cb: Option<Callback>, env: Env)
    ensures Count(FileTrace(filepath, destination, o, cb, env), OpenKind) == 0
  {
    match env.readText(filepath)
    case Failure(e) => CountOne(Throw(ReadFailed(e)), OpenKind);
    case Success(html) =>
      var scripts, styles := ScriptSources(html), StylesheetNames(html);
      if scripts.None? || styles.None? {
        CountOne(Throw(NullMatch), OpenKind);
      } else {
        ReferencedNeverOpens(filepath, destination, o, cb, env, html, scripts.value, styles.value);
      }
  }

  lemma ReferencedNeverOpens(filepath: string, destination: string, o: Options, cb: Option<Callback>, env: Env,
                             html: string, scripts: seq<string>, styles: seq<string>)
    ensures Count(ReferencedTrace(filepath, destination, o, cb, env, html, scripts, styles), OpenKind) == 0
  {
    var fs := FetchCommands(Requests(filepath, scripts) + Requests(filepath, styles));
    var t := TableOf(filepath, scripts, styles);
    CountNone(fs, OpenKind);
    InjectNeverOpens(filepath, destination, o, cb, env, html, t);
    CountAppend(fs, InjectTrace(filepath, destination, o, cb, env, html, t), OpenKind);
  }

  lemma InjectNeverOpens(filepath: string, destination: string, o: Options, cb: Option<Callback>, env: Env,
                         html: string, t: Table)
    requires TableValid(t)
    ensures Count(InjectTrace(filepath, destination, o, cb, env, html, t), OpenKind) == 0
  {
    if !TextTruthy(o.json) {
      SettleNeverOpens(filepath, destination, o, cb, env, html, t);
    } else {
      match env.compactJson(o.json.value)
      case Failure(e) => CountOne(Throw(JsonFailed(e)), OpenKind);
      case Success(json) => SettleNeverOpens(filepath, destination, o, cb, env, InjectAsWritten(html, json), t);
    }
  }

  lemma SettleNeverOpens(filepath: string, destination: string, o: Options, cb: Option<Callback>, env: Env,
                         html: string, t: Table)
    requires TableValid(t)
    ensures Count(SettleTrace(filepath, destination, o, cb, env, html, t), OpenKind) == 0
  {
    match Gate(t, env.fetch)
    case Failure(e) =>
      if cb.Some? { CountOne(Report(cb.value, ErrorString(FileMessage(filepath, e))), OpenKind); }
    case Success(contents) =>
      GateKeys(t, env.fetch);
      PageCountOf(destination, o, cb, env.probe, OpenKind);
      CountThreeThen(CreateEngine, CreatePage, SetContent(InlineAll(html, t.order, t.files, contents)),
                     PageTrace(destination, o, cb, env.probe), OpenKind);
  }

  /** `renderPage`'s trace appended step by step is the whole trace appended. */
  lemma PageSteps(base: seq<Command>, destination: string, o: Options, cb: Option<Callback>, probe: Option<Dimensions>)
    ensures base + ViewportStep(o) + ZoomStep(o) + BackgroundStep(o) + [Render(destination), Exit] + ReportStep(cb, probe)
         == base + PageTrace(destination, o, cb, probe)
  {
    var v, z, g, re, rp := ViewportStep(o), ZoomStep(o), BackgroundStep(o), [Render(destination), Exit], ReportStep(cb, probe);
    assert base + v + z + g + re + rp == base + (v + z + g + re + rp);
  }

  /** The session: the trace of everything observable that has happened so far. */
  class Session {
    var trace: seq<Command>

    constructor()
      ensures trace == []
    {
      trace := [];
    }

    method RenderPage(destination: string, o: Options, cb: Option<Callback>, probe: Option<Dimensions>)
      modifies this
      ensures trace == old(trace) + PageTrace(destination, o, cb, probe)
    {
      ghost var t0 := trace;
      if NumberTruthy(o.width) || NumberTruthy(o.height) {
        trace := trace + [SetViewport(o.width, o.height)];
      }
      ghost var t1 := trace;
      assert t1 == t0 + ViewportStep(o);
      if NumberTruthy(o.scale) {
        trace := trace + [SetZoom(o.scale.value)];
      }
      ghost var t2 := trace;
      assert t2 == t1 + ZoomStep(o);
      if TextTruthy(o.bg) {
        trace := trace + [SetBackground(o.bg.value)];
      }
      ghost var t3 := trace;
      assert t3 == t2 + BackgroundStep(o);
      trace := trace + [Render(destination), Exit];
      ghost var t4 := trace;
      if cb.Some? {
        var dims := if probe.Some? then probe.value else Dimensions(None, None);
        trace := trace + [Report(cb.value, Rendered(dims))];
      }
      assert trace == t4 + ReportStep(cb, probe);
      PageSteps(t0, destination, o, cb, probe);
    }

    method RenderUrl(url: string, destination: string, o: Options, cb: Option<Callback>, env: Env)
      modifies this
      ensures trace == old(trace) + UrlTrace(url, destination, o, cb, env)
    {
      trace := trace + [CreateEngine, CreatePage, Open(url)];
      if env.status == "success" {
        RenderPage(destination, o, cb, env.probe);
      } else if cb.Some? {
        trace := trace + [Report(cb.value, ErrorObject(LoadMessage(url)))];
      }
    }

    method RenderFile(filepath: string, destination: string, o: Options, cb: Option<Callback>, env: Env)
      modifies this
      ensures trace == old(trace) + FileTrace(filepath, destination, o, cb, env)
    {
      var read := env.readText(filepath);
      if read.Failure? {
        trace := trace + [Throw(ReadFailed(read.error))];
        return;
      }
      var html := read.value;
      var scripts, styles := ScriptSources(html), StylesheetNames(html);
      if scripts.None? || styles.None? {
        trace := trace + [Throw(NullMatch)];
        return;
      }
      RenderReferenced(filepath, destination, o, cb, env, html, scripts.value, styles.value);
    }

    /** Lines 91-124 and the promise chain after them. */
    method RenderReferenced(filepath: string, destination: string, o: Options, cb: Option<Callback>, env: Env,
                            html: string, scripts: seq<string>, styles: seq<string>)
      modifies this
      ensures trace == old(trace) + ReferencedTrace(filepath, destination, o, cb, env, html, scripts, styles)
    {
      var t, issued := CollectAssets(filepath, scripts, styles);
      FetchThenInject(filepath, destination, o, cb, env, html, t, issued);
    }

    /** The fetches already issued by the loop of lines 95-110, then the rest of the file. */
    method FetchThenInject(filepath: string, destination: string, o: Options, cb: Option<Callback>, env: Env,
                           html: string, t: Table, issued: seq<Request>)
      requires TableValid(t)
      modifies this
      ensures trace == old(trace) + FetchCommands(issued) + InjectTrace(filepath, destination, o, cb, env, html, t)
    {
      IssueFetches(issued);
      Inject(filepath, destination, o, cb, env, html, t);
    }

    /** The `fetchFile` calls of lines 95-110, one per occurrence, in order. */
    method IssueFetches(issued: seq<Request>)
      modifies this
      ensures trace == old(trace) + FetchCommands(issued)
    {
      var i := 0;
      while i < |issued|
        invariant 0 <= i <= |issued|
        invariant trace == old(trace) + FetchCommands(issued[..i])
      {
        assert FetchCommands(issued[..i + 1]) == FetchCommands(issued[..i]) + [Fetch(issued[i])];
        trace := trace + [Fetch(issued[i])];
        i := i + 1;
      }
      assert issued[..i] == issued;
    }

    /** Lines 117-124 (`html` reassigned with the data script), then the gate. */
    method Inject(filepath: string, destination: string, o: Options, cb: Option<Callback>, env: Env,
                  html: string, t: Table)
      requires TableValid(t)
      modifies this
      ensures trace == old(trace) + InjectTrace(filepath, destination, o, cb, env, html, t)
    {
      var document := html;
      if TextTruthy(o.json) {
        var json := env.compactJson(o.json.value);
        if json.Failure? {
          trace := trace + [Throw(JsonFailed(json.error))];
          return;
        }
        document := InjectAsWritten(html, json.value);
      }
      Settle(filepath, destination, o, cb, env, document, t);
    }

    /** Lines 126-158: the gate, then inlining and rendering, or the error report. */
    method Settle(filepath: string, destination: string, o: Options, cb: Option<Callback>, env: Env,
                  html: string, t: Table)
      requires TableValid(t)
      modifies this
      ensures trace == old(trace) + SettleTrace(filepath, destination, o, cb, env, html, t)
    {
      match Gate(t, env.fetch)
      case Failure(e) =>
        if cb.Some? {
          trace := trace + [Report(cb.value, ErrorString(FileMessage(filepath, e)))];
        }
      case Success(contents) =>
        GateKeys(t, env.fetch);
        RenderInlined(destination, o, cb, env, html, t, contents);
    }

    /** `inlineExternalContent`, then `renderHtml` (lines 128-153). */
    method RenderInlined(destination: string, o: Options, cb: Option<Callback>, env: Env,
                         html: string, t: Table, contents: map<string, string>)
      requires TableValid(t) && forall n :: n in t.files ==> n in contents
      modifies this
      ensures trace == old(trace) + [CreateEngine, CreatePage, SetContent(InlineAll(html, t.order, t.files, contents))]
                                  + PageTrace(destination, o, cb, env.probe)
    {
      var inlined := InlineExternalContent(html, t, contents);
      trace := trace + [CreateEngine, CreatePage, SetContent(inlined)];
      RenderPage(destination, o, cb, env.probe);
    }

    method Imagely(source: string, destination: string, arg: OptionsArg, callback: Option<Callback>, env: Env)
      modifies this
      ensures trace == old(trace) + ImagelyTrace(source, destination, arg, callback, env)
    {
      var o, cb := NoOptions, callback;
      if IsFunction(arg) {
        cb := Some(arg.f);
      } else if arg.Given? {
        o := arg.options;
      }
      if IsUrl(source) {
        RenderUrl(source, destination, o, cb, env);
      } else {
        RenderFile(source, destination, o, cb, env);
      }
    }
  }
}
