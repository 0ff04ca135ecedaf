# imagely: a Dafny model of the rendering core

imagely turns an HTML page into an image with the PhantomJS headless browser. Its
entry point `imagely(source, destination, options, callback)` is in `imagely.js` and
does one of two things:

- A source that is an `http://` or `https://` URL is opened in the browser and rendered.
- Any other source is read as a local HTML file. Its external scripts and stylesheets are
  found, fetched (by HTTP or from disk) and inlined. A `window.data` script with the
  contents of an optional JSON file is injected after the first `<head>`. The resulting
  document is handed to the browser and rendered.

The callback gets an error, or the dimensions of the image that was written.

The model has seven modules, one file each:

- `wrappers.dfy` (`Wrappers`): `Option` and `Result`.
- `text.dfy` (`Text`): characters, line terminators, ASCII case folding, prefixes.
- `scan.dfy` (`Scan`): the regular expressions of the file. Each one is a chain of
  literals joined by lazy `.*?` gaps and carries the `g` and `i` flags. The module
  defines the match JavaScript finds (`MatchAt`), the leftmost search (`FindMatch`), the
  global `match` (`MatchAll`) and the global `replace` (`Replace`). They are proved
  against the set of all ways such a pattern can match.
- `extract.dfy` (`Extract`): how the script sources and stylesheet names are taken from
  the document, and the `externalTag` patterns built from those names.
- `inject.dfy` (`Inject`): the `window.data` injection, both as written and as intended
  (see Findings). The rendering model performs the injection as written, with the `$`
  expansion of line 123; `Render.InjectTraceWithoutDollar` shows that for JSON data
  without `$` this is the intended injection.
- `assets.dfy` (`Assets`):
  - `isUrl`;
  - the routing of `fetchFile`;
  - the `files` table, with its key order;
  - the all-or-nothing `Promise.all` gate;
  - the inlining pass.
- `render.dfy` (`Render`): `imagely`, `renderUrl`, `renderFile` and `renderPage`. A
  `Session` class appends to a trace everything observable that happens: browser
  commands, fetches, callback calls and exceptions thrown. Each method is proved to
  append exactly the trace that a specification function computes. Lemmas about those
  functions state what the source promises.

Where a description of the program and the code differ, the model follows the code:

- A name referenced twice issues two fetches, one per occurrence, because `fetchFile` is
  called in every iteration (imagely.js:95-110). The table still holds one entry per name,
  and only the last entry's fetch is awaited.
- A stylesheet with the same name as a script replaces the script's entry.
- A document with no external script, or no `rel="stylesheet"` link, makes `match` return
  `null`. The following `.map` then throws before anything is fetched
  (imagely.js:84-89, `Render.MissingTagsThrow`).
- The file name in the `Error rendering file` message is the outer `filepath` parameter.
  The inner `var filepath` declarations are local to their `forEach` callbacks.

## Model

| member | source | states |
|---|---|---|
| Scan.FindLitIsEarliest | imagely.js:84-88 | A lazy gap followed by a literal stops at the earliest case-insensitive occurrence of the literal that is reachable without crossing a line terminator. It fails only when no such occurrence exists. |
| Scan.PlaceSound | imagely.js:84-88 | The greedy-earliest placement of a pattern's literals is a valid way to match. |
| Scan.PlaceIsLeast | imagely.js:84-88 | When any way to match exists, the greedy-earliest placement exists and is pointwise no later than every other way. It is therefore the match a backtracking engine finds. |
| Scan.FindMatch | imagely.js:84-88 | Gives the leftmost position at or after the start where the pattern matches. Finds nothing only when no position matches. |
| Scan.MatchAll | imagely.js:84 | Global `match`: every listed match is a real match at its start. The matches come in document order and do not overlap. |
| Scan.MatchAllLeftmost | imagely.js:84-88 | Global `match` skips nothing: no position between the point where a search resumes and the next listed match (or the end) starts a match. |
| Scan.ReplaceWeaves | imagely.js:85-88 | Global `replace` keeps the text between matches unchanged and puts exactly the replacement (the capture, or a literal text) where each match was. |
| Scan.NoMatchNoChange | imagely.js:88 | A text in which the pattern never matches is returned unchanged by `replace`. |
| Extract.ExternalScript | imagely.js:98 | The per-name script pattern is well formed. When the name holds no line terminator, none of the pattern's literals does, so the lazy gaps are the only parts that can stop at a line end. |
| Extract.ExternalStylesheet | imagely.js:106 | The per-name stylesheet pattern is well formed. When the name holds no line terminator, none of the pattern's literals does. |
| Extract.ReplaceOwnTag | imagely.js:85 | Replacing a matched tag by the tag's own pattern yields exactly that match's capture. |
| Extract.RewriteOwnTags | imagely.js:84-86 | Mapping every matched tag through its own pattern yields the captures of the matches, in document order. |
| Extract.ScriptSourcesAreCaptures | imagely.js:84-86 | The script list is the `src` capture of each script tag, in document order. It is `null` exactly when there is no script tag. |
| Extract.ExternalScriptFindsItsTag | imagely.js:84-98 | Wherever the script-tag expression matches, its `src` capture is a one-line name, and the pattern built from that name for the `files` entry matches at the same place. So every script tag found in the document is one that the pattern of line 98 can find again. If a stylesheet of the same name replaces the entry (line 105), that script tag is not inlined, in the source as in the model. |
| Extract.StylesheetNamesAreRewrites | imagely.js:87-89 | The stylesheet list has one name per `rel="stylesheet"` tag, in document order, and is `null` exactly when there is none. Each name is its tag with every `href` match replaced by its capture. A tag with no `href` match is its own name. |
| Inject.FindFromIsFirst | imagely.js:123 | The string search used by `replace` with a string pattern finds the first exact occurrence of `<head>`. It finds nothing only when `<head>` does not occur. |
| Inject.InjectDataInserts | imagely.js:117-124 | The corrected injection inserts exactly the `<script>window.data = …</script>` text right after the first `<head>` and keeps everything else. A document without `<head>` is unchanged. |
| Inject.InjectAsWrittenInserts | imagely.js:123 | As written: a document without `<head>` is unchanged. Otherwise the text up to and including the first `<head>` and the text after it are kept, and between them comes the data script after JavaScript's `$`-pattern expansion against that match. |
| Inject.InjectKeepsFirstHead | imagely.js:123 | Both as written and corrected, the first `<head>` is still where it was after injection. |
| Inject.InjectAgreesWithoutDollar | imagely.js:121-123 | When the JSON text has no `$`, the code as written and the corrected injection give the same document. |
| Inject.DollarsCollapseAsWritten | imagely.js:123 | As written, injecting the JSON string `"$$"` into `<head>` produces `"$"`. The corrected injection produces `"$$"`. |
| Assets.IsUrl | imagely.js:231-233 | True exactly when the text starts with `http://` or `https://`. The test is case-sensitive. |
| Assets.RequestsRoundTrip | imagely.js:95-108 | The fetches of one `forEach` name exactly its references, one per occurrence, in order. Only a name starting with `http://` or `https://` is fetched over HTTP. Every other name is read from disk, resolved against the HTML file (the choice is at lines 96, 104 and 168). |
| Assets.PutValid | imagely.js:97-105 | Assigning `files[name]` keeps the table consistent. It binds the name to the entry and adds only that key. A new key goes last and existing keys keep their places. |
| Assets.AddAllFacts | imagely.js:95-110 | One `forEach` adds exactly the names it visits. The table stays consistent, each visited name is bound to its own entry, every other entry is untouched, and no existing key moves. |
| Assets.TableOf | imagely.js:91-110 | The table from both loops has one entry per distinct name of either kind. A stylesheet entry wins over a script entry of the same name. The order lists each key once, with the script names first. |
| Assets.AddAllOrder | imagely.js:95-110 | One `forEach` appends to the key order exactly the visited names that are not keys yet, each once, in the order of first appearance. |
| Assets.TableOrder | imagely.js:91-110 | The key order of the whole table, which is the order of the inlining pass (line 129): the script names at their first appearance, then the stylesheet names that are not script names, at their first appearance. |
| Assets.AddEach | imagely.js:95-102 | The loop computes the table of one `forEach` and issues one fetch per visited name. |
| Assets.CollectAssets | imagely.js:91-110 | Both loops together give the table of `TableOf` and issue the script fetches, then the stylesheet fetches. |
| Assets.GateFrom | imagely.js:126-127 | The gate opens exactly when every awaited fetch succeeds, and then holds each entry's content. When it stays shut, the reason is the rejection of some entry's fetch. |
| Assets.GateFacts | imagely.js:126-127 | The same, over the whole table. |
| Assets.GateKeys | imagely.js:126-129 | An open gate gives a content for every entry that is inlined. |
| Assets.InlineOneWeaves | imagely.js:129-138 | Every match of an entry's external tag is replaced by exactly `<tag>content</tag>`, taken literally with no `$` expansion. The text between matches is kept. |
| Assets.InlineExternalContent | imagely.js:128-142 | The loop reassigns `html` once per entry, in key order, and gives the document with every entry inlined. |
| Render.ShortForms | imagely.js:26-32 | Passing a function third behaves exactly like passing a falsy options value with that function as the callback, whatever is passed fourth. A falsy options value behaves exactly like empty options. |
| Render.Dispatch | imagely.js:34-39 | A URL source opens that URL in the browser and issues no fetch. Any other source is rendered as a file and opens no page. |
| Render.PageTraceCounts | imagely.js:188-212 | The viewport is set iff width or height is truthy, the zoom iff scale is truthy, and the background iff bg is truthy. There is one render and one exit. There is one report iff there is a callback. Nothing is opened, fetched or thrown. |
| Render.PageTraceOrder | imagely.js:189-211 | The viewport is set iff width or height is truthy, with those values. The exit comes right after the render. A callback is called last, with the probed dimensions or nulls. |
| Render.UrlLoadFailure | imagely.js:54-60 | When the page does not load, nothing is rendered and the browser is not exited. A callback, if any, gets `Error loading URL "<url>"`, and nothing follows. |
| Render.UrlLoaded | imagely.js:51-57 | When the page loads, it is opened once, rendered once and the browser exited once, and nothing is fetched. |
| Render.MissingTagsThrow | imagely.js:84-89 | A document with no script tag or no stylesheet tag throws and issues no fetch. |
| Render.FetchesFirst | imagely.js:95-110 | Otherwise the trace begins with one fetch per reference occurrence: scripts first, each kind in document order. |
| Render.SettleFailure | imagely.js:154-158 | When some entry's fetch fails, no browser is created and nothing is rendered. A callback, if any, gets `Error rendering file "<filepath>": <err>` with a failing fetch's rejection, and that is all. |
| Render.SettleSuccess | imagely.js:126-153 | When every fetch succeeds, the page content is the document with every entry inlined with its fetched text. The page is rendered once and the browser exited once. |
| Render.InjectTraceWithoutDollar | imagely.js:117-124 | When the compacted JSON has no `$`, the injection step as written behaves exactly like the corrected injection followed by the settle step. |
| Render.FileNeverOpens | imagely.js:80-159 | Rendering a file never opens a page by URL. |
| Render.ReferencedNeverOpens | imagely.js:91-158 | Neither do the fetch, injection and settle steps. |
| Render.InjectNeverOpens | imagely.js:117-158 | Nor do the injection and settle steps. |
| Render.SettleNeverOpens | imagely.js:126-158 | Nor does the settle step. |
| Render.Session.constructor | imagely.js:25 | A fresh session has an empty trace. |
| Render.Session.RenderPage | imagely.js:188-212 | Appends exactly the page steps: the optional viewport, zoom and background, then render, exit and the callback report. |
| Render.Session.RenderUrl | imagely.js:51-67 | Appends exactly the URL rendering: create browser, create page, open, then the page steps or the load-error report. |
| Render.Session.RenderFile | imagely.js:80-159 | Appends exactly the file rendering: a read failure or missing tags throw; otherwise the referenced-file steps, with the injection as written. |
| Render.Session.RenderReferenced | imagely.js:91-158 | Builds the table, issues every fetch, then injects (as written) and settles. |
| Render.Session.FetchThenInject | imagely.js:100-158 | Appends the fetches, then the injection (as written) and settle steps. |
| Render.Session.IssueFetches | imagely.js:100-108 | The loop appends one fetch per request, in order. |
| Render.Session.Inject | imagely.js:117-124 | With a truthy `json` option, the JSON file is read and compacted; a failure throws. The data script is injected as written, with the `$` expansion of line 123, then the settle step runs. Without the option the document is settled unchanged. |
| Render.Session.Settle | imagely.js:126-158 | Appends the error report when the gate stays shut. Otherwise appends the browser creation, the inlined content and the page steps. |
| Render.Session.RenderInlined | imagely.js:128-148 | Creates the browser and page and sets the document with every entry inlined as the content. |
| Render.Session.Imagely | imagely.js:25-40 | Appends exactly the trace of `imagely`: the arguments normalised, then URL rendering or file rendering, the latter with the injection as written. |

## Left out

- PhantomJS is reduced to the commands it is sent. Each is recorded in the trace, and its callbacks are taken to be called in program order. The `phantomjs.path` and `dnodeOpts` settings are not modelled.
- `fs.readFileSync`, `request`, `fs.readFileAsync` and `image-size` are not modelled. They become fields of `Render.Env`, which the caller supplies: a read result, a fetch outcome per request, and an optional probe. A probe that throws is `None`.
- `JSON.parse` followed by `JSON.stringify` of the JSON file is the supplied function `Env.compactJson`, which gives the compact text or the reason it failed. JSON itself is not modelled.
- Assets.Target: `path.dirname`/`path.resolve` stay the symbolic `Resolve(htmlFile, name)`. `fetchFile` tests `isUrl` again on the resolved path. The model takes that test on an absolute path to be false, so a non-URL name is always read from disk. `path.resolve` can also send different names to one file: in `/d/x.html` the names `a.js`, `./a.js`, `sub/../a.js` and `/d/a.js` are four keys that all read `/d/a.js`. The symbolic `Resolve` keeps every name apart and does not capture this. Each one is still its own `files` entry, as in the source.
- Extract.ExternalScript: a file name is spliced into `new RegExp` unescaped (imagely.js:98). The model takes every character of the name literally, so a name containing regular-expression metacharacters is matched as text. The model does not follow what the engine does with such a name. The common case is a versioned reference such as `app.js?v=2`. There `?` makes the `s` optional, so the resulting regex does not match its own text. In the source that tag stays external, while the model inlines it. A name that is not valid regular-expression syntax, such as `a(b.js`, makes `new RegExp` throw a `SyntaxError` out of `renderFile` in the middle of the loop (imagely.js:98, 106), after the earlier fetches were issued and before anything is rendered. The model issues every fetch and renders.
- Extract.ExternalStylesheet: the same unescaped splice happens at imagely.js:106, with the same consequence. A stylesheet such as `site.css?v=2` stays a `<link>` in the source and is inlined in the model.
- A reference named `__proto__` is not modelled as JavaScript treats it. `files["__proto__"] = …` (imagely.js:97, 105) sets the prototype of `files` and adds no key. The fetch is still issued, but `_.pluck` and `_.forEach` (imagely.js:127, 129) never see the entry, so it is neither awaited nor inlined. The model treats it as an ordinary key: it is awaited and inlined.
- The stylesheet counterpart of `Extract.ExternalScriptFindsItsTag` is not proved. A stylesheet name is what is left of its tag after the `href` rewrite, and it need not be a capture.
- Case-insensitive matching folds ASCII letters only. Unicode case folding is not modelled.
- JavaScript enumerates integer-like object keys (such as `"1"`) first, in numeric order. The model lists keys in insertion order for every name.
- Assets.GateFrom: `Promise.all` rejects with the first fetch to fail in time. The model returns the first failing entry in table order, and its contract (like `Render.SettleFailure`'s) promises only the rejection of some failing entry.
- Render.SettleFailure: see `Assets.GateFrom`. Which failing fetch is reported is left open.
- A name referenced twice is fetched twice. Both fetches are assumed to settle the same way. The rejection of an earlier, overwritten promise, which nobody awaits, is not modelled.
- Promise scheduling is not modelled: the `.then` handler filling `file.content` (imagely.js:111-115), and the interleaving of fetch completions with other work. Contents are taken from the gate's result instead.
- A fetch that never settles is not modelled. The source sets no timeout, so such a fetch means the callback is never called and nothing is rendered. Every fetch outcome in `Render.Env` is a success or a failure.
- Options are the documented properties (`width`, `height`, `scale`, `bg`, `json`) with JavaScript truthiness for numbers and strings. Numbers are real numbers, so fractional widths and heights are covered. `NaN`, infinities, non-object options values and other property types are not modelled.
- The script that `page.evaluate` runs to set the background colour is recorded only as the colour passed to it.
- Exceptions raised inside browser callbacks, and their interaction with the `catch` at imagely.js:154, are not modelled. An exception thrown synchronously out of `renderFile` (read failure, `null` match, bad JSON) ends the trace with a `Throw` command.
- `imagely.bin.js`, the command-line front end, is not part of this model.
- Scan.PlaceIsLeast does not restate that the placement is itself a way to match. `Scan.PlaceSound` states that.

## Findings

| source | as written | input that shows it | evidently intended | confidence | as-written member | corrected member |
|---|---|---|---|---|---|---|
| imagely.js:123 | `html.replace('<head>', '<head>' + script)` passes a string replacement, so `$$`, `$&`, `` $` `` and `$'` inside the JSON data are expanded as replacement patterns | document `<head>` with JSON data `"$$"`: the injected script holds `"$"` | the data script inserted literally after the first `<head>`, as the inlining pass does with a replacer function (imagely.js:134-138) | high; not executed | Inject.InjectAsWritten, Inject.DollarsCollapseAsWritten | Inject.InjectData, Inject.InjectDataInserts, Render.InjectTraceWithoutDollar |
