# vscode-html-preview, modelled in Dafny

This project models the core of a VS Code extension that shows a live preview of an HTML document in a webview panel. The model has two parts:

- **The string classifiers of `src/utils.ts`.**
  - `isHTML` checks the active document's language identifier.
  - `isSupportFile` decides whether a text refers to a local file.
  - `isSupportUrl` decides whether a text looks like a URL. It is modelled as an explicit backtracking matcher for its regular expression.
- **The preview session of `src/extension.ts`.**
  - The `debounce` helper.
  - The `RealtimePreview` singleton: `createOrShow`, its constructor and `bindEvent` listeners, `_update` and `dispose`.
  - `getWebviewContent`, which picks the URL to render.
  - `addRestStyles`, which inserts the reset stylesheet link.

Modules, one per component:

- `Wrappers` (`wrappers.dfy`): `Option`, standing for the source's `undefined`.
- `Utils` (`utils.dfy`): `isHTML`, `isSupportFile`, `isSupportUrl`.
- `Debounce` (`debounce.dfy`): `debounce` as a pending-slot machine. The pure functions `After`, `Fired` and `Runs` give the meaning. The class `Debouncer` holds the captured `timer`.
- `Content` (`content.dfy`): `addRestStyles` and the page template.
- `Extension` (`extension.dfy`): the session. `World` holds the static `currentPanel` and the record of host calls. `Preview` is one `RealtimePreview` instance.

Host calls are abstracted in three ways:

- `asWebviewUri` and `asExternalUri(Uri.parse(...))` return values the extension uses. They are the function-valued fields of `HostApi` and are otherwise unconstrained. The one exception is the stylesheet lemmas, which assume something about `asWebviewUri`: see below.
- The recorded host calls each append a `HostEvent` to `World.log`: `createWebviewPanel`, `reveal`, setting `webview.html`, `createFileSystemWatcher`, `postMessage`, `panel.dispose()`, a listener's `dispose()` and `showInformationMessage`. Listener registrations and `Uri.file` are not recorded (see "## Left out").
- Host callbacks are methods the environment calls: the watcher's change, the timer's expiry, a document closing, a webview message and the panel being disposed.

The host's panel state is the `live` field. A VS Code panel ignores `dispose()` once it is disposed. The first `dispose()` fires `onDidDispose` synchronously, and that runs the session's `dispose()` again. The model keeps this re-entrancy: `Dispose` calls `PanelDispose`, which calls `HostDisposePanel`, which calls `Dispose`. So `dispose()` on a live session issues `panel.dispose()` twice, and the second call does nothing.

Where the code and a plain reading of its contract differ, the model follows the code:

- `addRestStyles` replaces the matched `</head>` with a lower-case `</head>`. Text is kept unchanged only when the match was already lower case: `Content.AddResetStylesInsertsLink` states both.
- `String.prototype.replace` expands `$` patterns in the replacement text. The model expands them too (`Content.Substitute`). The literal-insertion lemmas assume that the stylesheet URI returned by `asWebviewUri` contains no `$`. That assumption is their `requires` clause: `Content.AddResetStylesInsertsLink`, `Content.AddResetStylesKeepsTail`, `Content.PagePrefixStylesheet`, `Content.WebviewContentShowsUrl` and `Extension.PageShowsRenderedUrl` say nothing about a URI that contains one.

## Model

| member | source | states |
|---|---|---|
| `Utils.IsHTML` | src/utils.ts:4-10 | The notice is present exactly when the result is false, and it is the fixed "doesn't show a HTML document" message. |
| `Utils.ToLowerAscii` | src/utils.ts:5 | `toLowerCase` keeps the length and lower-cases each ASCII capital in place. |
| `Utils.IsHTMLAcceptsCaseVariants` | src/utils.ts:5 | `isHTML` holds iff the identifier is "html" in some mix of upper and lower case (both directions). |
| `Utils.IsHTMLExamples` | src/utils.ts:5-9 | "html", "HTML" and "Html" are accepted. "css" is refused with the notice. "xhtml" and "" are refused. |
| `Utils.IsSupportFile` | src/utils.ts:19-24 | The result holds iff the text has the prefix "file" or the prefix "/" (case-sensitive, anchored). |
| `Utils.IsSupportFileEmpty` | src/utils.ts:20 | The empty text is not a file reference. |
| `Utils.IsSupportFileAppend` | src/utils.ts:21 | If `isSupportFile(s)` holds, `isSupportFile(s + t)` holds for every t. |
| `Utils.IsSupportFileExamples` | src/utils.ts:19-23 | "/a/b" and "file:///a" are accepted. "File:///a", "https://x.com", "a/file" and "" are refused. |
| `Utils.InClass` | src/utils.ts:14 | No contract of its own. The three character classes of the pattern: host, suffix and the optional tail. `Utils.RunLength`, `Utils.IsSupportUrlMatchesPattern` and `Utils.TailNeverMatters` use it. |
| `Utils.WordBoundary` | src/utils.ts:14 | No contract of its own. `\b` at one position: exactly one neighbour is in `[A-Za-z0-9_]`. `Utils.TrySuffixIff` and `Utils.IsSupportUrlMatchesPattern` use it. |
| `Utils.RunLength` | src/utils.ts:14 | A greedy `{0,cap}` run takes at most cap class characters, all in the class, and stops only at the cap, the end, or a character outside the class. |
| `Utils.RunLengthIsMaximal` | src/utils.ts:14 | A run of m class characters (m within the cap) exists iff m is at most the greedy length. |
| `Utils.TrySuffix` | src/utils.ts:14 | No contract of its own. Backtracking over `[a-zA-Z0-9()]{1,6}\b`: the longest suffix first, then shorter ones. `Utils.TrySuffixIff` proves it. |
| `Utils.TrySuffixIff` | src/utils.ts:14 | Backtracking over the `{1,6}` suffix succeeds iff some suffix length up to the bound ends at a word boundary. |
| `Utils.SuffixFromIff` | src/utils.ts:14 | After the dot, the matcher finds a suffix iff a 1-6 character suffix followed by `\b` exists. |
| `Utils.DotThenSuffix` | src/utils.ts:14 | No contract of its own. After a host of the given length, the `\.` and then the suffix. `Utils.DotThenSuffixIff` proves it equals `HostFits`. |
| `Utils.DotThenSuffixIff` | src/utils.ts:14 | For a host of n host characters (1 to 256), the step after the host succeeds iff the pattern matches with that host length and some suffix length. |
| `Utils.TryHost` | src/utils.ts:14 | No contract of its own. Backtracking over `[-a-zA-Z0-9@:%._\+~#=]{1,256}`: the longest host first, then shorter ones. `Utils.TryHostIff` proves it. |
| `Utils.TryHostIff` | src/utils.ts:14 | Backtracking over the `{1,256}` host succeeds iff some host length up to the bound is followed by a dot and a valid suffix. |
| `Utils.MatchFrom` | src/utils.ts:14 | No contract of its own. The regular expression anchored at one position: a greedy host run, then backtracking. `Utils.MatchFromIff` proves it equals `MatchesAt`. |
| `Utils.MatchFromIff` | src/utils.ts:14 | The matcher succeeds at a position iff the pattern matches there with some host and suffix length. |
| `Utils.Search` | src/utils.ts:16 | No contract of its own. `test`'s scan of the start positions in order. `Utils.SearchIff` proves it. |
| `Utils.SearchIff` | src/utils.ts:15-16 | `test`'s scan of start positions from i succeeds iff the anchored matcher succeeds at some position at or after i. |
| `Utils.TailNeverMatters` | src/utils.ts:14 | The pattern with its optional trailing `(...)?` group matches a text iff the pattern without it does. |
| `Utils.IsSupportUrl` | src/utils.ts:12-17 | No contract of its own. `!url` refuses the empty text, and `test` scans the start positions. `Utils.IsSupportUrlMatchesPattern` proves what it accepts. |
| `Utils.IsSupportUrlMatchesPattern` | src/utils.ts:12-17 | `isSupportUrl` holds iff some position begins 1-256 host characters, a dot, 1-6 suffix characters and a word boundary. The optional tail is left out of both sides, as `Utils.TailNeverMatters` justifies. |
| `Utils.IsSupportUrlHasDot` | src/utils.ts:14 | Every accepted text contains a dot. |
| `Utils.IsSupportUrlAcceptsDomain` | src/utils.ts:13-16 | "example.com/path?q=1" is accepted. |
| `Utils.IsSupportUrlRejectsNoDot` | src/utils.ts:13-16 | "not a url" and "" are refused. |
| `Debounce.After` | src/extension.ts:18-24 | No contract of its own. A call replaces the pending slot with itself, and an expiry empties it. `Debounce.RunsAppend` and `Debounce.BurstPending` prove what it keeps. |
| `Debounce.Fired` | src/extension.ts:22-24 | No contract of its own. An expiry runs the pending call, if there is one. `Debounce.RunsAreSurvivors` proves which calls run. |
| `Debounce.Runs` | src/extension.ts:18-24 | No contract of its own. It lists the callbacks run along a trace of calls and expiries. `Debounce.RunsAreSurvivors`, `Debounce.RunsFromIdle` and `Debounce.BurstRunsOnce` prove which ones. |
| `Debounce.RunsAreSurvivors` | src/extension.ts:18-25 | From any slot, the callbacks run are the pending call if the trace opens with an expiry, then exactly the calls directly followed by an expiry. |
| `Debounce.RunsFromIdle` | src/extension.ts:15-27 | From an idle timer, a callback runs for a call iff the next input is an expiry. A superseded call never runs. |
| `Debounce.BurstPending` | src/extension.ts:21-22 | A burst of calls runs nothing and leaves exactly its last call pending. |
| `Debounce.RunsAppend` | src/extension.ts:17-24 | The pending slot is the whole state: running a trace in two parts equals running it at once. |
| `Debounce.BurstRunsOnce` | src/extension.ts:21-24 | A burst followed by the quiet period runs the callback once, with the last call's arguments. |
| `Debounce.Debouncer.constructor` | src/extension.ts:16-17 | A new debounced function has no pending timer. |
| `Debounce.Debouncer.Debounced` | src/extension.ts:18-25 | Each call replaces the pending slot with its own arguments. |
| `Debounce.Debouncer.Timeout` | src/extension.ts:22-24 | Expiry runs the callback with the pending arguments, if any, and empties the slot. |
| `Content.HeadCloseAt` | src/extension.ts:146 | No contract of its own. The pattern `/<\/head>/i` at one position, case-insensitive in the four letters. `Content.FindHeadClose` states which match `replace` takes. |
| `Content.FindHeadClose` | src/extension.ts:146 | Returns the first case-insensitive `</head>` at or after the start position. None means there is none. |
| `Content.Substitute` | src/extension.ts:146 | No contract of its own. It expands the `$$`, `$&`, `` $` `` and `$'` patterns of the replacement text. `Content.SubstituteLiteral` proves that a text without `$` is kept. |
| `Content.SubstituteLiteral` | src/extension.ts:146 | A replacement text without `$` is inserted literally. |
| `Content.StyleLink` | src/extension.ts:145 | No contract of its own. The `styles` `<link>` element around the stylesheet URI. `Content.AddResetStylesInsertsLink` proves where it goes. |
| `Content.AddResetStyles` | src/extension.ts:137-148 | No contract of its own. `Content.AddResetStylesWithoutHead`, `Content.AddResetStylesInsertsLink` and `Content.AddResetStylesKeepsTail` prove its effect. |
| `Content.AddResetStylesWithoutHead` | src/extension.ts:137-148 | With no `</head>`, the HTML is returned unchanged. |
| `Content.AddResetStylesInsertsLink` | src/extension.ts:137-148 | At the first `</head>` (any case), the link is inserted before a lower-case `</head>` and everything else is kept. A lower-case match keeps every character. |
| `Content.AddResetStylesKeepsTail` | src/extension.ts:146 | Once a `</head>` occurs in a prefix, nothing after that prefix is rewritten. |
| `Content.PagePrefixHasHeadClose` | src/extension.ts:159-221 | The template's head ends with `</head>`. |
| `Content.DocumentHeadHasNoHeadClose` | src/extension.ts:157-221 | No `</head>`, in any case, begins inside the template's head before its own `</head>`. |
| `Content.PagePrefixStylesheet` | src/extension.ts:157-224 | On the template, `addRestStyles` puts the stylesheet link right before the head's own `</head>`: the head, then the link and `</head>`, then the opening of the body. |
| `Content.Template` | src/extension.ts:156-268 | No contract of its own. The `plainText` literal with the URL filled in twice. `Content.WebviewContentShowsUrl` proves what the page is. |
| `Content.WebviewContent` | src/extension.ts:149-271 | No contract of its own. The template with the URL filled in twice, then `addRestStyles`. `Content.WebviewContentShowsUrl` proves what the page is. |
| `Content.WebviewContentShowsUrl` | src/extension.ts:156-270 | The page is the head, the stylesheet link and `</head>`, the opening of the body, and then the one URL verbatim twice, as the input value and as the iframe `src`. |
| `Extension.ResetCssPath` | src/extension.ts:138-140 | No contract of its own. `pathJoin(extensionPath, 'public', 'reset.css')`. `Extension.PageShowsRenderedUrl` links its webview URI. |
| `Extension.RenderedUrl` | src/extension.ts:155 | No contract of its own. `_fileUrl` when it is set, and otherwise the webview URI of the source file. `Extension.PageShowsRenderedUrl` proves where it appears. |
| `Extension.Page` | src/extension.ts:149-271 | No contract of its own. `getWebviewContent` for the rendered URL, with the webview URI of `public/reset.css`. `Extension.PageShowsRenderedUrl` proves what the page is. |
| `Extension.PageShowsRenderedUrl` | src/extension.ts:150-155 | The page shows `_fileUrl` when it is set, and otherwise the webview URI of the source file, in both places. The reset stylesheet's webview URI is linked right before the head's `</head>`. |
| `Extension.ResolveView` | src/extension.ts:80-88 | No contract of its own. `Extension.ResolveViewRouting` proves the routing. |
| `Extension.ResolveViewRouting` | src/extension.ts:80-88 | A text with the prefix "file" or "/" goes to `asWebviewUri`. Any other text goes to `asExternalUri(Uri.parse(text))`. |
| `Extension.ResolveViewExamples` | src/extension.ts:82-87 | "/a/b" and "file:///a" are routed to the webview, "https://x.com" and "" to external resolution. |
| `Extension.Drained` | src/extension.ts:105-110 | No contract of its own. The events the drain loop records, one per non-null entry, last first. `Extension.DrainedIsReverseRegistration` proves the order. |
| `Extension.DrainedIsReverseRegistration` | src/extension.ts:105-110 | The drain loop disposes each non-null entry exactly once, the last registered first. |
| `Extension.World.constructor` | src/extension.ts:33 | Before any command there is no session, no panel and no host call. |
| `Extension.World.State` | src/extension.ts:118-119 | No contract of its own. Absent when `currentPanel` is unset, otherwise Active with its panel. `Extension.World.CreateOrShow`, `Extension.Preview.Dispose` and `Extension.AtMostOneLive` state the transitions. |
| `Extension.World.Roots` | src/extension.ts:130-132 | No contract of its own. The two `localResourceRoots`: `public` under the extension path, and the workspace root. `Extension.World.CreateOrShow` records them with the new panel. |
| `Extension.World.CreateOrShow` | src/extension.ts:115-136 | With a session, only `reveal(column)` is called and nothing else changes. Without one, exactly one panel is created and becomes `currentPanel`, with no `_fileUrl`, only its `onDidDispose` listener in `_disposables`, and a 500 ms debounced refresher with nothing pending. The singleton invariant is kept. |
| `Extension.Preview.constructor` | src/extension.ts:42-68 | The first render uses the source file's URI. Then the `onDidDispose` listener is registered in `_disposables` and the workspace watcher is created. |
| `Extension.Preview.Update` | src/extension.ts:50-56 | The webview's HTML is set to the page for the current `_fileUrl`. |
| `Extension.Preview.OnFileChanged` | src/extension.ts:63-64 | A workspace change reschedules the debounced refresh with itself as the pending call. |
| `Extension.Preview.OnRefreshTimer` | src/extension.ts:64-68 | On expiry, a pending change posts `refresh` and re-renders. Without one, no host call is made. |
| `Extension.Preview.OnDidReceiveMessage` | src/extension.ts:77-98 | `setView` routes and re-renders. `message` shows its text as a notice. Any other command does nothing. |
| `Extension.Preview.SetView` | src/extension.ts:80-90 | `_fileUrl` becomes the routed URI and the panel is re-rendered with it. |
| `Extension.Preview.OnDidCloseTextDocument` | src/extension.ts:70-76 | The panel is disposed, and the session ends, iff the closed file name equals the source file name. Any other close changes nothing. `_fileUrl` is always kept. On an already disposed panel, only a `panel.dispose()` call is made and the session itself is unchanged. |
| `Extension.Preview.PanelDispose` | src/extension.ts:74 | `panel.dispose()` is issued. On a live panel the session is torn down through `onDidDispose`. On a disposed panel nothing else happens. |
| `Extension.Preview.HostDisposePanel` | src/extension.ts:60 | A live panel's disposal runs `dispose()` once through the registered listener. A disposed panel ignores it. |
| `Extension.Preview.Dispose` | src/extension.ts:101-111 | Afterwards `currentPanel` is undefined, `_disposables` is empty and every entry has been disposed in pop order. The session is absent and the singleton invariant holds. |
| `Extension.AtMostOneLive` | src/extension.ts:118-135 | Under the singleton invariant, at most one session has a live panel, and one does iff the state is Active. |

## Left out

- The `vscode` host APIs are not modelled. URI mapping is an uninterpreted `HostApi` function. The other host calls are recorded events, apart from the ones listed in the next line, and what the host does with it is not modelled, except that a panel disposes once and then fires `onDidDispose`. Host calls always succeed and return the same URI for the same argument. So an exception from `asWebviewUri` or `Uri.parse`, a rejected `asExternalUri` and a host that answers differently each time are not modelled.
- Listener registrations are not recorded as host calls: `panel.onDidDispose` (src/extension.ts:60), `watcher.onDidChange` (:64), `workspace.onDidCloseTextDocument` (:70) and `webview.onDidReceiveMessage` with its `context.subscriptions` entry (:77-98). Only their effect is modelled: the `onDidDispose` entry in `_disposables`, and the callback methods the environment may call. `Uri.file` (:131-132, :138-140, :154) is folded into the `Resource` values and is not recorded either.
- `Extension.World.Valid` and `Extension.AtMostOneLive`: the singleton property covers the sessions created through `World.CreateOrShow`, the only way the source creates one (its constructor is private). Dafny has no private constructors, so a client could allocate a live `Preview` outside `World.sessions`, and the invariant says nothing about it.
- Host calls on a disposed panel are not modelled. After its panel is disposed, a session's watcher and close-document listener stay registered, because neither is in `_disposables`. The model still records their `postMessage` and HTML updates. How the host treats those calls is outside the model.
- Real time is not modelled: the 500 ms wait and `setTimeout`/`clearTimeout`. Timer expiry is an explicit input, and the delay is kept only as `RefreshDelay`.
- The race between overlapping `setView` resolutions at the `await` is not modelled. Each message is handled to completion before the next one.
- The embedded webview script and the CSS are left out. The template keeps every tag, including the head, the `</head>`, the URL input and the iframe. It drops the whitespace between tags, and its `<style>` and `<script>` bodies are empty. The source's CSS holds no `</head>`, so leaving it out does not move the stylesheet link.
- `activate`, `deactivate` and the command handler are left out: they register commands and call `isHTML` and then `createOrShow`. So is the "start preview" notice.
- The panel options `enableScripts`, `enableFindWidget` and the `Beside` column are not recorded. The watcher's ignore flags (create ignored, change watched, delete ignored) are not recorded either.
- `Extension.ResetCssPath` and `World.Roots`: `path.join` is modelled as joining with "/", without normalisation.
- `Utils.IsHTML`: lower-cases ASCII only. Full Unicode `toLowerCase` is not modelled.
- A null `activeTextEditor`, a null message text and an undefined `workspace.rootPath` are not modelled. The source does not guard them (the classifiers' `!url` guard is modelled for the empty string).
- `out/utils.js` is the compiled form of `src/utils.ts`, with the same regular expressions. It is not modelled separately.
