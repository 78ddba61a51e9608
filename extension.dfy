/** The preview session of the extension (`RealtimePreview`): at most one
    live webview panel, created or revealed on demand, re-rendered on
    workspace changes (debounced) and on `setView` messages, and torn down
    when its panel is disposed or its source document is closed.

    Host calls that only have an effect are recorded, in order, in
    `World.log`; the two host calls whose results the extension uses
    (`asWebviewUri`, `asExternalUri(Uri.parse(...))`) are the function
    values of `HostApi`. Host callbacks (file change, timer expiry, document
    close, webview message, panel disposal) are methods the environment calls. */
module Extension {
  import opened Wrappers
  import opened Utils
  import opened Debounce
  import opened Content

  const ViewType := "realtimePreview"
  const PanelTitle := "Realtime Preview"
  /** The debounce delay of the workspace watcher, in milliseconds. */
  const RefreshDelay := 500
  const WatchGlob := "/**/*"

  /** What `asWebviewUri` is given: a `Uri.file(path)`, or (in `setView`) the raw text. */
  datatype Resource = FileResource(path: string) | TextResource(text: string)

  /** The host services whose results the extension uses, each as the text
      of the URI it returns. */
  datatype HostApi = HostApi(
    webviewUri: Resource -> string,
    externalUri: string -> string)

  /** The parts of the active editor the session uses. */
  datatype Editor = Editor(fileName: string, viewColumn: Option<int>)

  /** The listener `onDidDispose` registers for a session's panel. */
  datatype Disposable = PanelDisposeListener(panel: nat)

  /** A message posted by the webview script. */
  datatype Message = Message(command: string, text: string)

  /** Host calls made by the extension. */
  datatype HostEvent =
    | CreatePanel(panel: nat, viewType: string, title: string, roots: seq<Resource>)
    | Reveal(panel: nat, column: Option<int>)
    | SetHtml(panel: nat, html: string)
    | WatchFiles(glob: string)
    | PostRefresh(panel: nat)
    | DisposePanel(panel: nat)
    | DisposeListener(listener: Disposable)
    | ShowNotice(text: string)

  /** The two states of the singleton session. */
  datatype SessionState = Absent | Active(panel: nat)

  function ResetCssPath(extensionPath: string): string {
    extensionPath + "/public/reset.css"
  }

  /** The URL the page shows: the `setView` override when set, else the
      webview URI of the source document (`this._fileUrl || asWebviewUri(...)`). */
  function RenderedUrl(host: HostApi, fileUrl: Option<string>, sourceFile: string): string
  {
    match fileUrl
    case Some(url) => url
    case None => host.webviewUri(FileResource(sourceFile))
  }

  /** `getWebviewContent`: the page for the rendered URL, with the reset stylesheet. */
  function Page(host: HostApi, extensionPath: string, fileUrl: Option<string>, sourceFile: string): string {
    WebviewContent(host.webviewUri(FileResource(ResetCssPath(extensionPath))), RenderedUrl(host, fileUrl, sourceFile))
  }

  /** The page shows its one rendered URL as the input value and as the iframe
      source, after the head with the reset stylesheet linked before `</head>`. */
  lemma PageShowsRenderedUrl(host: HostApi, extensionPath: string, fileUrl: Option<string>, sourceFile: string)
    requires '$' !in host.webviewUri(FileResource(ResetCssPath(extensionPath)))
    ensures var url, cssUri := RenderedUrl(host, fileUrl, sourceFile), host.webviewUri(FileResource(ResetCssPath(extensionPath)));
      Page(host, extensionPath, fileUrl, sourceFile) ==
      DocumentHead + (StyleLink(cssUri) + HeadClose) + BodyOpen + (url + BetweenUrls + url + BodyClose)
  {
    WebviewContentShowsUrl(host.webviewUri(FileResource(ResetCssPath(extensionPath))), RenderedUrl(host, fileUrl, sourceFile));
  }

  /** The `setView` routing: local file references go through the webview's
      resource mapping, everything else through external URI resolution. */
  function ResolveView(host: HostApi, text: string): string {
    if IsSupportFile(text) then host.webviewUri(TextResource(text)) else host.externalUri(text)
  }

  /** Routing is decided by the first characters of the text alone. */
  lemma ResolveViewRouting(host: HostApi, text: string)
    ensures "file" <= text || "/" <= text ==> ResolveView(host, text) == host.webviewUri(TextResource(text))
    ensures !("file" <= text) && !("/" <= text) ==> ResolveView(host, text) == host.externalUri(text)
  {
  }

  lemma ResolveViewExamples(host: HostApi)
    ensures ResolveView(host, "/a/b") == host.webviewUri(TextResource("/a/b"))
    ensures ResolveView(host, "file:///a") == host.webviewUri(TextResource("file:///a"))
    ensures ResolveView(host, "https://x.com") == host.externalUri("https://x.com")
    ensures ResolveView(host, "") == host.externalUri("")
  {
    IsSupportFileExamples();
  }

  /** The host calls of `while (this._disposables.length) { x = pop(); if (x) x.dispose() }`. */
  function Drained(listeners: seq<Option<Disposable>>): seq<HostEvent>
    decreases |listeners|
  {
    if listeners == [] then []
    else
      var last := listeners[|listeners| - 1];
      (if last.Some? then [DisposeListener(last.value)] else []) + Drained(listeners[..|listeners| - 1])
  }

  /** The registered (non-null) listeners, in registration order. */
  function Registered(listeners: seq<Option<Disposable>>): seq<Disposable>
    decreases |listeners|
  {
    if listeners == [] then []
    else (if listeners[0].Some? then [listeners[0].value] else []) + Registered(listeners[1..])
  }

  function Reverse<T>(s: seq<T>): (r: seq<T>)
    ensures |r| == |s|
    ensures forall k :: 0 <= k < |s| ==> r[k] == s[|s| - 1 - k]
    decreases |s|
  {
    if s == [] then [] else Reverse(s[1..]) + [s[0]]
  }

  function DisposeCalls(listeners: seq<Disposable>): (r: seq<HostEvent>)
    ensures |r| == |listeners|
    ensures forall k :: 0 <= k < |listeners| ==> r[k] == DisposeListener(listeners[k])
  {
    seq(|listeners|, k requires 0 <= k < |listeners| => DisposeListener(listeners[k]))
  }

  lemma {:induction false} RegisteredAppend(a: seq<Option<Disposable>>, b: seq<Option<Disposable>>)
    ensures Registered(a + b) == Registered(a) + Registered(b)
    decreases |a|
  {
    if a == [] {
      assert a + b == b;
    } else {
      var c := a + b;
      var head := if a[0].Some? then [a[0].value] else [];
      assert c[0] == a[0];
      assert c[1..] == a[1..] + b;
      RegisteredAppend(a[1..], b);
      assert Registered(c) == head + (Registered(a[1..]) + Registered(b));
      assert Registered(a) == head + Registered(a[1..]);
    }
  }

  lemma ReverseSnoc<T>(a: seq<T>, x: T)
    ensures Reverse(a + [x]) == [x] + Reverse(a)
  {
    assert |Reverse(a + [x])| == |[x] + Reverse(a)|;
  }

  lemma DisposeCallsAppend(a: seq<Disposable>, b: seq<Disposable>)
    ensures DisposeCalls(a + b) == DisposeCalls(a) + DisposeCalls(b)
  {
    assert |DisposeCalls(a + b)| == |DisposeCalls(a) + DisposeCalls(b)|;
  }

  /** Draining the stack disposes every registered listener exactly once,
      the last registered first. */
  lemma {:induction false} DrainedIsReverseRegistration(listeners: seq<Option<Disposable>>)
    ensures Drained(listeners) == DisposeCalls(Reverse(Registered(listeners)))
    decreases |listeners|
  {
    if listeners != [] {
      var n := |listeners|;
      var front := listeners[..n - 1];
      var last := listeners[n - 1];
      assert listeners == front + [last];
      RegisteredAppend(front, [last]);
      DrainedIsReverseRegistration(front);
      var reg := Registered(front);
      assert Registered([last]) == (if last.Some? then [last.value] else []) + Registered([]);
      if last.Some? {
        ReverseSnoc(reg, last.value);
        DisposeCallsAppend([last.value], Reverse(reg));
      } else {
        assert reg + [] == reg;
      }
    }
  }

  /** The extension's module-level state: the static `currentPanel`, the
      host calls made so far, and every session ever created. */
  class World {
    const host: HostApi
    const extensionPath: string
    /** `workspace.rootPath`. */
    const rootPath: string
    /** `RealtimePreview.currentPanel`. */
    var currentPanel: Preview?
    var log: seq<HostEvent>
    /** Panels created so far; panel i is the i-th one. */
    var panelCount: nat
    ghost var sessions: set<Preview>

    constructor (host: HostApi, extensionPath: string, rootPath: string)
      ensures this.host == host && this.extensionPath == extensionPath && this.rootPath == rootPath
      ensures currentPanel == null && log == [] && panelCount == 0 && sessions == {}
      ensures Valid()
    {
      this.host := host;
      this.extensionPath := extensionPath;
      this.rootPath := rootPath;
      currentPanel := null;
      log := [];
      panelCount := 0;
      sessions := {};
    }

    /** Every session belongs to this world, and a session whose panel is live
        still has its `onDidDispose` listener registered. */
    ghost predicate Shaped()
      reads this, sessions
    {
      (currentPanel != null ==> currentPanel in sessions) &&
      forall p :: p in sessions ==>
        p.world == this && p.panel < panelCount &&
        (p.live ==> Some(PanelDisposeListener(p.panel)) in p.disposables)
    }

    /** No session but x has a live panel, and the static field holds x or nothing. */
    ghost predicate OnlyLive(x: Preview)
      reads this, sessions
    {
      (currentPanel == null || currentPanel == x) &&
      forall p :: p in sessions && p.live ==> p == x
    }

    /** The singleton invariant: the current session, if any, is the only one
        with a live panel. */
    ghost predicate Valid()
      reads this, sessions
    {
      Shaped() &&
      (currentPanel != null ==> currentPanel.live) &&
      forall p :: p in sessions && p.live ==> p == currentPanel
    }

    function State(): SessionState
      reads this
    {
      if currentPanel == null then Absent else Active(currentPanel.panel)
    }

    function Roots(): seq<Resource> {
      [FileResource(extensionPath + "/public"), FileResource(rootPath)]
    }

    /** `RealtimePreview.createOrShow(context, editor)`. */
    method CreateOrShow(editor: Editor)
      requires Valid()
      modifies this
      ensures Valid()
      ensures old(currentPanel) != null ==>
        currentPanel == old(currentPanel) && panelCount == old(panelCount) && sessions == old(sessions) &&
        log == old(log) + [Reveal(currentPanel.panel, editor.viewColumn)]
      ensures old(currentPanel) == null ==>
        currentPanel != null && fresh(currentPanel) && State() == Active(old(panelCount)) &&
        panelCount == old(panelCount) + 1 && sessions == old(sessions) + {currentPanel} &&
        currentPanel.editor == editor && currentPanel.fileUrl == None && currentPanel.live &&
        currentPanel.disposables == [Some(PanelDisposeListener(old(panelCount)))] &&
        fresh(currentPanel.refresher) && currentPanel.refresher.pending == None &&
        currentPanel.refresher.wait == RefreshDelay &&
        log == old(log) + [
          CreatePanel(old(panelCount), ViewType, PanelTitle, Roots()),
          SetHtml(old(panelCount), Page(host, extensionPath, None, editor.fileName)),
          WatchFiles(rootPath + WatchGlob)]
    {
      if currentPanel != null {
        log := log + [Reveal(currentPanel.panel, editor.viewColumn)];
        return;
      }
      var id := panelCount;
      log := log + [CreatePanel(id, ViewType, PanelTitle, Roots())];
      panelCount := id + 1;
      var session := new Preview(this, id, editor);
      currentPanel := session;
      sessions := sessions + {session};
    }
  }

  /** One `RealtimePreview` instance with its panel. */
  class Preview {
    const world: World
    const panel: nat
    /** `_activeTextEditor`: the source document and its column. */
    const editor: Editor
    /** `_fileUrl`: the `setView` override of the rendered URL. */
    var fileUrl: Option<string>
    /** `_disposables`. */
    var disposables: seq<Option<Disposable>>
    /** Host state: the panel has not been disposed yet. */
    var live: bool
    /** The debounced watcher callback of `bindEvent`. */
    const refresher: Debouncer<string>

    /** The private constructor: `_update()`, then `bindEvent()`. */
    constructor (world: World, panel: nat, editor: Editor)
      modifies world`log
      ensures this.world == world && this.panel == panel && this.editor == editor
      ensures fileUrl == None && live && disposables == [Some(PanelDisposeListener(panel))]
      ensures fresh(refresher) && refresher.pending == None && refresher.wait == RefreshDelay
      ensures world.log == old(world.log) + [
        SetHtml(panel, Page(world.host, world.extensionPath, None, editor.fileName)),
        WatchFiles(world.rootPath + WatchGlob)]
    {
      this.world := world;
      this.panel := panel;
      this.editor := editor;
      fileUrl := None;
      disposables := [];
      live := true;
      refresher := new Debouncer(RefreshDelay);
      new;
      Update();
      disposables := disposables + [Some(PanelDisposeListener(panel))];
      world.log := world.log + [WatchFiles(world.rootPath + WatchGlob)];
    }

    function CurrentPage(): string
      reads this
    {
      Page(world.host, world.extensionPath, fileUrl, editor.fileName)
    }

    /** `_update()`: set the webview's HTML to the current page. */
    method Update()
      modifies world`log
      ensures world.log == old(world.log) + [SetHtml(panel, CurrentPage())]
    {
      world.log := world.log + [SetHtml(panel, CurrentPage())];
    }

    /** The watcher's `onDidChange`: the debounced callback is called with the change. */
    method OnFileChanged(changed: string)
      modifies refresher
      ensures refresher.pending == Some(changed)
    {
      refresher.Debounced(changed);
    }

    /** The debounce timer expires: if a change is pending, refresh the webview and re-render. */
    method OnRefreshTimer()
      modifies refresher, world`log
      ensures old(world.Valid()) ==> world.Valid()
      ensures refresher.pending == None
      ensures world.log == old(world.log) +
        (if old(refresher.pending).Some? then [PostRefresh(panel), SetHtml(panel, CurrentPage())] else [])
    {
      var ran := refresher.Timeout();
      if ran != [] {
        world.log := world.log + [PostRefresh(panel)];
        Update();
      }
    }

    /** `onDidReceiveMessage`. Only `setView` and `message` do anything. */
    method OnDidReceiveMessage(message: Message)
      modifies this`fileUrl, world`log
      ensures old(world.Valid()) ==> world.Valid()
      ensures message.command == "setView" ==>
        fileUrl == Some(ResolveView(world.host, message.text)) &&
        world.log == old(world.log) + [SetHtml(panel, CurrentPage())]
      ensures message.command == "message" ==>
        fileUrl == old(fileUrl) && world.log == old(world.log) + [ShowNotice(message.text)]
      ensures message.command != "setView" && message.command != "message" ==>
        fileUrl == old(fileUrl) && world.log == old(world.log)
    {
      if message.command == "setView" {
        SetView(message.text);
      } else if message.command == "message" {
        world.log := world.log + [ShowNotice(message.text)];
      }
    }

    /** The `setView` branch: route the text, store it as `_fileUrl`, re-render. */
    method SetView(text: string)
      modifies this`fileUrl, world`log
      ensures fileUrl == Some(ResolveView(world.host, text))
      ensures world.log == old(world.log) + [SetHtml(panel, Page(world.host, world.extensionPath, Some(ResolveView(world.host, text)), editor.fileName))]
    {
      if IsSupportFile(text) {
        fileUrl := Some(world.host.webviewUri(TextResource(text)));
      } else {
        fileUrl := Some(world.host.externalUri(text));
      }
      Update();
    }

    /** `onDidCloseTextDocument`: dispose the panel iff the closed document is the source. */
    method OnDidCloseTextDocument(closedFile: string)
      requires world.Valid() && this in world.sessions
      modifies this, world
      ensures world.Valid() && fileUrl == old(fileUrl)
      ensures closedFile != editor.fileName ==> unchanged(this) && unchanged(world)
      ensures closedFile == editor.fileName && old(live) ==>
        !live && world.State() == Absent && disposables == [] &&
        world.log == old(world.log) + [DisposePanel(panel), DisposePanel(panel)] + Drained(old(disposables))
      ensures closedFile == editor.fileName && !old(live) ==>
        unchanged(this) && world.currentPanel == old(world.currentPanel) &&
        world.log == old(world.log) + [DisposePanel(panel)]
      ensures world.sessions == old(world.sessions) && world.panelCount == old(world.panelCount)
    {
      if editor.fileName == closedFile {
        PanelDispose();
      }
    }

    /** `this._panel.dispose()` issued by the extension. */
    method PanelDispose()
      requires world.Shaped() && this in world.sessions
      requires world.Valid() || world.OnlyLive(this)
      modifies this, world
      decreases if live then 1 else 0, 1
      ensures !live && fileUrl == old(fileUrl)
      ensures world.sessions == old(world.sessions) && world.panelCount == old(world.panelCount)
      ensures old(live) ==>
        world.currentPanel == null && disposables == [] && world.Valid() &&
        world.log == old(world.log) + [DisposePanel(panel), DisposePanel(panel)] + Drained(old(disposables))
      ensures !old(live) ==>
        unchanged(this) && world.currentPanel == old(world.currentPanel) &&
        world.log == old(world.log) + [DisposePanel(panel)] &&
        (old(world.Valid()) ==> world.Valid())
    {
      world.log := world.log + [DisposePanel(panel)];
      HostDisposePanel();
    }

    /** The host disposes the panel (the user closed it, or the extension
        asked): the first time, the panel goes and its `onDidDispose`
        listener runs `dispose()`; afterwards nothing happens. */
    method HostDisposePanel()
      requires world.Shaped() && this in world.sessions
      requires world.Valid() || world.OnlyLive(this)
      modifies this, world
      decreases if live then 1 else 0, 0
      ensures !live && fileUrl == old(fileUrl)
      ensures world.sessions == old(world.sessions) && world.panelCount == old(world.panelCount)
      ensures old(live) ==>
        world.currentPanel == null && disposables == [] && world.Valid() &&
        world.log == old(world.log) + [DisposePanel(panel)] + Drained(old(disposables))
      ensures !old(live) ==> unchanged(this) && unchanged(world)
    {
      if live {
        live := false;
        Dispose();
      }
    }

    /** `dispose()`: clear `currentPanel`, dispose the panel, drain `_disposables`. */
    method Dispose()
      requires world.Shaped() && this in world.sessions && world.OnlyLive(this)
      modifies this, world
      decreases if live then 1 else 0, 2
      ensures !live && world.currentPanel == null && disposables == [] && fileUrl == old(fileUrl)
      ensures world.Valid() && world.State() == Absent
      ensures world.sessions == old(world.sessions) && world.panelCount == old(world.panelCount)
      ensures world.log == old(world.log) +
        (if old(live) then [DisposePanel(panel), DisposePanel(panel)] else [DisposePanel(panel)]) +
        Drained(old(disposables))
    {
      world.currentPanel := null;
      PanelDispose();
      ghost var drained := world.log;
      ghost var stack := disposables;
      while |disposables| > 0
        modifies this`disposables, world`log
        invariant world.log + Drained(disposables) == drained + Drained(stack)
        decreases |disposables|
      {
        var x := disposables[|disposables| - 1];
        disposables := disposables[..|disposables| - 1];
        if x.Some? {
          world.log := world.log + [DisposeListener(x.value)];
        }
      }
      assert world.log == drained + Drained(stack);
    }
  }

  /** A client of the session: running the command twice shows one panel,
      and a burst of workspace changes refreshes it once. */
  method ShowTwiceThenRefresh(host: HostApi, extensionPath: string, rootPath: string, editor: Editor)
  {
    var world := new World(host, extensionPath, rootPath);
    world.CreateOrShow(editor);
    var first := world.currentPanel;
    world.CreateOrShow(editor);
    assert world.currentPanel == first && world.panelCount == 1;
    first.OnFileChanged("a.html");
    first.OnFileChanged("b.css");
    var before := world.log;
    first.OnRefreshTimer();
    assert world.log == before + [PostRefresh(0), SetHtml(0, first.CurrentPage())];
    first.OnRefreshTimer();
    assert world.log == before + [PostRefresh(0), SetHtml(0, first.CurrentPage())];
  }

  /** A client of the session: a `setView` message with a web address
      re-renders the panel on its external URI. */
  method SetViewShowsExternal(host: HostApi, extensionPath: string, rootPath: string, editor: Editor)
  {
    var world := new World(host, extensionPath, rootPath);
    world.CreateOrShow(editor);
    var first := world.currentPanel;
    first.OnDidReceiveMessage(Message("setView", "https://x.com"));
    assert first.fileUrl == Some(host.externalUri("https://x.com")) by {
      ResolveViewExamples(host);
    }
  }

  /** A client of the session: closing the source document ends the
      session, and the next run starts a new one with a new panel. */
  method CloseThenReopen(host: HostApi, extensionPath: string, rootPath: string, editor: Editor)
  {
    var world := new World(host, extensionPath, rootPath);
    world.CreateOrShow(editor);
    var first := world.currentPanel;
    first.OnDidCloseTextDocument(editor.fileName);
    assert world.State() == Absent && !first.live;
    world.CreateOrShow(editor);
    assert world.State() == Active(1) && world.currentPanel != first && world.currentPanel.fileUrl == None;
  }

  /** A client of the session: closing the source document a second time
      only asks the disposed panel to dispose again; the session keeps its
      `_fileUrl` and its emptied `_disposables`. */
  method CloseTwice(host: HostApi, extensionPath: string, rootPath: string, editor: Editor)
  {
    var world := new World(host, extensionPath, rootPath);
    world.CreateOrShow(editor);
    var first := world.currentPanel;
    assert first.disposables == [Some(PanelDisposeListener(0))];
    first.OnDidCloseTextDocument(editor.fileName);
    var u := first.fileUrl;
    var before := world.log;
    first.OnDidCloseTextDocument(editor.fileName);
    assert first.fileUrl == u == None && first.disposables == [];
    assert world.log == before + [DisposePanel(0)];
  }

  /** At most one session has a live panel at any time. */
  lemma AtMostOneLive(world: World)
    requires world.Valid()
    ensures forall p, q :: p in world.sessions && q in world.sessions && p.live && q.live ==> p == q
    ensures world.State().Active? <==> exists p :: p in world.sessions && p.live
  {
  }
}
