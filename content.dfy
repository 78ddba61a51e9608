/** The HTML the preview panel shows: the page template around the rendered
    URL (`getWebviewContent`) and the reset stylesheet link that
    `addRestStyles` puts in front of the first `</head>`. */
module Content {
  import opened Wrappers
  import opened Utils

  // ---------------------------------------------------------------------------
  // addRestStyles: html.replace(/<\/head>/i, `${styles}</head>`)
  // ---------------------------------------------------------------------------

  const HeadClose := "</head>"

  /** A case-insensitive `</head>` starts at position k. */
  predicate HeadCloseAt(s: string, k: nat) {
    k + 7 <= |s| && s[k] == '<' && s[k + 1] == '/' &&
    LowerAscii(s[k + 2]) == 'h' && LowerAscii(s[k + 3]) == 'e' &&
    LowerAscii(s[k + 4]) == 'a' && LowerAscii(s[k + 5]) == 'd' && s[k + 6] == '>'
  }

  /** The first `</head>` at or after `from`, the one a non-global `replace` rewrites. */
  function FindHeadClose(s: string, from: nat): (r: Option<nat>)
    ensures r.Some? ==> from <= r.value && HeadCloseAt(s, r.value)
    ensures r.Some? ==> forall j :: from <= j < r.value ==> !HeadCloseAt(s, j)
    ensures r.None? ==> forall j :: from <= j ==> !HeadCloseAt(s, j)
    decreases |s| - from
  {
    if from + 7 > |s| then None
    else if HeadCloseAt(s, from) then Some(from)
    else FindHeadClose(s, from + 1)
  }

  /** The replacement text as `String.prototype.replace` expands it for a
      pattern without capture groups: `$$` is a dollar, `$&` the match,
      `` $` `` the text before it, `$'` the text after it; anything else is literal. */
  function Substitute(repl: string, before: string, matched: string, after: string): string
    decreases |repl|
  {
    if repl == [] then []
    else if |repl| >= 2 && repl[0] == '$' && repl[1] == '$' then "$" + Substitute(repl[2..], before, matched, after)
    else if |repl| >= 2 && repl[0] == '$' && repl[1] == '&' then matched + Substitute(repl[2..], before, matched, after)
    else if |repl| >= 2 && repl[0] == '$' && repl[1] == '`' then before + Substitute(repl[2..], before, matched, after)
    else if |repl| >= 2 && repl[0] == '$' && repl[1] == '\'' then after + Substitute(repl[2..], before, matched, after)
    else [repl[0]] + Substitute(repl[1..], before, matched, after)
  }

  /** A replacement without a dollar sign is inserted literally. */
  lemma {:induction false} SubstituteLiteral(repl: string, before: string, matched: string, after: string)
    requires '$' !in repl
    ensures Substitute(repl, before, matched, after) == repl
    decreases |repl|
  {
    if repl != [] {
      assert repl[0] != '$';
      assert forall c :: c in repl[1..] ==> c in repl;
      SubstituteLiteral(repl[1..], before, matched, after);
    }
  }

  /** The `<link>` element for the reset stylesheet at cssUri. */
  function StyleLink(cssUri: string): string {
    "<link href=\"" + cssUri + "\" rel=\"stylesheet\" type=\"text/css\"/>"
  }

  /** `addRestStyles(extensionPath, html)`, given the webview URI of the stylesheet. */
  function AddResetStyles(cssUri: string, html: string): string {
    match FindHeadClose(html, 0)
    case None => html
    case Some(k) =>
      html[..k] + Substitute(StyleLink(cssUri) + HeadClose, html[..k], html[k..k + 7], html[k + 7..]) + html[k + 7..]
  }

  /** The first match is the only candidate: FindHeadClose picks it. */
  lemma FindHeadCloseIsFirst(html: string, k: nat)
    requires HeadCloseAt(html, k) && forall j :: 0 <= j < k ==> !HeadCloseAt(html, j)
    ensures FindHeadClose(html, 0) == Some(k)
  {
  }

  /** With a dollar-free stylesheet URI, the replacement is literal. */
  lemma ReplaceFirst(cssUri: string, html: string, k: nat)
    requires '$' !in cssUri
    requires FindHeadClose(html, 0) == Some(k)
    ensures AddResetStyles(cssUri, html) == html[..k] + (StyleLink(cssUri) + HeadClose) + html[k + 7..]
  {
    assert '$' !in StyleLink(cssUri) + HeadClose;
    SubstituteLiteral(StyleLink(cssUri) + HeadClose, html[..k], html[k..k + 7], html[k + 7..]);
  }

  /** Without a `</head>`, the page is returned as it is. */
  lemma AddResetStylesWithoutHead(cssUri: string, html: string)
    requires forall j :: 0 <= j < |html| ==> !HeadCloseAt(html, j)
    ensures AddResetStyles(cssUri, html) == html
  {
  }

  /** With a `</head>` first at k (in any case), the link goes right before it,
      the matched text becomes `</head>` and everything else is kept. */
  lemma AddResetStylesInsertsLink(cssUri: string, html: string, k: nat)
    requires '$' !in cssUri
    requires HeadCloseAt(html, k) && forall j :: 0 <= j < k ==> !HeadCloseAt(html, j)
    ensures AddResetStyles(cssUri, html) == html[..k] + StyleLink(cssUri) + HeadClose + html[k + 7..]
    ensures html[k..k + 7] == HeadClose ==> AddResetStyles(cssUri, html) == html[..k] + StyleLink(cssUri) + html[k..]
  {
    FindHeadCloseIsFirst(html, k);
    ReplaceFirst(cssUri, html, k);
    assert html[..k] + (StyleLink(cssUri) + HeadClose) + html[k + 7..] ==
      html[..k] + StyleLink(cssUri) + HeadClose + html[k + 7..];
    if html[k..k + 7] == HeadClose {
      assert html[k..] == html[k..k + 7] + html[k + 7..];
    }
  }

  /** A `</head>` that lies wholly inside p is seen the same in p + tail. */
  lemma HeadCloseAtPrefix(p: string, tail: string, j: nat)
    requires j + 7 <= |p|
    ensures HeadCloseAt(p + tail, j) <==> HeadCloseAt(p, j)
  {
    var s := p + tail;
    assert s[j] == p[j] && s[j + 1] == p[j + 1] && s[j + 2] == p[j + 2] && s[j + 3] == p[j + 3];
    assert s[j + 4] == p[j + 4] && s[j + 5] == p[j + 5] && s[j + 6] == p[j + 6];
  }

  /** Once a `</head>` occurs in p, whatever follows p is never rewritten. */
  lemma AddResetStylesKeepsTail(cssUri: string, p: string, tail: string, j0: nat)
    requires '$' !in cssUri
    requires HeadCloseAt(p, j0)
    ensures AddResetStyles(cssUri, p + tail) == AddResetStyles(cssUri, p) + tail
  {
    var k := FindHeadClose(p, 0).value;
    var s := p + tail;
    HeadCloseAtPrefix(p, tail, k);
    forall j | 0 <= j < k ensures !HeadCloseAt(s, j) {
      HeadCloseAtPrefix(p, tail, j);
    }
    FindHeadCloseIsFirst(s, k);
    ReplaceFirst(cssUri, s, k);
    ReplaceFirst(cssUri, p, k);
    assert s[..k] == p[..k];
    assert s[k + 7..] == p[k + 7..] + tail;
    var repl := StyleLink(cssUri) + HeadClose;
    assert p[..k] + repl + (p[k + 7..] + tail) == p[..k] + repl + p[k + 7..] + tail;
  }

  // ---------------------------------------------------------------------------
  // getWebviewContent: the page template. The inline CSS and the webview
  // script are cosmetic and left empty; the markup keeps the `</head>`, the
  // URL input and the iframe, which is what the extension relies on.
  // ---------------------------------------------------------------------------

  /** The document head up to its `</head>`, in three parts, one tag to a
      piece. The viewport `<meta>` alone is also cut inside its `content`
      attribute. That cut is there only so that `DocumentHeadNoSlashH` can
      read the text piece by piece. It is not part of the template. */
  const HeadOpen := "<!DOCTYPE html>" + "<html lang=\"en\">" + "<head>" + "<meta charset=\"UTF-8\">"
  const HeadViewport := "<meta name=\"viewport\" " + "content=\"width=device-width, " + "initial-scale=1.0\">"
  const HeadTitle := "<title>" + "Preview" + "</title>" + "<style type=\"text/css\">" + "</style>"
  const DocumentHead := HeadOpen + HeadViewport + HeadTitle
  const BodyOpen := "<body><div class=\"url-container\"><input type=\"text\" placeholder=\"\" class=\"url-input\" value=\""
  const BetweenUrls := "\"/><button class=\"view-btn\" type=\"button\">View</button></div><iframe src=\""
  const BodyClose := "\" id=\"preview\" width=\"100%\" allowfullscreen></iframe><script></script></body></html>"

  /** The part of the template before the first URL. */
  function PagePrefix(): string { DocumentHead + HeadClose + BodyOpen }

  /** The template literal with the URL filled in twice. */
  function Template(url: string): string {
    PagePrefix() + (url + BetweenUrls + url + BodyClose)
  }

  /** `getWebviewContent` once the URL is chosen: the template, then `addRestStyles`. */
  function WebviewContent(cssUri: string, url: string): string {
    AddResetStyles(cssUri, Template(url))
  }

  lemma PagePrefixHasHeadClose()
    ensures HeadCloseAt(PagePrefix(), |DocumentHead|)
  {
    var p := PagePrefix();
    var n := |DocumentHead|;
    assert p[n..n + 7] == HeadClose;
    assert p[n] == HeadClose[0] && p[n + 1] == HeadClose[1] && p[n + 2] == HeadClose[2];
    assert p[n + 3] == HeadClose[3] && p[n + 4] == HeadClose[4] && p[n + 5] == HeadClose[5];
    assert p[n + 6] == HeadClose[6];
  }

  /** No `/` in t is followed by an `h` of either case. */
  ghost predicate NoSlashH(t: string) {
    forall i :: 0 <= i < |t| - 1 && t[i] == '/' ==> LowerAscii(t[i + 1]) != 'h'
  }

  /** A piece free of `/`. */
  lemma NoSlashHFree(t: string)
    requires '/' !in t
    ensures NoSlashH(t)
  {
  }

  /** Two such pieces stay such when no `/` at the seam meets an `h`. */
  lemma NoSlashHAppend(a: string, b: string)
    requires NoSlashH(a) && NoSlashH(b) && a != [] && b != []
    requires a[|a| - 1] == '/' ==> LowerAscii(b[0]) != 'h'
    ensures NoSlashH(a + b)
  {
    var s := a + b;
    forall i | 0 <= i < |s| - 1 && s[i] == '/' ensures LowerAscii(s[i + 1]) != 'h' {
      if i < |a| - 1 {
        assert s[i] == a[i] && s[i + 1] == a[i + 1];
      } else if i == |a| - 1 {
        assert s[i + 1] == b[0];
      } else {
        assert s[i] == b[i - |a|] && s[i + 1] == b[i - |a| + 1];
      }
    }
  }

  /** The doctype and the opening of `<html>` and `<head>`. */
  lemma HeadOpenNoSlashH()
    ensures NoSlashH(HeadOpen)
  {
    var t0, t1, t2, t3 := "<!DOCTYPE html>", "<html lang=\"en\">", "<head>", "<meta charset=\"UTF-8\">";
    NoSlashHFree(t0);
    NoSlashHFree(t1);
    NoSlashHFree(t2);
    NoSlashHFree(t3);
    NoSlashHAppend(t0, t1);
    NoSlashHAppend(t0 + t1, t2);
    NoSlashHAppend(t0 + t1 + t2, t3);
  }

  /** The viewport `<meta>`. */
  lemma HeadViewportNoSlashH()
    ensures NoSlashH(HeadViewport)
  {
    var t0, t1, t2 := "<meta name=\"viewport\" ", "content=\"width=device-width, ", "initial-scale=1.0\">";
    NoSlashHFree(t0);
    NoSlashHFree(t1);
    NoSlashHFree(t2);
    NoSlashHAppend(t0, t1);
    NoSlashHAppend(t0 + t1, t2);
  }

  /** The `/` of `</title>`, `text/css` and `</style>` are the only ones. */
  lemma HeadTitleNoSlashH()
    ensures NoSlashH(HeadTitle)
  {
    var t0, t1, t2, t3, t4 := "<title>", "Preview", "</title>", "<style type=\"text/css\">", "</style>";
    NoSlashHFree(t0);
    NoSlashHFree(t1);
    assert NoSlashH(t2) && NoSlashH(t3) && NoSlashH(t4);
    NoSlashHAppend(t0, t1);
    NoSlashHAppend(t0 + t1, t2);
    NoSlashHAppend(t0 + t1 + t2, t3);
    NoSlashHAppend(t0 + t1 + t2 + t3, t4);
  }

  /** No `/` in the document head is followed by an `h`. */
  lemma DocumentHeadNoSlashH()
    ensures NoSlashH(DocumentHead)
  {
    HeadOpenNoSlashH();
    HeadViewportNoSlashH();
    HeadTitleNoSlashH();
    NoSlashHAppend(HeadOpen, HeadViewport);
    NoSlashHAppend(HeadOpen + HeadViewport, HeadTitle);
  }

  /** Hence no `</head>`, in any case, begins inside the document head. */
  lemma DocumentHeadHasNoHeadClose()
    ensures forall j :: 0 <= j < |DocumentHead| ==> !HeadCloseAt(PagePrefix(), j)
  {
    DocumentHeadNoSlashH();
    var h := DocumentHead;
    var p := PagePrefix();
    forall j | 0 <= j < |h| ensures !HeadCloseAt(p, j) {
      if j + 2 < |h| {
        assert p[j + 1] == h[j + 1] && p[j + 2] == h[j + 2];
      } else if j + 2 == |h| {
        assert p[j + 2] == HeadClose[0];
      } else {
        assert p[j + 1] == HeadClose[0];
      }
    }
  }

  /** The stylesheet link goes in front of the template's own `</head>`. */
  lemma PagePrefixStylesheet(cssUri: string)
    requires '$' !in cssUri
    ensures AddResetStyles(cssUri, PagePrefix()) == DocumentHead + (StyleLink(cssUri) + HeadClose) + BodyOpen
  {
    var n := |DocumentHead|;
    var p := PagePrefix();
    PagePrefixHasHeadClose();
    DocumentHeadHasNoHeadClose();
    FindHeadCloseIsFirst(p, n);
    ReplaceFirst(cssUri, p, n);
    assert p[..n] == DocumentHead;
    assert p[n + 7..] == BodyOpen;
  }

  /** The rendered page carries the one URL verbatim twice, as the value of
      the URL input and as the iframe `src`; the stylesheet link goes right
      before the template's own `</head>`, ahead of both (whatever the URL holds). */
  lemma WebviewContentShowsUrl(cssUri: string, url: string)
    requires '$' !in cssUri
    ensures WebviewContent(cssUri, url) ==
      DocumentHead + (StyleLink(cssUri) + HeadClose) + BodyOpen + (url + BetweenUrls + url + BodyClose)
  {
    PagePrefixHasHeadClose();
    AddResetStylesKeepsTail(cssUri, PagePrefix(), url + BetweenUrls + url + BodyClose, |DocumentHead|);
    PagePrefixStylesheet(cssUri);
  }
}
