/** The three string classifiers of the extension: `isHTML` (is the active
    document an HTML document), `isSupportFile` (is a text a local file
    reference) and `isSupportUrl` (does a text look like a URL). */
module Utils {
  import opened Wrappers

  // ---------------------------------------------------------------------------
  // ASCII characters
  // ---------------------------------------------------------------------------

  predicate IsAsciiLetter(c: char) { 'a' <= c <= 'z' || 'A' <= c <= 'Z' }

  predicate IsAsciiDigit(c: char) { '0' <= c <= '9' }

  /** Lower-cases an ASCII capital and leaves every other character alone. */
  function LowerAscii(c: char): (r: char)
    ensures 'A' <= c <= 'Z' ==> 'a' <= r <= 'z'
    ensures !('A' <= c <= 'Z') ==> r == c
  {
    if 'A' <= c <= 'Z' then (c as int + 32) as char else c
  }

  /** `String.prototype.toLowerCase`, restricted to ASCII. */
  function ToLowerAscii(s: string): (r: string)
    ensures |r| == |s|
    ensures forall k :: 0 <= k < |s| ==> r[k] == LowerAscii(s[k])
  {
    if s == [] then [] else [LowerAscii(s[0])] + ToLowerAscii(s[1..])
  }

  // ---------------------------------------------------------------------------
  // isHTML
  // ---------------------------------------------------------------------------

  const NotHtmlNotice := "The current editor doesn't show a HTML document."

  /** What `isHTML` returns, together with the information message it shows
      (None when it shows none). */
  datatype HtmlCheck = HtmlCheck(isHtml: bool, notice: Option<string>)

  /** `isHTML` on the language identifier of the editor's document: a
      case-insensitive comparison with "html", showing a notice when it fails. */
  function IsHTML(languageId: string): (r: HtmlCheck)
    ensures r.notice.Some? <==> !r.isHtml
    ensures r.notice.Some? ==> r.notice.value == NotHtmlNotice
  {
    var result := ToLowerAscii(languageId) == "html";
    HtmlCheck(result, if result then None else Some(NotHtmlNotice))
  }

  /** A lower-cased character is 'h' exactly when it was 'h' or 'H' (and so on). */
  lemma LowerAsciiIs(c: char, lower: char)
    requires 'a' <= lower <= 'z'
    ensures LowerAscii(c) == lower <==> c == lower || c as int == lower as int - 32
  {
  }

  /** `isHTML` accepts exactly the sixteen spellings of "html" in mixed case. */
  lemma IsHTMLAcceptsCaseVariants(languageId: string)
    ensures IsHTML(languageId).isHtml <==>
      |languageId| == 4 &&
      languageId[0] in "hH" && languageId[1] in "tT" &&
      languageId[2] in "mM" && languageId[3] in "lL"
  {
    var lowered := ToLowerAscii(languageId);
    if |languageId| == 4 {
      LowerAsciiIs(languageId[0], 'h');
      LowerAsciiIs(languageId[1], 't');
      LowerAsciiIs(languageId[2], 'm');
      LowerAsciiIs(languageId[3], 'l');
      assert lowered == "html" <==>
        lowered[0] == 'h' && lowered[1] == 't' && lowered[2] == 'm' && lowered[3] == 'l';
    }
  }

  /** A few language identifiers, as the editor reports them. */
  lemma IsHTMLExamples()
    ensures IsHTML("html").isHtml && IsHTML("HTML").isHtml && IsHTML("Html").isHtml
    ensures IsHTML("css") == HtmlCheck(false, Some(NotHtmlNotice))
    ensures !IsHTML("xhtml").isHtml && !IsHTML("").isHtml
  {
    IsHTMLAcceptsCaseVariants("html");
    IsHTMLAcceptsCaseVariants("HTML");
    IsHTMLAcceptsCaseVariants("Html");
    IsHTMLAcceptsCaseVariants("css");
    IsHTMLAcceptsCaseVariants("xhtml");
    IsHTMLAcceptsCaseVariants("");
  }

  // ---------------------------------------------------------------------------
  // isSupportFile: the falsy guard, then /^(file|\/)/
  // ---------------------------------------------------------------------------

  /** `isSupportFile`: the text starts with the literal "file" or with '/'
      (case-sensitive, anchored at the start only). */
  function IsSupportFile(url: string): (r: bool)
    ensures r <==> "file" <= url || "/" <= url
  {
    if url == "" then false
    else
      (|url| >= 4 && url[0] == 'f' && url[1] == 'i' && url[2] == 'l' && url[3] == 'e') || url[0] == '/'
  }

  /** The `!url` guard: the empty text is never a file reference. */
  lemma IsSupportFileEmpty()
    ensures !IsSupportFile("")
  {
  }

  /** Only the start of the text matters: appending keeps a file reference one. */
  lemma IsSupportFileAppend(s: string, t: string)
    requires IsSupportFile(s)
    ensures IsSupportFile(s + t)
  {
    if "file" <= s {
      assert (s + t)[..4] == s[..4];
    } else {
      assert (s + t)[0] == s[0];
    }
  }

  /** The test is case-sensitive and anchored. */
  lemma IsSupportFileExamples()
    ensures IsSupportFile("/a/b") && IsSupportFile("file:///a")
    ensures !IsSupportFile("File:///a") && !IsSupportFile("https://x.com")
    ensures !IsSupportFile("") && !IsSupportFile("a/file")
  {
    assert "file" <= "file:///a";
    assert "/" <= "/a/b";
  }

  // ---------------------------------------------------------------------------
  // isSupportUrl: the falsy guard, then
  //   /[-a-zA-Z0-9@:%._\+~#=]{1,256}\.[a-zA-Z0-9()]{1,6}\b(...)?/gi
  // The trailing group is optional and can always match the empty text, so it
  // never decides the outcome of `test` (TailNeverMatters) and the matcher
  // leaves it out.
  // ---------------------------------------------------------------------------

  const HostMax := 256
  const SuffixMax := 6

  /** The three character classes of the pattern (the `i` flag adds nothing:
      each already holds both cases of every letter). */
  datatype CharClass = HostChars | SuffixChars | TailChars

  /** `[-a-zA-Z0-9@:%._\+~#=]`. */
  predicate IsHostChar(c: char) { IsAsciiLetter(c) || IsAsciiDigit(c) || c in "-@:%._+~#=" }

  predicate InClass(cls: CharClass, c: char) {
    match cls
    case HostChars => IsHostChar(c)
    case SuffixChars => IsAsciiLetter(c) || IsAsciiDigit(c) || c == '(' || c == ')'
    // `[-a-zA-Z0-9()@:%_\+.~#?&//=]`: the host characters and `(`, `)`, `?`, `&`, `/`
    case TailChars => IsHostChar(c) || c in "()?&/"
  }

  /** The characters `\b` counts as word characters. */
  predicate IsWordChar(c: char) { IsAsciiLetter(c) || IsAsciiDigit(c) || c == '_' }

  /** `\b` at position p of s: exactly one of the two neighbours is a word character. */
  predicate WordBoundary(s: string, p: nat) {
    (0 < p <= |s| && IsWordChar(s[p - 1])) != (p < |s| && IsWordChar(s[p]))
  }

  predicate AllIn(cls: CharClass, s: string, lo: nat, hi: nat)
    requires lo <= hi <= |s|
  {
    forall k :: lo <= k < hi ==> InClass(cls, s[k])
  }

  /** The host part: n pattern characters from i, then the dot. */
  predicate HostAt(s: string, i: nat, n: nat) {
    1 <= n <= HostMax && i + n < |s| && AllIn(HostChars, s, i, i + n) && s[i + n] == '.'
  }

  /** The suffix part: m suffix characters from j, then a word boundary. */
  predicate SuffixAt(s: string, j: nat, m: nat) {
    1 <= m <= SuffixMax && j + m <= |s| && AllIn(SuffixChars, s, j, j + m) && WordBoundary(s, j + m)
  }

  /** The pattern matches at i with a host of n characters and a suffix of m. */
  predicate MatchAt(s: string, i: nat, n: nat, m: nat) {
    HostAt(s, i, n) && SuffixAt(s, i + n + 1, m)
  }

  /** The pattern matches at i with some host and suffix length. */
  ghost predicate MatchesAt(s: string, i: nat) {
    exists n: nat, m: nat :: MatchAt(s, i, n, m)
  }

  /** Reference meaning of `isSupportUrl`: some position of s begins a match. */
  ghost predicate UrlLike(s: string) {
    exists i: nat :: MatchesAt(s, i)
  }

  /** The whole pattern, with its optional trailing group of t tail characters. */
  predicate MatchWithTailAt(s: string, i: nat, n: nat, m: nat, t: nat) {
    MatchAt(s, i, n, m) && i + n + 1 + m + t <= |s| && AllIn(TailChars, s, i + n + 1 + m, i + n + 1 + m + t)
  }

  /** Some position of s begins a match of the whole pattern, tail included. */
  ghost predicate UrlLikeWithTail(s: string) {
    exists i: nat, n: nat, m: nat, t: nat :: MatchWithTailAt(s, i, n, m, t)
  }

  /** How many characters of class cls a greedy `{0,cap}` takes from i. */
  function RunLength(cls: CharClass, s: string, i: nat, cap: nat): (r: nat)
    requires i <= |s|
    ensures r <= cap && i + r <= |s|
    ensures AllIn(cls, s, i, i + r)
    ensures r < cap && i + r < |s| ==> !InClass(cls, s[i + r])
    decreases cap
  {
    if cap == 0 || i == |s| || !InClass(cls, s[i]) then 0
    else 1 + RunLength(cls, s, i + 1, cap - 1)
  }

  /** A run of m class characters fits the greedy run exactly when m is at most its length. */
  lemma RunLengthIsMaximal(cls: CharClass, s: string, i: nat, cap: nat, m: nat)
    requires i <= |s| && m <= cap && i + m <= |s|
    ensures AllIn(cls, s, i, i + m) <==> m <= RunLength(cls, s, i, cap)
  {
    var r := RunLength(cls, s, i, cap);
    if m > r {
      assert i <= i + r < i + m;
      assert !InClass(cls, s[i + r]);
    }
  }

  /** Backtracking over the suffix: try the lengths m, m-1, ..., 1 for `\b`. */
  function TrySuffix(s: string, j: nat, m: nat): bool
    requires j + m <= |s|
    decreases m
  {
    m > 0 && (WordBoundary(s, j + m) || TrySuffix(s, j, m - 1))
  }

  /** With a host of n characters from i: a dot follows, and the suffix
      after it backtracks to a word boundary. */
  function DotThenSuffix(s: string, i: nat, n: nat): bool
    requires i + n <= |s|
  {
    i + n < |s| && s[i + n] == '.' &&
    TrySuffix(s, i + n + 1, RunLength(SuffixChars, s, i + n + 1, SuffixMax))
  }

  /** Backtracking over the host: try the lengths n, n-1, ..., 1 for a dot and a suffix. */
  function TryHost(s: string, i: nat, n: nat): bool
    requires i + n <= |s|
    decreases n
  {
    n > 0 && (DotThenSuffix(s, i, n) || TryHost(s, i, n - 1))
  }

  /** The regular expression anchored at position i. */
  function MatchFrom(s: string, i: nat): bool
    requires i <= |s|
  {
    TryHost(s, i, RunLength(HostChars, s, i, HostMax))
  }

  /** The anchored matcher at every start position of s, in order. */
  function Anchored(s: string): (r: seq<bool>)
    ensures |r| == |s| && forall j :: 0 <= j < |s| ==> r[j] == MatchFrom(s, j)
  {
    seq(|s|, j requires 0 <= j < |s| => MatchFrom(s, j))
  }

  /** `RegExp.prototype.test`: try the start positions from i onwards, in
      order, and stop at the first that matches (a fresh `RegExp` starts at 0). */
  function Search(tries: seq<bool>, i: nat): bool
    requires i <= |tries|
    decreases |tries| - i
  {
    i < |tries| && (tries[i] || Search(tries, i + 1))
  }

  /** `isSupportUrl`. The `RegExp` is built anew on every call, so the `g`
      flag's `lastIndex` never carries over and the result depends on url only. */
  function IsSupportUrl(url: string): bool
  {
    if url == "" then false else Search(Anchored(url), 0)
  }

  lemma {:induction false} TrySuffixIff(s: string, j: nat, bound: nat)
    requires j + bound <= |s| && bound <= SuffixMax && AllIn(SuffixChars, s, j, j + bound)
    ensures TrySuffix(s, j, bound) <==> exists m: nat :: m <= bound && SuffixAt(s, j, m)
  {
    if bound > 0 {
      TrySuffixIff(s, j, bound - 1);
      if SuffixAt(s, j, bound) {
        assert WordBoundary(s, j + bound);
      }
      if WordBoundary(s, j + bound) {
        assert SuffixAt(s, j, bound);
      }
    }
  }

  /** After a dot at j - 1, some suffix length works exactly when the greedy run backtracks to one. */
  lemma SuffixFromIff(s: string, j: nat)
    requires j <= |s|
    ensures TrySuffix(s, j, RunLength(SuffixChars, s, j, SuffixMax)) <==> exists m: nat :: SuffixAt(s, j, m)
  {
    var bound := RunLength(SuffixChars, s, j, SuffixMax);
    TrySuffixIff(s, j, bound);
    forall m: nat | SuffixAt(s, j, m) ensures m <= bound {
      RunLengthIsMaximal(SuffixChars, s, j, SuffixMax, m);
    }
  }

  /** Some suffix completes a host of exactly n characters from i. */
  ghost predicate HostFits(s: string, i: nat, n: nat) {
    exists m: nat :: MatchAt(s, i, n, m)
  }

  /** Some host of at most bound characters from i is completed by a suffix. */
  ghost predicate HostFitsUpTo(s: string, i: nat, bound: nat) {
    exists n: nat :: n <= bound && HostFits(s, i, n)
  }

  /** A fixed host length works exactly when the matcher's inner step accepts it. */
  lemma DotThenSuffixIff(s: string, i: nat, n: nat)
    requires i + n <= |s| && 1 <= n <= HostMax && AllIn(HostChars, s, i, i + n)
    ensures DotThenSuffix(s, i, n) <==> HostFits(s, i, n)
  {
    var j := i + n + 1;
    if i + n < |s| && s[i + n] == '.' {
      SuffixFromIff(s, j);
      assert HostAt(s, i, n);
      if DotThenSuffix(s, i, n) {
        var m: nat :| SuffixAt(s, j, m);
        assert MatchAt(s, i, n, m);
      }
    }
    if HostFits(s, i, n) {
      var m: nat :| MatchAt(s, i, n, m);
      SuffixFromIff(s, j);
    }
  }

  /** A host of at most bound characters is one of exactly bound or of at most bound - 1. */
  lemma HostFitsUpToStep(s: string, i: nat, bound: nat)
    requires bound > 0
    ensures HostFitsUpTo(s, i, bound) <==> HostFits(s, i, bound) || HostFitsUpTo(s, i, bound - 1)
  {
    if HostFitsUpTo(s, i, bound) {
      var n: nat :| n <= bound && HostFits(s, i, n);
      if n < bound {
        assert HostFitsUpTo(s, i, bound - 1);
      }
    }
    if HostFitsUpTo(s, i, bound - 1) {
      var n: nat :| n <= bound - 1 && HostFits(s, i, n);
      assert HostFitsUpTo(s, i, bound);
    }
    if HostFits(s, i, bound) {
      assert HostFitsUpTo(s, i, bound);
    }
  }

  lemma {:induction false} TryHostIff(s: string, i: nat, bound: nat)
    requires i + bound <= |s| && bound <= HostMax && AllIn(HostChars, s, i, i + bound)
    ensures TryHost(s, i, bound) <==> HostFitsUpTo(s, i, bound)
  {
    if bound > 0 {
      TryHostIff(s, i, bound - 1);
      assert TryHost(s, i, bound) == (DotThenSuffix(s, i, bound) || TryHost(s, i, bound - 1));
      DotThenSuffixIff(s, i, bound);
      HostFitsUpToStep(s, i, bound);
    } else {
      assert !HostFitsUpTo(s, i, 0);
    }
  }

  /** The pattern matches at i exactly when the backtracking matcher succeeds there. */
  lemma MatchFromIff(s: string, i: nat)
    requires i <= |s|
    ensures MatchFrom(s, i) <==> MatchesAt(s, i)
  {
    var bound := RunLength(HostChars, s, i, HostMax);
    TryHostIff(s, i, bound);
    if MatchesAt(s, i) {
      var n: nat, m: nat :| MatchAt(s, i, n, m);
      RunLengthIsMaximal(HostChars, s, i, HostMax, n);
      assert HostFits(s, i, n);
    }
    if HostFitsUpTo(s, i, bound) {
      var n: nat :| n <= bound && HostFits(s, i, n);
      var m: nat :| MatchAt(s, i, n, m);
    }
  }

  /** No match begins at or past the end of the text. */
  lemma NoMatchAtEnd(s: string, i: nat)
    requires |s| <= i
    ensures !MatchesAt(s, i)
  {
    forall n: nat, m: nat ensures !MatchAt(s, i, n, m) {
    }
  }

  /** The scan from i succeeds exactly when some start position at or after i matches. */
  lemma {:induction false} SearchIff(tries: seq<bool>, i: nat)
    requires i <= |tries|
    ensures Search(tries, i) <==> exists j :: i <= j < |tries| && tries[j]
    decreases |tries| - i
  {
    if i < |tries| {
      SearchIff(tries, i + 1);
      if exists j :: i <= j < |tries| && tries[j] {
        var j :| i <= j < |tries| && tries[j];
        if j > i {
          assert i + 1 <= j < |tries| && tries[j];
        }
      }
    }
  }

  /** `isSupportUrl` holds exactly when some position of the text begins
      1-256 host characters, a dot, 1-6 suffix characters and a word boundary. */
  lemma IsSupportUrlMatchesPattern(url: string)
    ensures IsSupportUrl(url) <==> UrlLike(url)
  {
    var tries := Anchored(url);
    SearchIff(tries, 0);
    if IsSupportUrl(url) {
      var j :| 0 <= j < |tries| && tries[j];
      MatchFromIff(url, j);
    }
    if UrlLike(url) {
      var j: nat :| MatchesAt(url, j);
      if j < |url| {
        MatchFromIff(url, j);
        assert tries[j];
      } else {
        NoMatchAtEnd(url, j);
      }
    }
  }

  /** The optional trailing group never decides `test`: it can always match
      the empty text, so the pattern with it matches where the pattern without it does. */
  lemma TailNeverMatters(s: string)
    ensures UrlLikeWithTail(s) <==> UrlLike(s)
  {
    if UrlLike(s) {
      var i: nat :| MatchesAt(s, i);
      var n: nat, m: nat :| MatchAt(s, i, n, m);
      assert MatchWithTailAt(s, i, n, m, 0);
    }
    if UrlLikeWithTail(s) {
      var i: nat, n: nat, m: nat, t: nat :| MatchWithTailAt(s, i, n, m, t);
      assert MatchesAt(s, i);
    }
  }

  /** Every text `isSupportUrl` accepts contains a dot. */
  lemma IsSupportUrlHasDot(url: string)
    requires IsSupportUrl(url)
    ensures '.' in url
  {
    IsSupportUrlMatchesPattern(url);
    var i: nat :| MatchesAt(url, i);
    var n: nat, m: nat :| MatchAt(url, i, n, m);
    assert url[i + n] == '.';
  }

  /** Every character of a literal run belongs to the class, so the run does. */
  lemma AllInByChars(cls: CharClass, s: string, lo: nat, hi: nat)
    requires lo <= hi <= |s|
    requires forall c :: c in s[lo..hi] ==> InClass(cls, c)
    ensures AllIn(cls, s, lo, hi)
  {
    forall k | lo <= k < hi ensures InClass(cls, s[k]) {
      assert s[k] == s[lo..hi][k - lo];
    }
  }

  /** A domain followed by a path and a query is accepted. */
  lemma IsSupportUrlAcceptsDomain()
    ensures IsSupportUrl("example.com/path?q=1")
  {
    var s := "example" + "." + "com" + "/path?q=1";
    assert s == "example.com/path?q=1";
    assert s[0..7] == "example";
    assert s[8..11] == "com";
    AllInByChars(HostChars, s, 0, 7);
    AllInByChars(SuffixChars, s, 8, 11);
    assert s[7] == '.' && s[10] == 'm' && s[11] == '/';
    assert WordBoundary(s, 11);
    assert MatchAt(s, 0, 7, 3);
    assert MatchesAt(s, 0);
    IsSupportUrlMatchesPattern(s);
  }

  /** Texts without a dot, the empty text included, are rejected. */
  lemma IsSupportUrlRejectsNoDot()
    ensures !IsSupportUrl("not a url") && !IsSupportUrl("")
  {
    if IsSupportUrl("not a url") {
      IsSupportUrlHasDot("not a url");
    }
  }
}
