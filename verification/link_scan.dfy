/**
 * The link scanner of the Markdown link checker: the regular expression
 * `\[(?:[^\]]+)\]\((https?://[^)\s]+)\)` applied with `finditer`, written
 * out by hand, and `extract_links`, which maps every URL found to the set
 * of files that mention it.
 *
 * Each part of the pattern is deterministic here: `[^\]]+` must stop at
 * the first `]`, `https?://` has at most one way to match, and
 * `[^)\s]+` must stop at the first `)` or whitespace; so a match at a
 * position, if any, is unique and backtracking never finds another.
 */
module LinkScan {
  import opened Wrappers

  /** Python's `\s` on `str`: the characters `str.isspace` accepts. */
  predicate IsSpace(c: char) {
    var n := c as int;
    (0x09 <= n <= 0x0D) || (0x1C <= n <= 0x20) || n == 0x85 || n == 0xA0 || n == 0x1680 ||
    (0x2000 <= n <= 0x200A) || n == 0x2028 || n == 0x2029 || n == 0x202F || n == 0x205F || n == 0x3000
  }

  predicate HasPrefix(s: string, p: string) {
    |p| <= |s| && s[..|p|] == p
  }

  /** What the capture group can hold: a scheme, at least one more character, no `)` and no whitespace. */
  predicate WellFormedUrl(u: string) {
    && ((HasPrefix(u, "https://") && |u| > 8) || (HasPrefix(u, "http://") && |u| > 7))
    && forall k :: 0 <= k < |u| ==> u[k] != ')' && !IsSpace(u[k])
  }

  /** Where `[^\]]+` starting at `from` must stop: the first `]`, or the end. */
  function CloseBracket(s: string, from: nat): (j: nat)
    requires from <= |s|
    ensures from <= j <= |s|
    ensures j < |s| ==> s[j] == ']'
    ensures forall k :: from <= k < j ==> s[k] != ']'
    decreases |s| - from
  {
    if from == |s| || s[from] == ']' then from else CloseBracket(s, from + 1)
  }

  /** Where `[^)\s]+` starting at `from` must stop: the first `)` or whitespace, or the end. */
  function UrlStop(s: string, from: nat): (j: nat)
    requires from <= |s|
    ensures from <= j <= |s|
    ensures j < |s| ==> s[j] == ')' || IsSpace(s[j])
    ensures forall k :: from <= k < j ==> s[k] != ')' && !IsSpace(s[k])
    decreases |s| - from
  {
    if from == |s| || s[from] == ')' || IsSpace(s[from]) then from else UrlStop(s, from + 1)
  }

  /** Where `https?://` starting at `from` ends, if it matches there. */
  function SchemeEnd(s: string, from: nat): (r: Option<nat>)
    requires from <= |s|
    ensures r.Some? ==> from + 7 <= r.value <= |s|
    ensures r.Some? ==> s[from..r.value] == "https://" || s[from..r.value] == "http://"
    ensures r.None? ==> !HasPrefix(s[from..], "https://") && !HasPrefix(s[from..], "http://")
  {
    if HasPrefix(s[from..], "https://") then Some(from + 8)
    else if HasPrefix(s[from..], "http://") then Some(from + 7)
    else None
  }

  /** A scheme followed by at least one character that is neither `)` nor whitespace is a well-formed URL. */
  lemma CapturedUrlWellFormed(s: string, from: nat, k: nat, e: nat)
    requires from <= k < e <= |s|
    requires s[from..k] == "https://" || s[from..k] == "http://"
    requires forall i :: k <= i < e ==> s[i] != ')' && !IsSpace(s[i])
    ensures WellFormedUrl(s[from..e])
  {
    var u := s[from..e];
    assert u[..k - from] == s[from..k];
    forall i | 0 <= i < |u| ensures u[i] != ')' && !IsSpace(u[i]) {
      if i < k - from {
        assert u[i] == s[from..k][i];
      } else {
        assert u[i] == s[from + i];
      }
    }
  }

  datatype Match = Match(url: string, end: nat)

  /** The text up to a closing `)` reads `[text](url)` when `]` and `(` sit where the scanner found them. */
  lemma MatchShape(s: string, j: nat, e: nat)
    requires 1 < j && j + 1 < e < |s| && s[0] == '[' && s[j] == ']' && s[j + 1] == '(' && s[e] == ')'
    requires forall k :: 1 <= k < j ==> s[k] != ']'
    ensures s[1..j] != [] && ']' !in s[1..j]
    ensures s[..e + 1] == "[" + s[1..j] + "](" + s[j + 2..e] + ")"
  {
    var t := s[1..j];
    assert ']' !in t by {
      forall k | 0 <= k < |t| ensures t[k] != ']' {
        assert t[k] == s[k + 1];
      }
    }
    var w := "[" + t + "](" + s[j + 2..e] + ")";
    assert |w| == e + 1;
    forall k | 0 <= k < e + 1 ensures w[k] == s[k] {
      if k == 0 {
      } else if k < j {
        assert w[k] == t[k - 1];
      } else if k == j || k == j + 1 {
      } else if k < e {
        assert w[k] == s[j + 2..e][k - j - 2];
      }
    }
  }

  /** The pattern anchored at the start of `s`: the captured URL and where the match ends. */
  function MatchHere(s: string): (r: Option<Match>)
    ensures r.Some? ==> 0 < r.value.end <= |s| && WellFormedUrl(r.value.url)
    ensures r.Some? ==> exists t :: t != [] && ']' !in t && s[..r.value.end] == "[" + t + "](" + r.value.url + ")"
  {
    if |s| == 0 || s[0] != '[' then None
    else
      var j := CloseBracket(s, 1);
      if j == 1 || j + 1 >= |s| || s[j + 1] != '(' then None
      else
        match SchemeEnd(s, j + 2)
        case None => None
        case Some(k) =>
          var e := UrlStop(s, k);
          if e == k || e >= |s| || s[e] != ')' then None
          else
            CapturedUrlWellFormed(s, j + 2, k, e);
            MatchShape(s, j, e);
            Some(Match(s[j + 2..e], e + 1))
  }

  /** `str.rstrip(")")`. */
  function RStripParen(s: string): (r: string)
    ensures HasPrefix(s, r)
    ensures r == [] || r[|r| - 1] != ')'
    ensures forall k :: |r| <= k < |s| ==> s[k] == ')'
    decreases |s|
  {
    if s != [] && s[|s| - 1] == ')' then RStripParen(s[..|s| - 1]) else s
  }

  /** The captured URL never ends in `)`, so the `rstrip(")")` after the match changes nothing. */
  lemma RStripIsIdentityOnUrls(u: string)
    requires WellFormedUrl(u)
    ensures RStripParen(u) == u
  {
  }

  /** `[m.group(1).rstrip(")") for m in URL_PATTERN.finditer(s)]`: leftmost matches, never overlapping. */
  function Scan(s: string): (urls: seq<string>)
    ensures forall k :: 0 <= k < |urls| ==> WellFormedUrl(urls[k])
    decreases |s|
  {
    if s == [] then []
    else
      match MatchHere(s)
      case Some(m) =>
        RStripIsIdentityOnUrls(m.url);
        [RStripParen(m.url)] + Scan(s[m.end..])
      case None => Scan(s[1..])
  }

  // ---------------------------------------------------------------------
  // Rendering links and reading them back

  /** A Markdown link preceded by plain text that opens no bracket. */
  datatype Link = Link(lead: string, text: string, url: string)

  predicate ValidLink(l: Link) {
    && (forall k :: 0 <= k < |l.lead| ==> l.lead[k] != '[')
    && l.text != []
    && (forall k :: 0 <= k < |l.text| ==> l.text[k] != ']')
    && WellFormedUrl(l.url)
  }

  function RenderLink(l: Link): string {
    l.lead + "[" + l.text + "](" + l.url + ")"
  }

  function Render(links: seq<Link>): string {
    if links == [] then [] else RenderLink(links[0]) + Render(links[1..])
  }

  function Urls(links: seq<Link>): (r: seq<string>)
    ensures |r| == |links|
    ensures forall k :: 0 <= k < |links| ==> r[k] == links[k].url
  {
    if links == [] then [] else [links[0].url] + Urls(links[1..])
  }

  /** A position where the pattern cannot start is skipped. */
  lemma ScanSkipsChar(s: string)
    requires s != [] && s[0] != '['
    ensures Scan(s) == Scan(s[1..])
  {
    assert MatchHere(s) == None;
  }

  lemma {:induction false} ScanSkipsPlainText(lead: string, rest: string)
    requires forall k :: 0 <= k < |lead| ==> lead[k] != '['
    ensures Scan(lead + rest) == Scan(rest)
    decreases |lead|
  {
    if lead != [] {
      var s := lead + rest;
      assert s[0] == lead[0];
      ScanSkipsChar(s);
      assert s[1..] == lead[1..] + rest;
      ScanSkipsPlainText(lead[1..], rest);
    } else {
      assert lead + rest == rest;
    }
  }

  /** `https://` and `http://` never both begin the same text. */
  lemma SchemesExclusive(u: string)
    ensures !(HasPrefix(u, "https://") && HasPrefix(u, "http://"))
  {
    if HasPrefix(u, "https://") {
      assert u[4] == "https://"[4];
    }
  }

  lemma CloseBracketAt(s: string, from: nat, j: nat)
    requires from <= j < |s| && s[j] == ']'
    requires forall i :: from <= i < j ==> s[i] != ']'
    ensures CloseBracket(s, from) == j
  {
  }

  lemma UrlStopAt(s: string, from: nat, e: nat)
    requires from <= e < |s| && s[e] == ')'
    requires forall i :: from <= i < e ==> s[i] != ')' && !IsSpace(s[i])
    ensures UrlStop(s, from) == e
  {
  }

  /** The pattern matches at the start of `s` once each of its parts has been located. */
  lemma MatchHereWhen(s: string, j: nat, k: nat, e: nat)
    requires |s| > 0 && s[0] == '['
    requires 1 < j && CloseBracket(s, 1) == j && j + 1 < |s| && s[j + 1] == '('
    requires SchemeEnd(s, j + 2) == Some(k)
    requires UrlStop(s, k) == e && k < e < |s| && s[e] == ')'
    ensures MatchHere(s) == Some(Match(s[j + 2..e], e + 1))
  {
  }

  /** Where each part of a rendered link sits in the text. */
  lemma RenderedLayout(text: string, url: string, rest: string)
    ensures var s := "[" + text + "](" + url + ")" + rest;
            var j := |text| + 1;
            var e := j + 2 + |url|;
            && |s| == e + 1 + |rest|
            && s[0] == '[' && s[j] == ']' && s[j + 1] == '(' && s[e] == ')'
            && (forall i :: 1 <= i < j ==> s[i] == text[i - 1])
            && s[j + 2..e] == url
  {
    var s := "[" + text + "](" + url + ")" + rest;
    var j := |text| + 1;
    var e := j + 2 + |url|;
    assert s == ("[" + text + "](") + (url + ")" + rest);
    assert ("[" + text + "](")[j] == ']';
  }

  /** A well-formed URL at `from` starts with the scheme `SchemeEnd` finds there. */
  lemma SchemeOfUrl(s: string, from: nat, url: string)
    requires from + |url| <= |s| && s[from..from + |url|] == url
    requires WellFormedUrl(url)
    ensures SchemeEnd(s, from).Some?
    ensures from + 7 <= SchemeEnd(s, from).value < from + |url|
  {
    SchemesExclusive(url);
    if HasPrefix(url, "https://") {
      assert s[from..][..8] == s[from..from + 8];
      assert url[..8] == s[from..from + 8];
    } else {
      assert s[from..][..7] == s[from..from + 7];
      assert url[..7] == s[from..from + 7];
    }
  }

  /** Inside a well-formed URL followed by `)`, the URL characters run exactly to that `)`. */
  lemma UrlRunsTo(s: string, from: nat, url: string, k: nat)
    requires from <= k <= from + |url| < |s| && s[from..from + |url|] == url && s[from + |url|] == ')'
    requires WellFormedUrl(url)
    ensures UrlStop(s, k) == from + |url|
  {
    var e := from + |url|;
    forall i | k <= i < e ensures s[i] != ')' && !IsSpace(s[i]) {
      assert s[i] == s[from..e][i - from];
    }
    UrlStopAt(s, k, e);
  }

  lemma MatchesRenderedLink(text: string, url: string, rest: string)
    requires text != [] && (forall k :: 0 <= k < |text| ==> text[k] != ']')
    requires WellFormedUrl(url)
    ensures MatchHere("[" + text + "](" + url + ")" + rest) ==
            Some(Match(url, |text| + |url| + 4))
  {
    var s := "[" + text + "](" + url + ")" + rest;
    var j := |text| + 1;
    var e := j + 2 + |url|;
    RenderedLayout(text, url, rest);
    CloseBracketAt(s, 1, j);
    SchemeOfUrl(s, j + 2, url);
    var k := SchemeEnd(s, j + 2).value;
    UrlRunsTo(s, j + 2, url, k);
    MatchHereWhen(s, j, k, e);
  }

  /** Scanning a rendered link yields its URL and then whatever follows. */
  lemma ScanRenderedLink(l: Link, rest: string)
    requires ValidLink(l)
    ensures Scan(RenderLink(l) + rest) == [l.url] + Scan(rest)
  {
    var body := "[" + l.text + "](" + l.url + ")" + rest;
    assert RenderLink(l) + rest == l.lead + body;
    ScanSkipsPlainText(l.lead, body);
    MatchesRenderedLink(l.text, l.url, rest);
    RStripIsIdentityOnUrls(l.url);
    assert body[|l.text| + |l.url| + 4..] == rest;
  }

  /** Round trip: the scanner reads back exactly the URLs of rendered links, in order, repeats included. */
  lemma {:induction false} ScanRender(links: seq<Link>)
    requires forall k :: 0 <= k < |links| ==> ValidLink(links[k])
    ensures Scan(Render(links)) == Urls(links)
    decreases |links|
  {
    if links != [] {
      ScanRenderedLink(links[0], Render(links[1..]));
      ScanRender(links[1..]);
    }
  }

  // ---------------------------------------------------------------------
  // extract_links

  datatype MarkdownFile = MarkdownFile(path: string, text: string)

  /** `str(relative).replace("\\", "/")`. */
  function NormalisePath(p: string): (r: string)
    ensures |r| == |p|
    ensures forall k :: 0 <= k < |r| ==> r[k] != '\\'
    ensures forall k :: 0 <= k < |p| && p[k] != '\\' ==> r[k] == p[k]
    ensures forall k :: 0 <= k < |p| && p[k] == '\\' ==> r[k] == '/'
  {
    seq(|p|, k requires 0 <= k < |p| => if p[k] == '\\' then '/' else p[k])
  }

  /** Adds `path` to the set of every URL in `urls` (`setdefault(url, set()).add(path)`). */
  function AddSources(m: map<string, set<string>>, urls: seq<string>, path: string): (r: map<string, set<string>>)
    ensures forall u :: u in r <==> u in m || u in urls
    ensures forall u, p :: u in r ==> (p in r[u] <==> (u in m && p in m[u]) || (u in urls && p == path))
    decreases |urls|
  {
    if urls == [] then m
    else
      var u := urls[0];
      AddSources(m[u := (if u in m then m[u] else {}) + {path}], urls[1..], path)
  }

  /** Whether `u` is linked from file `f`. */
  predicate LinksTo(f: MarkdownFile, u: string) {
    u in Scan(f.text)
  }

  /** File `f` links to `u` and is recorded under `u` as `p`. */
  predicate SourcedFrom(f: MarkdownFile, u: string, p: string) {
    LinksTo(f, u) && p == NormalisePath(f.path)
  }

  /** The URLs each file links to, in file order. */
  function ScanAll(files: seq<MarkdownFile>): (r: seq<seq<string>>)
    ensures |r| == |files|
    ensures forall i :: 0 <= i < |files| ==> r[i] == Scan(files[i].text)
  {
    seq(|files|, i requires 0 <= i < |files| => Scan(files[i].text))
  }

  /** The normalised path of each file, in file order. */
  function PathsOf(files: seq<MarkdownFile>): (r: seq<string>)
    ensures |r| == |files|
    ensures forall i :: 0 <= i < |files| ==> r[i] == NormalisePath(files[i].path)
  {
    seq(|files|, i requires 0 <= i < |files| => NormalisePath(files[i].path))
  }

  /**
   * The URL map `m` records exactly the links of the first `n` files and
   * the path of each, where file `i` links to `links[i]` and has path `paths[i]`.
   */
  ghost predicate Records(m: map<string, set<string>>, links: seq<seq<string>>, paths: seq<string>, n: nat)
    requires n <= |links| == |paths|
  {
    && (forall u :: u in m <==> exists i :: 0 <= i < n && u in links[i])
    && (forall u, p :: u in m ==> (p in m[u] <==> exists i :: 0 <= i < n && u in links[i] && p == paths[i]))
  }

  /** The loop of `extract_links` after its first `n` files. */
  function ExtractPrefix(files: seq<MarkdownFile>, n: nat): (m: map<string, set<string>>)
    requires n <= |files|
    ensures Records(m, ScanAll(files), PathsOf(files), n)
  {
    if n == 0 then map[]
    else
      var before := ExtractPrefix(files, n - 1);
      var f := files[n - 1];
      var m := AddSources(before, Scan(f.text), NormalisePath(f.path));
      RecordsStep(before, ScanAll(files), PathsOf(files), n, m);
      m
  }

  /** Adding the links of file `n - 1` extends what the map records from `n - 1` files to `n`. */
  lemma RecordsStep(before: map<string, set<string>>, links: seq<seq<string>>, paths: seq<string>, n: nat,
                    m: map<string, set<string>>)
    requires 0 < n <= |links| == |paths| && Records(before, links, paths, n - 1)
    requires m == AddSources(before, links[n - 1], paths[n - 1])
    ensures Records(m, links, paths, n)
  {
    forall u ensures u in m <==> exists i :: 0 <= i < n && u in links[i] {
      if u in before {
        var i :| 0 <= i < n - 1 && u in links[i];
        assert 0 <= i < n && u in links[i];
      } else if u in links[n - 1] {
        assert 0 <= n - 1 < n;
      }
    }
    forall u, p | u in m ensures p in m[u] <==> exists i :: 0 <= i < n && u in links[i] && p == paths[i] {
      var was := u in before && p in before[u];
      assert p in m[u] <==> was || (u in links[n - 1] && p == paths[n - 1]);
      SourceStep(links, paths, n, u, p, was, p in m[u]);
    }
  }

  /** One (URL, path) pair after the `n`-th file: recorded before, or contributed by that file. */
  lemma SourceStep(links: seq<seq<string>>, paths: seq<string>, n: nat, u: string, p: string, before: bool, now: bool)
    requires 0 < n <= |links| == |paths|
    requires before <==> exists i :: 0 <= i < n - 1 && u in links[i] && p == paths[i]
    requires now <==> before || (u in links[n - 1] && p == paths[n - 1])
    ensures now <==> exists i :: 0 <= i < n && u in links[i] && p == paths[i]
  {
    if before {
      var i :| 0 <= i < n - 1 && u in links[i] && p == paths[i];
      assert 0 <= i < n;
    }
    if exists i :: 0 <= i < n && u in links[i] && p == paths[i] {
      var i :| 0 <= i < n && u in links[i] && p == paths[i];
      if i < n - 1 {
        assert before;
      }
    }
  }

  /** What the map records about all the files, stated file by file. */
  lemma RecordsAllFiles(m: map<string, set<string>>, files: seq<MarkdownFile>)
    requires Records(m, ScanAll(files), PathsOf(files), |files|)
    ensures forall u :: u in m <==> exists i :: 0 <= i < |files| && LinksTo(files[i], u)
    ensures forall u, p :: u in m ==> (p in m[u] <==> exists i :: 0 <= i < |files| && SourcedFrom(files[i], u, p))
  {
    var links := ScanAll(files);
    var paths := PathsOf(files);
    forall u ensures u in m <==> exists i :: 0 <= i < |files| && LinksTo(files[i], u) {
      if u in m {
        var i :| 0 <= i < |files| && u in links[i];
        assert LinksTo(files[i], u);
      }
      if exists i :: 0 <= i < |files| && LinksTo(files[i], u) {
        var i :| 0 <= i < |files| && LinksTo(files[i], u);
        assert u in links[i];
      }
    }
    forall u, p | u in m ensures p in m[u] <==> exists i :: 0 <= i < |files| && SourcedFrom(files[i], u, p) {
      if p in m[u] {
        var i :| 0 <= i < |files| && u in links[i] && p == paths[i];
        assert SourcedFrom(files[i], u, p);
      }
      if exists i :: 0 <= i < |files| && SourcedFrom(files[i], u, p) {
        var i :| 0 <= i < |files| && SourcedFrom(files[i], u, p);
        assert u in links[i] && p == paths[i];
      }
    }
  }

  /** `extract_links`: each linked URL once, with the normalised path of every file linking to it. */
  function ExtractLinks(files: seq<MarkdownFile>): (m: map<string, set<string>>)
    ensures files == [] ==> m == map[]
    ensures forall u :: u in m <==> exists i :: 0 <= i < |files| && LinksTo(files[i], u)
    ensures forall u, p :: u in m ==>
              (p in m[u] <==> exists i :: 0 <= i < |files| && SourcedFrom(files[i], u, p))
  {
    var m := ExtractPrefix(files, |files|);
    RecordsAllFiles(m, files);
    m
  }

  /** No recorded source path contains a backslash. */
  lemma SourcesUseForwardSlashes(files: seq<MarkdownFile>, u: string, p: string)
    requires u in ExtractLinks(files) && p in ExtractLinks(files)[u]
    ensures forall k :: 0 <= k < |p| ==> p[k] != '\\'
  {
  }
}
