/**
 * `run_checks` and `main` of the link checker: probe every distinct URL,
 * attach the sorted list of files that reference it, report the broken
 * ones sorted by URL, and turn the results into the exit status.
 *
 * The probes run on a thread pool and are collected in completion order,
 * which is an input here (`completion`, any ordering of the distinct
 * URLs); the lemmas at the end show that neither the exit status nor the
 * broken-link report depends on it.
 */
module LinkReport {
  import opened Wrappers
  import opened Text
  import opened LinkScan
  import opened LinkProbe

  /** The network as seen from the checker: the endpoint behind each URL. */
  type Server = string -> Endpoint

  /** The entry `run_checks` appends for `url`: its probe with the sorted referencing files, or the escaping exception. */
  function Record(url: string, sources: set<string>, server: Server): (r: Result<LinkResult, string>)
    ensures r.Failure? <==> ProbeUrl(url, server(url)).result.Failure?
    ensures r.Success? ==> r.value.url == url
  {
    match ProbeUrl(url, server(url)).result
    case Failure(e) => Failure(e)
    case Success(probe) => Success(LinkResult(url, probe.status, probe.ok, SortedStrings(sources)))
  }

  /** A recorded result carries the probe's status and verdict and lists every referencing file once, in ascending order. */
  lemma RecordSortsSources(url: string, sources: set<string>, server: Server)
    requires Record(url, sources, server).Success?
    ensures var x := Record(url, sources, server).value;
            var probe := ProbeUrl(url, server(url)).result.value;
            && x.status == probe.status && x.ok == probe.ok
            && |x.sourceFiles| == |sources|
            && (forall p :: p in x.sourceFiles <==> p in sources)
            && (forall i, j :: 0 <= i < j < |x.sourceFiles| ==> LexLt(x.sourceFiles[i], x.sourceFiles[j]))
  {
    var sorted := SortedStrings(sources);
    assert Record(url, sources, server).value.sourceFiles == sorted;
  }

  /** `completion` is an order in which `as_completed` can yield the futures: each URL of the map once. */
  predicate IsCompletionOrder(completion: seq<string>, links: map<string, set<string>>) {
    && (forall i, j :: 0 <= i < j < |completion| ==> completion[i] != completion[j])
    && (set u | u in completion) == links.Keys
  }

  /**
   * What collecting the futures in the order `completion` yields: one
   * result per URL, in that order, unless some probe raised; then the
   * exception of one of them.
   */
  ghost predicate Collected(completion: seq<string>, links: map<string, set<string>>, server: Server,
                            r: Result<seq<LinkResult>, string>)
    requires forall k :: 0 <= k < |completion| ==> completion[k] in links
  {
    && (r.Success? <==> forall k :: 0 <= k < |completion| ==> Record(completion[k], links[completion[k]], server).Success?)
    && (r.Success? ==> |r.value| == |completion|)
    && (r.Success? ==> forall k :: 0 <= k < |completion| ==>
          Success(r.value[k]) == Record(completion[k], links[completion[k]], server))
    && (r.Failure? ==> exists k :: 0 <= k < |completion| && Record(completion[k], links[completion[k]], server) == Failure(r.error))
  }

  /** The collecting loop: results in completion order; the first exception met escapes `future.result()`. */
  function Collect(completion: seq<string>, links: map<string, set<string>>, server: Server): (r: Result<seq<LinkResult>, string>)
    requires forall k :: 0 <= k < |completion| ==> completion[k] in links
    ensures Collected(completion, links, server, r)
    decreases |completion|
  {
    if completion == [] then Success([])
    else
      var head := Record(completion[0], links[completion[0]], server);
      var tail := Collect(completion[1..], links, server);
      var r := Prepend(head, tail);
      CollectStep(completion, links, server, tail);
      r
  }

  /** `head` then `tail`, or the first exception among them. */
  function Prepend(head: Result<LinkResult, string>, tail: Result<seq<LinkResult>, string>): Result<seq<LinkResult>, string> {
    match head
    case Failure(e) => Failure(e)
    case Success(first) =>
      match tail
      case Failure(e) => Failure(e)
      case Success(rest) => Success([first] + rest)
  }

  lemma CollectStep(completion: seq<string>, links: map<string, set<string>>, server: Server,
                    tail: Result<seq<LinkResult>, string>)
    requires completion != [] && forall k :: 0 <= k < |completion| ==> completion[k] in links
    requires Collected(completion[1..], links, server, tail)
    ensures Collected(completion, links, server, Prepend(Record(completion[0], links[completion[0]], server), tail))
  {
    var head := Record(completion[0], links[completion[0]], server);
    var r := Prepend(head, tail);
    var rest := completion[1..];
    assert forall k :: 1 <= k < |completion| ==> completion[k] == rest[k - 1];
    if r.Success? {
      forall k | 0 <= k < |completion|
        ensures Success(r.value[k]) == Record(completion[k], links[completion[k]], server)
      {
        if k > 0 {
          assert r.value[k] == tail.value[k - 1];
        }
      }
    } else if head.Success? {
      var k :| 0 <= k < |rest| && Record(rest[k], links[rest[k]], server) == Failure(r.error);
      assert completion[k + 1] == rest[k];
    }
    if forall k :: 0 <= k < |completion| ==> Record(completion[k], links[completion[k]], server).Success? {
      assert head.Success?;
      assert forall k :: 0 <= k < |rest| ==> Record(rest[k], links[rest[k]], server).Success?;
    }
  }

  lemma CompletionCoversLinks(completion: seq<string>, links: map<string, set<string>>)
    requires IsCompletionOrder(completion, links)
    ensures |completion| == |links|
    ensures forall u :: u in links <==> u in completion
  {
    var s := set u | u in completion;
    assert forall u :: u in completion <==> u in s;
    DistinctCardinality(completion);
  }

  lemma {:induction false} DistinctCardinality(s: seq<string>)
    requires forall i, j :: 0 <= i < j < |s| ==> s[i] != s[j]
    ensures |set u | u in s| == |s|
    decreases |s|
  {
    if s != [] {
      DistinctCardinality(s[1..]);
      assert (set u | u in s) == {s[0]} + (set u | u in s[1..]);
      assert s[0] !in (set u | u in s[1..]);
    }
  }

  /** The thread-pool part of `run_checks`: every URL of the map probed, collected in completion order. */
  function CheckLinks(links: map<string, set<string>>, server: Server, completion: seq<string>): (r: Result<seq<LinkResult>, string>)
    requires IsCompletionOrder(completion, links)
    ensures r.Success? ==> |r.value| == |completion| == |links|
    ensures r.Success? ==> forall k :: 0 <= k < |r.value| ==> r.value[k].url == completion[k] && r.value[k].url in links
  {
    CompletionCoversLinks(completion, links);
    Collect(completion, links, server)
  }

  /**
   * `run_checks` over the already sorted Markdown files. No files, or no
   * links in them, give no results; otherwise one result per distinct URL.
   */
  function RunChecks(files: seq<MarkdownFile>, server: Server, completion: seq<string>): (r: Result<seq<LinkResult>, string>)
    requires IsCompletionOrder(completion, ExtractLinks(files))
    ensures files == [] ==> r == Success([])
    ensures r.Success? ==> |r.value| == |ExtractLinks(files)|
    ensures r.Success? ==> forall k :: 0 <= k < |r.value| ==> r.value[k].url in ExtractLinks(files)
  {
    if files == [] then Success([])
    else
      var links := ExtractLinks(files);
      if |links| == 0 then Success([])
      else CheckLinks(links, server, completion)
  }

  /** The early returns of `run_checks` agree with probing the (then empty) link map. */
  lemma RunChecksChecksTheLinkMap(files: seq<MarkdownFile>, server: Server, completion: seq<string>)
    requires IsCompletionOrder(completion, ExtractLinks(files))
    ensures RunChecks(files, server, completion) == CheckLinks(ExtractLinks(files), server, completion)
  {
    CompletionCoversLinks(completion, ExtractLinks(files));
  }

  /** `main`: 0 when there are no results or no failures, 1 on a failure; an escaping exception also exits with 1. */
  function ExitCode(run: Result<seq<LinkResult>, string>): (code: int)
    ensures code == 0 || code == 1
    ensures code == 0 <==> run.Success? && forall k :: 0 <= k < |run.value| ==> run.value[k].ok
  {
    match run
    case Failure(_) => 1
    case Success(results) =>
      if results == [] then 0
      else if exists k :: 0 <= k < |results| && !results[k].ok then 1
      else 0
  }

  /** The probe of `url` returned normally and found it reachable. */
  predicate Healthy(url: string, server: Server) {
    ProbeUrl(url, server(url)).result.Success? && ProbeUrl(url, server(url)).result.value.ok
  }

  lemma HealthyRunExitsZero(links: map<string, set<string>>, server: Server, completion: seq<string>)
    requires forall k :: 0 <= k < |completion| ==> completion[k] in links
    requires forall u :: u in links ==> Healthy(u, server)
    ensures ExitCode(Collect(completion, links, server)) == 0
  {
    forall k | 0 <= k < |completion|
      ensures Record(completion[k], links[completion[k]], server).Success?
    {
      assert Healthy(completion[k], server);
    }
  }

  lemma ZeroExitMeansHealthy(links: map<string, set<string>>, server: Server, completion: seq<string>, u: string)
    requires forall v :: v in links <==> v in completion
    requires ExitCode(Collect(completion, links, server)) == 0
    requires u in links
    ensures Healthy(u, server)
  {
    var rs := Collect(completion, links, server).value;
    var k :| 0 <= k < |completion| && completion[k] == u;
    assert Success(rs[k]) == Record(u, links[u], server);
  }

  /** Over a link map: the exit status is 0 exactly when every URL in it is healthy. */
  lemma CheckLinksExitCode(links: map<string, set<string>>, server: Server, completion: seq<string>)
    requires IsCompletionOrder(completion, links)
    ensures ExitCode(CheckLinks(links, server, completion)) == 0 <==> forall u :: u in links ==> Healthy(u, server)
  {
    CompletionCoversLinks(completion, links);
    if forall u :: u in links ==> Healthy(u, server) {
      HealthyRunExitsZero(links, server, completion);
    }
    if ExitCode(Collect(completion, links, server)) == 0 {
      forall u | u in links ensures Healthy(u, server) {
        ZeroExitMeansHealthy(links, server, completion, u);
      }
    }
  }

  /** The exit status is 0 exactly when every linked URL answered with a 2xx or 3xx status. */
  lemma ExitCodeMeansAllHealthy(files: seq<MarkdownFile>, server: Server, completion: seq<string>)
    requires IsCompletionOrder(completion, ExtractLinks(files))
    ensures ExitCode(RunChecks(files, server, completion)) == 0 <==>
            forall u :: u in ExtractLinks(files) ==> Healthy(u, server)
  {
    RunChecksChecksTheLinkMap(files, server, completion);
    CheckLinksExitCode(ExtractLinks(files), server, completion);
  }

  /** The order in which probes complete cannot change the exit status. */
  lemma ExitCodeIgnoresCompletionOrder(files: seq<MarkdownFile>, server: Server, c1: seq<string>, c2: seq<string>)
    requires IsCompletionOrder(c1, ExtractLinks(files)) && IsCompletionOrder(c2, ExtractLinks(files))
    ensures ExitCode(RunChecks(files, server, c1)) == ExitCode(RunChecks(files, server, c2))
  {
    ExitCodeMeansAllHealthy(files, server, c1);
    ExitCodeMeansAllHealthy(files, server, c2);
  }

  /** On success the collected results are exactly the records of the URLs collected, one per URL. */
  lemma CollectEntries(completion: seq<string>, links: map<string, set<string>>, server: Server)
    requires forall i, j :: 0 <= i < j < |completion| ==> completion[i] != completion[j]
    requires forall k :: 0 <= k < |completion| ==> completion[k] in links
    requires Collect(completion, links, server).Success?
    ensures forall x :: x in Collect(completion, links, server).value <==>
              x.url in completion && Success(x) == Record(x.url, links[x.url], server)
    ensures DistinctUrls(Collect(completion, links, server).value)
  {
    var rs := Collect(completion, links, server).value;
    forall x ensures x in rs <==> x.url in completion && Success(x) == Record(x.url, links[x.url], server) {
      if x in rs {
        var k :| 0 <= k < |rs| && rs[k] == x;
        assert Success(rs[k]) == Record(completion[k], links[completion[k]], server);
      }
      if x.url in completion && Success(x) == Record(x.url, links[x.url], server) {
        var k :| 0 <= k < |completion| && completion[k] == x.url;
        assert Success(rs[k]) == Record(completion[k], links[completion[k]], server);
      }
    }
    forall i, j | 0 <= i < j < |rs| ensures rs[i].url != rs[j].url {
      assert Success(rs[i]) == Record(completion[i], links[completion[i]], server);
      assert Success(rs[j]) == Record(completion[j], links[completion[j]], server);
    }
  }

  /** On success the results are exactly the records of the linked URLs, whatever the completion order. */
  lemma RunChecksResults(files: seq<MarkdownFile>, server: Server, completion: seq<string>)
    requires IsCompletionOrder(completion, ExtractLinks(files))
    requires RunChecks(files, server, completion).Success?
    ensures forall x :: x in RunChecks(files, server, completion).value <==>
              x.url in ExtractLinks(files) && Success(x) == Record(x.url, ExtractLinks(files)[x.url], server)
    ensures DistinctUrls(RunChecks(files, server, completion).value)
  {
    var links := ExtractLinks(files);
    RunChecksChecksTheLinkMap(files, server, completion);
    CompletionCoversLinks(completion, links);
    CollectEntries(completion, links, server);
  }

  // ---------------------------------------------------------------------
  // The broken-link report

  predicate DistinctUrls(rs: seq<LinkResult>) {
    forall i, j :: 0 <= i < j < |rs| ==> rs[i].url != rs[j].url
  }

  /** The result in `rs` for `url`. */
  function ResultFor(rs: seq<LinkResult>, url: string): (r: LinkResult)
    requires exists x :: x in rs && x.url == url
    ensures r in rs && r.url == url
  {
    if rs[0].url == url then rs[0] else ResultFor(rs[1..], url)
  }

  /** The URLs of the failed results. */
  function FailingUrls(rs: seq<LinkResult>): set<string> {
    set x | x in rs && !x.ok :: x.url
  }

  /** `sorted(failures, key=lambda r: r.url)`. */
  function BrokenLinks(rs: seq<LinkResult>): (r: seq<LinkResult>)
    requires DistinctUrls(rs)
    ensures forall x :: x in r <==> x in rs && !x.ok
    ensures forall i, j :: 0 <= i < j < |r| ==> LexLt(r[i].url, r[j].url)
  {
    var urls := SortedStrings(FailingUrls(rs));
    assert forall i :: 0 <= i < |urls| ==> urls[i] in FailingUrls(rs);
    var r := seq(|urls|, i requires 0 <= i < |urls| => ResultFor(rs, urls[i]));
    BrokenLinksSound(rs, urls, r);
    BrokenLinksComplete(rs, urls, r);
    r
  }

  lemma BrokenLinksSound(rs: seq<LinkResult>, urls: seq<string>, r: seq<LinkResult>)
    requires DistinctUrls(rs)
    requires forall u :: u in urls <==> u in FailingUrls(rs)
    requires |r| == |urls| && forall i :: 0 <= i < |urls| ==> r[i] in rs && r[i].url == urls[i]
    ensures forall i :: 0 <= i < |r| ==> !r[i].ok
  {
    forall i | 0 <= i < |r| ensures !r[i].ok {
      assert urls[i] in FailingUrls(rs);
      var x :| x in rs && !x.ok && x.url == urls[i];
      SameUrlSameResult(rs, x, r[i]);
    }
  }

  lemma BrokenLinksComplete(rs: seq<LinkResult>, urls: seq<string>, r: seq<LinkResult>)
    requires DistinctUrls(rs)
    requires forall u :: u in urls <==> u in FailingUrls(rs)
    requires |r| == |urls| && forall i :: 0 <= i < |urls| ==> r[i] in rs && r[i].url == urls[i]
    ensures forall x :: x in rs && !x.ok ==> x in r
  {
    forall x | x in rs && !x.ok ensures x in r {
      assert x.url in FailingUrls(rs);
      var i :| 0 <= i < |urls| && urls[i] == x.url;
      SameUrlSameResult(rs, x, r[i]);
    }
  }

  lemma SameUrlSameResult(rs: seq<LinkResult>, x: LinkResult, y: LinkResult)
    requires DistinctUrls(rs) && x in rs && y in rs && x.url == y.url
    ensures x == y
  {
    var i :| 0 <= i < |rs| && rs[i] == x;
    var j :| 0 <= j < |rs| && rs[j] == y;
    if i < j || j < i {
      assert rs[i].url == rs[j].url;
    }
  }

  /** Two result lists with the same entries report the same broken links, in the same order. */
  lemma {:induction false} BrokenLinksDependOnlyOnEntries(r1: seq<LinkResult>, r2: seq<LinkResult>)
    requires DistinctUrls(r1) && DistinctUrls(r2)
    requires forall x :: x in r1 <==> x in r2
    ensures BrokenLinks(r1) == BrokenLinks(r2)
  {
    var b1 := BrokenLinks(r1);
    var b2 := BrokenLinks(r2);
    StrictlySortedUnique(b1, b2);
  }

  /** Two sequences sorted strictly by URL with the same entries are equal. */
  lemma {:induction false} StrictlySortedUnique(a: seq<LinkResult>, b: seq<LinkResult>)
    requires forall i, j :: 0 <= i < j < |a| ==> LexLt(a[i].url, a[j].url)
    requires forall i, j :: 0 <= i < j < |b| ==> LexLt(b[i].url, b[j].url)
    requires forall x :: x in a <==> x in b
    ensures a == b
    decreases |a|
  {
    if a != [] && b != [] {
      assert a[0] in a && b[0] in b;
      if a[0] != b[0] {
        var i :| 0 <= i < |b| && b[i] == a[0];
        var j :| 0 <= j < |a| && a[j] == b[0];
        assert LexLt(b[0].url, b[i].url);
        assert LexLt(a[0].url, a[j].url);
        LexLeAntisymmetric(a[0].url, b[0].url);
        assert false;
      }
      forall x ensures x in a[1..] <==> x in b[1..] {
        if x in a[1..] {
          var i :| 0 <= i < |a[1..]| && a[1..][i] == x;
          assert a[i + 1] == x && LexLt(a[0].url, x.url);
          assert x in b;
          var j :| 0 <= j < |b| && b[j] == x;
          assert j != 0;
          assert b[1..][j - 1] == x;
        }
        if x in b[1..] {
          var i :| 0 <= i < |b[1..]| && b[1..][i] == x;
          assert b[i + 1] == x && LexLt(b[0].url, x.url);
          assert x in a;
          var j :| 0 <= j < |a| && a[j] == x;
          assert j != 0;
          assert a[1..][j - 1] == x;
        }
      }
      StrictlySortedUnique(a[1..], b[1..]);
    } else {
      HasMember(a);
      HasMember(b);
    }
  }

  lemma HasMember(s: seq<LinkResult>)
    ensures s != [] ==> exists x :: x in s
  {
    if s != [] {
      assert s[0] in s;
    }
  }

  /** The broken-link report does not depend on the order in which probes complete. */
  lemma BrokenLinksIgnoreCompletionOrder(files: seq<MarkdownFile>, server: Server, c1: seq<string>, c2: seq<string>)
    requires IsCompletionOrder(c1, ExtractLinks(files)) && IsCompletionOrder(c2, ExtractLinks(files))
    requires RunChecks(files, server, c1).Success?
    ensures RunChecks(files, server, c2).Success?
    ensures BrokenLinks(RunChecks(files, server, c1).value) == BrokenLinks(RunChecks(files, server, c2).value)
  {
    RunChecksResults(files, server, c1);
    SuccessIgnoresCompletionOrder(files, server, c1, c2);
    RunChecksResults(files, server, c2);
    BrokenLinksDependOnlyOnEntries(RunChecks(files, server, c1).value, RunChecks(files, server, c2).value);
  }

  /** Whether some probe lets an exception escape does not depend on the completion order. */
  lemma SuccessIgnoresCompletionOrder(files: seq<MarkdownFile>, server: Server, c1: seq<string>, c2: seq<string>)
    requires IsCompletionOrder(c1, ExtractLinks(files)) && IsCompletionOrder(c2, ExtractLinks(files))
    ensures RunChecks(files, server, c1).Success? <==> RunChecks(files, server, c2).Success?
  {
    var links := ExtractLinks(files);
    RunChecksChecksTheLinkMap(files, server, c1);
    RunChecksChecksTheLinkMap(files, server, c2);
    CompletionCoversLinks(c1, links);
    CompletionCoversLinks(c2, links);
    AllRecordsSucceed(c1, links, server);
    AllRecordsSucceed(c2, links, server);
  }

  lemma AllRecordsSucceed(completion: seq<string>, links: map<string, set<string>>, server: Server)
    requires forall u :: u in links <==> u in completion
    ensures Collect(completion, links, server).Success? <==> forall u :: u in links ==> Record(u, links[u], server).Success?
  {
    if Collect(completion, links, server).Success? {
      forall u | u in links ensures Record(u, links[u], server).Success? {
        var k :| 0 <= k < |completion| && completion[k] == u;
      }
    }
  }

  // ---------------------------------------------------------------------
  // The printed summary

  function Join(sep: string, parts: seq<string>): (r: string)
    ensures |parts| == 1 ==> r == parts[0]
  {
    if parts == [] then []
    else if |parts| == 1 then parts[0]
    else parts[0] + sep + Join(sep, parts[1..])
  }

  /** `f"  - {item.url} -> {item.status} (referenced in {files})"`. */
  function BrokenLine(item: LinkResult): string {
    "  - " + item.url + " -> " + item.status + " (referenced in " + Join(", ", item.sourceFiles) + ")"
  }

  const AllHealthyLine: string := "All external links responded successfully."
  const BrokenHeading: string := "Broken links detected:"

  /** The lines printed after the timing line: a heading and one line per broken link, or the all-clear. */
  function SummaryLines(rs: seq<LinkResult>): (lines: seq<string>)
    requires DistinctUrls(rs)
    ensures (forall k :: 0 <= k < |rs| ==> rs[k].ok) <==> lines == [AllHealthyLine]
    ensures lines != [AllHealthyLine] ==>
              |lines| == |BrokenLinks(rs)| + 2 && lines[..2] == ["", BrokenHeading] &&
              forall k :: 0 <= k < |BrokenLinks(rs)| ==> lines[k + 2] == BrokenLine(BrokenLinks(rs)[k])
  {
    var broken := BrokenLinks(rs);
    NothingBrokenMeansAllOk(rs);
    if broken == [] then [AllHealthyLine]
    else ["", BrokenHeading] + seq(|broken|, k requires 0 <= k < |broken| => BrokenLine(broken[k]))
  }

  lemma NothingBrokenMeansAllOk(rs: seq<LinkResult>)
    requires DistinctUrls(rs)
    ensures BrokenLinks(rs) == [] <==> forall k :: 0 <= k < |rs| ==> rs[k].ok
  {
    var broken := BrokenLinks(rs);
    if broken != [] {
      assert broken[0] in rs && !broken[0].ok;
    } else {
      forall k | 0 <= k < |rs| ensures rs[k].ok {
        assert rs[k] in rs;
      }
    }
  }
}
