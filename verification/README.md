# Plugin catalog, account model and Markdown link checker in Dafny

This project models the deterministic logic of three parts of a console
tour of C# language features and of its documentation tooling, and proves
properties of each.

- **Reflection showcase** (`ReflectionShowcase.cs`). `ReflectionPluginCatalog.Discover` keeps the
  non-abstract types assignable to `IReflectionPlugin` and sorts them stably by the `Order` of their
  `ReflectionPlugin` attribute, with a missing attribute counted as `int.MaxValue`. The executor that
  `BuildExecutor` returns creates each plugin, wraps it in a `PluginLoggingProxy` and threads the payload
  through the plugins in descriptor order. The built-in plugins are `UppercasePlugin` and `MetadataPlugin`.
  `PluginSandbox` loads an assembly lazily into a collectible context, summarises its plugin types from
  metadata, and unloads the context on the first `Dispose`.
- **Object-model showcase** (`ObjectModelShowcase.cs`). `CustomerAccount.Credit` refuses non-positive
  amounts and raises a balance-changed event that `AccountAuditor` re-raises unchanged.
  `Currency.FromCode` validates and upper-cases a code. `ConvertTo` is the identity between codes equal
  ignoring case; otherwise it rounds `amount * rate` to cents, midpoints away from zero.
  `SubscriptionTier` is a `[Flags]` enum. `HighValuePredicate` means a balance of at least 1000.
- **Link checker** (`scripts/check_links.py`). The pattern `\[(?:[^\]]+)\]\((https?://[^)\s]+)\)` is
  written out as a hand scanner. `extract_links` maps each URL to the set of normalised paths of the files
  that mention it. `probe_url` sends HEAD and falls back to GET after 405 or 501, and classifies the answer
  as ok exactly for a 2xx or 3xx status. `run_checks` gathers one result per URL with its sorted sources and
  prints the broken ones sorted by URL. `main` turns the results into the exit status.

Reflection, the network, clocks and the file system are inputs:

- an assembly is the sequence of `TypeInfo` records that `GetTypes` enumerates;
- `Activator.CreateInstance` is an `activate` function;
- a plugin is a name plus a function from payload to outcome;
- a stopwatch reading is a number passed in;
- the HTTP server behind each URL is an `Endpoint`;
- the order in which the thread pool completes probes is a `completion` sequence.

Every state change is a pure function that returns the next immutable record: the sandbox's load and
dispose, and the account's credit. Money is `real`, so `decimal` arithmetic is exact. The tier flags are
`bv32`.

Behaviour of the code that the model keeps:

- The proxy logs nothing when the decorated method throws synchronously. The exception is unwrapped and
  rethrown first; only returned values and returned tasks are logged.
- The executor passes the cancellation token along but never checks it. The model has no cancellation;
  a plugin that fails stops the pipeline.
- Sandbox summaries keep enumeration order and are not sorted.
  - An attribute without a named `Order` gets `int.MaxValue` there, where the host's attribute object
    gets 0.
  - A missing description becomes `""`.
  - The sandbox also requires `IsClass`, which the host does not.
- `main` has no handler for an exception that escapes `run_checks`. Python then exits with status 1, which is how the model treats a failed run.
- `LoadPluginDescriptors` does not check `_disposed`. After `Dispose` a cached assembly is still
  inspected. A first load into the unloaded context fails.

## Model

| member | source | states |
|---|---|---|
| Catalog.PluginTypes | samples/ConsoleSnippets/ReflectionShowcase.cs:53-55 | A type is kept exactly when it is in the assembly, is not abstract and is the contract or implements it. The result is no longer than the input, and has no duplicates when the assembly has none. |
| Catalog.PluginTypesAppend | samples/ConsoleSnippets/ReflectionShowcase.cs:53-55 | The filter keeps enumeration order: filtering `a + b` is filtering `a`, then `b`. |
| Catalog.Discover | samples/ConsoleSnippets/ReflectionShowcase.cs:51-61 | Every descriptor describes a non-abstract plugin type of the assembly, and every such type is described: nothing extra, none dropped. The result is a permutation of the unsorted descriptors, ascending by `Order`, with a missing attribute as `int.MaxValue`. |
| Catalog.DiscoverDistinct | samples/ConsoleSnippets/ReflectionShowcase.cs:53-58 | When the assembly lists each type once, discovery lists no descriptor twice. |
| Catalog.DiscoverStable | samples/ConsoleSnippets/ReflectionShowcase.cs:57 | Descriptors that share an order key keep their enumeration order, because `OrderBy` is stable. |
| Catalog.UnattributedSortLast | samples/ConsoleSnippets/ReflectionShowcase.cs:57 | A plugin without the attribute comes after every plugin whose `Order` is below `int.MaxValue`. |
| Catalog.SandboxPluginTypes | samples/ConsoleSnippets/ReflectionShowcase.cs:217 | The sandbox keeps exactly the non-abstract classes that implement an interface with the contract's full name. |
| Catalog.SandboxPluginTypesAppend | samples/ConsoleSnippets/ReflectionShowcase.cs:215-217 | The sandbox filter keeps enumeration order in the same way. |
| Catalog.Summaries | samples/ConsoleSnippets/ReflectionShowcase.cs:215-229 | One summary per sandbox plugin type, in enumeration order. The type name is the full name, else the simple name. A type without the attribute reports order `int.MaxValue`. A description is empty exactly when the attribute or its description is missing or empty. |
| Catalog.SandboxAgreesWithHost | samples/ConsoleSnippets/ReflectionShowcase.cs:215-229 | Suppose every plugin type is a class implementing the contract and every attribute states both description and order. Then the host's sorted descriptors, summarised, equal the sandbox summaries stably sorted by order. |
| Catalog.OrderDefaultsDiffer | samples/ConsoleSnippets/ReflectionShowcase.cs:225 | Suppose an attribute has no named `Order`. The host sorts it as 0 and the sandbox reports `int.MaxValue`. |
| StableSort.SortBy | samples/ConsoleSnippets/ReflectionShowcase.cs:57 | The sorted sequence is a permutation of the input, ascending by key. |
| StableSort.SortByStable | samples/ConsoleSnippets/ReflectionShowcase.cs:57 | For every key, the elements with that key appear in the same order as in the input. |
| StableSort.SortByDistinct | samples/ConsoleSnippets/ReflectionShowcase.cs:57 | Sorting a duplicate-free sequence leaves it duplicate-free. |
| Plugins.UppercaseText | samples/ConsoleSnippets/ReflectionShowcase.cs:108-109 | The output has the payload's length and no lower-case letter. It keeps every character that was not lower case, and equals the payload ignoring case. |
| Plugins.UppercaseIdempotent | samples/ConsoleSnippets/ReflectionShowcase.cs:108-109 | Upper-casing twice is upper-casing once. |
| Plugins.MetadataText | samples/ConsoleSnippets/ReflectionShowcase.cs:117-122 | The output starts with the payload followed by `" ["` and ends with `"]"`. Its length is the payload's plus that of the caller's name, the timestamp and seven separator characters. |
| Plugins.MetadataRoundTrip | samples/ConsoleSnippets/ReflectionShowcase.cs:121 | The metadata plugin only appends, so the payload can be recovered from its output. |
| Plugins.ShowcaseDiscovery | samples/ConsoleSnippets/ReflectionShowcase.cs:103-123 | In the showcase assembly both paths find the two plugins, upper-case plugin first. |
| Proxy.Invoke | samples/ConsoleSnippets/ReflectionShowcase.cs:139-194 | A null target method throws `ArgumentNullException` and logs nothing. Otherwise the reply, value or exception, is the decorated method's own. Exactly one line is logged when the call returned, whether its task then succeeded or faulted, and none when it threw. The line reads `Method X completed in N ms`. |
| Proxy.CompletedMessageDistinguishesElapsed | samples/ConsoleSnippets/ReflectionShowcase.cs:192 | Two different stopwatch readings never produce the same completion line. |
| Pipeline.Step | samples/ConsoleSnippets/ReflectionShowcase.cs:73-76 | The awaited value or exception is the plugin's own. One line, prefixed with the plugin's name, is logged exactly when `ExecuteAsync` returned a task. |
| Pipeline.Execute | samples/ConsoleSnippets/ReflectionShowcase.cs:69-80 | The loop's output and log equal the recursive reference semantics. The output is the left fold of the plugins over the input, and an empty descriptor list returns the input with no log. |
| Pipeline.Advance | samples/ConsoleSnippets/ReflectionShowcase.cs:71-77 | One iteration either stops the run with a failure, or continues from the next descriptor with the plugin's output. |
| Pipeline.ProxiedRunIsFold | samples/ConsoleSnippets/ReflectionShowcase.cs:69-80 | Proxies do not change the computed value: a proxied run has the same outcome as the plain fold. |
| Pipeline.FoldAppend | samples/ConsoleSnippets/ReflectionShowcase.cs:71-77 | Running `a + b` is running `a`, then `b` on its output; a failure in `a` is the result. |
| Pipeline.SuccessfulRunLogsEachPlugin | samples/ConsoleSnippets/ReflectionShowcase.cs:71-77 | A successful run logs one line per descriptor, in descriptor order. Each line names its plugin and its own stopwatch reading. |
| Pipeline.RunLogBounded | samples/ConsoleSnippets/ReflectionShowcase.cs:71-77 | Any run logs at most one line per descriptor. |
| Pipeline.FailureStopsPipeline | samples/ConsoleSnippets/ReflectionShowcase.cs:71-77 | After the first failure nothing else runs. Appending descriptors to a failing list changes neither output nor log. |
| Pipeline.ShowcaseRun | samples/ConsoleSnippets/ReflectionShowcase.cs:26-29 | The discovered plugins turn "hello from MAUI" into "HELLO FROM MAUI [MetadataPlugin at t]". The upper-case plugin's line is logged first, then the metadata plugin's. |
| Sandbox.LoadPluginDescriptors | samples/ConsoleSnippets/ReflectionShowcase.cs:210-232 | A cached assembly is reused without reloading. A first load either caches the assembly and counts one load, or fails leaving the sandbox unchanged. An unloaded context refuses a first load. The summaries are those of the cached assembly. |
| Sandbox.Dispose | samples/ConsoleSnippets/ReflectionShowcase.cs:237-248 | Afterwards the sandbox is disposed. The first call unloads the context once; a later call changes nothing. |
| Sandbox.DisposeIdempotent | samples/ConsoleSnippets/ReflectionShowcase.cs:239-242 | Disposing twice is disposing once. |
| Sandbox.InspectionIsStable | samples/ConsoleSnippets/ReflectionShowcase.cs:212 | After a successful inspection, inspecting again neither reloads nor changes the answer, whatever the file system then holds. |
| Sandbox.AtMostOneLoadAndUnload | samples/ConsoleSnippets/ReflectionShowcase.cs:210-248 | Over any sequence of inspections and disposals of a fresh sandbox, the assembly is loaded at most once. The context is unloaded at most once, exactly when the sandbox is disposed. |
| Sandbox.ShowcaseLifetime | samples/ConsoleSnippets/ReflectionShowcase.cs:34-35 | The `using` block inspects the freshly loaded assembly, and disposal at scope end unloads once. |
| Account.TierFlagsAreBits | samples/ConsoleSnippets/ObjectModelShowcase.cs:106-113 | `Standard` is 0, and the other members are distinct single bits. |
| Account.HasFlagOfUnion | samples/ConsoleSnippets/ObjectModelShowcase.cs:48 | A combination of flags has each of its parts. |
| Account.StandardIsNoFlag | samples/ConsoleSnippets/ObjectModelShowcase.cs:109 | Every value has `Standard`, and `Standard` has no flag but itself. |
| Account.ShowcaseTiers | samples/ConsoleSnippets/ObjectModelShowcase.cs:44-48 | `Premium \| Analytics` has `Premium`, while `Standard` does not. |
| Account.FromCode | samples/ConsoleSnippets/ObjectModelShowcase.cs:92-96 | A null code fails with `ArgumentNullException` and an empty one with `ArgumentException`; anything else succeeds. The stored code has the same length, no lower-case letter and keeps every other character, so it equals the input ignoring case. |
| Account.FromCodeIdempotent | samples/ConsoleSnippets/ObjectModelShowcase.cs:92-96 | Rebuilding a currency from its own code gives the same currency. |
| Account.FromCodeIgnoresCase | samples/ConsoleSnippets/ObjectModelShowcase.cs:95 | Two non-empty codes give the same currency exactly when they are equal ignoring case. |
| Account.RoundToCents | samples/ConsoleSnippets/ObjectModelShowcase.cs:101 | The cents are the nearest whole number to 100·x, with a midpoint going up for x ≥ 0 and down for x < 0. |
| Account.RoundToCentsUnique | samples/ConsoleSnippets/ObjectModelShowcase.cs:101 | No other whole number of cents satisfies those bounds. |
| Account.RoundToCentsSymmetric | samples/ConsoleSnippets/ObjectModelShowcase.cs:101 | Rounding commutes with negation. |
| Account.MidpointsAwayFromZero | samples/ConsoleSnippets/ObjectModelShowcase.cs:101 | Half a cent above or below a whole cent rounds away from zero, on both sides of zero. |
| Account.RoundWholeCents | samples/ConsoleSnippets/ObjectModelShowcase.cs:101 | An amount already in whole cents is unchanged, so rounding is idempotent. |
| Account.Round2 | samples/ConsoleSnippets/ObjectModelShowcase.cs:101 | The result is a whole number of cents: times 100 it is `RoundToCents(x)`. It lies within half a cent of the exact amount. |
| Account.ConvertTo | samples/ConsoleSnippets/ObjectModelShowcase.cs:98-101 | Between codes equal ignoring case the result is the amount itself. Otherwise it is amount × rate rounded to cents, within half a cent. |
| Account.ConvertSameCode | samples/ConsoleSnippets/ObjectModelShowcase.cs:98-100 | Converting between currencies made from codes equal ignoring case returns the amount, whatever the rate. |
| Account.NewAccount | samples/ConsoleSnippets/ObjectModelShowcase.cs:56-67 | A new account has balance 0, tier `Standard` and currency USD, which is a valid currency. |
| Account.Credit | samples/ConsoleSnippets/ObjectModelShowcase.cs:71-80 | A non-positive amount throws `ArgumentOutOfRangeException` and leaves the account unchanged. A positive one raises the balance by exactly the amount. The raised event carries the account, the previous balance and the new balance, and nothing else about the account changes. |
| Account.AuditorForwards | samples/ConsoleSnippets/ObjectModelShowcase.cs:133-139 | The auditor re-raises the very same event args once per subscription, as sender. |
| Account.CreditIsForwarded | samples/ConsoleSnippets/ObjectModelShowcase.cs:71-80 | For a positive credit, each auditor subscriber gets the re-raised event once per subscription. The event names the account, the balance before and the balance plus the amount. A refused credit raises nothing, so nothing is forwarded. |
| Account.HighValueIsKept | samples/ConsoleSnippets/ObjectModelShowcase.cs:10 | Credits never lower the balance, so a high-value account (balance ≥ 1000) stays high-value. |
| Account.CreditChain | samples/ConsoleSnippets/ObjectModelShowcase.cs:71-77 | For a run of positive credits the events chain up. The first starts at the opening balance and each starts where the previous ended. The last ends at the closing balance, which is the opening balance plus the total. |
| Account.ShowcaseCredit | samples/ConsoleSnippets/ObjectModelShowcase.cs:16-33 | Crediting 1250 to a fresh, audited account raises one high-value change from 0 to 1250, forwarded once. |
| Text.UpperNormalises | samples/ConsoleSnippets/ObjectModelShowcase.cs:95 | Upper-casing leaves no lower-case letter and keeps every other character. It is idempotent. |
| Text.EqualsIgnoreCaseCharwise | samples/ConsoleSnippets/ObjectModelShowcase.cs:99 | Case-insensitive ordinal equality means equal length and equal upper-cased characters position by position. |
| LinkScan.CloseBracket | scripts/check_links.py:24 | `[^\]]+` stops at the first `]`, or at the end when there is none. |
| LinkScan.UrlStop | scripts/check_links.py:24 | `[^)\s]+` stops at the first `)` or whitespace character, or at the end. |
| LinkScan.SchemeEnd | scripts/check_links.py:24 | `https?://` matches exactly when the text there starts with `https://` or `http://`, and ends after it. |
| LinkScan.MatchHere | scripts/check_links.py:24 | A match ends inside the text, and the text up to its end reads `[t](url)`. Here `t` is non-empty and free of `]`. The captured URL has a scheme, at least one more character, and no `)` or whitespace. |
| LinkScan.RStripParen | scripts/check_links.py:43 | `rstrip(")")` keeps a prefix of its input that does not end in `)`. Everything it removes is `)`. |
| LinkScan.ScanSkipsPlainText | scripts/check_links.py:42 | Text that opens no `[` contributes no match, so scanning skips over it. |
| LinkScan.Scan | scripts/check_links.py:42-43 | Every URL found is well formed in that sense. |
| LinkScan.RStripIsIdentityOnUrls | scripts/check_links.py:43 | A captured URL never ends in `)`, so the `rstrip(")")` changes nothing. |
| LinkScan.MatchesRenderedLink | scripts/check_links.py:24 | `[text](url)` with non-empty text free of `]` and a well-formed URL matches, capturing exactly that URL. |
| LinkScan.ScanRender | scripts/check_links.py:42-43 | Round trip: scanning Markdown rendered from links gives back their URLs, in order and with repeats. |
| LinkScan.NormalisePath | scripts/check_links.py:48 | Every backslash becomes `/`. Nothing else changes, so no backslash is left. |
| LinkScan.AddSources | scripts/check_links.py:48 | After `setdefault(url, set()).add(path)` for each URL, a URL is a key exactly when it was one before or was added. A path is listed exactly when it was before or was added for that URL. |
| LinkScan.ExtractLinks | scripts/check_links.py:36-49 | A URL is a key exactly when some file links to it, so repeats give one key. A path is listed under a URL exactly when it is the normalised path of a file that links to that URL. No files give an empty map. |
| LinkScan.SourcesUseForwardSlashes | scripts/check_links.py:48 | No recorded source path contains a backslash. |
| LinkProbe.Classify | scripts/check_links.py:57-66 | A response is ok exactly when its status is 2xx or 3xx; HTTP and connection errors never are. The status text is `"code reason"` or `"Connection error: reason"`. Any other exception escapes. |
| LinkProbe.ProbeGet | scripts/check_links.py:69-78 | One GET, classified like HEAD. |
| LinkProbe.ProbeUrl | scripts/check_links.py:52-66 | HEAD is sent first. GET follows exactly when HEAD fails with 405 or 501. The result is the classification of the deciding answer: its status text, its verdict (ok exactly for 2xx or 3xx), or the unexpected exception that escapes. |
| LinkProbe.OkMeansReachableAnswer | scripts/check_links.py:59 | A link is ok only if one of the requests actually sent got a 2xx or 3xx answer. |
| LinkProbe.HeadDecidesUnlessRejected | scripts/check_links.py:56-59 | Unless HEAD is rejected with 405 or 501, the server's GET behaviour is irrelevant. |
| LinkProbe.RejectedHeadFallsBackToGet | scripts/check_links.py:60-63 | After a rejected HEAD the result is exactly what a lone GET gives, and the requests are HEAD then GET. |
| LinkProbe.StatusLineStartsWithCode | scripts/check_links.py:58 | The status text starts with the decimal status code, which can be read back. |
| LinkReport.Record | scripts/check_links.py:98-105 | An entry fails exactly when its probe lets an exception escape, and it is for the URL probed. |
| LinkReport.RecordSortsSources | scripts/check_links.py:99 | An entry carries the probe's status and verdict, and lists every referencing file once, in ascending order. |
| LinkReport.Collect | scripts/check_links.py:102-105 | Collecting succeeds exactly when every probe returns. Then it yields one entry per URL, in completion order. Otherwise it fails with the exception of some probe. |
| LinkReport.CheckLinks | scripts/check_links.py:97-105 | On success there is one result per distinct URL, each for a URL of the map. |
| LinkReport.RunChecks | scripts/check_links.py:81-105 | No Markdown files give no results. Otherwise each result is for a URL of the extracted map, one per URL. |
| LinkReport.RunChecksChecksTheLinkMap | scripts/check_links.py:84-91 | The early returns agree with probing the link map, since that map is then empty. |
| LinkReport.RunChecksResults | scripts/check_links.py:97-105 | On success the results are exactly the entries of the linked URLs, one per URL, whatever the completion order. |
| LinkReport.CollectEntries | scripts/check_links.py:102-105 | On success the collected results are exactly the entries of the URLs collected, with no URL twice. |
| LinkReport.ExitCode | scripts/check_links.py:139-145 | The status is 0 or 1. It is 0 exactly when the run returned and every result is ok; no results count as all ok. |
| LinkReport.HealthyRunExitsZero | scripts/check_links.py:142-145 | When every URL of the map is healthy, the status is 0. |
| LinkReport.ZeroExitMeansHealthy | scripts/check_links.py:142-145 | Conversely, a status of 0 means every URL of the map is healthy. |
| LinkReport.CheckLinksExitCode | scripts/check_links.py:139-145 | Over a link map, the status is 0 exactly when every URL in it is healthy. |
| LinkReport.ExitCodeMeansAllHealthy | scripts/check_links.py:139-145 | The status is 0 exactly when every linked URL answered 2xx or 3xx. |
| LinkReport.ExitCodeIgnoresCompletionOrder | scripts/check_links.py:102 | The order in which probes complete cannot change the exit status. |
| LinkReport.SuccessIgnoresCompletionOrder | scripts/check_links.py:102-104 | Whether an exception escapes does not depend on the completion order. |
| LinkReport.BrokenLinks | scripts/check_links.py:108-113 | The report holds exactly the failed results, strictly ascending by URL. |
| LinkReport.BrokenLinksDependOnlyOnEntries | scripts/check_links.py:113 | Two result lists with the same entries give the same report, in the same order. |
| LinkReport.BrokenLinksIgnoreCompletionOrder | scripts/check_links.py:102-113 | The broken-link report does not depend on the completion order. |
| LinkReport.SummaryLines | scripts/check_links.py:111-117 | The all-clear line is printed exactly when every result is ok. Otherwise a blank line and the heading come first, then one line per broken link in report order. |
| LinkReport.NothingBrokenMeansAllOk | scripts/check_links.py:111 | The report is empty exactly when every result is ok. |
| Text.SortedStrings | scripts/check_links.py:99 | `sorted` of a set lists every element exactly once, strictly ascending in code-point order. |

## Left out

- Reflection itself is an input, not modelled:
  - `GetTypes`, `GetCustomAttribute`, `GetCustomAttributesData`;
  - `DispatchProxy` code generation;
  - `AssemblyLoadContext` dependency resolution and `GC.Collect`.
- Attribute inheritance through `GetCustomAttribute(inherit: true)` is not modelled. A type carries at most one attribute of its own.
- An `ExecuteAsync` that returns a null task is not modelled. Neither is a `default(Currency)` with a null code.
- Stopwatch readings and the `DateTimeOffset.UtcNow` timestamp are parameters, because both are nondeterministic.
- `MethodBase.GetCurrentMethod()?.DeclaringType?.Name` is taken to be `MetadataPlugin`, its value for the async-free method.
- Upper-casing is ASCII-only. The Unicode case mapping of `ToUpperInvariant` is not modelled.
- `decimal` precision (28 digits) and overflow are not modelled; amounts are exact rationals.
- Cancellation tokens are not modelled, because no code in the core observes them.
- The console output of the showcases is not modelled. The link checker's summary lines are, but not its progress and timing messages.
- `AsyncShowcase.cs` is not part of this model: it is concurrency and timing.
- `Program.cs` is not part of this model: it is console narration.
- Link-checker plumbing is not modelled:
  - `urlopen`, SSL and timeouts;
  - the thread pool, beyond the completion order as an input;
  - `rglob` and file reading, since the Markdown files arrive already sorted with their text;
  - `Path.resolve`/`relative_to`, since each file's path is given relative to the repository;
  - argparse.
- LinkReport.Record: its own contract states only failure and URL. The status, verdict and sorted sources are stated by `LinkReport.RecordSortsSources`.
- LinkScan.Scan: its contract states only that each URL is well formed. That it finds exactly the links of the text is stated through `LinkScan.ScanRender`, for text rendered from links.
