/**
 * The plugin contract, the two built-in plugins and the executor that
 * `ReflectionPluginCatalog.BuildExecutor` returns.
 */
module Plugins {
  import opened Wrappers
  import opened Exceptions
  import opened Text
  import opened Catalog
  import opened StableSort

  /**
   * One call of `ExecuteAsync`: the exception it threw synchronously, or
   * the outcome of the `Task<string>` it returned.
   */
  type Execution = Result<Result<string, Exception>, Exception>

  /** An instance of `IReflectionPlugin`: its `Name` and its `ExecuteAsync` on a payload. */
  datatype Plugin = Plugin(name: string, execute: string -> Execution)

  /** What awaiting `ExecuteAsync` directly, without any proxy, yields. */
  function Awaited(x: Execution): Result<string, Exception> {
    match x
    case Failure(e) => Failure(e)
    case Success(outcome) => outcome
  }

  /** `UppercasePlugin.ExecuteAsync`: the payload upper-cased, as a completed task. */
  function UppercaseText(payload: string): (r: string)
    ensures |r| == |payload|
    ensures forall i :: 0 <= i < |r| ==> !IsLower(r[i])
    ensures forall i :: 0 <= i < |r| && !IsLower(payload[i]) ==> r[i] == payload[i]
    ensures EqualsIgnoreCase(r, payload)
  {
    UpperNormalises(payload);
    Upper(payload)
  }

  /** Running the upper-case plugin twice is the same as running it once. */
  lemma UppercaseIdempotent(payload: string)
    ensures UppercaseText(UppercaseText(payload)) == UppercaseText(payload)
  {
    UpperNormalises(payload);
  }

  const Uppercase: Plugin := Plugin("Uppercase", (p: string) => Success(Success(UppercaseText(p))))

  /** The declaring type's name the metadata plugin reports. */
  const MetadataCaller: string := "MetadataPlugin"

  /** `MetadataPlugin.ExecuteAsync` given the `"u"`-formatted UTC timestamp it reads. */
  function MetadataText(payload: string, timestamp: string): (r: string)
    ensures |r| == |payload| + |timestamp| + |MetadataCaller| + 7
    ensures r[..|payload| + 2] == payload + " ["
    ensures r[|r| - 1] == ']'
  {
    payload + " [" + MetadataCaller + " at " + timestamp + "]"
  }

  /** The payload is recoverable from the metadata plugin's output: it only appends. */
  lemma MetadataRoundTrip(payload: string, timestamp: string)
    ensures StripMetadata(MetadataText(payload, timestamp), timestamp) == payload
  {
    var r := MetadataText(payload, timestamp);
    assert r[..|payload| + 2][..|payload|] == payload;
  }

  /** Removes what the metadata plugin appended for `timestamp`. */
  function StripMetadata(s: string, timestamp: string): string {
    var n := |timestamp| + |MetadataCaller| + 7;
    if |s| >= n then s[..|s| - n] else s
  }

  function Metadata(timestamp: string): Plugin {
    Plugin("Metadata", (p: string) => Success(Success(MetadataText(p, timestamp))))
  }

  // ---------------------------------------------------------------------
  // The showcase assembly

  const UppercaseType: TypeInfo :=
    TypeInfo("UppercasePlugin", Some("ConsoleSnippets.UppercasePlugin"), false, true, [ContractFullName],
             Some(AttributeData(Some("Transforms text to uppercase"), Some(0))))

  const MetadataType: TypeInfo :=
    TypeInfo("MetadataPlugin", Some("ConsoleSnippets.MetadataPlugin"), false, true, [ContractFullName],
             Some(AttributeData(Some("Appends execution metadata"), Some(1))))

  const ContractType: TypeInfo :=
    TypeInfo("IReflectionPlugin", Some(ContractFullName), true, false, [], None)

  const ProxyType: TypeInfo :=
    TypeInfo("PluginLoggingProxy", Some("ConsoleSnippets.PluginLoggingProxy"), false, true, [], None)

  /** The plugin-related types of the showcase assembly; the metadata plugin is declared second. */
  const ShowcaseTypes: seq<TypeInfo> := [ContractType, UppercaseType, MetadataType, ProxyType]

  /** `Activator.CreateInstance` for the showcase assembly. */
  function ShowcaseActivate(timestamp: string): TypeInfo -> Result<Plugin, Exception> {
    (t: TypeInfo) =>
      if t == UppercaseType then Success(Uppercase)
      else if t == MetadataType then Success(Metadata(timestamp))
      else Failure(Other("MissingMethodException", t.name))
  }

  lemma ShowcasePluginTypes()
    ensures PluginTypes(ShowcaseTypes) == [UppercaseType, MetadataType]
  {
    assert IsPluginType(UppercaseType) && IsPluginType(MetadataType);
    assert !IsPluginType(ContractType) && !IsPluginType(ProxyType);
    var t3 := [ProxyType];
    var t2 := [MetadataType] + t3;
    var t1 := [UppercaseType] + t2;
    assert ShowcaseTypes == [ContractType] + t1;
    assert PluginTypes(t3) == [];
    assert PluginTypes(t2) == [MetadataType];
    assert PluginTypes(t1) == [UppercaseType, MetadataType];
  }

  lemma ShowcaseSandboxTypes()
    ensures SandboxPluginTypes(ShowcaseTypes) == [UppercaseType, MetadataType]
  {
    assert IsSandboxPlugin(UppercaseType) && IsSandboxPlugin(MetadataType);
    assert !IsSandboxPlugin(ContractType) && !IsSandboxPlugin(ProxyType);
    var t3 := [ProxyType];
    var t2 := [MetadataType] + t3;
    var t1 := [UppercaseType] + t2;
    assert ShowcaseTypes == [ContractType] + t1;
    assert SandboxPluginTypes(t3) == [];
    assert SandboxPluginTypes(t2) == [MetadataType];
    assert SandboxPluginTypes(t1) == [UppercaseType, MetadataType];
  }

  lemma ShowcaseUnsorted()
    ensures Unsorted(ShowcaseTypes) == [Describe(UppercaseType), Describe(MetadataType)]
  {
    ShowcasePluginTypes();
    var p := [UppercaseType, MetadataType];
    assert MapSeq(p[1..][1..], Describe) == [];
    assert MapSeq(p[1..], Describe) == [Describe(MetadataType)];
  }

  lemma ShowcaseSorted()
    ensures SortBy([Describe(UppercaseType), Describe(MetadataType)], OrderKey)
            == [Describe(UppercaseType), Describe(MetadataType)]
  {
    var du := Describe(UppercaseType);
    var dm := Describe(MetadataType);
    assert OrderKey(du) == 0 && OrderKey(dm) == 1;
    assert SortBy([dm], OrderKey) == [dm] by {
      assert [dm][1..] == [];
    }
    assert [du, dm][1..] == [dm];
  }

  /** Both paths find the two plugins, upper-case first. */
  lemma ShowcaseDiscovery()
    ensures Discover(ShowcaseTypes) == [Describe(UppercaseType), Describe(MetadataType)]
    ensures Summaries(ShowcaseTypes) == [Summarize(UppercaseType), Summarize(MetadataType)]
  {
    ShowcaseSandboxTypes();
    ShowcaseUnsorted();
    ShowcaseSorted();
    var p := [UppercaseType, MetadataType];
    assert MapSeq(p[1..][1..], Summarize) == [];
    assert MapSeq(p[1..], Summarize) == [Summarize(MetadataType)];
  }
}

module Pipeline {
  import opened Wrappers
  import opened Exceptions
  import opened Catalog
  import opened Plugins
  import Proxy

  /** The name the executor's delegate invokes through the proxy. */
  const ExecuteMethod: string := "ExecuteAsync"

  /** The executor's log sink: the raw plugin's name in brackets, then the proxy's message. */
  function LogLine(pluginName: string, elapsedMs: nat): string {
    "[" + pluginName + "] " + Proxy.CompletedMessage(ExecuteMethod, elapsedMs)
  }

  /** What a run of the pipeline (or of part of it) produces: the awaited output and the log lines in order. */
  datatype Run = Run(output: Result<string, Exception>, log: seq<string>)

  function AsCall(x: Execution): Proxy.Call {
    match x
    case Failure(e) => Failure(e)
    case Success(outcome) => Success(Proxy.StringTask(outcome))
  }

  /** The lines as the executor's sink writes them, each behind `prefix`. */
  function PrefixAll(prefix: string, lines: seq<string>): (r: seq<string>)
    ensures |r| == |lines|
    ensures forall k :: 0 <= k < |r| ==> r[k] == prefix + lines[k]
  {
    if lines == [] then [] else [prefix + lines[0]] + PrefixAll(prefix, lines[1..])
  }

  /**
   * One plugin invoked through its logging proxy and awaited. The proxy is
   * transparent: the awaited value or exception is the plugin's own, and a
   * line is logged exactly when `ExecuteAsync` returned a task (whether it
   * then succeeded or faulted).
   */
  function Step(p: Plugin, payload: string, elapsedMs: nat): (r: Run)
    ensures r.output == Awaited(p.execute(payload))
    ensures |r.log| == (if p.execute(payload).Success? then 1 else 0)
    ensures forall k :: 0 <= k < |r.log| ==> r.log[k] == LogLine(p.name, elapsedMs)
  {
    var intercepted := Proxy.Invoke(Some(ExecuteMethod), AsCall(p.execute(payload)), elapsedMs);
    var log := PrefixAll("[" + p.name + "] ", intercepted.log);
    match intercepted.reply
    case Failure(e) => Run(Failure(e), log)
    case Success(StringTask(outcome)) => Run(outcome, log)
  }

  /**
   * Reference semantics of the executor from descriptor `i` on: create the
   * plugin, run it through its proxy, feed its output to the next one,
   * and stop at the first exception. `elapsed(i)` is the stopwatch reading
   * for descriptor `i`.
   */
  function RunFrom(descriptors: seq<Descriptor>, activate: TypeInfo -> Result<Plugin, Exception>,
                   elapsed: nat -> nat, i: nat, payload: string): Run
    decreases |descriptors| - i
  {
    if i >= |descriptors| then Run(Success(payload), [])
    else
      match activate(descriptors[i].pluginType)
      case Failure(e) => Run(Failure(e), [])
      case Success(p) =>
        var step := Step(p, payload, elapsed(i));
        if step.output.Failure? then step
        else
          var rest := RunFrom(descriptors, activate, elapsed, i + 1, step.output.value);
          Run(rest.output, step.log + rest.log)
  }

  /**
   * The delegate `BuildExecutor` returns, applied to `input`: the
   * descriptors in list order, each plugin freshly created and proxied.
   */
  method Execute(descriptors: seq<Descriptor>, activate: TypeInfo -> Result<Plugin, Exception>,
                 elapsed: nat -> nat, input: string)
    returns (output: Result<string, Exception>, log: seq<string>)
    ensures Run(output, log) == RunFrom(descriptors, activate, elapsed, 0, input)
    ensures output == Fold(descriptors, activate, input)
    ensures descriptors == [] ==> output == Success(input) && log == []
  {
    ProxiedRunIsFold(descriptors, activate, elapsed, 0, input);
    var payload := input;
    log := [];
    var i := 0;
    while i < |descriptors|
      invariant 0 <= i <= |descriptors|
      invariant RunFrom(descriptors, activate, elapsed, 0, input).output
                == RunFrom(descriptors, activate, elapsed, i, payload).output
      invariant RunFrom(descriptors, activate, elapsed, 0, input).log
                == log + RunFrom(descriptors, activate, elapsed, i, payload).log
    {
      var stop, out, next, lines := Advance(descriptors, activate, elapsed, i, payload);
      if stop {
        log := log + lines;
        output := out;
        return;
      }
      AppendAssociative(log, lines, RunFrom(descriptors, activate, elapsed, i + 1, next).log);
      log := log + lines;
      payload := next;
      i := i + 1;
    }
    output := Success(payload);
  }

  lemma AppendAssociative<T>(a: seq<T>, b: seq<T>, c: seq<T>)
    ensures a + (b + c) == (a + b) + c
  {
  }

  /**
   * One iteration of the executor's loop at descriptor `i`: create the
   * plugin and run it through its proxy. Either the run stops here with
   * `output`, or it continues from descriptor `i + 1` with `next`.
   */
  method Advance(descriptors: seq<Descriptor>, activate: TypeInfo -> Result<Plugin, Exception>,
                 elapsed: nat -> nat, i: nat, payload: string)
    returns (stop: bool, output: Result<string, Exception>, next: string, lines: seq<string>)
    requires i < |descriptors|
    ensures stop ==> output.Failure? && RunFrom(descriptors, activate, elapsed, i, payload) == Run(output, lines)
    ensures !stop ==> RunFrom(descriptors, activate, elapsed, i, payload)
                      == Run(RunFrom(descriptors, activate, elapsed, i + 1, next).output,
                             lines + RunFrom(descriptors, activate, elapsed, i + 1, next).log)
  {
    next := payload;
    var created := activate(descriptors[i].pluginType);
    if created.Failure? {
      return true, Failure(created.error), next, [];
    }
    var step := Step(created.value, payload, elapsed(i));
    lines := step.log;
    if step.output.Failure? {
      return true, step.output, next, lines;
    }
    RunFromStep(descriptors, activate, elapsed, i, payload, created.value, step);
    stop, output, next := false, step.output, step.output.value;
  }

  // ---------------------------------------------------------------------
  // Properties of the executor

  /** The left fold of the plugins' awaited results over the payload, without proxies or logs. */
  function FoldFrom(descriptors: seq<Descriptor>, activate: TypeInfo -> Result<Plugin, Exception>,
                    i: nat, payload: string): Result<string, Exception>
    decreases |descriptors| - i
  {
    if i >= |descriptors| then Success(payload)
    else
      match activate(descriptors[i].pluginType)
      case Failure(e) => Failure(e)
      case Success(p) =>
        match Awaited(p.execute(payload))
        case Failure(e) => Failure(e)
        case Success(next) => FoldFrom(descriptors, activate, i + 1, next)
  }

  function Fold(descriptors: seq<Descriptor>, activate: TypeInfo -> Result<Plugin, Exception>,
                payload: string): Result<string, Exception> {
    FoldFrom(descriptors, activate, 0, payload)
  }

  /** Proxies change nothing about the computed value: the pipeline's output is the plain fold. */
  lemma {:induction false} ProxiedRunIsFold(descriptors: seq<Descriptor>, activate: TypeInfo -> Result<Plugin, Exception>,
                                            elapsed: nat -> nat, i: nat, payload: string)
    ensures RunFrom(descriptors, activate, elapsed, i, payload).output == FoldFrom(descriptors, activate, i, payload)
    decreases |descriptors| - i
  {
    if i < |descriptors| && activate(descriptors[i].pluginType).Success? {
      var p := activate(descriptors[i].pluginType).value;
      var step := Step(p, payload, elapsed(i));
      if step.output.Success? {
        ProxiedRunIsFold(descriptors, activate, elapsed, i + 1, step.output.value);
      }
    }
  }

  lemma {:induction false} FoldShift(d: Descriptor, rest: seq<Descriptor>,
                                     activate: TypeInfo -> Result<Plugin, Exception>, i: nat, payload: string)
    ensures FoldFrom([d] + rest, activate, i + 1, payload) == FoldFrom(rest, activate, i, payload)
    decreases |rest| - i
  {
    if i < |rest| {
      assert ([d] + rest)[i + 1] == rest[i];
      match activate(rest[i].pluginType)
      case Failure(_) =>
      case Success(p) =>
        match Awaited(p.execute(payload))
        case Failure(_) =>
        case Success(next) => FoldShift(d, rest, activate, i + 1, next);
    }
  }

  /** Sequential composition: running `a + b` is running `a`, then `b` on its output. */
  lemma {:induction false} FoldAppend(a: seq<Descriptor>, b: seq<Descriptor>,
                                      activate: TypeInfo -> Result<Plugin, Exception>, payload: string)
    ensures Fold(a + b, activate, payload) ==
            match Fold(a, activate, payload)
            case Failure(e) => Failure(e)
            case Success(mid) => Fold(b, activate, mid)
    decreases |a|
  {
    if a == [] {
      assert a + b == b;
    } else {
      assert a + b == [a[0]] + (a[1..] + b);
      assert a == [a[0]] + a[1..];
      match activate(a[0].pluginType)
      case Failure(_) =>
      case Success(p) =>
        match Awaited(p.execute(payload))
        case Failure(_) =>
        case Success(next) =>
          FoldShift(a[0], a[1..] + b, activate, 0, next);
          FoldShift(a[0], a[1..], activate, 0, next);
          FoldAppend(a[1..], b, activate, next);
    }
  }

  /** The name of the plugin descriptor `i` creates (empty if creation fails). */
  function NameAt(descriptors: seq<Descriptor>, activate: TypeInfo -> Result<Plugin, Exception>, i: nat): string
    requires i < |descriptors|
  {
    match activate(descriptors[i].pluginType)
    case Success(p) => p.name
    case Failure(_) => ""
  }

  /** The line descriptor `j` logs when its plugin runs. */
  function LineAt(descriptors: seq<Descriptor>, activate: TypeInfo -> Result<Plugin, Exception>,
                  elapsed: nat -> nat, j: nat): string
    requires j < |descriptors|
  {
    LogLine(NameAt(descriptors, activate, j), elapsed(j))
  }

  /** One log line per descriptor from `i` on, naming its plugin and its own stopwatch reading. */
  function ExpectedLog(descriptors: seq<Descriptor>, activate: TypeInfo -> Result<Plugin, Exception>,
                       elapsed: nat -> nat, i: nat): (r: seq<string>)
    requires i <= |descriptors|
    ensures |r| == |descriptors| - i
    ensures forall k :: 0 <= k < |r| ==> r[k] == LineAt(descriptors, activate, elapsed, i + k)
  {
    seq(|descriptors| - i, k requires 0 <= k < |descriptors| - i => LineAt(descriptors, activate, elapsed, i + k))
  }

  lemma ExpectedLogCons(descriptors: seq<Descriptor>, activate: TypeInfo -> Result<Plugin, Exception>,
                        elapsed: nat -> nat, i: nat)
    requires i < |descriptors|
    ensures ExpectedLog(descriptors, activate, elapsed, i)
            == [LineAt(descriptors, activate, elapsed, i)] + ExpectedLog(descriptors, activate, elapsed, i + 1)
  {
    var r := ExpectedLog(descriptors, activate, elapsed, i);
    var t := [LineAt(descriptors, activate, elapsed, i)] + ExpectedLog(descriptors, activate, elapsed, i + 1);
    forall k | 0 < k < |r| ensures r[k] == t[k] {
      assert t[k] == ExpectedLog(descriptors, activate, elapsed, i + 1)[k - 1];
    }
  }

  /**
   * A successful run logs exactly one line per descriptor, in descriptor
   * order, each naming its plugin and its own stopwatch reading.
   */
  lemma {:induction false} SuccessfulRunLogsEachPlugin(descriptors: seq<Descriptor>,
                                                       activate: TypeInfo -> Result<Plugin, Exception>,
                                                       elapsed: nat -> nat, i: nat, payload: string)
    requires i <= |descriptors|
    requires RunFrom(descriptors, activate, elapsed, i, payload).output.Success?
    ensures RunFrom(descriptors, activate, elapsed, i, payload).log == ExpectedLog(descriptors, activate, elapsed, i)
    ensures |RunFrom(descriptors, activate, elapsed, i, payload).log| == |descriptors| - i
    ensures forall k :: 0 <= k < |descriptors| - i ==>
              RunFrom(descriptors, activate, elapsed, i, payload).log[k] ==
              LineAt(descriptors, activate, elapsed, i + k)
    decreases |descriptors| - i
  {
    if i < |descriptors| {
      SuccessfulStep(descriptors, activate, elapsed, i, payload);
      var p := activate(descriptors[i].pluginType).value;
      var step := Step(p, payload, elapsed(i));
      SuccessfulRunLogsEachPlugin(descriptors, activate, elapsed, i + 1, step.output.value);
      ExpectedLogCons(descriptors, activate, elapsed, i);
      assert NameAt(descriptors, activate, i) == p.name;
    }
  }

  /** The first step of a successful run: its plugin was created, succeeded and logged one line. */
  lemma SuccessfulStep(descriptors: seq<Descriptor>, activate: TypeInfo -> Result<Plugin, Exception>,
                       elapsed: nat -> nat, i: nat, payload: string)
    requires i < |descriptors|
    requires RunFrom(descriptors, activate, elapsed, i, payload).output.Success?
    ensures activate(descriptors[i].pluginType).Success?
    ensures var p := activate(descriptors[i].pluginType).value;
            var step := Step(p, payload, elapsed(i));
            && step.output.Success?
            && step.log == [LogLine(p.name, elapsed(i))]
            && RunFrom(descriptors, activate, elapsed, i, payload).log
               == step.log + RunFrom(descriptors, activate, elapsed, i + 1, step.output.value).log
  {
    var p := activate(descriptors[i].pluginType).value;
    var step := Step(p, payload, elapsed(i));
    assert |step.log| == 1;
  }

  /** A failed run logs at most one line per descriptor it reached. */
  lemma {:induction false} RunLogBounded(descriptors: seq<Descriptor>, activate: TypeInfo -> Result<Plugin, Exception>,
                                         elapsed: nat -> nat, i: nat, payload: string)
    requires i <= |descriptors|
    ensures |RunFrom(descriptors, activate, elapsed, i, payload).log| <= |descriptors| - i
    decreases |descriptors| - i
  {
    if i < |descriptors| && activate(descriptors[i].pluginType).Success? {
      var p := activate(descriptors[i].pluginType).value;
      var step := Step(p, payload, elapsed(i));
      if step.output.Success? {
        RunLogBounded(descriptors, activate, elapsed, i + 1, step.output.value);
      }
    }
  }

  /**
   * Once a plugin fails nothing after it is created or invoked: appending
   * more descriptors to a failing list changes neither output nor log.
   */
  lemma {:induction false} FailureStopsPipeline(descriptors: seq<Descriptor>, more: seq<Descriptor>,
                                                activate: TypeInfo -> Result<Plugin, Exception>,
                                                elapsed: nat -> nat, i: nat, payload: string)
    requires i <= |descriptors|
    requires RunFrom(descriptors, activate, elapsed, i, payload).output.Failure?
    ensures RunFrom(descriptors + more, activate, elapsed, i, payload) == RunFrom(descriptors, activate, elapsed, i, payload)
    decreases |descriptors| - i
  {
    assert (descriptors + more)[i] == descriptors[i];
    match activate(descriptors[i].pluginType)
    case Failure(_) =>
    case Success(p) =>
      var step := Step(p, payload, elapsed(i));
      if step.output.Success? {
        FailureStopsPipeline(descriptors, more, activate, elapsed, i + 1, step.output.value);
      }
  }

  lemma UppercaseStep(payload: string, elapsedMs: nat)
    ensures Step(Uppercase, payload, elapsedMs) == Run(Success(UppercaseText(payload)), [LogLine("Uppercase", elapsedMs)])
  {
  }

  lemma MetadataStep(timestamp: string, payload: string, elapsedMs: nat)
    ensures Step(Metadata(timestamp), payload, elapsedMs) ==
            Run(Success(MetadataText(payload, timestamp)), [LogLine("Metadata", elapsedMs)])
  {
  }

  /** Running from descriptor `i` when its plugin is created and succeeds: that step, then the rest. */
  lemma RunFromStep(descriptors: seq<Descriptor>, activate: TypeInfo -> Result<Plugin, Exception>,
                    elapsed: nat -> nat, i: nat, payload: string, p: Plugin, step: Run)
    requires i < |descriptors| && activate(descriptors[i].pluginType) == Success(p)
    requires step == Step(p, payload, elapsed(i)) && step.output.Success?
    ensures RunFrom(descriptors, activate, elapsed, i, payload)
            == var rest := RunFrom(descriptors, activate, elapsed, i + 1, step.output.value);
               Run(rest.output, step.log + rest.log)
  {
  }

  /** The payload the showcase hands the executor. */
  const ShowcasePayload: string := "hello from MAUI"

  lemma ShowcaseActivation(timestamp: string)
    ensures ShowcaseActivate(timestamp)(UppercaseType) == Success(Uppercase)
    ensures ShowcaseActivate(timestamp)(MetadataType) == Success(Metadata(timestamp))
  {
    assert UppercaseType != MetadataType by {
      assert UppercaseType.name[0] != MetadataType.name[0];
    }
  }

  lemma UppercaseShowcasePayload()
    ensures UppercaseText(ShowcasePayload) == "HELLO FROM MAUI"
  {
  }

  lemma RunFromEnd(descriptors: seq<Descriptor>, activate: TypeInfo -> Result<Plugin, Exception>,
                   elapsed: nat -> nat, i: nat, payload: string)
    requires i >= |descriptors|
    ensures RunFrom(descriptors, activate, elapsed, i, payload) == Run(Success(payload), [])
  {
  }

  /** Any activation that creates the upper-case plugin, then the metadata plugin, upper-cases the showcase payload and stamps it. */
  lemma TwoPluginRun(ds: seq<Descriptor>, activate: TypeInfo -> Result<Plugin, Exception>, timestamp: string,
                     elapsed: nat -> nat)
    requires |ds| == 2
    requires activate(ds[0].pluginType) == Success(Uppercase)
    requires activate(ds[1].pluginType) == Success(Metadata(timestamp))
    ensures RunFrom(ds, activate, elapsed, 0, ShowcasePayload) ==
            Run(Success(MetadataText("HELLO FROM MAUI", timestamp)),
                [LogLine("Uppercase", elapsed(0)), LogLine("Metadata", elapsed(1))])
  {
    UppercaseShowcasePayload();
    UppercaseStep(ShowcasePayload, elapsed(0));
    MetadataStep(timestamp, "HELLO FROM MAUI", elapsed(1));
    TwoStepRun(ds, activate, elapsed, ShowcasePayload, Uppercase, Metadata(timestamp), "HELLO FROM MAUI",
               MetadataText("HELLO FROM MAUI", timestamp),
               LogLine("Uppercase", elapsed(0)), LogLine("Metadata", elapsed(1)));
  }

  /** Two plugins that each succeed and log one line: the second's output, and both lines in order. */
  lemma TwoStepRun(ds: seq<Descriptor>, activate: TypeInfo -> Result<Plugin, Exception>, elapsed: nat -> nat,
                   input: string, p0: Plugin, p1: Plugin, mid: string, out: string, line0: string, line1: string)
    requires |ds| == 2
    requires activate(ds[0].pluginType) == Success(p0) && activate(ds[1].pluginType) == Success(p1)
    requires Step(p0, input, elapsed(0)) == Run(Success(mid), [line0])
    requires Step(p1, mid, elapsed(1)) == Run(Success(out), [line1])
    ensures RunFrom(ds, activate, elapsed, 0, input) == Run(Success(out), [line0, line1])
  {
    RunFromEnd(ds, activate, elapsed, 2, out);
    RunFromStep(ds, activate, elapsed, 1, mid, p1, Step(p1, mid, elapsed(1)));
    RunFromStep(ds, activate, elapsed, 0, input, p0, Step(p0, input, elapsed(0)));
  }

  /**
   * The showcase run: the discovered plugins turn "hello from MAUI" into
   * "HELLO FROM MAUI [MetadataPlugin at <timestamp>]", logging the upper-case
   * plugin first.
   */
  lemma ShowcaseRun(timestamp: string, elapsed: nat -> nat)
    ensures RunFrom(Discover(ShowcaseTypes), ShowcaseActivate(timestamp), elapsed, 0, ShowcasePayload) ==
            Run(Success(MetadataText("HELLO FROM MAUI", timestamp)),
                [LogLine("Uppercase", elapsed(0)), LogLine("Metadata", elapsed(1))])
  {
    var ds := Discover(ShowcaseTypes);
    assert ds == [Describe(UppercaseType), Describe(MetadataType)] by {
      ShowcaseDiscovery();
    }
    ShowcaseActivation(timestamp);
    TwoPluginRun(ds, ShowcaseActivate(timestamp), timestamp, elapsed);
  }
}
