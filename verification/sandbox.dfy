/**
 * `PluginSandbox`: inspects the plugin types of an assembly loaded into a
 * collectible load context, loading it lazily and at most once, and
 * unloads the context on the first `Dispose`.
 *
 * The sandbox is an immutable record; each operation returns the next
 * record. Resolving and reading the image at the path is the `Loader`
 * input; what the runtime does after `Unload` (refusing new loads into
 * the context) is modelled as an `InvalidOperation` failure.
 */
module Sandbox {
  import opened Wrappers
  import opened Exceptions
  import opened Catalog

  datatype Assembly = Assembly(types: seq<TypeInfo>)

  /** `LoadFromAssemblyPath` on a live context: the image at the path, or the failure to load it. */
  type Loader = string -> Result<Assembly, Exception>

  datatype Sandbox = Sandbox(
    assemblyPath: string,
    loadedAssembly: Option<Assembly>,   // `_loadedAssembly`
    disposed: bool,                     // `_disposed`
    contextUnloaded: bool,              // `_context.Unload()` has run
    loads: nat,                         // assemblies loaded into the context so far
    unloads: nat)                       // `Unload` calls so far

  /** `new PluginSandbox(assemblyPath)`: nothing loaded yet. */
  function New(assemblyPath: string): Sandbox {
    Sandbox(assemblyPath, None, false, false, 0, 0)
  }

  datatype Inspection = Inspection(sandbox: Sandbox, summaries: Result<seq<Summary>, Exception>)

  const UnloadingMessage: string := "AssemblyLoadContext is unloading"

  /**
   * `LoadPluginDescriptors`: `_loadedAssembly ??= LoadFromAssemblyPath(...)`
   * then the metadata summaries of its types. A cached assembly is reused
   * (no reload, the same summaries); a failed load leaves no trace.
   */
  function LoadPluginDescriptors(sb: Sandbox, loader: Loader): (r: Inspection)
    ensures sb.loadedAssembly.Some? ==>
              r.sandbox == sb && r.summaries == Success(Summaries(sb.loadedAssembly.value.types))
    ensures sb.loadedAssembly.None? && sb.contextUnloaded ==>
              r.sandbox == sb && r.summaries == Failure(InvalidOperation(UnloadingMessage))
    ensures r.summaries.Failure? ==> r.sandbox == sb
    ensures r.summaries.Success? <==> r.sandbox.loadedAssembly.Some?
    ensures r.summaries.Success? ==> r.summaries.value == Summaries(r.sandbox.loadedAssembly.value.types)
    ensures r.sandbox.loads == (if sb.loadedAssembly.None? && r.summaries.Success? then sb.loads + 1 else sb.loads)
    ensures r.sandbox.assemblyPath == sb.assemblyPath && r.sandbox.disposed == sb.disposed
    ensures r.sandbox.contextUnloaded == sb.contextUnloaded && r.sandbox.unloads == sb.unloads
  {
    if sb.loadedAssembly.Some? then
      Inspection(sb, Success(Summaries(sb.loadedAssembly.value.types)))
    else if sb.contextUnloaded then
      Inspection(sb, Failure(InvalidOperation(UnloadingMessage)))
    else
      match loader(sb.assemblyPath)
      case Failure(e) => Inspection(sb, Failure(e))
      case Success(a) =>
        Inspection(sb.(loadedAssembly := Some(a), loads := sb.loads + 1), Success(Summaries(a.types)))
  }

  /** `Dispose`: unloads the context the first time, does nothing afterwards. */
  function Dispose(sb: Sandbox): (r: Sandbox)
    ensures r.disposed
    ensures !sb.disposed ==> r.contextUnloaded
    ensures r.unloads == (if sb.disposed then sb.unloads else sb.unloads + 1)
    ensures sb.disposed ==> r == sb
    ensures r.loadedAssembly == sb.loadedAssembly && r.loads == sb.loads && r.assemblyPath == sb.assemblyPath
  {
    if sb.disposed then sb
    else sb.(contextUnloaded := true, unloads := sb.unloads + 1, disposed := true)
  }

  /** Disposing twice is disposing once. */
  lemma DisposeIdempotent(sb: Sandbox)
    ensures Dispose(Dispose(sb)) == Dispose(sb)
  {
  }

  /** A repeated inspection neither reloads nor changes its answer. */
  lemma InspectionIsStable(sb: Sandbox, loader: Loader, loader': Loader)
    requires LoadPluginDescriptors(sb, loader).summaries.Success?
    ensures LoadPluginDescriptors(LoadPluginDescriptors(sb, loader).sandbox, loader') == LoadPluginDescriptors(sb, loader)
  {
  }

  // ---------------------------------------------------------------------
  // Whole lifetimes

  datatype Op = Inspect(loader: Loader) | DisposeOp

  function Apply(sb: Sandbox, op: Op): Sandbox {
    match op
    case Inspect(loader) => LoadPluginDescriptors(sb, loader).sandbox
    case DisposeOp => Dispose(sb)
  }

  /** The sandbox after a sequence of calls, each inspection with the file system as it then is. */
  function Replay(sb: Sandbox, ops: seq<Op>): Sandbox
    decreases |ops|
  {
    if ops == [] then sb else Replay(Apply(sb, ops[0]), ops[1..])
  }

  /** The lifetime invariant: at most one load and one unload, each recorded by its flag. */
  predicate Consistent(sb: Sandbox) {
    && sb.loads <= 1
    && (sb.loads == 1 <==> sb.loadedAssembly.Some?)
    && sb.unloads <= 1
    && (sb.unloads == 1 <==> sb.disposed)
    && (sb.disposed <==> sb.contextUnloaded)
  }

  lemma {:induction false} ReplayConsistent(sb: Sandbox, ops: seq<Op>)
    requires Consistent(sb)
    ensures Consistent(Replay(sb, ops))
    decreases |ops|
  {
    if ops != [] {
      ReplayConsistent(Apply(sb, ops[0]), ops[1..]);
    }
  }

  /**
   * Over any lifetime of a fresh sandbox the assembly is loaded at most
   * once and the context unloaded at most once, exactly when disposed.
   */
  lemma AtMostOneLoadAndUnload(path: string, ops: seq<Op>)
    ensures Replay(New(path), ops).loads <= 1
    ensures Replay(New(path), ops).unloads <= 1
    ensures Replay(New(path), ops).unloads == 1 <==> Replay(New(path), ops).disposed
  {
    ReplayConsistent(New(path), ops);
  }

  /** The showcase's `using` block: inspect once, then dispose at the end of scope. */
  lemma ShowcaseLifetime(path: string, loader: Loader)
    requires loader(path).Success?
    ensures LoadPluginDescriptors(New(path), loader).summaries == Success(Summaries(loader(path).value.types))
    ensures Dispose(LoadPluginDescriptors(New(path), loader).sandbox).unloads == 1
  {
  }
}
