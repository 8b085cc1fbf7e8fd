/**
 * `PluginLoggingProxy`: a decorator that times each call to the wrapped
 * plugin and logs one "completed" line. The stopwatch reading is an
 * opaque input (`elapsedMs`); the log sink is modelled by returning the
 * lines it receives.
 */
module Proxy {
  import opened Wrappers
  import opened Exceptions
  import opened Text

  /** What the decorated method hands back when it returns normally. */
  datatype Reply =
    /** A result that is not a task (a property getter such as `Name`); `None` is null. */
    | Plain(value: Option<string>)
    /** A `Task<string>`, described by how it eventually completes. */
    | StringTask(outcome: Result<string, Exception>)
    /** A non-generic `Task`, with the exception it faults with, if any. */
    | VoidTask(fault: Option<Exception>)

  /**
   * One call of the decorated method: the reply it returned, or the
   * exception it threw synchronously (which reflection wraps in a
   * `TargetInvocationException`).
   */
  type Call = Result<Reply, Exception>

  datatype Intercepted = Intercepted(reply: Call, log: seq<string>)

  function CompletedMessage(methodName: string, elapsedMs: nat): string {
    "Method " + methodName + " completed in " + NatToString(elapsedMs) + " ms"
  }

  /**
   * `PluginLoggingProxy.Invoke` together with the `InterceptAsync`
   * continuation it attaches to a returned task. A plain reply is logged
   * when it returns; a task reply is logged in the `finally` that runs
   * when the task completes, whether it succeeded or faulted; a
   * synchronous throw is unwrapped and rethrown before any log.
   */
  function Invoke(targetMethod: Option<string>, call: Call, elapsedMs: nat): (r: Intercepted)
    ensures targetMethod.None? ==> r.reply == Failure(ArgumentNull("targetMethod")) && r.log == []
    ensures targetMethod.Some? ==> r.reply == call
    ensures targetMethod.Some? ==> (|r.log| == 1 <==> call.Success?)
    ensures |r.log| <= 1
    ensures forall k :: 0 <= k < |r.log| ==> r.log[k] == CompletedMessage(targetMethod.value, elapsedMs)
  {
    match targetMethod
    case None => Intercepted(Failure(ArgumentNull("targetMethod")), [])
    case Some(name) =>
      match call
      case Failure(inner) => Intercepted(Failure(inner), [])
      case Success(reply) => Intercepted(Success(reply), [CompletedMessage(name, elapsedMs)])
  }

  /** The completion line names the elapsed time unambiguously: distinct readings give distinct lines. */
  lemma CompletedMessageDistinguishesElapsed(methodName: string, a: nat, b: nat)
    ensures CompletedMessage(methodName, a) == CompletedMessage(methodName, b) ==> a == b
  {
    if CompletedMessage(methodName, a) == CompletedMessage(methodName, b) {
      var prefix := "Method " + methodName + " completed in ";
      var sa := NatToString(a);
      var sb := NatToString(b);
      assert prefix + sa + " ms" == prefix + (sa + " ms");
      assert prefix + sb + " ms" == prefix + (sb + " ms");
      assert (prefix + (sa + " ms"))[|prefix|..] == sa + " ms";
      assert (prefix + (sb + " ms"))[|prefix|..] == sb + " ms";
      assert |sa| == |sb|;
      assert sa == (sa + " ms")[..|sa|];
      assert sb == (sb + " ms")[..|sb|];
      NatToStringInjective(a, b);
    }
  }
}
