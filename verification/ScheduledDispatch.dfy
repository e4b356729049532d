/** What a scheduled action reaches the executor as: the rule engine's result, the
    consumer's deferred row and the names of the executor's switch put together
    (internal/engine/engine.go, internal/rulesengine/consumer.go,
    internal/imapactions/executor.go). */
module ScheduledDispatch {

  import opened Common
  import RuleEngine
  import StreamConsumer

  /** extractResult reads four fields; deferred_action is not among them. */
  function Extracted(r: RuleEngine.Result): StreamConsumer.RuleResult {
    StreamConsumer.RuleResult(r.action, r.target, r.delay)
  }

  /** The action and target a deferring call asks for. */
  function Intended(c: RuleEngine.Call): Option<RuleEngine.Captured> {
    match c
    case Schedule(_, body) => RuleEngine.LastCapture(body)
    case DeferAction(action, target, _, _) => Some(RuleEngine.Captured(action, target))
    case MoveAfter(folder, _, _) => Some(RuleEngine.Captured("move", folder))
    case DeleteAfter(_, _) => Some(RuleEngine.Captured("delete", ""))
    case _ => None
  }

  /** A rule whose last call defers, by schedule, defer_action, move_after or delete_after,
      handled without failures, writes a row that names the intended target as action and as
      target.  It therefore reaches the executor as intended exactly when the target spells
      the action's own name.  A scheduled delete, archive or keep and a delete_after have no
      target and are always refused as unknown. */
  lemma DeferredReachesExecutorIff(
      calls: seq<RuleEngine.Call>, t: StreamConsumer.Tables, m: nat,
      event: StreamConsumer.Event, env: StreamConsumer.Env)
    requires calls != [] && var last := calls[|calls| - 1];
             (last.Schedule? || last.DeferAction? || last.MoveAfter? || last.DeleteAfter?) && last.delay > 0
    requires RuleEngine.Evaluate(calls).Some? && env.result == Extracted(RuleEngine.Evaluate(calls).value)
    requires env.crash.NoCrash? && env.rulesOk && env.deferOk
    requires StreamConsumer.KeyOf(event) !in t.processed
    ensures Intended(calls[|calls| - 1]).Some?
    ensures var last := calls[|calls| - 1];
            var intended := Intended(last).value;
            var row := StreamConsumer.DeferredFor(event, env);
            && StreamConsumer.Handle(t, m, StreamConsumer.Incoming(event), env).0.deferred == t.deferred + [row]
            && row == StreamConsumer.DeferredRow(env.rule, event.account, event.messageId,
                                                 intended.target, intended.target, env.now + last.delay)
            && (row.action == intended.action <==> intended.target == intended.action)
            && (!last.DeferAction? && intended.action in {"delete", "archive", "keep"} ==>
                  row.action !in {"delete", "move", "archive", "flag", "notify", "keep"})
  {
    var last := calls[|calls| - 1];
    RuleEngine.RuleMeansItsLastCall(calls);
    assert RuleEngine.WellScheduled(last);
    if last.Schedule? {
      CapturedTargets(last.body);
    }
  }

  /** The actions without a folder, flag or message are captured with an empty target. */
  lemma {:induction false} CapturedTargets(calls: seq<RuleEngine.Call>)
    ensures var captured := RuleEngine.LastCapture(calls);
            captured.Some? && captured.value.action in {"delete", "archive", "keep"} ==>
              captured.value.target == ""
    decreases calls
  {
    if calls != [] {
      var last := calls[|calls| - 1];
      if last.Schedule? {
        CapturedTargets(last.body);
      } else {
        CapturedTargets(calls[..|calls| - 1]);
      }
    }
  }
}
