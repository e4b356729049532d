/** The action functions a rule calls and the capture mode behind schedule()
    (internal/engine/engine.go).

    A rule is modelled by the action calls it makes; a scheduled function by the calls its
    body makes.  An error inside a scheduled function ends the rule: the protected call of
    Lua, which could catch it, is not part of this model. */
module RuleEngine {

  import opened Common

  datatype Call =
    | Skip
    | Delete(reason: string)
    | Archive(reason: string)
    | Move(folder: string, reason: string)
    | Keep(reason: string)
    | Notify(message: string, reason: string)
    | Flag(flagName: string, reason: string)
    | DeferAction(action: string, target: string, delay: int, reason: string)
    | MoveAfter(folder: string, delay: int, reason: string)
    | DeleteAfter(delay: int, reason: string)
    | Schedule(delay: int, body: seq<Call>)

  datatype Result = Result(action: string, target: string, delay: int, reason: string)

  /** An intercepted action and its target. */
  datatype Captured = Captured(action: string, target: string)

  /** The action a call stands for when capture mode intercepts it; skip, the *_after forms,
      defer_action and schedule are not intercepted. */
  function Interceptable(c: Call): Option<Captured> {
    match c
    case Delete(_) => Some(Captured("delete", ""))
    case Archive(_) => Some(Captured("archive", ""))
    case Move(folder, _) => Some(Captured("move", folder))
    case Keep(_) => Some(Captured("keep", ""))
    case Notify(message, _) => Some(Captured("notify", message))
    case Flag(flagName, _) => Some(Captured("flag", flagName))
    case _ => None
  }

  /** The globals the action functions share: __schedule_capture, __captured_action and
      __captured_target, the __result table, and its deferred_action field. */
  datatype State = State(capture: bool, captured: Option<Captured>, result: Result, deferredAction: string)

  function Fresh(): State {
    State(false, None, Result("skip", "", 0, ""), "")
  }

  datatype Outcome = Running(state: State) | Error

  /** What a call writes into __result when it is not intercepted. */
  function Exec(c: Call, s: State): Outcome
    decreases c, 1
  {
    if s.capture && Interceptable(c).Some? then
      Running(s.(captured := Interceptable(c)))
    else match c
      case Skip => Running(s.(result := Result("skip", "", 0, "")))
      case Delete(reason) => Running(s.(result := Result("delete", "", 0, reason)))
      case Archive(reason) => Running(s.(result := Result("archive", "", 0, reason)))
      case Move(folder, reason) => Running(s.(result := Result("move", folder, 0, reason)))
      case Keep(reason) => Running(s.(result := Result("keep", "", 0, reason)))
      case Notify(message, reason) => Running(s.(result := Result("notify", message, 0, reason)))
      case Flag(flagName, reason) => Running(s.(result := Result("flag", flagName, 0, reason)))
      case DeferAction(action, target, delay, reason) =>
        Running(s.(result := Result("defer", target, delay, reason), deferredAction := action))
      case MoveAfter(folder, delay, reason) =>
        Running(s.(result := Result("defer", folder, delay, reason), deferredAction := "move"))
      case DeleteAfter(delay, reason) =>
        Running(s.(result := Result("defer", "", delay, reason), deferredAction := "delete"))
      case Schedule(delay, body) =>
        match ExecAll(body, s.(capture := true, captured := None))
        case Error => Error
        case Running(s1) =>
          match s1.captured
          case None => Error
          case Some(c) =>
            Running(s1.(capture := false,
                        result := Result("defer", c.target, delay, "scheduled " + c.action),
                        deferredAction := c.action))
  }

  function ExecAll(calls: seq<Call>, s: State): Outcome
    decreases calls, 0
  {
    if calls == [] then Running(s)
    else match ExecAll(calls[..|calls| - 1], s)
      case Error => Error
      case Running(s1) => Exec(calls[|calls| - 1], s1)
  }

  /** The same on mutable globals, call by call. */
  class Interpreter {
    var capture: bool
    var captured: Option<Captured>
    var result: Result
    var deferredAction: string

    function View(): State
      reads this
    {
      State(capture, captured, result, deferredAction)
    }

    constructor ()
      ensures View() == Fresh()
    {
      capture, captured, result, deferredAction := false, None, Result("skip", "", 0, ""), "";
    }

    method SetResult(action: string, target: string, delay: int, reason: string)
      modifies this`result
      ensures result == Result(action, target, delay, reason)
    {
      result := Result(action, target, delay, reason);
    }

    method Invoke(c: Call) returns (ok: bool)
      modifies this
      ensures Exec(c, old(View())) == if ok then Running(View()) else Error
      decreases c, 1
    {
      ok := true;
      if capture && Interceptable(c).Some? {
        captured := Interceptable(c);
        return;
      }
      match c {
        case Skip => SetResult("skip", "", 0, "");
        case Delete(reason) => SetResult("delete", "", 0, reason);
        case Archive(reason) => SetResult("archive", "", 0, reason);
        case Move(folder, reason) => SetResult("move", folder, 0, reason);
        case Keep(reason) => SetResult("keep", "", 0, reason);
        case Notify(message, reason) => SetResult("notify", message, 0, reason);
        case Flag(flagName, reason) => SetResult("flag", flagName, 0, reason);
        case DeferAction(action, target, delay, reason) =>
          SetResult("defer", target, delay, reason);
          deferredAction := action;
        case MoveAfter(folder, delay, reason) =>
          SetResult("defer", folder, delay, reason);
          deferredAction := "move";
        case DeleteAfter(delay, reason) =>
          SetResult("defer", "", delay, reason);
          deferredAction := "delete";
        case Schedule(delay, body) =>
          capture := true;
          captured := None;
          ok := InvokeAll(body);
          if !ok {
            return;
          }
          capture := false;
          if captured.None? {
            return false;
          }
          SetResult("defer", captured.value.target, delay, "scheduled " + captured.value.action);
          deferredAction := captured.value.action;
      }
    }

    method InvokeAll(calls: seq<Call>) returns (ok: bool)
      modifies this
      ensures ExecAll(calls, old(View())) == if ok then Running(View()) else Error
      decreases calls, 0
    {
      for i := 0 to |calls|
        invariant ExecAll(calls[..i], old(View())) == Running(View())
      {
        assert calls[..i + 1][..i] == calls[..i];
        ok := Invoke(calls[i]);
        if !ok {
          ErrorStays(calls, i + 1, old(View()));
          return;
        }
      }
      assert calls[..|calls|] == calls;
      ok := true;
    }
  }

  lemma {:induction false} ErrorStays(calls: seq<Call>, n: nat, s: State)
    requires n <= |calls| && ExecAll(calls[..n], s) == Error
    ensures ExecAll(calls, s) == Error
    decreases |calls| - n
  {
    if n == |calls| {
      assert calls[..n] == calls;
    } else {
      assert calls[..n + 1][..n] == calls[..n];
      ErrorStays(calls, n + 1, s);
    }
  }

  // ---------------------------------------------------------------- what a rule means

  predicate HasSchedule(calls: seq<Call>) {
    exists i | 0 <= i < |calls| :: calls[i].Schedule?
  }

  /** What a scheduled body leaves captured, read off its text: the last schedule inside it
      decides, since leaving that schedule also ends the capture of the calls after it;
      without one, the last interceptable call. */
  function LastCapture(calls: seq<Call>): Option<Captured>
    decreases calls
  {
    if calls == [] then None
    else
      var last, before := calls[|calls| - 1], calls[..|calls| - 1];
      if last.Schedule? then LastCapture(last.body)
      else if Interceptable(last).Some? && !HasSchedule(before) then Interceptable(last)
      else LastCapture(before)
  }

  /** Every schedule, at any depth, captures something. */
  predicate WellScheduled(c: Call)
    decreases c
  {
    c.Schedule? ==> LastCapture(c.body).Some? && forall i | 0 <= i < |c.body| :: WellScheduled(c.body[i])
  }

  predicate AllWellScheduled(calls: seq<Call>) {
    forall i | 0 <= i < |calls| :: WellScheduled(calls[i])
  }

  /** The result of a top-level call by itself. */
  function Meaning(c: Call): Result
    requires WellScheduled(c)
  {
    match c
    case Skip => Result("skip", "", 0, "")
    case DeferAction(_, target, delay, reason) => Result("defer", target, delay, reason)
    case MoveAfter(folder, delay, reason) => Result("defer", folder, delay, reason)
    case DeleteAfter(delay, reason) => Result("defer", "", delay, reason)
    case Schedule(delay, body) =>
      var inner := LastCapture(body).value;
      Result("defer", inner.target, delay, "scheduled " + inner.action)
    case _ =>
      var a := Interceptable(c).value;
      Result(a.action, a.target, 0, c.reason)
  }

  /** What running a body does to the shared globals, whatever they were. */
  ghost predicate Behaves(calls: seq<Call>, s: State, s': State) {
    && s'.capture == (s.capture && !HasSchedule(calls))
    && s'.captured == (if HasSchedule(calls) || (s.capture && LastCapture(calls).Some?)
                       then LastCapture(calls) else s.captured)
  }

  lemma {:induction false} CallOutcome(c: Call, s: State)
    ensures Exec(c, s).Running? <==> WellScheduled(c)
    ensures WellScheduled(c) ==> Behaves([c], s, Exec(c, s).state)
    ensures WellScheduled(c) && !s.capture ==> Exec(c, s).state.result == Meaning(c)
    ensures c.Schedule? && WellScheduled(c) ==> Exec(c, s).state.result == Meaning(c)
    decreases c, 1
  {
    assert [c][..0] == [];
    assert HasSchedule([c]) <==> c.Schedule? by {
      assert [c][0] == c;
    }
    if c.Schedule? {
      BodyOutcome(c.body, s.(capture := true, captured := None));
      assert LastCapture([c]) == LastCapture(c.body);
    } else {
      assert !HasSchedule([]);
      assert LastCapture([c]) == Interceptable(c);
    }
  }

  lemma {:induction false} BodyOutcome(calls: seq<Call>, s: State)
    ensures ExecAll(calls, s).Running? <==> AllWellScheduled(calls)
    ensures AllWellScheduled(calls) ==> Behaves(calls, s, ExecAll(calls, s).state)
    decreases calls, 0
  {
    if calls != [] {
      var last, before := calls[|calls| - 1], calls[..|calls| - 1];
      BodyOutcome(before, s);
      assert AllWellScheduled(calls) <==> AllWellScheduled(before) && WellScheduled(last);
      if AllWellScheduled(before) {
        CallOutcome(last, ExecAll(before, s).state);
        HasScheduleSnoc(calls);
        if AllWellScheduled(calls) {
          ScheduleCaptures(calls);
        }
      }
    }
  }

  lemma HasScheduleSnoc(calls: seq<Call>)
    requires calls != []
    ensures HasSchedule(calls) <==> HasSchedule(calls[..|calls| - 1]) || calls[|calls| - 1].Schedule?
    ensures HasSchedule([calls[|calls| - 1]]) <==> calls[|calls| - 1].Schedule?
  {
    var last, before := calls[|calls| - 1], calls[..|calls| - 1];
    assert [last][0] == last;
    if HasSchedule(before) {
      var i :| 0 <= i < |before| && before[i].Schedule?;
      assert calls[i].Schedule?;
    }
    if HasSchedule(calls) {
      var i :| 0 <= i < |calls| && calls[i].Schedule?;
      assert i < |before| ==> before[i].Schedule?;
    }
  }

  /** A well-scheduled body with a schedule in it always captures something. */
  lemma {:induction false} ScheduleCaptures(calls: seq<Call>)
    requires AllWellScheduled(calls)
    ensures HasSchedule(calls) ==> LastCapture(calls).Some?
    decreases |calls|
  {
    if calls != [] {
      var last, before := calls[|calls| - 1], calls[..|calls| - 1];
      HasScheduleSnoc(calls);
      assert WellScheduled(last);
      ScheduleCaptures(before);
    }
  }

  /** The evaluation of a rule: its extracted result, or none if it failed. */
  function Evaluate(calls: seq<Call>): Option<Result> {
    match ExecAll(calls, Fresh())
    case Error => None
    case Running(s) => Some(s.result)
  }

  // ---------------------------------------------------------------- main results

  /** A rule fails exactly when some schedule in it, however deeply nested, captures nothing.
      Otherwise capture mode is off at the end and the result is that of the last top-level
      call alone. */
  lemma RuleMeansItsLastCall(calls: seq<Call>)
    ensures Evaluate(calls).Some? <==> AllWellScheduled(calls)
    ensures AllWellScheduled(calls) ==> !ExecAll(calls, Fresh()).state.capture
    ensures calls == [] ==> Evaluate(calls) == Some(Fresh().result)
    ensures calls != [] && AllWellScheduled(calls) ==>
              var last := calls[|calls| - 1];
              && WellScheduled(last)
              && Evaluate(calls) == Some(Meaning(last)) == Evaluate([last])
  {
    BodyOutcome(calls, Fresh());
    if calls != [] && AllWellScheduled(calls) {
      var last, before := calls[|calls| - 1], calls[..|calls| - 1];
      BodyOutcome(before, Fresh());
      CallOutcome(last, ExecAll(before, Fresh()).state);
      CallOutcome(last, Fresh());
      assert [last][..0] == [];
      assert ExecAll([last], Fresh()) == Exec(last, Fresh());
    }
  }

  /** What each call makes of a rule by itself. */
  lemma EachCallAlone(c: Call)
    requires !c.Schedule?
    ensures Evaluate([c]) == Some(
              match c
              case Skip => Result("skip", "", 0, "")
              case Delete(reason) => Result("delete", "", 0, reason)
              case Archive(reason) => Result("archive", "", 0, reason)
              case Move(folder, reason) => Result("move", folder, 0, reason)
              case Keep(reason) => Result("keep", "", 0, reason)
              case Notify(message, reason) => Result("notify", message, 0, reason)
              case Flag(flagName, reason) => Result("flag", flagName, 0, reason)
              case DeferAction(_, target, delay, reason) => Result("defer", target, delay, reason)
              case MoveAfter(folder, delay, reason) => Result("defer", folder, delay, reason)
              case DeleteAfter(delay, reason) => Result("defer", "", delay, reason))
  {
    assert AllWellScheduled([c]);
    RuleMeansItsLastCall([c]);
  }

  /** What a schedule around one call makes of a rule: the call is captured with its action and
      target; a body that captures nothing is an error. */
  lemma EachCallScheduled(delay: int, c: Call)
    requires !c.Schedule?
    ensures Evaluate([Schedule(delay, [c])]) ==
            match c
            case Delete(_) => Some(Result("defer", "", delay, "scheduled " + "delete"))
            case Archive(_) => Some(Result("defer", "", delay, "scheduled " + "archive"))
            case Move(folder, _) => Some(Result("defer", folder, delay, "scheduled " + "move"))
            case Keep(_) => Some(Result("defer", "", delay, "scheduled " + "keep"))
            case Notify(message, _) => Some(Result("defer", message, delay, "scheduled " + "notify"))
            case Flag(flagName, _) => Some(Result("defer", flagName, delay, "scheduled " + "flag"))
            case _ => None
  {
    var s := Schedule(delay, [c]);
    LastCaptureAlone(c);
    assert WellScheduled(s) <==> LastCapture([c]).Some?;
    assert AllWellScheduled([s]) <==> WellScheduled(s) by {
      assert [s][0] == s;
    }
    RuleMeansItsLastCall([s]);
  }

  lemma LastCaptureAlone(c: Call)
    requires !c.Schedule?
    ensures LastCapture([c]) == Interceptable(c)
  {
    assert [c][..0] == [] && !HasSchedule([]);
  }

  /** The calls after a nested schedule are no longer intercepted: what a body captures is
      decided by its last nested schedule alone. */
  lemma {:induction false} NestedScheduleDecides(before: seq<Call>, delay: int, body: seq<Call>, after: seq<Call>)
    requires !HasSchedule(after)
    ensures LastCapture(before + [Schedule(delay, body)] + after) == LastCapture(body)
    decreases |after|
  {
    var calls := before + [Schedule(delay, body)] + after;
    if after == [] {
      assert calls[|calls| - 1] == Schedule(delay, body);
    } else {
      var shorter := after[..|after| - 1];
      assert calls[..|calls| - 1] == before + [Schedule(delay, body)] + shorter;
      assert calls[|calls| - 1] == after[|after| - 1];
      HasScheduleSnoc(after);
      assert calls[..|calls| - 1][|before|].Schedule?;
      NestedScheduleDecides(before, delay, body, shorter);
    }
  }
}
