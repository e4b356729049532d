/** The rules-engine consumer: ack, nak, term, redelivery and the idempotency table
    (internal/rulesengine/consumer.go, internal/db/db.go).

    The stream delivers each message at most three times and may redeliver it while an
    earlier copy still waits in the consumer's prefetch buffer or has been acknowledged
    late.  The loop handles the buffered copies one at a time.  Database errors, failing
    actions and crashes are inputs of each handling. */
module StreamConsumer {

  /** MaxDeliver of the durable consumer. */
  const MAX_DELIVER: nat := 3

  /** A row of processed_messages is keyed by account and UID. */
  type Key = (int, nat)

  datatype Event = Event(account: int, uid: nat, messageId: string)

  datatype Payload = Malformed | Incoming(event: Event)

  /** The result of rule evaluation as the consumer sees it. */
  datatype RuleResult = RuleResult(action: string, target: string, delay: int)

  /** A deferred_actions row. */
  datatype DeferredRow = DeferredRow(
    rule: int, account: int, messageId: string, action: string, target: string, executeAt: int)

  /** Where the process dies during one handling, if it does. */
  datatype Crash = NoCrash | AtStart | AfterEffect | BeforeReply

  /** Everything one handling cannot decide itself. */
  datatype Env = Env(
    checkOk: bool, rulesOk: bool, rule: int, result: RuleResult, now: int,
    deferOk: bool, actionOk: bool, markOk: bool, crash: Crash)

  datatype AckReason = AlreadyProcessed | NoMatch | DeferredWritten | ActionFinished

  datatype Reply = NoReply | Ack(reason: AckReason) | Nak | Term

  /** processed and deferred are the database tables.  The multisets count, per key or per
      stream message, what happened: deferred rows written, actions finished, finished
      actions that a crash or a failed write left unmarked, and actions repeated on a key
      whose processed check failed. */
  datatype Tables = Tables(
    processed: map<Key, string>,
    deferred: seq<DeferredRow>,
    written: multiset<nat>,
    completed: multiset<Key>,
    lost: multiset<Key>,
    unmarked: multiset<Key>,
    blind: multiset<Key>)

  function KeyOf(event: Event): Key {
    (event.account, event.uid)
  }

  /** Only these actions call out and can fail. */
  predicate ActionFails(env: Env) {
    !env.actionOk && env.result.action in {"delete", "move", "archive", "flag", "notify"}
  }

  /** The row as the consumer builds it: the result's target serves as action and target. */
  function DeferredFor(event: Event, env: Env): DeferredRow {
    DeferredRow(env.rule, event.account, event.messageId, env.result.target, env.result.target,
                env.now + env.result.delay)
  }

  /** The immediate branch once the action has succeeded. */
  function Finish(t: Tables, key: Key, env: Env): (Tables, Reply) {
    var t1 := t.(completed := t.completed + multiset{key});
    if key in t.processed then
      (t1.(blind := t.blind + multiset{key}),
       if env.crash.NoCrash? then Ack(ActionFinished) else NoReply)
    else if env.crash.AfterEffect? then
      (t1.(lost := t.lost + multiset{key}), NoReply)
    else
      (if env.markOk then t1.(processed := t.processed[key := env.result.action])
       else t1.(unmarked := t.unmarked + multiset{key}),
       if env.crash.NoCrash? then Ack(ActionFinished) else NoReply)
  }

  function Handle(t: Tables, m: nat, payload: Payload, env: Env): (Tables, Reply) {
    if env.crash.AtStart? then (t, NoReply)
    else match payload
    case Malformed => (t, Term)
    case Incoming(event) =>
      var key := KeyOf(event);
      if env.checkOk && key in t.processed then (t, Ack(AlreadyProcessed))
      else if !env.rulesOk then (t, Nak)
      else if env.result.action == "skip" then (t, Ack(NoMatch))
      else if env.result.action == "defer" && env.result.delay > 0 then
        if !env.deferOk then (t, Nak)
        else
          (t.(deferred := t.deferred + [DeferredFor(event, env)], written := t.written + multiset{m}),
           if env.crash.NoCrash? then Ack(DeferredWritten) else NoReply)
      else if ActionFails(env) then (t, Nak)
      else Finish(t, key, env)
  }

  class Consumer {
    var processed: map<Key, string>
    var deferred: seq<DeferredRow>
    ghost var written: multiset<nat>
    ghost var completed: multiset<Key>
    ghost var lost: multiset<Key>
    ghost var unmarked: multiset<Key>
    ghost var blind: multiset<Key>

    ghost function View(): Tables
      reads this
    {
      Tables(processed, deferred, written, completed, lost, unmarked, blind)
    }

    /** MarkMessageProcessed: an existing row wins. */
    method MarkProcessed(key: Key, action: string)
      modifies this`processed
      ensures processed == if key in old(processed) then old(processed) else old(processed)[key := action]
    {
      if key !in processed {
        processed := processed[key := action];
      }
    }

    /** One message of the stream; the reply tells the stream whether to redeliver. */
    method HandleMessage(m: nat, payload: Payload, env: Env) returns (reply: Reply)
      modifies this
      ensures (View(), reply) == Handle(old(View()), m, payload, env)
    {
      if env.crash.AtStart? {
        return NoReply;
      }
      if payload.Malformed? {
        return Term;
      }
      var event := payload.event;
      var key := KeyOf(event);
      var known := false;
      if env.checkOk {
        known := key in processed;
      }
      if known {
        return Ack(AlreadyProcessed);
      }
      if !env.rulesOk {
        return Nak;
      }
      if env.result.action == "skip" {
        return Ack(NoMatch);
      }
      if env.result.action == "defer" && env.result.delay > 0 {
        if !env.deferOk {
          return Nak;
        }
        deferred := deferred + [DeferredFor(event, env)];
        written := written + multiset{m};
        if !env.crash.NoCrash? {
          return NoReply;
        }
        return Ack(DeferredWritten);
      }
      if ActionFails(env) {
        return Nak;
      }
      completed := completed + multiset{key};
      if key in processed {
        blind := blind + multiset{key};
      } else if env.crash.AfterEffect? {
        lost := lost + multiset{key};
      } else if !env.markOk {
        unmarked := unmarked + multiset{key};
      }
      if env.crash.AfterEffect? {
        return NoReply;
      }
      if env.markOk {
        MarkProcessed(key, env.result.action);
      }
      if env.crash.BeforeReply? {
        return NoReply;
      }
      reply := Ack(ActionFinished);
    }
  }

  // ---------------------------------------------------------------- the stream

  datatype AckRecord = AckRecord(message: nat, reason: AckReason)

  datatype Stream = Stream(
    messages: seq<Payload>,
    tables: Tables,
    buffer: seq<nat>,
    deliveries: multiset<nat>,
    attempts: multiset<nat>,
    settled: set<nat>,
    acks: seq<AckRecord>)

  /** Deliver: the server hands out a copy of a message it has not seen settled.
      HandleNext: the loop takes the oldest copy; its reply may fail to reach the server.
      Restart: prefetched copies are lost. */
  datatype Step = Publish(payload: Payload) | Deliver(m: nat) | HandleNext(env: Env, replyArrives: bool) | Restart

  function Start(): Stream {
    Stream([], Tables(map[], [], multiset{}, multiset{}, multiset{}, multiset{}, multiset{}),
           [], multiset{}, multiset{}, {}, [])
  }

  function Next(s: Stream, step: Step): Stream {
    match step
    case Publish(payload) => s.(messages := s.messages + [payload])
    case Deliver(m) =>
      if m < |s.messages| && m !in s.settled && s.deliveries[m] < MAX_DELIVER
      then s.(deliveries := s.deliveries + multiset{m}, buffer := s.buffer + [m])
      else s
    case Restart => s.(buffer := [])
    case HandleNext(env, replyArrives) =>
      if s.buffer == [] || s.buffer[0] >= |s.messages| then s
      else
        var m := s.buffer[0];
        var (tables, reply) := Handle(s.tables, m, s.messages[m], env);
        s.(tables := tables,
           buffer := if env.crash.NoCrash? then s.buffer[1..] else [],
           attempts := s.attempts + multiset{m},
           settled := if replyArrives && (reply.Ack? || reply.Term?) then s.settled + {m} else s.settled,
           acks := if reply.Ack? then s.acks + [AckRecord(m, reply.reason)] else s.acks)
  }

  function Run(s: Stream, steps: seq<Step>): Stream
    decreases |steps|
  {
    if steps == [] then s else Run(Next(s, steps[0]), steps[1..])
  }

  // ---------------------------------------------------------------- invariants

  /** Each finished action is the one that marked its key, or is accounted for as lost to a
      crash, left unmarked by a failed write, or repeated blindly. */
  ghost predicate Accounted(t: Tables, key: Key) {
    t.completed[key] ==
      (if key in t.processed then 1 else 0) + t.lost[key] + t.unmarked[key] + t.blind[key]
  }

  ghost predicate DeliveryBound(s: Stream, m: nat) {
    && s.attempts[m] + multiset(s.buffer)[m] <= s.deliveries[m] <= MAX_DELIVER
    && s.tables.written[m] <= s.attempts[m]
  }

  /** What an acknowledgement of a message means from then on. */
  ghost predicate AckJustified(s: Stream, a: AckRecord) {
    && a.message < |s.messages|
    && s.messages[a.message].Incoming?
    && var key := KeyOf(s.messages[a.message].event);
    match a.reason
    case AlreadyProcessed => key in s.tables.processed
    case NoMatch => true
    case DeferredWritten => s.tables.written[a.message] >= 1
    case ActionFinished => key in s.tables.processed || s.tables.unmarked[key] >= 1
  }

  ghost predicate Inv(s: Stream) {
    && (forall key: Key :: Accounted(s.tables, key))
    && (forall m: nat :: DeliveryBound(s, m))
    && (forall i | 0 <= i < |s.acks| :: AckJustified(s, s.acks[i]))
  }

  /** What one handling answers and changes, circumstance by circumstance: nothing is marked or
      acknowledged unless the message was known, matched nothing, was deferred, or its action
      succeeded; a failed action changes nothing and is asked for again. */
  lemma HandlingByCircumstance(t: Tables, m: nat, event: Event, env: Env)
    ensures Handle(t, m, Malformed, env) == (t, if env.crash.AtStart? then NoReply else Term)
    ensures var key := (event.account, event.uid);
            var (t', reply) := Handle(t, m, Incoming(event), env);
            var past := !env.crash.AtStart? && !(env.checkOk && key in t.processed) && env.rulesOk;
            var action := env.result.action;
            var defers := action == "defer" && env.result.delay > 0;
            var fails := action in {"delete", "move", "archive", "flag", "notify"} && !env.actionOk;
            && (env.crash.AtStart? ==> t' == t && reply == NoReply)
            && (!env.crash.AtStart? && env.checkOk && key in t.processed ==> t' == t && reply == Ack(AlreadyProcessed))
            && (!env.crash.AtStart? && !(env.checkOk && key in t.processed) && !env.rulesOk ==> t' == t && reply == Nak)
            && (past && action == "skip" ==> t' == t && reply == Ack(NoMatch))
            && (past && defers && !env.deferOk ==> t' == t && reply == Nak)
            && (past && defers && env.deferOk ==>
                  && t' == t.(written := t.written + multiset{m},
                              deferred := t.deferred + [DeferredRow(env.rule, event.account, event.messageId,
                                                                    env.result.target, env.result.target,
                                                                    env.now + env.result.delay)])
                  && reply == if env.crash.NoCrash? then Ack(DeferredWritten) else NoReply)
            && (past && fails ==> t' == t && reply == Nak)
            && (past && action != "skip" && !defers && !fails ==>
                  && t'.completed == t.completed + multiset{key}
                  && t'.deferred == t.deferred && t'.written == t.written
                  && t'.processed == (if key in t.processed || env.crash.AfterEffect? || !env.markOk then t.processed
                                      else t.processed[key := action])
                  && reply == if env.crash.NoCrash? then Ack(ActionFinished) else NoReply)
  {
  }

  lemma HandleAccounts(t: Tables, m: nat, payload: Payload, env: Env, key: Key)
    requires Accounted(t, key)
    ensures Accounted(Handle(t, m, payload, env).0, key)
  {
  }

  /** The tables only grow, and a processed row keeps its first action. */
  lemma HandleGrows(t: Tables, m: nat, payload: Payload, env: Env)
    ensures var t' := Handle(t, m, payload, env).0;
            && (forall key | key in t.processed :: key in t'.processed && t'.processed[key] == t.processed[key])
            && t.unmarked <= t'.unmarked && t.written <= t'.written <= t.written + multiset{m}
  {
  }

  lemma StepKeepsBound(s: Stream, step: Step, k: nat)
    requires DeliveryBound(s, k)
    ensures DeliveryBound(Next(s, step), k)
  {
    if step.HandleNext? && s.buffer != [] && s.buffer[0] < |s.messages| {
      var m := s.buffer[0];
      HandleGrows(s.tables, m, s.messages[m], step.env);
      assert s.buffer == [m] + s.buffer[1..];
    }
  }

  lemma StepKeepsJustified(s: Stream, step: Step, a: AckRecord)
    requires AckJustified(s, a)
    ensures AckJustified(Next(s, step), a)
  {
    if step.HandleNext? && s.buffer != [] && s.buffer[0] < |s.messages| {
      HandleGrows(s.tables, s.buffer[0], s.messages[s.buffer[0]], step.env);
    }
  }

  lemma NewAckIsJustified(s: Stream, env: Env, replyArrives: bool)
    requires Next(s, HandleNext(env, replyArrives)).acks != s.acks
    ensures var s' := Next(s, HandleNext(env, replyArrives));
            s'.acks == s.acks + [s'.acks[|s.acks|]] && AckJustified(s', s'.acks[|s.acks|])
  {
  }

  lemma StepKeepsInv(s: Stream, step: Step)
    requires Inv(s)
    ensures Inv(Next(s, step))
  {
    var s' := Next(s, step);
    forall key: Key
      ensures Accounted(s'.tables, key)
    {
      if step.HandleNext? && s.buffer != [] && s.buffer[0] < |s.messages| {
        HandleAccounts(s.tables, s.buffer[0], s.messages[s.buffer[0]], step.env, key);
      }
    }
    forall k: nat
      ensures DeliveryBound(s', k)
    {
      StepKeepsBound(s, step, k);
    }
    if step.HandleNext? && s'.acks != s.acks {
      NewAckIsJustified(s, step.env, step.replyArrives);
    }
    forall i | 0 <= i < |s'.acks|
      ensures AckJustified(s', s'.acks[i])
    {
      if i < |s.acks| {
        StepKeepsJustified(s, step, s.acks[i]);
      }
    }
  }

  lemma {:induction false} RunKeepsInv(s: Stream, steps: seq<Step>)
    requires Inv(s)
    ensures Inv(Run(s, steps))
    decreases |steps|
  {
    if steps != [] {
      StepKeepsInv(s, steps[0]);
      RunKeepsInv(Next(s, steps[0]), steps[1..]);
    }
  }

  // ---------------------------------------------------------------- main results

  /** In every run: finished actions are conserved, no stream message is attempted more often
      than it was delivered, which is at most three times, nor writes more deferred rows than
      attempts, and every Ack is justified. */
  lemma EveryRun(steps: seq<Step>)
    ensures var s := Run(Start(), steps);
            && (forall key: Key :: Accounted(s.tables, key))
            && (forall m: nat :: s.tables.written[m] <= s.attempts[m] <= s.deliveries[m] <= 3)
            && (forall i | 0 <= i < |s.acks| :: AckJustified(s, s.acks[i]))
  {
    RunKeepsInv(Start(), steps);
    var s := Run(Start(), steps);
    forall m: nat
      ensures s.tables.written[m] <= s.attempts[m] <= s.deliveries[m] <= 3
    {
      assert DeliveryBound(s, m);
    }
  }

  /** Database calls that guard and record the action succeed, and the process does not die
      between an action and its mark. */
  predicate Orderly(step: Step) {
    step.HandleNext? ==> step.env.checkOk && step.env.markOk && !step.env.crash.AfterEffect?
  }

  ghost predicate NothingAstray(t: Tables) {
    t.lost == t.unmarked == t.blind == multiset{}
  }

  lemma {:induction false} OrderlyRunLosesNothing(s: Stream, steps: seq<Step>)
    requires NothingAstray(s.tables)
    requires forall i | 0 <= i < |steps| :: Orderly(steps[i])
    ensures NothingAstray(Run(s, steps).tables)
    decreases |steps|
  {
    if steps != [] {
      assert Orderly(steps[0]);
      OrderlyRunLosesNothing(Next(s, steps[0]), steps[1..]);
    }
  }

  /** In an orderly run each UID gets at most one successful immediate action, exactly one
      when it is marked processed, and an Ack for a finished action means it is marked. */
  lemma AtMostOneAction(steps: seq<Step>, key: Key)
    requires forall i | 0 <= i < |steps| :: Orderly(steps[i])
    ensures var s := Run(Start(), steps);
            && s.tables.completed[key] == (if key in s.tables.processed then 1 else 0)
            && forall i | 0 <= i < |s.acks| && s.acks[i].reason.ActionFinished? ::
                 && s.acks[i].message < |s.messages|
                 && s.messages[s.acks[i].message].Incoming?
                 && KeyOf(s.messages[s.acks[i].message].event) in s.tables.processed
  {
    RunKeepsInv(Start(), steps);
    OrderlyRunLosesNothing(Start(), steps);
    var s := Run(Start(), steps);
    assert Accounted(s.tables, key);
    forall i | 0 <= i < |s.acks| && s.acks[i].reason.ActionFinished?
      ensures AckJustified(s, s.acks[i])
    {
    }
  }

  /** Stream message `m` is about this UID. */
  predicate IsAbout(s: Stream, m: nat, key: Key) {
    m < |s.messages| && s.messages[m].Incoming? && KeyOf(s.messages[m].event) == key
  }

  predicate Checked(step: Step) {
    step.HandleNext? ==> step.env.checkOk
  }

  /** Nothing was done on a UID between two states: no action, and no deferred row by any
      stream message about it. */
  ghost predicate LeftAlone(s: Stream, s': Stream, key: Key) {
    && s'.tables.completed[key] == s.tables.completed[key]
    && forall m: nat | IsAbout(s, m, key) :: IsAbout(s', m, key) && s'.tables.written[m] == s.tables.written[m]
  }

  lemma StepKeepsProcessed(s: Stream, step: Step, key: Key)
    requires key in s.tables.processed
    ensures var s' := Next(s, step);
            && key in s'.tables.processed
            && s'.tables.processed[key] == s.tables.processed[key]
            && (Checked(step) ==> LeftAlone(s, s', key))
  {
    if step.HandleNext? && s.buffer != [] && s.buffer[0] < |s.messages| {
      HandleGrows(s.tables, s.buffer[0], s.messages[s.buffer[0]], step.env);
    }
  }

  /** From any state, whatever is delivered, crashes or fails later: a processed row keeps
      its action, and unless the check itself fails no later delivery acts on the UID or
      writes a deferred row for it. */
  lemma {:induction false} ProcessedIsFinal(s: Stream, steps: seq<Step>, key: Key)
    requires key in s.tables.processed
    ensures var s' := Run(s, steps);
            && key in s'.tables.processed
            && s'.tables.processed[key] == s.tables.processed[key]
            && ((forall i | 0 <= i < |steps| :: Checked(steps[i])) ==> LeftAlone(s, s', key))
    decreases |steps|
  {
    if steps != [] {
      StepKeepsProcessed(s, steps[0], key);
      ProcessedIsFinal(Next(s, steps[0]), steps[1..], key);
    }
  }

  // ---------------------------------------------------------------- successful actions

  /** This step handles a message about the UID and its action succeeds. */
  predicate Succeeds(s: Stream, step: Step, key: Key) {
    && step.HandleNext? && s.buffer != [] && IsAbout(s, s.buffer[0], key)
    && !step.env.crash.AtStart? && step.env.rulesOk
    && !(step.env.checkOk && key in s.tables.processed)
    && step.env.result.action != "skip"
    && !(step.env.result.action == "defer" && step.env.result.delay > 0)
    && (step.env.actionOk || step.env.result.action !in {"delete", "move", "archive", "flag", "notify"})
  }

  function Successes(s: Stream, steps: seq<Step>, key: Key): nat
    decreases |steps|
  {
    if steps == [] then 0
    else (if Succeeds(s, steps[0], key) then 1 else 0) + Successes(Next(s, steps[0]), steps[1..], key)
  }

  lemma StepCompletes(s: Stream, step: Step, key: Key)
    ensures var s' := Next(s, step);
            && s'.tables.completed[key] == s.tables.completed[key] + (if Succeeds(s, step, key) then 1 else 0)
            && (key in s'.tables.processed && key !in s.tables.processed ==>
                  Succeeds(s, step, key) && s'.tables.processed[key] == step.env.result.action)
            && (key in s.tables.processed ==> key in s'.tables.processed && s'.tables.processed[key] == s.tables.processed[key])
  {
  }

  /** Over every run, from any state, the actions counted as finished on a UID are the
      handlings of it whose action succeeded. */
  lemma {:induction false} FinishedAreSuccesses(s: Stream, steps: seq<Step>, key: Key)
    ensures Run(s, steps).tables.completed[key] == s.tables.completed[key] + Successes(s, steps, key)
    decreases |steps|
  {
    if steps != [] {
      StepCompletes(s, steps[0], key);
      FinishedAreSuccesses(Next(s, steps[0]), steps[1..], key);
    }
  }

  /** Every row of processed_messages was written by a step whose action succeeded on that UID,
      and holds that action. */
  lemma {:induction false} ProcessedHasWriter(s: Stream, steps: seq<Step>, key: Key) returns (i: nat)
    requires key !in s.tables.processed && key in Run(s, steps).tables.processed
    ensures i < |steps| && Succeeds(Run(s, steps[..i]), steps[i], key)
    ensures Run(s, steps).tables.processed[key] == steps[i].env.result.action
    decreases |steps|
  {
    var s1 := Next(s, steps[0]);
    StepCompletes(s, steps[0], key);
    if key in s1.tables.processed {
      i := 0;
      assert steps[..0] == [];
      ProcessedIsFinal(s1, steps[1..], key);
    } else {
      var j := ProcessedHasWriter(s1, steps[1..], key);
      i := j + 1;
      assert steps[..i][1..] == steps[1..][..j];
    }
  }

  /** A message whose acknowledgement or rejection arrived is never delivered again. */
  lemma {:induction false} SettledIsNotDelivered(s: Stream, steps: seq<Step>, m: nat)
    requires m in s.settled
    ensures Run(s, steps).deliveries[m] == s.deliveries[m] && m in Run(s, steps).settled
    decreases |steps|
  {
    if steps != [] {
      SettledIsNotDelivered(Next(s, steps[0]), steps[1..], m);
    }
  }

  /** An answer of the loop settles its message exactly when it is an Ack or a Term and arrives. */
  lemma AnswerSettlesIff(s: Stream, env: Env, replyArrives: bool)
    requires s.buffer != [] && s.buffer[0] < |s.messages| && s.buffer[0] !in s.settled
    ensures var m := s.buffer[0];
            var reply := Handle(s.tables, m, s.messages[m], env).1;
            m in Next(s, HandleNext(env, replyArrives)).settled <==> replyArrives && (reply.Ack? || reply == Term)
  {
  }

  // ---------------------------------------------------------------- deferred rows

  /** This step handles message `m`, gets past the check for processed UIDs, evaluates to a
      deferral and stores its row. */
  predicate Defers(s: Stream, step: Step, m: nat) {
    && step.HandleNext? && s.buffer != [] && s.buffer[0] == m && m < |s.messages| && s.messages[m].Incoming?
    && !step.env.crash.AtStart? && step.env.rulesOk && step.env.deferOk
    && !(step.env.checkOk && KeyOf(s.messages[m].event) in s.tables.processed)
    && step.env.result.action == "defer" && step.env.result.delay > 0
  }

  function Deferrals(s: Stream, steps: seq<Step>, m: nat): nat
    decreases |steps|
  {
    if steps == [] then 0
    else (if Defers(s, steps[0], m) then 1 else 0) + Deferrals(Next(s, steps[0]), steps[1..], m)
  }

  lemma StepWrites(s: Stream, step: Step, m: nat)
    ensures Next(s, step).tables.written[m] == s.tables.written[m] + (if Defers(s, step, m) then 1 else 0)
    ensures Defers(s, step, m) ==>
              Next(s, step).tables.deferred == s.tables.deferred + [DeferredFor(s.messages[m].event, step.env)]
    ensures (forall k: nat :: !Defers(s, step, k)) ==> Next(s, step).tables.deferred == s.tables.deferred
  {
    if step.HandleNext? && s.buffer != [] && !Defers(s, step, s.buffer[0]) {
      assert forall k: nat :: !Defers(s, step, k);
    }
  }

  /** Over every run, from any state, the rows a stream message wrote are the handlings of it
      that defer. */
  lemma {:induction false} DeferredRowsAreDeferrals(s: Stream, steps: seq<Step>, m: nat)
    ensures Run(s, steps).tables.written[m] == s.tables.written[m] + Deferrals(s, steps, m)
    decreases |steps|
  {
    if steps != [] {
      StepWrites(s, steps[0], m);
      DeferredRowsAreDeferrals(Next(s, steps[0]), steps[1..], m);
    }
  }

  /** The i-th step of the run defers message `m`. */
  predicate DefersAt(s: Stream, steps: seq<Step>, m: nat, i: nat) {
    i < |steps| && Defers(Run(s, steps[..i]), steps[i], m)
  }

  lemma DefersLater(s: Stream, steps: seq<Step>, m: nat, i: nat)
    requires steps != [] && i < |steps| - 1
    ensures DefersAt(s, steps, m, i + 1) <==> DefersAt(Next(s, steps[0]), steps[1..], m, i)
  {
    assert steps[..i + 1][1..] == steps[1..][..i];
  }

  lemma {:induction false} DeferralsAreSteps(s: Stream, steps: seq<Step>, m: nat)
    ensures Deferrals(s, steps, m) >= 1 <==> exists i: nat :: DefersAt(s, steps, m, i)
    ensures Deferrals(s, steps, m) >= 2 <==>
            exists i: nat, j: nat :: i < j && DefersAt(s, steps, m, i) && DefersAt(s, steps, m, j)
    decreases |steps|
  {
    if steps != [] {
      var s1, rest := Next(s, steps[0]), steps[1..];
      DeferralsAreSteps(s1, rest, m);
      assert steps[..0] == [];
      assert DefersAt(s, steps, m, 0) <==> Defers(s, steps[0], m);
      forall i: nat | i < |rest|
        ensures DefersAt(s, steps, m, i + 1) <==> DefersAt(s1, rest, m, i)
      {
        DefersLater(s, steps, m, i);
      }
      LaterOnes(s, steps, m);
    }
  }

  /** Shifting the positions of deferrals by one step. */
  lemma LaterOnes(s: Stream, steps: seq<Step>, m: nat)
    requires steps != []
    requires forall i: nat | i < |steps| - 1 ::
               DefersAt(s, steps, m, i + 1) <==> DefersAt(Next(s, steps[0]), steps[1..], m, i)
    ensures (exists i: nat :: DefersAt(s, steps, m, i)) <==>
            DefersAt(s, steps, m, 0) || exists i: nat :: DefersAt(Next(s, steps[0]), steps[1..], m, i)
    ensures (exists i: nat, j: nat :: i < j && DefersAt(s, steps, m, i) && DefersAt(s, steps, m, j)) <==>
            || (DefersAt(s, steps, m, 0) && exists i: nat :: DefersAt(Next(s, steps[0]), steps[1..], m, i))
            || (exists i: nat, j: nat :: i < j && DefersAt(Next(s, steps[0]), steps[1..], m, i)
                                         && DefersAt(Next(s, steps[0]), steps[1..], m, j))
  {
    var s1, rest := Next(s, steps[0]), steps[1..];
    forall i: nat | DefersAt(s1, rest, m, i)
      ensures DefersAt(s, steps, m, i + 1)
    {
    }
    forall i: nat | DefersAt(s, steps, m, i) && i > 0
      ensures DefersAt(s1, rest, m, i - 1)
    {
      var k: nat := i - 1;
      assert DefersAt(s, steps, m, k + 1);
    }
  }

  /** In every run a stream message writes more than one row exactly when two of its handlings
      get past the check and defer; delivered once, it writes at most one. */
  lemma RowRepeatsIff(steps: seq<Step>, m: nat)
    ensures Run(Start(), steps).tables.written[m] > 1 <==>
            exists i: nat, j: nat :: i < j && DefersAt(Start(), steps, m, i) && DefersAt(Start(), steps, m, j)
    ensures Run(Start(), steps).deliveries[m] <= 1 ==> Run(Start(), steps).tables.written[m] <= 1
  {
    DeferredRowsAreDeferrals(Start(), steps, m);
    DeferralsAreSteps(Start(), steps, m);
    EveryRun(steps);
  }

  /** The idempotency table does not cover deferred rows: an orderly run without any crash
      or lost reply, in which the stream redelivers a waiting message, writes its row twice. */
  lemma DeferredRowMayRepeat(event: Event, env: Env)
    requires env.crash.NoCrash? && env.checkOk && env.markOk && env.rulesOk && env.deferOk
    requires env.result.action == "defer" && env.result.delay > 0
    ensures var steps := [Publish(Incoming(event)), Deliver(0), Deliver(0), HandleNext(env, true), HandleNext(env, true)];
            Run(Start(), steps).tables.deferred == [DeferredFor(event, env), DeferredFor(event, env)]
  {
    var steps := [Publish(Incoming(event)), Deliver(0), Deliver(0), HandleNext(env, true), HandleNext(env, true)];
    Unroll5(Start(), steps);
    var s3 := Next(Next(Next(Start(), steps[0]), steps[1]), steps[2]);
    assert s3.messages == [Incoming(event)] && s3.buffer == [0, 0];
    DeferralRepeats(s3, event, env);
  }

  lemma DeferralRepeats(s: Stream, event: Event, env: Env)
    requires env.crash.NoCrash? && env.checkOk && env.markOk && env.rulesOk && env.deferOk
    requires env.result.action == "defer" && env.result.delay > 0
    requires s.messages == [Incoming(event)] && s.buffer == [0, 0] && KeyOf(event) !in s.tables.processed
    ensures Next(Next(s, HandleNext(env, true)), HandleNext(env, true)).tables.deferred ==
            s.tables.deferred + [DeferredFor(event, env), DeferredFor(event, env)]
  {
    var s1 := Next(s, HandleNext(env, true));
    assert s1.buffer == [0] && s1.tables.deferred == s.tables.deferred + [DeferredFor(event, env)];
  }

  lemma Unroll5(s: Stream, steps: seq<Step>)
    requires |steps| == 5
    ensures Run(s, steps) == Next(Next(Next(Next(Next(s, steps[0]), steps[1]), steps[2]), steps[3]), steps[4])
  {
    var s2 := Next(Next(s, steps[0]), steps[1]);
    assert steps[1..][1..] == steps[2..];
    assert Run(s, steps) == Run(s2, steps[2..]);
    var s4 := Next(Next(s2, steps[2]), steps[3]);
    assert steps[2..][1..] == steps[3..] && steps[3..][1..] == steps[4..];
    assert Run(s2, steps[2..]) == Run(s4, steps[4..]);
    assert steps[4..][1..] == [];
  }
}
