/** The deferred-action table, its scheduler and the cancel path
    (internal/db/db.go, internal/sched/scheduler.go).

    One scheduler runs passes: it fetches the due rows, then executes and marks them one by
    one.  The consumer creates rows and users cancel them at any point in between, also
    between the fetch and the attempt.  A mark may fail in the database. */
module DeferredActions {

  datatype Status = Pending | Executed | Failed

  /** `tenant` is the tenant of the row's account. */
  datatype Row = Row(tenant: int, account: int, messageId: string, action: string, target: string,
                     executeAt: int, status: Status)

  type Table = map<nat, Row>

  /** GetPendingDeferredActions: every pending row whose time has come, earliest first.  SQL
      leaves the order of equal times open. */
  ghost predicate DueList(rows: Table, now: int, ids: seq<nat>) {
    && (forall i | 0 <= i < |ids| :: ids[i] in rows && Due(rows[ids[i]], now))
    && (forall id | id in rows && Due(rows[id], now) :: id in ids)
    && (forall i, j | 0 <= i < j < |ids| :: ids[i] != ids[j])
    && (forall i, j | 0 <= i < j < |ids| && ids[i] in rows && ids[j] in rows ::
          rows[ids[i]].executeAt <= rows[ids[j]].executeAt)
  }

  predicate Due(row: Row, now: int) {
    row.status.Pending? && row.executeAt <= now
  }

  /** MarkDeferredActionDone: an UPDATE by id, without effect on a row that is gone. */
  function Marked(rows: Table, id: nat, ok: bool): Table {
    if id in rows then rows[id := rows[id].(status := if ok then Executed else Failed)] else rows
  }

  predicate Cancellable(rows: Table, tenant: int, id: nat) {
    id in rows && rows[id].tenant == tenant && rows[id].status.Pending?
  }

  function Cancelled(rows: Table, tenant: int, id: nat): Table {
    if Cancellable(rows, tenant, id) then rows - {id} else rows
  }

  class DeferredTable {
    var rows: Table
    var nextId: nat

    ghost predicate Valid()
      reads this
    {
      forall id | id in rows :: id < nextId
    }

    constructor ()
      ensures Valid() && rows == map[]
    {
      rows, nextId := map[], 0;
    }

    method CreateDeferredAction(row: Row) returns (id: nat)
      requires Valid()
      modifies this
      ensures Valid() && id !in old(rows) && rows == old(rows)[id := row.(status := Pending)]
    {
      id := nextId;
      rows := rows[id := row.(status := Pending)];
      nextId := nextId + 1;
    }

    /** Deletes a pending row of the tenant; anything else is reported as not found. */
    method CancelDeferredAction(tenant: int, id: nat) returns (found: bool)
      requires Valid()
      modifies this`rows
      ensures Valid() && rows == Cancelled(old(rows), tenant, id)
      ensures found <==> id in old(rows) && old(rows)[id].tenant == tenant && old(rows)[id].status == Pending
      ensures rows == if found then old(rows) - {id} else old(rows)
      ensures forall k | k in old(rows) && old(rows)[k].tenant != tenant :: k in rows && rows[k] == old(rows)[k]
    {
      found := id in rows && rows[id].tenant == tenant && rows[id].status.Pending?;
      if found {
        rows := rows - {id};
      }
    }

    method MarkDeferredActionDone(id: nat, ok: bool)
      requires Valid()
      modifies this`rows
      ensures Valid() && rows == Marked(old(rows), id, ok)
      ensures rows.Keys == old(rows).Keys
      ensures forall k | k in rows :: rows[k] ==
                if k != id then old(rows)[k] else old(rows)[k].(status := if ok then Executed else Failed)
    {
      if id in rows {
        rows := rows[id := rows[id].(status := if ok then Executed else Failed)];
      }
    }

    /** One undisturbed pass over the due rows: each is attempted once, in order; exactly the
        rows whose outcome could be stored change, and only in their status. */
    method ProcessPending(now: int, due: seq<nat>, succeeds: nat -> bool, stores: nat -> bool)
      returns (attempted: seq<nat>)
      requires Valid() && DueList(rows, now, due)
      modifies this`rows
      ensures Valid() && attempted == due && rows.Keys == old(rows).Keys
      ensures forall id | id in rows :: id in attempted <==> old(rows)[id].status == Pending && old(rows)[id].executeAt <= now
      ensures forall id | id in rows :: rows[id] ==
                if old(rows)[id].status == Pending && old(rows)[id].executeAt <= now && stores(id)
                then old(rows)[id].(status := if succeeds(id) then Executed else Failed)
                else old(rows)[id]
    {
      attempted := [];
      for i := 0 to |due|
        invariant attempted == due[..i]
        invariant Valid() && rows.Keys == old(rows).Keys
        invariant forall id | id in rows :: rows[id] ==
                    if id in due[..i] && stores(id)
                    then old(rows)[id].(status := if succeeds(id) then Executed else Failed)
                    else old(rows)[id]
      {
        var id := due[i];
        assert due[..i + 1] == due[..i] + [id];
        attempted := attempted + [id];
        if stores(id) {
          MarkDeferredActionDone(id, succeeds(id));
        }
      }
      assert due[..|due|] == due;
    }
  }

  // ---------------------------------------------------------------- interleaved steps

  datatype Attempt = Attempt(id: nat, at: int)

  datatype InFlight = Idle | Awaiting(id: nat, ok: bool)

  /** created and cancelled are histories.  `queue` is what the current pass has fetched and
      not yet attempted, `inFlight` the row attempted but not yet marked, with its outcome. */
  datatype World = World(
    now: int,
    rows: Table,
    created: seq<Row>,
    cancelled: map<nat, int>,
    queue: seq<nat>,
    passStart: int,
    inFlight: InFlight,
    attempts: seq<Attempt>,
    markedOk: multiset<nat>,
    markedLost: multiset<nat>)

  /** BeginPass carries the database's answer to the query; AttemptNext executes the head of
      the queue; Mark records its outcome, or fails to.  Restart: the scheduler dies inside a
      pass, and with it the queue and the outcome of a row in flight. */
  datatype Step =
    | Tick(elapsed: nat)
    | Create(row: Row)
    | Cancel(tenant: int, id: nat)
    | BeginPass(due: seq<nat>)
    | AttemptNext(ok: bool)
    | Mark(stored: bool)
    | Restart

  ghost function Next(w: World, step: Step): World {
    match step
    case Tick(elapsed) => w.(now := w.now + elapsed)
    case Create(row) =>
      var id := |w.created|;
      var added := row.(status := Pending);
      w.(rows := w.rows[id := added], created := w.created + [added])
    case Cancel(tenant, id) =>
      if Cancellable(w.rows, tenant, id)
      then w.(rows := Cancelled(w.rows, tenant, id), cancelled := w.cancelled[id := w.now])
      else w
    case BeginPass(due) =>
      if w.queue == [] && w.inFlight.Idle? && DueList(w.rows, w.now, due)
      then w.(queue := due, passStart := w.now)
      else w
    case AttemptNext(ok) =>
      if w.queue != [] && w.inFlight.Idle?
      then w.(queue := w.queue[1..], inFlight := Awaiting(w.queue[0], ok),
              attempts := w.attempts + [Attempt(w.queue[0], w.now)])
      else w
    case Mark(stored) =>
      if w.inFlight.Idle? then w
      else if stored
      then w.(rows := Marked(w.rows, w.inFlight.id, w.inFlight.ok), inFlight := Idle,
              markedOk := w.markedOk + multiset{w.inFlight.id})
      else w.(inFlight := Idle, markedLost := w.markedLost + multiset{w.inFlight.id})
    case Restart =>
      w.(queue := [], inFlight := Idle,
         markedLost := if w.inFlight.Idle? then w.markedLost else w.markedLost + multiset{w.inFlight.id})
  }

  ghost function Run(w: World, steps: seq<Step>): World
    decreases |steps|
  {
    if steps == [] then w else Run(Next(w, steps[0]), steps[1..])
  }

  function Start(now: int): World {
    World(now, map[], [], map[], [], now, Idle, [], multiset{}, multiset{})
  }

  function AttemptsOf(attempts: seq<Attempt>, id: nat): nat {
    if attempts == [] then 0
    else AttemptsOf(attempts[..|attempts| - 1], id) + (if attempts[|attempts| - 1].id == id then 1 else 0)
  }

  // ---------------------------------------------------------------- invariants

  /** A created row is in the table, where only its status may differ, or cancelled. */
  ghost predicate Placed(w: World, id: nat) {
    && (id in w.rows ==> id < |w.created| && w.rows[id] == w.created[id].(status := w.rows[id].status))
    && (id in w.cancelled ==> id < |w.created| && w.cancelled[id] <= w.now)
    && (id < |w.created| ==> (id in w.rows) != (id in w.cancelled))
  }

  /** A queued row is due, was not cancelled before the pass began, and is still pending
      unless cancelled since. */
  ghost predicate QueueFresh(w: World) {
    && w.passStart <= w.now
    && (forall i, j | 0 <= i < j < |w.queue| :: w.queue[i] != w.queue[j])
    && (forall i | 0 <= i < |w.queue| :: Fresh(w, w.queue[i]))
    && (w.inFlight.Awaiting? ==> Fresh(w, w.inFlight.id) && w.inFlight.id !in w.queue)
  }

  ghost predicate Fresh(w: World, id: nat) {
    && id < |w.created| && w.created[id].executeAt <= w.now
    && (id in w.cancelled ==> w.cancelled[id] >= w.passStart)
    && (id in w.rows ==> w.rows[id].status.Pending?)
    && w.markedOk[id] == 0
  }

  /** Attempts are conserved: each one is marked, lost its mark, or is in flight. */
  ghost predicate AttemptsAccounted(w: World, id: nat) {
    && AttemptsOf(w.attempts, id) ==
         w.markedOk[id] + w.markedLost[id] + (if w.inFlight.Awaiting? && w.inFlight.id == id then 1 else 0)
    && w.markedOk[id] <= 1
    && (id in w.rows ==> (w.rows[id].status.Pending? <==> w.markedOk[id] == 0))
  }

  ghost predicate AttemptTimely(w: World, a: Attempt) {
    && a.id < |w.created| && w.created[a.id].executeAt <= a.at <= w.now
  }

  ghost predicate Inv(w: World) {
    && (forall id: nat :: Placed(w, id))
    && QueueFresh(w)
    && (forall id: nat :: AttemptsAccounted(w, id))
    && (forall i | 0 <= i < |w.attempts| :: AttemptTimely(w, w.attempts[i]))
  }

  lemma StepKeepsPlaced(w: World, step: Step, id: nat)
    requires Placed(w, id)
    ensures Placed(Next(w, step), id)
  {
  }

  lemma StepKeepsFresh(w: World, step: Step, id: nat)
    requires Fresh(w, id) && Placed(w, id) && !step.BeginPass?
    requires step.Mark? && w.inFlight.Awaiting? ==> w.inFlight.id != id
    requires w.passStart <= w.now
    ensures Fresh(Next(w, step), id)
  {
  }

  lemma BeginPassIsFresh(w: World, due: seq<nat>)
    requires Inv(w) && w.queue == [] && w.inFlight.Idle? && DueList(w.rows, w.now, due)
    ensures QueueFresh(Next(w, BeginPass(due)))
  {
    var w' := Next(w, BeginPass(due));
    forall i | 0 <= i < |due|
      ensures Fresh(w', due[i])
    {
      assert Placed(w, due[i]) && AttemptsAccounted(w, due[i]);
    }
  }

  lemma StepKeepsQueue(w: World, step: Step)
    requires Inv(w)
    ensures QueueFresh(Next(w, step))
  {
    var w' := Next(w, step);
    if step.BeginPass? {
      if w' != w {
        BeginPassIsFresh(w, step.due);
      }
    } else {
      forall id | id in w.queue || (w.inFlight.Awaiting? && w.inFlight.id == id && !step.Mark?)
        ensures Fresh(w', id)
      {
        assert Placed(w, id);
        StepKeepsFresh(w, step, id);
      }
    }
  }

  lemma StepKeepsAccounts(w: World, step: Step, id: nat)
    requires Inv(w)
    ensures AttemptsAccounted(Next(w, step), id)
  {
    assert AttemptsAccounted(w, id);
    var w' := Next(w, step);
    if step.AttemptNext? && w' != w {
      assert w'.attempts[..|w'.attempts| - 1] == w.attempts;
    }
    if step.Create? && id == |w.created| {
      NeverAttempted(w, w.attempts, id);
    }
  }

  lemma {:induction false} NeverAttempted(w: World, attempts: seq<Attempt>, id: nat)
    requires forall i | 0 <= i < |attempts| :: AttemptTimely(w, attempts[i])
    requires id >= |w.created|
    ensures AttemptsOf(attempts, id) == 0
    decreases |attempts|
  {
    if attempts != [] {
      NeverAttempted(w, attempts[..|attempts| - 1], id);
    }
  }

  lemma StepKeepsInv(w: World, step: Step)
    requires Inv(w)
    ensures Inv(Next(w, step))
  {
    StepKeepsQueue(w, step);
    var w' := Next(w, step);
    forall id: nat
      ensures Placed(w', id)
    {
      StepKeepsPlaced(w, step, id);
    }
    forall id: nat
      ensures AttemptsAccounted(w', id)
    {
      StepKeepsAccounts(w, step, id);
    }
    forall i | 0 <= i < |w'.attempts|
      ensures AttemptTimely(w', w'.attempts[i])
    {
      if i < |w.attempts| {
        assert AttemptTimely(w, w.attempts[i]);
      } else {
        assert Fresh(w, w.queue[0]);
      }
    }
  }

  lemma {:induction false} RunKeepsInv(w: World, steps: seq<Step>)
    requires Inv(w)
    ensures Inv(Run(w, steps))
    decreases |steps|
  {
    if steps != [] {
      StepKeepsInv(w, steps[0]);
      RunKeepsInv(Next(w, steps[0]), steps[1..]);
    }
  }

  // ---------------------------------------------------------------- main results

  /** In every run: no attempt comes before its row's execute_at; each row ever created is
      exactly one of pending, executed, failed or cancelled; and a row is attempted at most
      once more often than its mark was lost. */
  lemma EveryRun(start: int, steps: seq<Step>)
    ensures var w := Run(Start(start), steps);
            && (forall i | 0 <= i < |w.attempts| ::
                  && w.attempts[i].id < |w.created|
                  && w.created[w.attempts[i].id].executeAt <= w.attempts[i].at)
            && (forall id: nat | id < |w.created| :: (id in w.rows) != (id in w.cancelled))
            && (forall id: nat :: AttemptsOf(w.attempts, id) <= 1 + w.markedLost[id])
  {
    RunKeepsInv(Start(start), steps);
    var w := Run(Start(start), steps);
    forall i | 0 <= i < |w.attempts|
      ensures AttemptTimely(w, w.attempts[i])
    {
    }
    forall id: nat
      ensures AttemptsOf(w.attempts, id) <= 1 + w.markedLost[id]
      ensures id < |w.created| ==> (id in w.rows) != (id in w.cancelled)
    {
      assert AttemptsAccounted(w, id) && Placed(w, id);
    }
  }

  /** No step of the run loses a mark: none fails to be stored, and the scheduler does not die
      between an attempt and its mark. */
  ghost predicate KeepsMarks(w: World, steps: seq<Step>)
    decreases |steps|
  {
    steps == [] ||
    (steps[0] != Mark(false) && (steps[0].Restart? ==> w.inFlight.Idle?) && KeepsMarks(Next(w, steps[0]), steps[1..]))
  }

  lemma {:induction false} NoMarkLost(w: World, steps: seq<Step>)
    requires KeepsMarks(w, steps)
    ensures Run(w, steps).markedLost == w.markedLost
    decreases |steps|
  {
    if steps != [] {
      NoMarkLost(Next(w, steps[0]), steps[1..]);
    }
  }

  /** If no mark is lost, every row is attempted at most once in the whole run, however often
      the scheduler dies between attempts. */
  lemma AttemptedAtMostOnce(start: int, steps: seq<Step>, id: nat)
    requires KeepsMarks(Start(start), steps)
    ensures AttemptsOf(Run(Start(start), steps).attempts, id) <= 1
  {
    EveryRun(start, steps);
    NoMarkLost(Start(start), steps);
  }

  /** The row has left the pending state: it is marked, or cancelled. */
  ghost predicate Settled(w: World, id: nat) {
    id in w.cancelled || (id in w.rows && !w.rows[id].status.Pending?)
  }

  lemma StepKeepsSettled(w: World, step: Step, id: nat)
    requires Inv(w) && Settled(w, id)
    ensures var w' := Next(w, step);
            && Settled(w', id)
            && (id in w.rows <==> id in w'.rows)
            && (id in w.rows ==> w'.rows[id] == w.rows[id])
  {
    assert AttemptsAccounted(w, id) && Placed(w, id);
  }

  /** From any reachable state, a row that is no longer pending keeps its state for good. */
  lemma {:induction false} SettledForGood(w: World, steps: seq<Step>, id: nat)
    requires Inv(w) && Settled(w, id)
    ensures var w' := Run(w, steps);
            && Settled(w', id)
            && (id in w.rows <==> id in w'.rows)
            && (id in w.rows ==> w'.rows[id] == w.rows[id])
    decreases |steps|
  {
    if steps != [] {
      StepKeepsInv(w, steps[0]);
      StepKeepsSettled(w, steps[0], id);
      SettledForGood(Next(w, steps[0]), steps[1..], id);
    }
  }

  lemma {:induction false} CreatedStays(w: World, steps: seq<Step>)
    ensures w.created <= Run(w, steps).created
    decreases |steps|
  {
    if steps != [] {
      CreatedStays(Next(w, steps[0]), steps[1..]);
    }
  }

  lemma {:induction false} CancelHasStep(w: World, steps: seq<Step>, id: nat) returns (i: nat)
    requires Inv(w) && id !in w.cancelled && id in Run(w, steps).cancelled
    ensures i < |steps| && id < |Run(w, steps).created|
    ensures steps[i] == Cancel(Run(w, steps).created[id].tenant, id)
    decreases |steps|
  {
    var w1 := Next(w, steps[0]);
    if id in w1.cancelled {
      i := 0;
      assert Placed(w, id);
      CreatedStays(w1, steps[1..]);
    } else {
      StepKeepsInv(w, steps[0]);
      var j := CancelHasStep(w1, steps[1..], id);
      i := j + 1;
    }
  }

  /** A row is cancelled only by a step of its own tenant. */
  lemma CancelledByItsTenant(start: int, steps: seq<Step>, id: nat) returns (i: nat)
    requires id in Run(Start(start), steps).cancelled
    ensures i < |steps| && id < |Run(Start(start), steps).created|
    ensures steps[i] == Cancel(Run(Start(start), steps).created[id].tenant, id)
  {
    i := CancelHasStep(Start(start), steps, id);
  }

  /** A pass that begins fetches every pending row whose time has come, and the rows it fetched
      are reached: whatever is due can be attempted. */
  lemma DueIsReached(w: World, due: seq<nat>, id: nat)
    requires w.queue == [] && w.inFlight.Idle? && DueList(w.rows, w.now, due)
    requires id in w.rows && w.rows[id].status == Pending && w.rows[id].executeAt <= w.now
    ensures exists more: seq<Step> :: AttemptsOf(Run(w, more).attempts, id) > AttemptsOf(w.attempts, id)
  {
    var w1 := Next(w, BeginPass(due));
    assert Due(w.rows[id], w.now);
    var n :| 0 <= n < |due| && due[n] == id;
    QueuedIsReached(w1, n);
    var more := [BeginPass(due)] + WorkOff(n);
    assert more[1..] == WorkOff(n);
    assert AttemptsOf(Run(w, more).attempts, id) > AttemptsOf(w.attempts, id);
  }

  lemma StepLeavesUnfetched(w: World, step: Step, id: nat)
    requires Placed(w, id) && id in w.cancelled && id !in w.queue
    ensures var w' := Next(w, step);
            && id in w'.cancelled && id !in w'.queue
            && AttemptsOf(w'.attempts, id) == AttemptsOf(w.attempts, id)
  {
    var w' := Next(w, step);
    if step.AttemptNext? && w' != w {
      assert w'.attempts[..|w'.attempts| - 1] == w.attempts;
      assert w.queue[0] != id;
    }
  }

  /** A cancelled row that no pass has fetched is never attempted again. */
  lemma {:induction false} UnfetchedStaysAway(w: World, steps: seq<Step>, id: nat)
    requires Placed(w, id) && id in w.cancelled && id !in w.queue
    ensures AttemptsOf(Run(w, steps).attempts, id) == AttemptsOf(w.attempts, id)
    decreases |steps|
  {
    if steps != [] {
      StepKeepsPlaced(w, steps[0], id);
      StepLeavesUnfetched(w, steps[0], id);
      UnfetchedStaysAway(Next(w, steps[0]), steps[1..], id);
    }
  }

  /** A row cancelled before a pass begins is not attempted in that pass or any later one. */
  lemma CancelledBeforePass(start: int, before: seq<Step>, after: seq<Step>, id: nat)
    requires var w := Run(Start(start), before); id in w.cancelled && w.queue == []
    ensures var w := Run(Start(start), before);
            AttemptsOf(Run(w, after).attempts, id) == AttemptsOf(w.attempts, id)
  {
    RunKeepsInv(Start(start), before);
    UnfetchedStaysAway(Run(Start(start), before), after, id);
  }

  /** Steps that work off the first `n` rows of the queue and attempt the next one. */
  function WorkOff(n: nat): seq<Step> {
    if n == 0 then [Mark(true), AttemptNext(true)] else [Mark(true), AttemptNext(true)] + WorkOff(n - 1)
  }

  lemma {:induction false} QueuedIsReached(w: World, n: nat)
    requires n < |w.queue|
    ensures AttemptsOf(Run(w, WorkOff(n)).attempts, w.queue[n]) > AttemptsOf(w.attempts, w.queue[n])
    decreases n
  {
    var id := w.queue[n];
    var steps := WorkOff(n);
    var w1 := Next(w, Mark(true));
    var w2 := Next(w1, AttemptNext(true));
    assert w2.attempts[..|w2.attempts| - 1] == w.attempts;
    assert Run(w, steps) == Run(w2, steps[2..]) by {
      assert steps[1..][1..] == steps[2..];
    }
    if n == 0 {
      assert steps[2..] == [];
    } else {
      assert steps[2..] == WorkOff(n - 1);
      QueuedIsReached(w2, n - 1);
    }
  }

  /** Cancelling inside a pass comes too late exactly for the rows that pass has fetched and
      not yet attempted: those, and no others, may still be executed. */
  lemma CancelTooLateIff(start: int, steps: seq<Step>, id: nat)
    requires id in Run(Start(start), steps).cancelled
    ensures var w := Run(Start(start), steps);
            (exists more: seq<Step> :: AttemptsOf(Run(w, more).attempts, id) > AttemptsOf(w.attempts, id))
            <==> id in w.queue
  {
    RunKeepsInv(Start(start), steps);
    var w := Run(Start(start), steps);
    if id in w.queue {
      var n :| 0 <= n < |w.queue| && w.queue[n] == id;
      QueuedIsReached(w, n);
      assert AttemptsOf(Run(w, WorkOff(n)).attempts, id) > AttemptsOf(w.attempts, id);
    } else {
      forall more: seq<Step>
        ensures !(AttemptsOf(Run(w, more).attempts, id) > AttemptsOf(w.attempts, id))
      {
        UnfetchedStaysAway(w, more, id);
      }
    }
  }
}
