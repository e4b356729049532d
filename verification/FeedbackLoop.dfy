/** Feedback-loop prevention between the executor and the learners
    (internal/imapactions/executor.go, internal/imaplistener/movedetect.go, internal/db/db.go,
    internal/sched/scheduler.go).

    The executor writes a rule_applied_moves row before it moves a message.  The listener
    reacts to the EXPUNGE that follows and must not learn a rule from the system's own move,
    while a sweeper deletes rows older than 24 hours.  A row may fail to be written; the
    lookups succeed, and one monotone clock stands for the database's NOW() and the sweeper's
    time.Now(). */
module FeedbackLoop {

  import opened Common

  /** 24 hours, in microseconds. */
  const DAY: int := 24 * 60 * 60 * 1_000_000

  datatype Row = Row(rule: int, account: int, messageId: string, folder: string, createdAt: int)

  type Table = map<nat, Row>

  /** IsRuleAppliedMove: some row of this account and message is younger than 24 hours. */
  ghost predicate Visible(row: Row, account: int, messageId: string, now: int) {
    row.account == account && row.messageId == messageId && row.createdAt > now - DAY
  }

  ghost predicate RuleApplied(rows: Table, account: int, messageId: string, now: int) {
    exists id | id in rows :: Visible(rows[id], account, messageId, now)
  }

  function Swept(rows: Table, cutoff: int): Table {
    map id | id in rows && !(rows[id].createdAt < cutoff) :: rows[id]
  }

  predicate RecordsMove(action: string, messageId: string) {
    (action == "move" || action == "archive") && messageId != ""
  }

  /** The actions the executor's switch knows. */
  predicate KnownAction(action: string) {
    action in {"delete", "move", "archive", "flag", "notify", "keep"}
  }

  function Destination(action: string, target: string): string {
    if action == "archive" then "Archive" else target
  }

  // ---------------------------------------------------------------- table and executor

  lemma SubsetIsSmaller(a: set<nat>, b: set<nat>)
    requires a <= b
    ensures |a| <= |b|
  {
    assert b == a + (b - a);
  }

  class MoveLedger {
    var rows: Table
    var nextId: nat

    ghost predicate Valid()
      reads this
    {
      forall id | id in rows :: id < nextId
    }

    constructor ()
      ensures Valid() && rows == map[]
    {
      rows, nextId := map[], 0;
    }

    method RecordRuleAppliedMove(rule: int, account: int, messageId: string, folder: string, now: int)
      requires Valid()
      modifies this
      ensures Valid()
      ensures old(nextId) !in old(rows)
      ensures rows == old(rows)[old(nextId) := Row(rule, account, messageId, folder, now)]
    {
      rows := rows[nextId := Row(rule, account, messageId, folder, now)];
      nextId := nextId + 1;
    }

    method IsRuleAppliedMove(account: int, messageId: string, now: int) returns (found: bool)
      ensures found <==> RuleApplied(rows, account, messageId, now)
      ensures found <==> exists id | id in rows :: rows[id].account == account && rows[id].messageId == messageId
                           && rows[id].createdAt > now - 24 * 60 * 60 * 1_000_000
    {
      found := false;
      var todo := rows.Keys;
      while todo != {} && !found
        invariant todo <= rows.Keys
        invariant found ==> RuleApplied(rows, account, messageId, now)
        invariant !found ==> forall id | id in rows.Keys - todo :: !Visible(rows[id], account, messageId, now)
        decreases |todo|
      {
        var id :| id in todo;
        todo := todo - {id};
        var row := rows[id];
        if row.account == account && row.messageId == messageId && row.createdAt > now - DAY {
          assert Visible(rows[id], account, messageId, now);
          found := true;
        }
      }
    }

    /** Deletes the rows older than 24 hours; `now` is read before the statement runs. */
    method CleanOldRuleAppliedMoves(now: int) returns (deleted: nat)
      requires Valid()
      modifies this`rows
      ensures Valid() && rows == Swept(old(rows), now - DAY)
      ensures forall id :: id in rows <==> id in old(rows) && old(rows)[id].createdAt >= now - 24 * 60 * 60 * 1_000_000
      ensures forall id | id in rows :: rows[id] == old(rows)[id]
      ensures deleted == |old(rows).Keys| - |rows.Keys|
    {
      var kept := Swept(rows, now - DAY);
      SubsetIsSmaller(kept.Keys, rows.Keys);
      deleted := |rows.Keys| - |kept.Keys|;
      rows := kept;
    }
  }

  /** What the executor does, in order. */
  datatype Effect =
    | RowWritten(messageId: string, folder: string)
    | FolderCreated(folder: string)
    | Flagged(uid: nat, flag: string)
    | MoveIssued(uid: nat, folder: string)
    | Expunged(uid: nat)
    | ExpungedAllDeleted
    | Notified(text: string)

  datatype Outcome = Done | UnknownAction(action: string) | ServerError

  /** Answers of the database, the IMAP server and the notifier to the commands of one call;
      `connected` covers connecting, selecting INBOX and searching it. */
  datatype Answers = Answers(
    rowOk: bool, connected: bool, createOk: bool, flagOk: bool, commandOk: bool,
    expungeOk: bool, fallbackOk: bool, notifierOn: bool)

  const DEFAULT_NOTICE: string := "\U{1F4E7} Email notification triggered"

  /** flagNameToIMAP; `name` decides in lower case, and an unknown one is kept as written. */
  function ImapFlag(name: string, lower: string -> string): string {
    var n := lower(name);
    if n in ["flagged", "starred"] then "\\Flagged"
    else if n in ["seen", "read"] then "\\Seen"
    else if n in ["answered", "replied"] then "\\Answered"
    else if n == "draft" then "\\Draft"
    else if n == "deleted" then "\\Deleted"
    else if n in ["junk", "spam"] then "$Junk"
    else if n == "notjunk" then "$NotJunk"
    else name
  }

  /** The commands of a move: creating the folder and setting the flag may fail. */
  function MoveEffects(uid: nat, folder: string, answers: Answers): seq<Effect> {
    (if answers.createOk then [FolderCreated(folder)] else [])
    + (if answers.flagOk then [Flagged(uid, "$RuleApplied")] else [])
    + (if answers.commandOk then [MoveIssued(uid, folder)] else [])
  }

  /** The commands of a delete: a server without UID EXPUNGE is asked to expunge everything
      that is marked as deleted. */
  function DeleteEffects(uid: nat, answers: Answers): seq<Effect> {
    if !answers.commandOk then []
    else [Flagged(uid, "\\Deleted")]
         + (if answers.expungeOk then [Expunged(uid)] else if answers.fallbackOk then [ExpungedAllDeleted] else [])
  }

  /** The effects of one action on one message. */
  function EffectsOf(uid: nat, action: string, target: string, answers: Answers, lower: string -> string): seq<Effect> {
    if !answers.connected then []
    else if action in {"move", "archive"} then MoveEffects(uid, Destination(action, target), answers)
    else if action == "delete" then DeleteEffects(uid, answers)
    else if action == "flag" && answers.commandOk then [Flagged(uid, ImapFlag(target, lower))]
    else if action == "notify" && answers.notifierOn && answers.commandOk then
      [Notified(if target == "" then DEFAULT_NOTICE else target)]
    else []
  }

  /** An unknown action is noticed only once connected. */
  function OutcomeOf(action: string, answers: Answers): Outcome {
    if !answers.connected then ServerError
    else if !KnownAction(action) then UnknownAction(action)
    else if action == "keep" || (action == "notify" && !answers.notifierOn) then Done
    else if !answers.commandOk then ServerError
    else if action == "delete" && !answers.expungeOk && !answers.fallbackOk then ServerError
    else Done
  }

  /** The row is stored unless the write fails, which does not stop the action. */
  predicate RowStored(action: string, messageId: string, answers: Answers) {
    RecordsMove(action, messageId) && answers.rowOk
  }

  function RowEffect(action: string, messageId: string, target: string, answers: Answers): seq<Effect> {
    if RowStored(action, messageId, answers) then [RowWritten(messageId, Destination(action, target))] else []
  }

  /** What each action does, and how it ends: the folder of an archive is "Archive", a move
      goes to its target, a delete marks and expunges, and nothing else touches the mailbox. */
  lemma EffectsByAction(uid: nat, action: string, target: string, answers: Answers, lower: string -> string)
    ensures var effects := EffectsOf(uid, action, target, answers, lower);
            var r := OutcomeOf(action, answers);
            && (!answers.connected ==> effects == [] && r == ServerError)
            && (answers.connected && action in {"move", "archive"} ==>
                  var folder := if action == "archive" then "Archive" else target;
                  && effects == (if answers.createOk then [FolderCreated(folder)] else [])
                                + (if answers.flagOk then [Flagged(uid, "$RuleApplied")] else [])
                                + (if answers.commandOk then [MoveIssued(uid, folder)] else [])
                  && (r == Done <==> answers.commandOk))
            && (answers.connected && action == "delete" ==>
                  && effects == (if !answers.commandOk then []
                                 else if answers.expungeOk then [Flagged(uid, "\\Deleted"), Expunged(uid)]
                                 else if answers.fallbackOk then [Flagged(uid, "\\Deleted"), ExpungedAllDeleted]
                                 else [Flagged(uid, "\\Deleted")])
                  && (r == Done <==> answers.commandOk && (answers.expungeOk || answers.fallbackOk)))
            && (answers.connected && action == "flag" ==>
                  && effects == (if answers.commandOk then [Flagged(uid, ImapFlag(target, lower))] else [])
                  && (r == Done <==> answers.commandOk))
            && (answers.connected && action == "notify" ==>
                  && effects == (if answers.notifierOn && answers.commandOk
                                 then [Notified(if target == "" then DEFAULT_NOTICE else target)] else [])
                  && (r == Done <==> !answers.notifierOn || answers.commandOk))
            && (answers.connected && action == "keep" ==> effects == [] && r == Done)
            && (answers.connected && action !in {"move", "archive", "delete", "flag", "notify", "keep"} ==>
                  effects == [] && r == UnknownAction(action))
  {
  }

  /** The names a rule may use for the flags of the mailbox; any other name is a keyword. */
  lemma FlagNames(name: string, lower: string -> string)
    ensures lower(name) in ["flagged", "starred"] ==> ImapFlag(name, lower) == "\\Flagged"
    ensures lower(name) in ["seen", "read"] ==> ImapFlag(name, lower) == "\\Seen"
    ensures lower(name) in ["answered", "replied"] ==> ImapFlag(name, lower) == "\\Answered"
    ensures lower(name) == "draft" ==> ImapFlag(name, lower) == "\\Draft"
    ensures lower(name) == "deleted" ==> ImapFlag(name, lower) == "\\Deleted"
    ensures lower(name) in ["junk", "spam"] ==> ImapFlag(name, lower) == "$Junk"
    ensures lower(name) == "notjunk" ==> ImapFlag(name, lower) == "$NotJunk"
    ensures var names := ["flagged", "starred", "seen", "read", "answered", "replied", "draft", "deleted", "junk", "spam", "notjunk"];
            lower(name) !in names ==> ImapFlag(name, lower) == name
  {
  }

  /** A message in INBOX. */
  datatype Mail = Mail(uid: nat, messageId: string)

  /** The server's answer to a search for a Message-ID.  IMAP matches a header by substring
      (section 6.4.4 of RFC 3501), so how the server matches is a parameter. */
  function Hits(inbox: seq<Mail>, messageId: string, hit: (string, string) -> bool): seq<Mail> {
    if inbox == [] then []
    else (if hit(inbox[0].messageId, messageId) then [inbox[0]] else []) + Hits(inbox[1..], messageId, hit)
  }

  /** No message with another Message-ID that the server also matches stands before the
      first one that has this Message-ID. */
  predicate NoDecoyFirst(inbox: seq<Mail>, messageId: string, hit: (string, string) -> bool) {
    inbox == [] || inbox[0].messageId == messageId ||
    (!hit(inbox[0].messageId, messageId) && NoDecoyFirst(inbox[1..], messageId, hit))
  }

  /** Acting by Message-ID acts on a message that has it exactly when no decoy stands first. */
  lemma {:induction false} ActsOnOwnMessageIff(inbox: seq<Mail>, messageId: string, hit: (string, string) -> bool)
    requires hit(messageId, messageId)
    ensures Hits(inbox, messageId, hit) == [] || Hits(inbox, messageId, hit)[0].messageId == messageId
            <==> NoDecoyFirst(inbox, messageId, hit)
  {
    if inbox != [] && !hit(inbox[0].messageId, messageId) {
      ActsOnOwnMessageIff(inbox[1..], messageId, hit);
    }
  }

  class Executor {
    const ledger: MoveLedger
    const lower: string -> string
    var effects: seq<Effect>

    constructor (ledger: MoveLedger, lower: string -> string)
      ensures this.ledger == ledger && this.lower == lower && effects == []
    {
      this.ledger, this.lower := ledger, lower;
      effects := [];
    }

    /** executeMove: create the folder, set the flag (failures are tolerated), then move. */
    method ExecuteMove(uid: nat, folder: string, answers: Answers) returns (r: Outcome)
      modifies this
      ensures effects == old(effects) + MoveEffects(uid, folder, answers)
      ensures r == if answers.commandOk then Done else ServerError
    {
      if answers.createOk {
        effects := effects + [FolderCreated(folder)];
      }
      if answers.flagOk {
        effects := effects + [Flagged(uid, "$RuleApplied")];
      }
      if !answers.commandOk {
        return ServerError;
      }
      effects := effects + [MoveIssued(uid, folder)];
      r := Done;
    }

    method ExecuteDelete(uid: nat, answers: Answers) returns (r: Outcome)
      modifies this
      ensures effects == old(effects) + DeleteEffects(uid, answers)
      ensures r.Done? <==> answers.commandOk && (answers.expungeOk || answers.fallbackOk)
      ensures r.Done? || r.ServerError?
    {
      if !answers.commandOk {
        return ServerError;
      }
      effects := effects + [Flagged(uid, "\\Deleted")];
      if !answers.expungeOk {
        if !answers.fallbackOk {
          return ServerError;
        }
        effects := effects + [ExpungedAllDeleted];
        return Done;
      }
      effects := effects + [Expunged(uid)];
      r := Done;
    }

    /** Each action issues its own commands; moves are issued for move and archive only. */
    method ExecuteAction(uid: nat, action: string, target: string, answers: Answers) returns (r: Outcome)
      modifies this
      ensures effects == old(effects) + EffectsOf(uid, action, target, answers, lower)
      ensures r == OutcomeOf(action, answers)
      ensures forall i | |old(effects)| <= i < |effects| && effects[i].MoveIssued? ::
                && (action == "move" || action == "archive")
                && effects[i] == MoveIssued(uid, Destination(action, target))
    {
      if !answers.connected {
        return ServerError;
      }
      match action {
        case "delete" => r := ExecuteDelete(uid, answers);
        case "move" => r := ExecuteMove(uid, target, answers);
        case "archive" => r := ExecuteMove(uid, "Archive", answers);
        case "flag" =>
          if !answers.commandOk {
            return ServerError;
          }
          effects := effects + [Flagged(uid, ImapFlag(target, lower))];
          r := Done;
        case "notify" =>
          if !answers.notifierOn {
            return Done;
          }
          var text := target;
          if text == "" {
            text := DEFAULT_NOTICE;
          }
          if !answers.commandOk {
            return ServerError;
          }
          effects := effects + [Notified(text)];
          r := Done;
        case "keep" => r := Done;
        case _ => r := UnknownAction(action);
      }
    }

    /** The part both ForRule methods share: the row comes first; a failed write is passed
        over. */
    method RecordFirst(account: int, action: string, target: string, rule: int, messageId: string,
                       now: int, answers: Answers)
      requires ledger.Valid()
      modifies this, ledger
      ensures ledger.Valid()
      ensures effects == old(effects) + RowEffect(action, messageId, target, answers)
      ensures !RowStored(action, messageId, answers) ==> ledger.rows == old(ledger.rows)
      ensures RowStored(action, messageId, answers) ==>
                && RuleApplied(ledger.rows, account, messageId, now)
                && ledger.rows == old(ledger.rows)[old(ledger.nextId) :=
                                    Row(rule, account, messageId, Destination(action, target), now)]
      ensures ledger.rows ==
                if action in {"move", "archive"} && messageId != "" && answers.rowOk
                then old(ledger.rows)[old(ledger.nextId) :=
                       Row(rule, account, messageId, if action == "archive" then "Archive" else target, now)]
                else old(ledger.rows)
    {
      if (action == "move" || action == "archive") && messageId != "" {
        var folder := target;
        if action == "archive" {
          folder := "Archive";
        }
        if answers.rowOk {
          ghost var id := ledger.nextId;
          ledger.RecordRuleAppliedMove(rule, account, messageId, folder, now);
          assert Visible(ledger.rows[id], account, messageId, now);
          effects := effects + [RowWritten(messageId, folder)];
        }
      }
    }

    /** Every move of a message that has a Message-ID comes after the row that names this
        message and this folder, unless the row could not be written; a row is written for
        move and archive only. */
    method ExecuteActionForRule(account: int, uid: nat, action: string, target: string,
                                rule: int, messageId: string, now: int, answers: Answers)
      returns (r: Outcome)
      requires ledger.Valid()
      modifies this, ledger
      ensures ledger.Valid()
      ensures effects == old(effects) + RowEffect(action, messageId, target, answers)
                         + EffectsOf(uid, action, target, answers, lower)
      ensures r == OutcomeOf(action, answers)
      ensures messageId != "" && answers.rowOk ==>
                forall i | |old(effects)| <= i < |effects| && effects[i].MoveIssued? ::
                  && |old(effects)| < i
                  && effects[|old(effects)|] == RowWritten(messageId, effects[i].folder)
                  && RuleApplied(ledger.rows, account, messageId, now)
      ensures !RowStored(action, messageId, answers) ==> ledger.rows == old(ledger.rows)
      ensures RowStored(action, messageId, answers) ==>
                ledger.rows == old(ledger.rows)[old(ledger.nextId) :=
                                 Row(rule, account, messageId, Destination(action, target), now)]
    {
      RecordFirst(account, action, target, rule, messageId, now, answers);
      r := ExecuteAction(uid, action, target, answers);
    }

    /** Acts on the first message the server's search reports; without one nothing happens. */
    method ExecuteActionByMessageID(inbox: seq<Mail>, messageId: string, action: string, target: string,
                                    hit: (string, string) -> bool, answers: Answers)
      returns (r: Outcome)
      modifies this
      ensures var hits := Hits(inbox, messageId, hit);
              && effects == old(effects) + (if hits == [] then []
                                            else EffectsOf(hits[0].uid, action, target, answers, lower))
              && r == if hits == [] && answers.connected then Done else OutcomeOf(action, answers)
      ensures forall i | |old(effects)| <= i < |effects| && effects[i].MoveIssued? ::
                && (action == "move" || action == "archive") && Hits(inbox, messageId, hit) != []
                && effects[i] == MoveIssued(Hits(inbox, messageId, hit)[0].uid, Destination(action, target))
    {
      if !answers.connected {
        return ServerError;
      }
      var found := Hits(inbox, messageId, hit);
      if |found| == 0 {
        return Done;
      }
      r := ExecuteAction(found[0].uid, action, target, answers);
    }

    /** The scheduler's way: the row names the Message-ID searched for, and every move comes
        after it, unless it could not be written.  The message that moves is covered by that
        row, under its own Message-ID, unless a decoy stands first in INBOX. */
    method ExecuteActionByMessageIDForRule(account: int, inbox: seq<Mail>, messageId: string, action: string,
                                           target: string, rule: int, now: int,
                                           hit: (string, string) -> bool, answers: Answers)
      returns (r: Outcome)
      requires ledger.Valid() && hit(messageId, messageId)
      modifies this, ledger
      ensures ledger.Valid() && old(effects) <= effects
      ensures !RowStored(action, messageId, answers) ==> ledger.rows == old(ledger.rows)
      ensures RowStored(action, messageId, answers) ==>
                ledger.rows == old(ledger.rows)[old(ledger.nextId) :=
                                 Row(rule, account, messageId, Destination(action, target), now)]
      ensures forall i | |old(effects)| <= i < |effects| && effects[i].MoveIssued? ::
                Hits(inbox, messageId, hit) != [] && effects[i].uid == Hits(inbox, messageId, hit)[0].uid
      ensures messageId != "" && answers.rowOk ==>
                forall i | |old(effects)| <= i < |effects| && effects[i].MoveIssued? ::
                  && |old(effects)| < i
                  && effects[|old(effects)|] == RowWritten(messageId, effects[i].folder)
                  && (NoDecoyFirst(inbox, messageId, hit) ==>
                        RuleApplied(ledger.rows, account, Hits(inbox, messageId, hit)[0].messageId, now))
    {
      ActsOnOwnMessageIff(inbox, messageId, hit);
      RecordFirst(account, action, target, rule, messageId, now, answers);
      r := ExecuteActionByMessageID(inbox, messageId, action, target, hit, answers);
    }
  }

  // ---------------------------------------------------------------- interleaved steps

  /** Who took the message out of INBOX; a rule's move carries when it was started, and
      whether a row under the message's own Message-ID was stored then. */
  datatype Cause = ByRule(recordedAt: int, covered: bool) | ByUser

  /** The consumer acts on new mail and marks it as processed.  The scheduler acts on deferred
      rows, and the handler that runs one rule over a mailbox acts on what it finds there;
      neither touches processed_messages. */
  datatype Actor = Consumer | Scheduler | RunRule

  datatype Vanished = Vanished(account: int, uid: nat, messageId: string, folder: string, cause: Cause)

  datatype Job = Job(actor: Actor, account: int, uid: nat, messageId: string, action: string, target: string,
                     recordedAt: int, covered: bool, moved: bool)

  type Key = (int, nat)

  /** One write to processed_messages. */
  datatype MarkRecord = MarkRecord(key: Key, action: string)

  datatype Learned = Learned(message: Vanished, checkedAt: int)

  /** `history` holds every row ever written and is never cut: the table without a sweeper.
      `marks` holds every write to processed_messages, also those an existing row turned away. */
  datatype World = World(
    now: int,
    rows: Table,
    history: seq<Row>,
    jobs: seq<Job>,
    processed: map<Key, string>,
    marks: seq<MarkRecord>,
    vanished: seq<Vanished>,
    learned: seq<Learned>,
    cutoff: int)

  /** Folder facts the listener consults for one message before it looks at the tables. */
  datatype Facts = Facts(found: bool, skipFolder: bool, exempt: bool, similarRule: bool)

  /** Record: an actor starts on a message; the row that is due may fail to be stored.  The
      scheduler and the handler record the Message-ID they search for, `rowId`, which a
      substring search may match on another message.  Move: the recorded job's IMAP move.  Mark: the consumer's
      write to processed_messages after its action.
      Check: the listener's verdict on one vanished message.
      SweepCutoff and SweepDelete: the sweeper reads the clock, then deletes. */
  datatype Step =
    | Tick(elapsed: nat)
    | Record(actor: Actor, rule: int, account: int, uid: nat, messageId: string, rowId: string,
             action: string, target: string, stored: bool)
    | Move(job: nat)
    | Mark(job: nat)
    | UserMove(account: int, uid: nat, messageId: string, folder: string)
    | Check(index: nat, facts: Facts)
    | SweepCutoff
    | SweepDelete

  predicate TakesAway(action: string) {
    action == "move" || action == "archive"
  }

  function KeyOf(job: Job): Key {
    (job.account, job.uid)
  }

  /** The consumer knows the Message-ID of the message it acts on. */
  function RowId(step: Step): string
    requires step.Record?
  {
    if step.actor == Consumer then step.messageId else step.rowId
  }

  ghost predicate MovedByRule(w: World, v: Vanished) {
    (v.account, v.uid) in w.processed && w.processed[(v.account, v.uid)] == "move"
  }

  /** The listener's decision on a vanished message. */
  ghost predicate Learns(w: World, v: Vanished, facts: Facts) {
    && v.messageId != ""
    && facts.found && !facts.skipFolder && !facts.exempt
    && !RuleApplied(w.rows, v.account, v.messageId, w.now)
    && !MovedByRule(w, v)
    && !facts.similarRule
  }

  ghost function Next(w: World, step: Step): World {
    match step
    case Tick(elapsed) => w.(now := w.now + elapsed)
    case Record(actor, rule, account, uid, messageId, _, action, target, stored) =>
      var written := stored && RecordsMove(action, RowId(step));
      var job := Job(actor, account, uid, messageId, action, target, w.now,
                     written && RowId(step) == messageId, false);
      var started := w.(jobs := w.jobs + [job]);
      if written then
        var row := Row(rule, account, RowId(step), Destination(action, target), w.now);
        started.(rows := w.rows[|w.history| := row], history := w.history + [row])
      else
        started
    case Move(j) =>
      if j < |w.jobs| && !w.jobs[j].moved && TakesAway(w.jobs[j].action) then
        var job := w.jobs[j];
        var v := Vanished(job.account, job.uid, job.messageId, Destination(job.action, job.target),
                          ByRule(job.recordedAt, job.covered));
        w.(jobs := w.jobs[j := job.(moved := true)], vanished := w.vanished + [v])
      else w
    case Mark(j) =>
      if j < |w.jobs| && w.jobs[j].actor == Consumer && (w.jobs[j].moved || !TakesAway(w.jobs[j].action)) then
        var key := KeyOf(w.jobs[j]);
        w.(processed := if key in w.processed then w.processed else w.processed[key := w.jobs[j].action],
           marks := w.marks + [MarkRecord(key, w.jobs[j].action)])
      else w
    case UserMove(account, uid, messageId, folder) =>
      w.(vanished := w.vanished + [Vanished(account, uid, messageId, folder, ByUser)])
    case Check(i, facts) =>
      if i < |w.vanished| && Learns(w, w.vanished[i], facts)
      then w.(learned := w.learned + [Learned(w.vanished[i], w.now)])
      else w
    case SweepCutoff => w.(cutoff := w.now - DAY)
    case SweepDelete => w.(rows := Swept(w.rows, w.cutoff))
  }

  ghost function Run(w: World, steps: seq<Step>): World
    decreases |steps|
  {
    if steps == [] then w else Run(Next(w, steps[0]), steps[1..])
  }

  function Start(now: int): World {
    World(now, map[], [], [], map[], [], [], [], now - DAY)
  }

  // ---------------------------------------------------------------- the invariant

  /** The table is the history minus rows too old to be seen now or later. */
  ghost predicate SweptSafely(w: World) {
    && w.cutoff <= w.now - DAY
    && (forall i | 0 <= i < |w.history| :: w.history[i].createdAt <= w.now)
    && (forall id | id in w.rows :: id < |w.history| && w.rows[id] == w.history[id])
    && (forall i | 0 <= i < |w.history| && w.history[i].createdAt > w.now - DAY :: i in w.rows)
  }

  ghost predicate HasRow(history: seq<Row>, account: int, messageId: string, folder: string, at: int) {
    exists i | 0 <= i < |history| ::
      && history[i].account == account && history[i].messageId == messageId
      && history[i].folder == folder && history[i].createdAt == at
  }

  ghost predicate JobRecorded(history: seq<Row>, job: Job) {
    job.covered ==>
      HasRow(history, job.account, job.messageId, Destination(job.action, job.target), job.recordedAt)
  }

  /** A covered move always has its row in the history. */
  ghost predicate MoveRecorded(history: seq<Row>, v: Vanished) {
    v.cause.ByRule? && v.cause.covered ==>
      HasRow(history, v.account, v.messageId, v.folder, v.cause.recordedAt)
  }

  predicate Covered(v: Vanished) {
    v.cause.ByRule? && v.cause.covered
  }

  ghost predicate NothingLearnedEarly(w: World) {
    forall k | 0 <= k < |w.learned| && Covered(w.learned[k].message) ::
      w.learned[k].checkedAt >= w.learned[k].message.cause.recordedAt + DAY
  }

  ghost predicate Inv(w: World) {
    && SweptSafely(w)
    && (forall j | 0 <= j < |w.jobs| :: JobRecorded(w.history, w.jobs[j]))
    && (forall i | 0 <= i < |w.vanished| :: MoveRecorded(w.history, w.vanished[i]))
    && NothingLearnedEarly(w)
  }

  lemma HistoryGrows(history: seq<Row>, row: Row, account: int, messageId: string, folder: string, at: int)
    ensures HasRow(history, account, messageId, folder, at) ==>
              HasRow(history + [row], account, messageId, folder, at)
    ensures HasRow(history + [row], row.account, row.messageId, row.folder, row.createdAt)
  {
    assert (history + [row])[|history|] == row;
    if HasRow(history, account, messageId, folder, at) {
      var i :| 0 <= i < |history| && history[i].account == account && history[i].messageId == messageId
               && history[i].folder == folder && history[i].createdAt == at;
      assert (history + [row])[i] == history[i];
    }
  }

  /** What the check sees in the table is what it would see in the history. */
  lemma SweepIsInvisible(w: World, account: int, messageId: string)
    requires SweptSafely(w)
    ensures RuleApplied(w.rows, account, messageId, w.now) <==>
            exists i | 0 <= i < |w.history| :: Visible(w.history[i], account, messageId, w.now)
  {
    if i :| 0 <= i < |w.history| && Visible(w.history[i], account, messageId, w.now) {
      assert i in w.rows;
    }
  }

  lemma RecordKeepsInv(w: World, step: Step)
    requires Inv(w) && step.Record? && step.stored && RecordsMove(step.action, RowId(step))
    ensures Inv(Next(w, step))
  {
    var w' := Next(w, step);
    var row := w'.history[|w.history|];
    forall j | 0 <= j < |w'.jobs|
      ensures JobRecorded(w'.history, w'.jobs[j])
    {
      var job := w'.jobs[j];
      HistoryGrows(w.history, row, job.account, job.messageId, Destination(job.action, job.target), job.recordedAt);
    }
    forall i | 0 <= i < |w'.vanished|
      ensures MoveRecorded(w'.history, w'.vanished[i])
    {
      var v := w.vanished[i];
      if v.cause.ByRule? {
        HistoryGrows(w.history, row, v.account, v.messageId, v.folder, v.cause.recordedAt);
      }
    }
  }

  lemma CheckStaysQuiet(w: World, index: nat, facts: Facts)
    requires Inv(w)
    ensures NothingLearnedEarly(Next(w, Check(index, facts)))
  {
    if index < |w.vanished| && Learns(w, w.vanished[index], facts) && Covered(w.vanished[index]) {
      var v := w.vanished[index];
      SweepIsInvisible(w, v.account, v.messageId);
      var i :| 0 <= i < |w.history| && w.history[i].account == v.account
               && w.history[i].messageId == v.messageId
               && w.history[i].folder == v.folder && w.history[i].createdAt == v.cause.recordedAt;
      assert !Visible(w.history[i], v.account, v.messageId, w.now);
    }
  }

  lemma StepKeepsInv(w: World, step: Step)
    requires Inv(w)
    ensures Inv(Next(w, step))
  {
    match step
    case Record(_, _, _, _, _, _, action, _, stored) =>
      if stored && RecordsMove(action, RowId(step)) {
        RecordKeepsInv(w, step);
      }
    case Check(i, facts) => CheckStaysQuiet(w, i, facts);
    case Move(j) =>
      if j < |w.jobs| {
        assert JobRecorded(w.history, w.jobs[j]);
      }
    case _ =>
  }

  lemma {:induction false} RunKeepsInv(w: World, steps: seq<Step>)
    requires Inv(w)
    ensures Inv(Run(w, steps))
    decreases |steps|
  {
    if steps != [] {
      StepKeepsInv(w, steps[0]);
      RunKeepsInv(Next(w, steps[0]), steps[1..]);
    }
  }

  // ---------------------------------------------------------------- main results

  /** In every interleaving, a rule the listener learned from a rule-driven move whose row was
      stored under its own Message-ID was checked 24 hours or more after that. */
  lemma NoFeedback(start: int, steps: seq<Step>, k: nat)
    requires k < |Run(Start(start), steps).learned|
    ensures var l := Run(Start(start), steps).learned[k];
            l.message.cause.ByRule? && l.message.cause.covered ==>
              l.checkedAt >= l.message.cause.recordedAt + 24 * 60 * 60 * 1_000_000
  {
    RunKeepsInv(Start(start), steps);
  }

  /** In every reachable state the listener learns from a vanished message exactly when the
      folder facts allow it, no similar rule exists, processed_messages does not say "move",
      and no row of this message, swept or not, was written in the last 24 hours. */
  lemma LearnsExactlyByHistory(start: int, steps: seq<Step>, i: nat, facts: Facts)
    requires i < |Run(Start(start), steps).vanished|
    ensures var w := Run(Start(start), steps);
            var v := w.vanished[i];
            Next(w, Check(i, facts)).learned != w.learned <==>
              && v.messageId != ""
              && facts.found && !facts.skipFolder && !facts.exempt && !facts.similarRule
              && !((v.account, v.uid) in w.processed && w.processed[(v.account, v.uid)] == "move")
              && forall h | 0 <= h < |w.history| ::
                   !(w.history[h].account == v.account && w.history[h].messageId == v.messageId
                     && w.history[h].createdAt > w.now - 24 * 60 * 60 * 1_000_000)
  {
    RunKeepsInv(Start(start), steps);
    var w := Run(Start(start), steps);
    SweepIsInvisible(w, w.vanished[i].account, w.vanished[i].messageId);
  }

  function WithoutSweeps(steps: seq<Step>): seq<Step> {
    if steps == [] then []
    else if steps[0].SweepCutoff? || steps[0].SweepDelete? then WithoutSweeps(steps[1..])
    else [steps[0]] + WithoutSweeps(steps[1..])
  }

  ghost predicate SameButRows(a: World, b: World) {
    b == a.(rows := b.rows, cutoff := b.cutoff)
  }

  lemma VerdictIsTheSame(a: World, b: World, v: Vanished, facts: Facts)
    requires SweptSafely(a) && SweptSafely(b) && SameButRows(a, b)
    ensures Learns(a, v, facts) <==> Learns(b, v, facts)
  {
    SweepIsInvisible(a, v.account, v.messageId);
    SweepIsInvisible(b, v.account, v.messageId);
  }

  lemma StepStaysSame(a: World, b: World, step: Step)
    requires Inv(a) && Inv(b) && SameButRows(a, b)
    requires !step.SweepCutoff? && !step.SweepDelete?
    ensures SameButRows(Next(a, step), Next(b, step))
  {
    if step.Check? && step.index < |a.vanished| {
      VerdictIsTheSame(a, b, a.vanished[step.index], step.facts);
    }
  }

  lemma {:induction false} SweepsStaySame(a: World, b: World, steps: seq<Step>)
    requires Inv(a) && Inv(b) && SameButRows(a, b)
    ensures SameButRows(Run(a, steps), Run(b, WithoutSweeps(steps)))
    decreases |steps|
  {
    if steps != [] {
      StepKeepsInv(a, steps[0]);
      StepKeepsInv(b, steps[0]);
      if steps[0].SweepCutoff? || steps[0].SweepDelete? {
        SweepsStaySame(Next(a, steps[0]), b, steps[1..]);
      } else {
        StepStaysSame(a, b, steps[0]);
        SweepsStaySame(Next(a, steps[0]), Next(b, steps[0]), steps[1..]);
        var rest := WithoutSweeps(steps[1..]);
        assert WithoutSweeps(steps)[1..] == rest;
      }
    }
  }

  /** The sweeper changes nothing but the table: erasing every sweep from a run leaves the
      learned rules, and everything else outside the table, as they were. */
  lemma SweeperNeverMatters(start: int, steps: seq<Step>)
    ensures SameButRows(Run(Start(start), steps), Run(Start(start), WithoutSweeps(steps)))
    ensures Run(Start(start), steps).learned == Run(Start(start), WithoutSweeps(steps)).learned
  {
    SweepsStaySame(Start(start), Start(start), steps);
  }

  // ---------------------------------------------------------------- the polling detector

  /** The polling detector's decision consults processed_messages only. */
  ghost predicate DetectorLearns(w: World, v: Vanished, facts: Facts) {
    && v.messageId != ""
    && facts.found && !facts.skipFolder && !facts.exempt
    && !MovedByRule(w, v)
    && !facts.similarRule
  }

  /** What processed_messages keeps of a series of writes: the first action of a key. */
  function FirstMark(marks: seq<MarkRecord>, key: Key): Option<string> {
    if marks == [] then None
    else
      var before, last := FirstMark(marks[..|marks| - 1], key), marks[|marks| - 1];
      if before.None? && last.key == key then Some(last.action) else before
  }

  ghost predicate TableIsFirstMarks(w: World, key: Key) {
    FirstMark(w.marks, key) == if key in w.processed then Some(w.processed[key]) else None
  }

  /** Every mark was written for a consumer's job of that key and action. */
  ghost predicate MarkHasJob(jobs: seq<Job>, r: MarkRecord) {
    exists j | 0 <= j < |jobs| :: jobs[j].actor == Consumer && KeyOf(jobs[j]) == r.key && jobs[j].action == r.action
  }

  ghost predicate MarksInv(w: World) {
    && (forall key: Key :: TableIsFirstMarks(w, key))
    && (forall k | 0 <= k < |w.marks| :: MarkHasJob(w.jobs, w.marks[k]))
  }

  lemma JobsKeepMarks(w: World, step: Step, r: MarkRecord)
    requires MarkHasJob(w.jobs, r)
    ensures MarkHasJob(Next(w, step).jobs, r)
  {
    var j :| 0 <= j < |w.jobs| && w.jobs[j].actor == Consumer && KeyOf(w.jobs[j]) == r.key && w.jobs[j].action == r.action;
    var jobs := Next(w, step).jobs;
    assert jobs[j].actor == Consumer && KeyOf(jobs[j]) == r.key && jobs[j].action == r.action;
  }

  lemma StepKeepsMarks(w: World, step: Step)
    requires MarksInv(w)
    ensures MarksInv(Next(w, step))
  {
    var w' := Next(w, step);
    forall key: Key
      ensures TableIsFirstMarks(w', key)
    {
      assert TableIsFirstMarks(w, key);
      if step.Mark? && w' != w {
        assert w'.marks[..|w'.marks| - 1] == w.marks;
      }
    }
    forall k | 0 <= k < |w'.marks|
      ensures MarkHasJob(w'.jobs, w'.marks[k])
    {
      if k < |w.marks| {
        JobsKeepMarks(w, step, w.marks[k]);
      }
    }
  }

  lemma {:induction false} RunKeepsMarks(w: World, steps: seq<Step>)
    requires MarksInv(w)
    ensures MarksInv(Run(w, steps))
    decreases |steps|
  {
    if steps != [] {
      StepKeepsMarks(w, steps[0]);
      RunKeepsMarks(Next(w, steps[0]), steps[1..]);
    }
  }

  /** Nothing about the folders or the rules stands in the way of learning. */
  const OPEN: Facts := Facts(true, false, false, false)

  /** In every reachable state, for every vanished message that has a Message-ID and whoever
      moved it: with open facts the polling detector learns exactly when the first mark of
      that account and UID is absent or says something other than "move". */
  lemma DetectorLearnsIff(start: int, steps: seq<Step>, i: nat)
    requires i < |Run(Start(start), steps).vanished|
    ensures var w := Run(Start(start), steps);
            var v := w.vanished[i];
            DetectorLearns(w, v, OPEN) <==>
              && v.messageId != ""
              && forall k | 0 <= k < |w.marks| && w.marks[k].key == (v.account, v.uid) && w.marks[k].action == "move" ::
                   exists j | 0 <= j < k :: w.marks[j].key == (v.account, v.uid)
  {
    RunKeepsMarks(Start(start), steps);
    var w := Run(Start(start), steps);
    var key := (w.vanished[i].account, w.vanished[i].uid);
    assert TableIsFirstMarks(w, key);
    var k := FirstMarkIsAMark(w.marks, key);
  }

  /** The first mark of a key is a mark of it with none before. */
  lemma {:induction false} FirstMarkIsAMark(marks: seq<MarkRecord>, key: Key) returns (k: nat)
    ensures k <= |marks| && forall j | 0 <= j < k :: marks[j].key != key
    ensures k < |marks| ==> marks[k].key == key && FirstMark(marks, key) == Some(marks[k].action)
    ensures k == |marks| ==> FirstMark(marks, key) == None
  {
    if marks == [] {
      k := 0;
    } else {
      var n := |marks| - 1;
      k := FirstMarkIsAMark(marks[..n], key);
      if k == n && marks[n].key != key {
        k := n + 1;
      }
    }
  }

  /** A rule's move that was not marked yet teaches the detector. */
  lemma UnmarkedMoveTeaches(start: int, steps: seq<Step>, i: nat)
    requires i < |Run(Start(start), steps).vanished|
    requires var w := Run(Start(start), steps);
             var v := w.vanished[i];
             && v.messageId != ""
             && forall k | 0 <= k < |w.marks| :: w.marks[k].key != (v.account, v.uid)
    ensures var w := Run(Start(start), steps); DetectorLearns(w, w.vanished[i], OPEN)
  {
    DetectorLearnsIff(start, steps, i);
    var w := Run(Start(start), steps);
    var key := (w.vanished[i].account, w.vanished[i].uid);
    if FirstMark(w.marks, key).Some? {
      var k := FirstMarkIsAMark(w.marks, key);
    }
  }

  /** So does every message on which no job of the consumer was a move: one that a rule
      archived, and one that only the scheduler or the handler moved. */
  lemma ArchivedOrScheduledTeaches(start: int, steps: seq<Step>, i: nat)
    requires i < |Run(Start(start), steps).vanished|
    requires var w := Run(Start(start), steps);
             var v := w.vanished[i];
             && v.messageId != ""
             && forall j | 0 <= j < |w.jobs| && KeyOf(w.jobs[j]) == (v.account, v.uid) ::
                  w.jobs[j].actor != Consumer || w.jobs[j].action == "archive"
    ensures var w := Run(Start(start), steps); DetectorLearns(w, w.vanished[i], OPEN)
  {
    DetectorLearnsIff(start, steps, i);
    RunKeepsMarks(Start(start), steps);
    var w := Run(Start(start), steps);
    var key := (w.vanished[i].account, w.vanished[i].uid);
    if FirstMark(w.marks, key).Some? {
      var k := FirstMarkIsAMark(w.marks, key);
      assert MarkHasJob(w.jobs, w.marks[k]);
    }
  }

  /** Where the listener declines because of a stored row, the detector may still learn: one
      concrete run for each family.  Deferred rows have their target as their action, so that
      is what the scheduler is given. */
  lemma ListenerDeclinesDetectorLearns(start: int, actor: Actor, action: string, target: string, marked: bool,
                                       messageId: string)
    requires RecordsMove(action, messageId) && (action == "archive" || actor != Consumer || !marked)
    requires actor == Scheduler ==> target == action
    ensures var record := Record(actor, 1, 1, 1, messageId, messageId, action, target, true);
            var w := Run(Start(start), if marked then [record, Move(0), Mark(0)] else [record, Move(0)]);
            && |w.vanished| == 1 && w.vanished[0].cause == ByRule(start, true)
            && !Learns(w, w.vanished[0], OPEN) && DetectorLearns(w, w.vanished[0], OPEN)
  {
    var record := Record(actor, 1, 1, 1, messageId, messageId, action, target, true);
    var w1 := Next(Start(start), record);
    var w2 := Next(w1, Move(0));
    assert Visible(w2.rows[0], 1, messageId, w2.now);
    if marked {
      var w3 := Next(w2, Mark(0));
      var steps := [record, Move(0), Mark(0)];
      assert steps[1..][1..] == [Mark(0)] && [Mark(0)][1..] == [];
      assert Run(Start(start), steps) == Run(w1, steps[1..]) == Run(w2, [Mark(0)]) == w3;
    } else {
      var steps := [record, Move(0)];
      assert steps[1..][1..] == [];
      assert Run(Start(start), steps) == Run(w1, steps[1..]) == w2;
    }
  }
}
