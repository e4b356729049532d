/** The polling move detector (internal/movedetect/movedetect.go: scan).

    Each scan compares the INBOX with the snapshot of the scan before, searches the folders
    for the messages that vanished, and records a move for each one found. */
module DetectorScan {

  import opened Common
  import opened FolderSearch

  type Uid = nat

  datatype Info = Info(messageId: string, sender: string, subject: string)

  type Snapshot = map<Uid, Info>

  datatype Move = Move(uid: Uid, messageId: string, sender: string, subject: string, toFolder: Folder)

  /** UIDs of the previous snapshot that are gone. */
  function Missing(previous: Snapshot, current: Snapshot): set<Uid> {
    previous.Keys - current.Keys
  }

  /** A recorded move names a vanished UID, its own Message-ID, sender and subject, and the
      first folder that holds it. */
  ghost predicate Sound(m: Move, previous: Snapshot, current: Snapshot, folders: seq<Folder>) {
    && m.uid in previous && m.uid !in current
    && previous[m.uid].messageId == m.messageId != ""
    && previous[m.uid].sender == m.sender && previous[m.uid].subject == m.subject
    && FirstHolder(folders, m.messageId) == Some(m.toFolder)
  }

  /** The move recorded for a Message-ID that was found. */
  function MoveOf(previous: Snapshot, targets: map<string, Uid>, found: map<string, Folder>, id: string): Move
    requires id in found && id in targets && targets[id] in previous
  {
    var info := previous[targets[id]];
    Move(targets[id], id, info.sender, info.subject, found[id])
  }

  class MoveWorker {
    var inboxUIDs: Snapshot
    var initialized: bool

    constructor ()
      ensures !initialized && inboxUIDs == map[]
    {
      inboxUIDs, initialized := map[], false;
    }

    /** The Message-IDs to look for, each with a vanished UID that carries it. */
    static method SearchTargets(previous: Snapshot, missing: set<Uid>) returns (targets: map<string, Uid>)
      requires missing <= previous.Keys
      ensures forall id | id in targets ::
                targets[id] in missing && previous[targets[id]].messageId == id != ""
      ensures forall uid | uid in missing && previous[uid].messageId != "" :: previous[uid].messageId in targets
    {
      targets := map[];
      var todo := missing;
      while todo != {}
        invariant todo <= missing
        invariant forall id | id in targets ::
                    targets[id] in missing && previous[targets[id]].messageId == id != ""
        invariant forall uid | uid in missing && uid !in todo && previous[uid].messageId != "" ::
                    previous[uid].messageId in targets
        decreases todo
      {
        var uid :| uid in todo;
        todo := todo - {uid};
        if previous[uid].messageId != "" {
          targets := targets[previous[uid].messageId := uid];
        }
      }
    }

    /** The moves for the destinations found; `eligible` leaves out system and exempt
        folders. */
    static method RecordMoves(previous: Snapshot, targets: map<string, Uid>, found: map<string, Folder>,
                              eligible: Folder -> bool)
      returns (moves: seq<Move>)
      requires found.Keys <= targets.Keys
      requires forall id | id in targets :: targets[id] in previous
      ensures forall i | 0 <= i < |moves| ::
                && moves[i].messageId in found && eligible(found[moves[i].messageId])
                && moves[i] == MoveOf(previous, targets, found, moves[i].messageId)
      ensures forall i, j | 0 <= i < j < |moves| :: moves[i].messageId != moves[j].messageId
      ensures forall id | id in found && eligible(found[id]) ::
                exists i :: 0 <= i < |moves| && moves[i].messageId == id
    {
      moves := [];
      var todo := found.Keys;
      while todo != {}
        invariant todo <= found.Keys
        invariant forall i | 0 <= i < |moves| ::
                    && moves[i].messageId in found && moves[i].messageId !in todo
                    && eligible(found[moves[i].messageId])
                    && moves[i] == MoveOf(previous, targets, found, moves[i].messageId)
        invariant forall i, j | 0 <= i < j < |moves| :: moves[i].messageId != moves[j].messageId
        invariant forall id | id in found && id !in todo && eligible(found[id]) ::
                    exists i :: 0 <= i < |moves| && moves[i].messageId == id
        decreases todo
      {
        var id :| id in todo;
        todo := todo - {id};
        if !eligible(found[id]) {
          continue;
        }
        ghost var before := moves;
        moves := moves + [MoveOf(previous, targets, found, id)];
        assert moves[|before|].messageId == id;
        forall k | k in found && k !in todo && eligible(found[k])
          ensures exists i :: 0 <= i < |moves| && moves[i].messageId == k
        {
          if k != id {
            var i :| 0 <= i < |before| && before[i].messageId == k;
            assert moves[i] == before[i];
          }
        }
      }
    }

    /** One scan.  The first reports nothing.  A later one takes exactly the vanished UIDs as
        missing; every move it records is sound and goes to an eligible folder, no Message-ID
        is recorded twice, and, if the folders could be listed, none that can be found is
        left out. */
    method Scan(current: Snapshot, folders: Option<seq<Folder>>, eligible: Folder -> bool)
      returns (missing: set<Uid>, moves: seq<Move>)
      modifies this
      ensures initialized && inboxUIDs == current
      ensures !old(initialized) ==> missing == {} && moves == []
      ensures old(initialized) ==> forall uid :: uid in missing <==> uid in old(inboxUIDs) && uid !in current
      ensures folders.None? ==> moves == []
      ensures folders.Some? ==>
                forall i | 0 <= i < |moves| ::
                  Sound(moves[i], old(inboxUIDs), current, folders.value) && eligible(moves[i].toFolder)
      ensures forall i, j | 0 <= i < j < |moves| :: moves[i].messageId != moves[j].messageId
      ensures folders.Some? ==>
                forall uid | uid in missing && old(inboxUIDs)[uid].messageId != "" ::
                  var dest := FirstHolder(folders.value, old(inboxUIDs)[uid].messageId);
                  dest.Some? && eligible(dest.value) ==>
                    exists i :: 0 <= i < |moves| && moves[i].messageId == old(inboxUIDs)[uid].messageId
    {
      missing, moves := {}, [];
      if !initialized {
        inboxUIDs, initialized := current, true;
        return;
      }
      var previous := inboxUIDs;
      inboxUIDs := current;
      missing := previous.Keys - current.Keys;
      if missing == {} || folders.None? {
        return;
      }
      var targets := SearchTargets(previous, missing);
      var found := FindMessagesInFoldersBatch(targets.Keys, folders.value);
      moves := RecordMoves(previous, targets, found, eligible);
    }
  }

  // ---------------------------------------------------------------- runs of scans

  /** `seen` holds the UIDs present at some scan, `missed` counts how often each was classed
      as missing. */
  datatype World = World(
    inbox: Snapshot, uidNext: Uid,
    initialized: bool, snapshot: Snapshot,
    seen: set<Uid>, missed: multiset<Uid>)

  /** UIDs are assigned in ascending order and never reused. */
  datatype Step = Arrive(gap: nat, info: Info) | Vanish(uid: Uid) | ScanInbox

  function Next(w: World, step: Step): World {
    match step
    case Arrive(gap, info) =>
      w.(inbox := w.inbox[w.uidNext + gap := info], uidNext := w.uidNext + gap + 1)
    case Vanish(uid) => w.(inbox := w.inbox - {uid})
    case ScanInbox =>
      w.(initialized := true, snapshot := w.inbox, seen := w.seen + w.inbox.Keys,
         missed := if w.initialized then w.missed + multiset(Missing(w.snapshot, w.inbox)) else w.missed)
  }

  function Run(w: World, steps: seq<Step>): World
    decreases |steps|
  {
    if steps == [] then w else Run(Next(w, steps[0]), steps[1..])
  }

  ghost predicate Initial(w: World) {
    && (forall u | u in w.inbox :: u < w.uidNext)
    && !w.initialized && w.snapshot == map[] && w.seen == {} && w.missed == multiset{}
  }

  /** A UID is missed once from the scan on that no longer sees it. */
  ghost predicate MissedOnce(w: World, u: Uid) {
    && (u in w.inbox || u in w.seen ==> u < w.uidNext)
    && (u in w.snapshot ==> u in w.seen)
    && (u in w.inbox && u in w.seen ==> u in w.snapshot)
    && w.missed[u] == (if u in w.seen && u !in w.snapshot then 1 else 0)
    && (!w.initialized ==> u !in w.seen)
  }

  lemma StepKeeps(w: World, step: Step, u: Uid)
    requires MissedOnce(w, u)
    ensures MissedOnce(Next(w, step), u)
  {
  }

  lemma {:induction false} RunKeeps(w: World, steps: seq<Step>, u: Uid)
    requires MissedOnce(w, u)
    ensures MissedOnce(Run(w, steps), u)
    decreases |steps|
  {
    if steps != [] {
      StepKeeps(w, steps[0], u);
      RunKeeps(Next(w, steps[0]), steps[1..], u);
    }
  }

  /** Over every run of scans and mailbox changes, each UID is classed as missing at most
      once: exactly once if some scan saw it and the last scan did not. */
  lemma MissingAtMostOnce(w: World, steps: seq<Step>, u: Uid)
    requires Initial(w)
    ensures var w' := Run(w, steps);
            w'.missed[u] == if u in w'.seen && u !in w'.snapshot then 1 else 0
  {
    RunKeeps(w, steps, u);
  }
}
