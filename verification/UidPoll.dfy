/** The UID watermark poll of the listener (internal/imaplistener/listener.go,
    internal/db/db.go).

    Each poll lists the mailbox, keeps the UIDs above the stored watermark, hands them to
    publishBatch in batches of 50 and stores the largest one.  UIDs are assigned in
    ascending order and never reused (section 2.3.1.1 of RFC 3501).  The theorems are about
    what is handed to publishBatch, not about what it manages to publish. */
module UidPoll {

  type Uid = nat

  const BATCH_SIZE: nat := 50

  /** The UIDs above the watermark, in order. */
  function Newer(uids: seq<Uid>, last: Uid): seq<Uid> {
    if uids == [] then []
    else
      var before := Newer(uids[..|uids| - 1], last);
      if uids[|uids| - 1] > last then before + [uids[|uids| - 1]] else before
  }

  function Chunks(uids: seq<Uid>): seq<seq<Uid>>
    decreases |uids|
  {
    if uids == [] then []
    else if |uids| <= BATCH_SIZE then [uids]
    else [uids[..BATCH_SIZE]] + Chunks(uids[BATCH_SIZE..])
  }

  function Max(uids: seq<Uid>): Uid {
    if uids == [] then 0
    else
      var m := Max(uids[..|uids| - 1]);
      if uids[|uids| - 1] > m then uids[|uids| - 1] else m
  }

  function Flatten(batches: seq<seq<Uid>>): seq<Uid> {
    if batches == [] then [] else batches[0] + Flatten(batches[1..])
  }

  /** The watermark after a poll; a failed write leaves it where it was. */
  function Watermark(last: Uid, all: seq<Uid>, stored: bool): Uid {
    var newer := Newer(all, last);
    if stored && Max(newer) > 0 then Max(newer) else last
  }

  class Worker {
    var lastUid: Uid

    constructor (lastUid: Uid)
      ensures this.lastUid == lastUid
    {
      this.lastUid := lastUid;
    }

    /** The inner loop: the maximum so far and that of one more batch. */
    method TrackMax(uids: seq<Uid>, i: nat, batch: seq<Uid>, soFar: Uid) returns (maxUid: Uid)
      requires i + |batch| <= |uids| && batch == uids[i..i + |batch|] && soFar == Max(uids[..i])
      ensures maxUid == Max(uids[..i + |batch|])
    {
      maxUid := soFar;
      for j := 0 to |batch|
        invariant maxUid == Max(uids[..i + j])
      {
        assert uids[..i + j + 1][..i + j] == uids[..i + j];
        if batch[j] > maxUid {
          maxUid := batch[j];
        }
      }
    }

    /** The batch loop: cuts the new UIDs into batches and tracks the largest. */
    method HandOver(uids: seq<Uid>) returns (batches: seq<seq<Uid>>, maxUid: Uid)
      ensures batches == Chunks(uids) && maxUid == Max(uids)
    {
      batches, maxUid := [], 0;
      var i := 0;
      while i < |uids|
        invariant 0 <= i <= |uids|
        invariant batches + Chunks(uids[i..]) == Chunks(uids)
        invariant maxUid == Max(uids[..i])
      {
        var end := i + BATCH_SIZE;
        if end > |uids| {
          end := |uids|;
        }
        var batch := uids[i..end];
        FirstChunk(uids, i, end, batches);
        batches := batches + [batch];
        maxUid := TrackMax(uids, i, batch, maxUid);
        i := end;
      }
      Finished(uids, batches);
    }

    /** One poll: `all` is the server's answer to the search, `batches` what publishBatch
        is called with, in order. */
    method PollNewMessages(all: seq<Uid>, stored: bool) returns (batches: seq<seq<Uid>>)
      modifies this
      ensures batches == Chunks(Newer(all, old(lastUid)))
      ensures lastUid == Watermark(old(lastUid), all, stored)
    {
      var uids := [];
      for k := 0 to |all|
        invariant uids == Newer(all[..k], lastUid)
      {
        assert all[..k + 1][..k] == all[..k];
        if all[k] > lastUid {
          uids := uids + [all[k]];
        }
      }
      assert all[..|all|] == all;
      if |uids| == 0 {
        return [];
      }
      var maxUid;
      batches, maxUid := HandOver(uids);
      if maxUid > 0 && stored {
        lastUid := maxUid;
      }
    }
  }

  lemma Finished(uids: seq<Uid>, batches: seq<seq<Uid>>)
    ensures batches + Chunks(uids[|uids|..]) == batches && uids[..|uids|] == uids
  {
    assert uids[|uids|..] == [];
  }

  lemma FirstChunk(uids: seq<Uid>, i: nat, end: nat, batches: seq<seq<Uid>>)
    requires i < end <= |uids| && (end == i + BATCH_SIZE || (end == |uids| && end < i + BATCH_SIZE))
    ensures batches + Chunks(uids[i..]) == batches + [uids[i..end]] + Chunks(uids[end..])
  {
    assert uids[i..][..end - i] == uids[i..end] && uids[i..][end - i..] == uids[end..];
    if end == |uids| {
      assert uids[end..] == [] && uids[i..] == uids[i..end];
    }
  }

  // ---------------------------------------------------------------- facts about one poll

  lemma {:induction false} NewerContents(uids: seq<Uid>, last: Uid)
    ensures forall u: Uid :: multiset(Newer(uids, last))[u] == if u > last then multiset(uids)[u] else 0
  {
    if uids != [] {
      NewerContents(uids[..|uids| - 1], last);
      assert uids == uids[..|uids| - 1] + [uids[|uids| - 1]];
    }
  }

  lemma {:induction false} MaxBounds(uids: seq<Uid>)
    ensures forall u: Uid | u in uids :: u <= Max(uids)
    ensures uids != [] ==> Max(uids) in uids
  {
    if uids != [] {
      var rest := uids[..|uids| - 1];
      MaxBounds(rest);
      assert uids == rest + [uids[|uids| - 1]];
      if rest == [] {
        assert Max(uids) == uids[0];
      }
    }
  }

  /** The batches cut the list without losing or reordering anything; none is empty or
      longer than the limit. */
  lemma {:induction false} ChunksCover(uids: seq<Uid>)
    ensures Flatten(Chunks(uids)) == uids
    ensures forall i | 0 <= i < |Chunks(uids)| :: 0 < |Chunks(uids)[i]| <= 50
    ensures forall i | 0 <= i < |Chunks(uids)| - 1 :: |Chunks(uids)[i]| == 50
    decreases |uids|
  {
    if uids == [] {
    } else if |uids| <= BATCH_SIZE {
      assert [uids][1..] == [];
    } else {
      ChunksCover(uids[BATCH_SIZE..]);
      assert Chunks(uids)[1..] == Chunks(uids[BATCH_SIZE..]);
    }
  }

  lemma {:induction false} FlattenConcat(a: seq<seq<Uid>>, b: seq<seq<Uid>>)
    ensures Flatten(a + b) == Flatten(a) + Flatten(b)
  {
    if a == [] {
      assert a + b == b;
    } else {
      assert (a + b)[1..] == a[1..] + b;
      FlattenConcat(a[1..], b);
    }
  }

  // ---------------------------------------------------------------- runs of polls

  /** `handed` is every batch of every poll so far; `seen` the UIDs present at some poll. */
  datatype World = World(mailbox: seq<Uid>, uidNext: Uid, last: Uid, handed: seq<seq<Uid>>, seen: set<Uid>)

  datatype Step = Arrive(gap: nat) | Expunge(seqNum: nat) | Poll(stored: bool)

  function Next(w: World, step: Step): World {
    match step
    case Arrive(gap) =>
      w.(mailbox := w.mailbox + [w.uidNext + gap], uidNext := w.uidNext + gap + 1)
    case Expunge(n) =>
      if 0 < n <= |w.mailbox| then w.(mailbox := w.mailbox[..n - 1] + w.mailbox[n..]) else w
    case Poll(stored) =>
      w.(last := Watermark(w.last, w.mailbox, stored),
         handed := w.handed + Chunks(Newer(w.mailbox, w.last)),
         seen := w.seen + set u | u in w.mailbox)
  }

  function Run(w: World, steps: seq<Step>): World
    decreases |steps|
  {
    if steps == [] then w else Run(Next(w, steps[0]), steps[1..])
  }

  /** An account that was never polled, with any messages already in its mailbox. */
  ghost predicate Initial(w: World) {
    && Ascending(w) && w.last == 0 && w.handed == [] && w.seen == {}
  }

  ghost predicate Ascending(w: World) {
    && (forall i, j | 0 <= i < j < |w.mailbox| :: w.mailbox[i] < w.mailbox[j])
    && (forall u: Uid | u in w.mailbox :: 0 < u < w.uidNext)
    && 0 < w.uidNext
  }

  /** Nothing at or below the watermark is still waiting to be handed over. */
  ghost predicate Covered(w: World) {
    && w.last < w.uidNext
    && (forall u: Uid | u in w.mailbox && u <= w.last :: u in w.seen)
    && (forall u: Uid | u in w.seen :: u < w.uidNext && u in Flatten(w.handed))
    && (forall u: Uid | u in Flatten(w.handed) :: u in w.seen)
  }

  /** With every write stored, what was handed lies below the watermark, once each. */
  ghost predicate Once(w: World) {
    && (forall u: Uid | u in w.seen :: u <= w.last)
    && (forall u: Uid :: multiset(Flatten(w.handed))[u] <= 1)
  }

  lemma MailboxIsDistinct(w: World, u: Uid)
    requires Ascending(w)
    ensures multiset(w.mailbox)[u] == if u in w.mailbox then 1 else 0
  {
    DistinctCount(w.mailbox, u);
  }

  lemma {:induction false} DistinctCount(uids: seq<Uid>, u: Uid)
    requires forall i, j | 0 <= i < j < |uids| :: uids[i] < uids[j]
    ensures multiset(uids)[u] == if u in uids then 1 else 0
  {
    if uids != [] {
      DistinctCount(uids[1..], u);
      assert uids == [uids[0]] + uids[1..];
    }
  }

  /** What one poll hands over: the unseen part of the mailbox, each UID once. */
  lemma PollHands(w: World, stored: bool, u: Uid)
    requires Ascending(w)
    ensures var w' := Next(w, Poll(stored));
            multiset(Flatten(w'.handed))[u] ==
              multiset(Flatten(w.handed))[u] + (if u in w.mailbox && u > w.last then 1 else 0)
  {
    var newer := Newer(w.mailbox, w.last);
    FlattenConcat(w.handed, Chunks(newer));
    ChunksCover(newer);
    NewerContents(w.mailbox, w.last);
    MailboxIsDistinct(w, u);
  }

  /** The watermark moves to the largest UID in the mailbox, or stays; it never falls. */
  lemma PollWatermark(w: World, stored: bool)
    requires Ascending(w)
    ensures var last' := Watermark(w.last, w.mailbox, stored);
            && w.last <= last'
            && (last' == w.last || last' in w.mailbox)
            && (!stored ==> last' == w.last)
            && (stored ==> forall u: Uid | u in w.mailbox :: u <= last')
  {
    var newer := Newer(w.mailbox, w.last);
    NewerContents(w.mailbox, w.last);
    MaxBounds(newer);
    if newer != [] {
      assert Max(newer) in multiset(newer);
    }
    forall u: Uid | u in w.mailbox && u > w.last
      ensures u in newer
    {
      assert multiset(w.mailbox)[u] > 0;
      assert u in multiset(newer);
    }
  }

  lemma PollKeeps(w: World, stored: bool)
    requires Ascending(w) && Covered(w)
    ensures Covered(Next(w, Poll(stored)))
    ensures stored && Once(w) ==> Once(Next(w, Poll(stored)))
  {
    var w' := Next(w, Poll(stored));
    PollWatermark(w, stored);
    forall u: Uid
      ensures u in Flatten(w'.handed) <==> u in Flatten(w.handed) || (u in w.mailbox && u > w.last)
      ensures stored && Once(w) ==> multiset(Flatten(w'.handed))[u] <= 1
    {
      PollHands(w, stored, u);
      assert u in Flatten(w.handed) <==> multiset(Flatten(w.handed))[u] > 0;
      assert u in Flatten(w'.handed) <==> multiset(Flatten(w'.handed))[u] > 0;
    }
  }

  lemma ArriveKeeps(w: World, gap: nat)
    requires Ascending(w) && Covered(w)
    ensures Ascending(Next(w, Arrive(gap))) && Covered(Next(w, Arrive(gap)))
  {
    var w' := Next(w, Arrive(gap));
    forall i | 0 <= i < |w'.mailbox|
      ensures i < |w.mailbox| ==> w'.mailbox[i] in w.mailbox
    {
    }
  }

  lemma ExpungeKeeps(w: World, n: nat)
    requires Ascending(w) && Covered(w) && 0 < n <= |w.mailbox|
    ensures Ascending(Next(w, Expunge(n))) && Covered(Next(w, Expunge(n)))
  {
    var w' := Next(w, Expunge(n));
    forall i | 0 <= i < |w'.mailbox|
      ensures w'.mailbox[i] == w.mailbox[if i < n - 1 then i else i + 1]
      ensures w'.mailbox[i] in w.mailbox
    {
    }
  }

  lemma StepKeeps(w: World, step: Step)
    requires Ascending(w) && Covered(w)
    ensures Ascending(Next(w, step)) && Covered(Next(w, step))
    ensures w.last <= Next(w, step).last && w.seen <= Next(w, step).seen
    ensures Once(w) && step != Poll(false) ==> Once(Next(w, step))
  {
    match step
    case Poll(stored) =>
      PollKeeps(w, stored);
      PollWatermark(w, stored);
    case Arrive(gap) =>
      ArriveKeeps(w, gap);
    case Expunge(n) =>
      if 0 < n <= |w.mailbox| {
        ExpungeKeeps(w, n);
      }
  }

  lemma {:induction false} RunKeeps(w: World, steps: seq<Step>)
    requires Ascending(w) && Covered(w)
    ensures Ascending(Run(w, steps)) && Covered(Run(w, steps))
    ensures w.last <= Run(w, steps).last
    ensures Once(w) && Poll(false) !in steps ==> Once(Run(w, steps))
    decreases |steps|
  {
    if steps != [] {
      StepKeeps(w, steps[0]);
      RunKeeps(Next(w, steps[0]), steps[1..]);
    }
  }

  /** In every run every UID present at some poll has been handed over at least once, even
      if watermark writes fail, and nothing else ever is; if all writes are stored, it is
      in exactly one batch, once. */
  lemma EveryUidHandedOver(w: World, steps: seq<Step>, u: Uid)
    requires Initial(w)
    ensures var w' := Run(w, steps);
            && (multiset(Flatten(w'.handed))[u] >= 1 <==> u in w'.seen)
            && (Poll(false) !in steps ==> multiset(Flatten(w'.handed))[u] == if u in w'.seen then 1 else 0)
  {
    RunKeeps(w, steps);
  }

  /** Between any two points of a run the watermark does not fall. */
  lemma WatermarkNeverFalls(w: World, before: seq<Step>, after: seq<Step>)
    requires Initial(w)
    ensures Run(w, before).last <= Run(Run(w, before), after).last
  {
    RunKeeps(w, before);
    RunKeeps(Run(w, before), after);
  }
}
