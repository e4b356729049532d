/** The listener's EXPUNGE-to-UID mapping (internal/imaplistener/movedetect.go,
    internal/imaplistener/listener.go).

    The server names an expunged message by its position in the mailbox, and the
    positions shift at every expunge (section 7.4.1 of RFC 3501).  The listener holds a
    snapshot of UIDs and replays the positions it collected during IDLE against it.  The
    window modelled here runs from the snapshot, with an empty channel, to the end of
    IDLE; the server, its bounded notification channel and the listener's collecting loop
    are interleaved arbitrarily. */
module ExpungeTracking {

  type Uid = nat

  /** Capacity of the worker's expunge channel; a notification that finds it full is lost. */
  const CHANNEL_CAPACITY: nat := 64

  function Without(uids: seq<Uid>, i: nat): seq<Uid>
    requires i < |uids|
  {
    uids[..i] + uids[i + 1..]
  }

  /** What a series of notifications makes of a UID list. */
  datatype Mapped = Mapped(returned: seq<Uid>, remaining: seq<Uid>)

  function MapSeqNums(uids: seq<Uid>, seqNums: seq<nat>): Mapped
    decreases |seqNums|
  {
    if seqNums == [] then
      Mapped([], uids)
    else
      var idx := seqNums[0] as int - 1;
      if idx < 0 || idx >= |uids| then
        MapSeqNums(uids, seqNums[1..])
      else
        var rest := MapSeqNums(Without(uids, idx), seqNums[1..]);
        Mapped([uids[idx]] + rest.returned, rest.remaining)
  }

  class Worker {
    var inboxUIDs: seq<Uid>

    constructor (uids: seq<Uid>)
      ensures inboxUIDs == uids
    {
      inboxUIDs := uids;
    }

    /** Converts EXPUNGE sequence numbers to UIDs and cuts them out of the tracked list. */
    method MapSeqNumsToUIDs(seqNums: seq<nat>) returns (result: seq<Uid>)
      modifies this
      ensures Mapped(result, inboxUIDs) == MapSeqNums(old(inboxUIDs), seqNums)
      ensures multiset(result) + multiset(inboxUIDs) == multiset(old(inboxUIDs))
    {
      result := [];
      var uidsCopy := inboxUIDs;
      for i := 0 to |seqNums|
        invariant inboxUIDs == old(inboxUIDs)
        invariant MapSeqNums(inboxUIDs, seqNums) ==
                  var rest := MapSeqNums(uidsCopy, seqNums[i..]);
                  Mapped(result + rest.returned, rest.remaining)
      {
        var idx := seqNums[i] as int - 1;
        assert seqNums[i..][1..] == seqNums[i + 1..];
        if idx < 0 || idx >= |uidsCopy| {
          continue;
        }
        ghost var rest := MapSeqNums(Without(uidsCopy, idx), seqNums[i + 1..]);
        assert result + ([uidsCopy[idx]] + rest.returned) == result + [uidsCopy[idx]] + rest.returned;
        result := result + [uidsCopy[idx]];
        uidsCopy := uidsCopy[..idx] + uidsCopy[idx + 1..];
      }
      assert seqNums[|seqNums|..] == [];
      NothingLostOrInvented(inboxUIDs, seqNums);
      inboxUIDs := uidsCopy;
    }
  }

  // ---------------------------------------------------------------- laws of the mapping

  /** Mapping a concatenation is mapping the parts in turn. */
  lemma {:induction false} MapConcat(uids: seq<Uid>, a: seq<nat>, b: seq<nat>)
    ensures MapSeqNums(uids, a + b) ==
            var first := MapSeqNums(uids, a);
            var second := MapSeqNums(first.remaining, b);
            Mapped(first.returned + second.returned, second.remaining)
    decreases |a|
  {
    if a == [] {
      assert a + b == b;
    } else {
      assert (a + b)[1..] == a[1..] + b;
      var idx := a[0] as int - 1;
      if 0 <= idx < |uids| {
        MapConcat(Without(uids, idx), a[1..], b);
      } else {
        MapConcat(uids, a[1..], b);
      }
    }
  }

  lemma CutTakesOne(uids: seq<Uid>, i: nat)
    requires i < |uids|
    ensures multiset{uids[i]} + multiset(Without(uids, i)) == multiset(uids)
  {
    assert uids == uids[..i] + ([uids[i]] + uids[i + 1..]);
  }

  /** Returned plus remaining is the list that was mapped. */
  lemma {:induction false} NothingLostOrInvented(uids: seq<Uid>, seqNums: seq<nat>)
    ensures var m := MapSeqNums(uids, seqNums);
            multiset(m.returned) + multiset(m.remaining) == multiset(uids)
    decreases |seqNums|
  {
    if seqNums != [] {
      var idx := seqNums[0] as int - 1;
      if 0 <= idx < |uids| {
        var rest := MapSeqNums(Without(uids, idx), seqNums[1..]);
        assert MapSeqNums(uids, seqNums) == Mapped([uids[idx]] + rest.returned, rest.remaining);
        CutTakesOne(uids, idx);
        NothingLostOrInvented(Without(uids, idx), seqNums[1..]);
      } else {
        NothingLostOrInvented(uids, seqNums[1..]);
      }
    }
  }

  // ---------------------------------------------------------------- the IDLE window

  /** `expunged` and `sent` are the server's own history of the window: the UIDs it removed
      and the numbers it announced, oldest first. */
  datatype Window = Window(
    mailbox: seq<Uid>, uidNext: nat,
    channel: seq<nat>, collected: seq<nat>, dropped: nat,
    expunged: seq<Uid>, sent: seq<nat>)

  /** Expunge(n): the server removes its n-th message and announces n.
      Arrive(gap): a new message gets an unused, larger UID at the end of the mailbox.
      Receive: the collecting loop takes one notification off the channel. */
  datatype Step = Expunge(seqNum: nat) | Arrive(gap: nat) | Receive

  function Start(snapshot: seq<Uid>, uidNext: nat): Window {
    Window(snapshot, uidNext, [], [], 0, [], [])
  }

  /** A step that is not enabled leaves the window as it is. */
  function Next(w: Window, step: Step): Window {
    match step
    case Expunge(n) =>
      if n == 0 || n > |w.mailbox| then w
      else
        var notified := w.(
          mailbox := Without(w.mailbox, n - 1),
          expunged := w.expunged + [w.mailbox[n - 1]],
          sent := w.sent + [n]);
        if |w.channel| < CHANNEL_CAPACITY
        then notified.(channel := w.channel + [n])
        else notified.(dropped := w.dropped + 1)
    case Arrive(gap) =>
      w.(mailbox := w.mailbox + [w.uidNext + gap], uidNext := w.uidNext + gap + 1)
    case Receive =>
      if w.channel == [] then w
      else w.(channel := w.channel[1..], collected := w.collected + [w.channel[0]])
  }

  function Run(w: Window, steps: seq<Step>): Window
    decreases |steps|
  {
    if steps == [] then w else Run(Next(w, steps[0]), steps[1..])
  }

  /** The elements of `uids` that belong to the snapshot, in order. */
  function FromSnapshot(uids: seq<Uid>, snapshot: seq<Uid>): seq<Uid> {
    if uids == [] then []
    else
      var before := FromSnapshot(uids[..|uids| - 1], snapshot);
      if uids[|uids| - 1] in snapshot then before + [uids[|uids| - 1]] else before
  }

  /** The list a client that missed nothing would hold is a prefix of the mailbox; whatever
      follows it arrived after the snapshot. */
  ghost predicate Tracks(snapshot: seq<Uid>, uidNext0: nat, w: Window) {
    var ideal := MapSeqNums(snapshot, w.sent);
    && uidNext0 <= w.uidNext
    && ideal.remaining <= w.mailbox
    && (forall i | |ideal.remaining| <= i < |w.mailbox| :: uidNext0 <= w.mailbox[i])
    && (forall u | u in ideal.remaining :: u in snapshot)
    && ideal.returned == FromSnapshot(w.expunged, snapshot)
  }

  ghost predicate InOrder(w: Window) {
    w.dropped == 0 ==> w.collected + w.channel == w.sent
  }

  lemma ExpungeTracks(snapshot: seq<Uid>, uidNext0: nat, w: Window, n: nat)
    requires forall u | u in snapshot :: u < uidNext0
    requires Tracks(snapshot, uidNext0, w)
    ensures Tracks(snapshot, uidNext0, Next(w, Expunge(n)))
  {
    if 0 < n <= |w.mailbox| {
      var ideal := MapSeqNums(snapshot, w.sent).remaining;
      MapConcat(snapshot, w.sent, [n]);
      var w' := Next(w, Expunge(n));
      var u := w.mailbox[n - 1];
      assert w'.expunged[..|w'.expunged| - 1] == w.expunged;
      if n <= |ideal| {
        assert MapSeqNums(ideal, [n]) == Mapped([u], Without(ideal, n - 1)) by {
          assert [n][1..] == [];
        }
        assert u in snapshot;
      } else {
        assert MapSeqNums(ideal, [n]) == Mapped([], ideal) by {
          assert [n][1..] == [];
        }
        assert u !in snapshot;
      }
    }
  }

  lemma StepKeepsTracking(snapshot: seq<Uid>, uidNext0: nat, w: Window, step: Step)
    requires forall u | u in snapshot :: u < uidNext0
    requires Tracks(snapshot, uidNext0, w) && InOrder(w)
    ensures Tracks(snapshot, uidNext0, Next(w, step)) && InOrder(Next(w, step))
  {
    match step
    case Expunge(n) => ExpungeTracks(snapshot, uidNext0, w, n);
    case Arrive(_) =>
    case Receive =>
      if w.channel != [] {
        assert w.collected + w.channel == w.collected + [w.channel[0]] + w.channel[1..];
      }
  }

  lemma {:induction false} RunKeepsTracking(snapshot: seq<Uid>, uidNext0: nat, w: Window, steps: seq<Step>)
    requires forall u | u in snapshot :: u < uidNext0
    requires Tracks(snapshot, uidNext0, w) && InOrder(w)
    ensures Tracks(snapshot, uidNext0, Run(w, steps)) && InOrder(Run(w, steps))
    decreases |steps|
  {
    if steps != [] {
      StepKeepsTracking(snapshot, uidNext0, w, steps[0]);
      RunKeepsTracking(snapshot, uidNext0, Next(w, steps[0]), steps[1..]);
    }
  }

  /** In every interleaving in which no notification is dropped, the UIDs mapped from what
      was collected so far are the first expunged snapshot UIDs, in order; once the channel
      is drained they are all of them, and the tracked list is a prefix of the mailbox. */
  lemma IdleWindowIsExact(snapshot: seq<Uid>, uidNext: nat, steps: seq<Step>)
    requires forall u | u in snapshot :: u < uidNext
    ensures var w := Run(Start(snapshot, uidNext), steps);
            var m := MapSeqNums(snapshot, w.collected);
            w.dropped == 0 ==>
              && m.returned <= FromSnapshot(w.expunged, snapshot)
              && (w.channel == [] ==>
                    && m.returned == FromSnapshot(w.expunged, snapshot)
                    && m.remaining <= w.mailbox
                    && forall u | u in w.mailbox[|m.remaining|..] :: u !in snapshot)
  {
    RunKeepsTracking(snapshot, uidNext, Start(snapshot, uidNext), steps);
    var w := Run(Start(snapshot, uidNext), steps);
    if w.dropped == 0 {
      MapConcat(snapshot, w.collected, w.channel);
      if w.channel == [] {
        assert w.collected == w.sent;
      }
    }
  }

  // ---------------------------------------------------------------- why "no drop" is needed

  function Repeat<T>(n: nat, x: T): seq<T> {
    seq(n, _ => x)
  }

  lemma {:induction false} FrontExpunges(w: Window, n: nat)
    requires n <= |w.mailbox|
    ensures var w' := Run(w, Repeat(n, Expunge(1)));
            && w'.mailbox == w.mailbox[n..]
            && w'.collected == w.collected
            && w'.uidNext == w.uidNext
            && (|w.channel| + n <= CHANNEL_CAPACITY ==> w'.channel == w.channel + Repeat<nat>(n, 1))
            && (|w.channel| == CHANNEL_CAPACITY ==> w'.channel == w.channel)
    decreases n
  {
    var steps := Repeat(n, Expunge(1));
    if n == 0 {
      assert steps == [];
    } else {
      assert steps[1..] == Repeat((n - 1) as nat, Expunge(1));
      assert [1] + Repeat<nat>((n - 1) as nat, 1) == Repeat<nat>(n, 1);
      FrontExpunges(Next(w, Expunge(1)), n - 1);
    }
  }

  lemma {:induction false} Receives(w: Window, n: nat)
    requires |w.channel| == n
    ensures var w' := Run(w, Repeat(n, Receive));
            && w'.mailbox == w.mailbox
            && w'.channel == []
            && w'.collected == w.collected + w.channel
    decreases n
  {
    var steps := Repeat(n, Receive);
    if n == 0 {
      assert steps == [];
    } else {
      assert steps[1..] == Repeat((n - 1) as nat, Receive);
      Receives(Next(w, Receive), n - 1);
      assert w.collected + w.channel == w.collected + [w.channel[0]] + w.channel[1..];
    }
  }

  lemma {:induction false} RunConcat(w: Window, a: seq<Step>, b: seq<Step>)
    ensures Run(w, a + b) == Run(Run(w, a), b)
    decreases |a|
  {
    if a == [] {
      assert a + b == b;
    } else {
      assert (a + b)[1..] == a[1..] + b;
      RunConcat(Next(w, a[0]), a[1..], b);
    }
  }

  lemma {:induction false} MapFront(uids: seq<Uid>, n: nat)
    requires n <= |uids|
    ensures MapSeqNums(uids, Repeat<nat>(n, 1)) == Mapped(uids[..n], uids[n..])
    decreases n
  {
    if n == 0 {
      assert Repeat<nat>(0, 1) == [];
    } else {
      assert Repeat<nat>(n, 1)[1..] == Repeat<nat>((n - 1) as nat, 1);
      MapFront(uids[1..], n - 1);
      MapFirst(uids, Repeat<nat>(n, 1));
      FrontSlices(uids, n);
    }
  }

  lemma MapFirst(uids: seq<Uid>, seqNums: seq<nat>)
    requires uids != [] && seqNums != [] && seqNums[0] == 1
    ensures MapSeqNums(uids, seqNums) ==
            var rest := MapSeqNums(uids[1..], seqNums[1..]);
            Mapped([uids[0]] + rest.returned, rest.remaining)
  {
    assert Without(uids, 0) == uids[1..];
  }

  lemma FrontSlices(uids: seq<Uid>, n: nat)
    requires 0 < n <= |uids|
    ensures [uids[0]] + uids[1..][..n - 1] == uids[..n] && uids[1..][n - 1..] == uids[n..]
  {
  }

  /** The steps of the next lemma: fill the channel, expunge once more, then drain it. */
  function OverflowSteps(k: nat): seq<Step> {
    Repeat(k, Expunge(1)) + [Expunge(1)] + Repeat(k, Receive)
  }

  lemma OverflowRun(w0: Window, k: nat)
    requires k == CHANNEL_CAPACITY && |w0.mailbox| > k + 1
    requires w0.channel == [] && w0.collected == []
    ensures var w := Run(w0, OverflowSteps(k));
            w.channel == [] && w.collected == Repeat<nat>(k, 1) && w.mailbox == w0.mailbox[k + 1..]
  {
    var fill := Repeat(k, Expunge(1));
    FrontExpunges(w0, k);
    var w1 := Run(w0, fill);
    var w2 := Next(w1, Expunge(1));
    assert Run(w1, [Expunge(1)]) == w2 by {
      assert [Expunge(1)][1..] == [];
    }
    RunConcat(w0, fill, [Expunge(1)]);
    RunConcat(w0, fill + [Expunge(1)], Repeat(k, Receive));
    Receives(w2, k);
  }

  /** The premise cannot be dropped: one expunge more than the channel holds, taken from
      the front before the listener reads, leaves a tracked list whose first UID the server
      no longer has. */
  lemma OverflowLosesTrack(snapshot: seq<Uid>, uidNext: nat, k: nat)
    requires k == 64 && |snapshot| > k + 1
    requires forall i, j | 0 <= i < j < |snapshot| :: snapshot[i] != snapshot[j]
    ensures var w := Run(Start(snapshot, uidNext), OverflowSteps(k));
            var m := MapSeqNums(snapshot, w.collected);
            && w.channel == []
            && m.remaining != []
            && m.remaining[0] !in w.mailbox
  {
    OverflowRun(Start(snapshot, uidNext), k);
    MapFront(snapshot, k);
    assert snapshot[k..][0] == snapshot[k];
    assert snapshot[k] !in snapshot[k + 1..];
  }
}
