/** The batch folder search against the one-message search
    (internal/movedetect/movedetect.go, internal/imaplistener/movedetect.go).

    The batch form fetches every folder once and matches Message-IDs in memory; the older
    form asks the server to search each folder for one Message-ID.  IMAP matches a header
    search by substring (section 6.4.4 of RFC 3501), so how the server matches is a
    parameter. */
module FolderSearch {

  import opened Common

  /** One mailbox as the server shows it.  `ids` has the Message-ID of each message, ""
      where the envelope is missing, has none, or cannot be read. */
  datatype Folder = Folder(name: string, selectable: bool, searchable: bool, ids: seq<string>)

  predicate Holds(folder: Folder, id: string) {
    folder.selectable && id != "" && id in folder.ids
  }

  /** The first folder, in listing order, that has a message with exactly this ID. */
  function FirstHolder(folders: seq<Folder>, id: string): Option<Folder> {
    if folders == [] then None
    else if Holds(folders[0], id) then Some(folders[0])
    else FirstHolder(folders[1..], id)
  }

  /** The k-th folder can be selected and has a message with this ID, and none before does. */
  ghost predicate FirstWith(folders: seq<Folder>, id: string, k: nat) {
    && k < |folders| && id != "" && folders[k].selectable && id in folders[k].ids
    && forall j | 0 <= j < k && folders[j].selectable :: id !in folders[j].ids
  }

  lemma {:induction false} FirstHolderIsFirst(folders: seq<Folder>, id: string)
    ensures match FirstHolder(folders, id)
            case None => forall k | 0 <= k < |folders| && folders[k].selectable :: id == "" || id !in folders[k].ids
            case Some(f) => exists k | 0 <= k < |folders| :: folders[k] == f && FirstWith(folders, id, k)
  {
    if folders != [] {
      if Holds(folders[0], id) {
        assert FirstWith(folders, id, 0);
      } else {
        FirstHolderIsFirst(folders[1..], id);
        assert forall k | 0 < k < |folders| :: folders[k] == folders[1..][k - 1];
        if FirstHolder(folders, id).Some? {
          var k :| 0 <= k < |folders[1..]| && folders[1..][k] == FirstHolder(folders, id).value && FirstWith(folders[1..], id, k);
          assert FirstWith(folders, id, k + 1);
        }
      }
    }
  }

  lemma LocatedMeans(targets: set<string>, folders: seq<Folder>)
    ensures forall found: map<string, Folder> | Located(targets, folders, found) ::
              && (forall id | id in targets && id !in found ::
                    forall k | 0 <= k < |folders| && folders[k].selectable :: id == "" || id !in folders[k].ids)
              && (forall id | id in found :: exists k | 0 <= k < |folders| :: folders[k] == found[id] && FirstWith(folders, id, k))
  {
    forall found: map<string, Folder> | Located(targets, folders, found)
      ensures forall id | id in targets && id !in found ::
                forall k | 0 <= k < |folders| && folders[k].selectable :: id == "" || id !in folders[k].ids
      ensures forall id | id in found :: exists k | 0 <= k < |folders| :: folders[k] == found[id] && FirstWith(folders, id, k)
    {
      forall id | id in targets
        ensures id !in found ==>
                  forall k | 0 <= k < |folders| && folders[k].selectable :: id == "" || id !in folders[k].ids
        ensures id in found ==> exists k | 0 <= k < |folders| :: folders[k] == found[id] && FirstWith(folders, id, k)
      {
        FirstHolderIsFirst(folders, id);
      }
    }
  }

  lemma {:induction false} FirstHolderConcat(a: seq<Folder>, b: seq<Folder>, id: string)
    ensures FirstHolder(a + b, id) == if FirstHolder(a, id).Some? then FirstHolder(a, id) else FirstHolder(b, id)
  {
    if a == [] {
      assert a + b == b;
    } else {
      assert (a + b)[1..] == a[1..] + b;
      FirstHolderConcat(a[1..], b, id);
    }
  }

  /** `found` maps exactly the targets that the folders hold, each to its first holder. */
  ghost predicate Located(targets: set<string>, folders: seq<Folder>, found: map<string, Folder>) {
    && found.Keys <= targets
    && forall id | id in targets :: FirstHolder(folders, id) == if id in found then Some(found[id]) else None
  }

  // ---------------------------------------------------------------- the batch search

  /** One fetched folder; `remaining` counts the targets not found yet. */
  method ScanFolder(targets: set<string>, folder: Folder, found: map<string, Folder>, remaining: nat)
    returns (found': map<string, Folder>, remaining': nat)
    requires folder.selectable && found.Keys <= targets && remaining == |targets - found.Keys|
    ensures Extends(targets, folder, found, found') && remaining' == |targets - found'.Keys|
  {
    found', remaining' := found, remaining;
    for j := 0 to |folder.ids|
      invariant remaining' == |targets - found'.Keys| && Scanned(targets, folder, j, found, found')
    {
      var id := folder.ids[j];
      ScannedOneMore(targets, folder, j, found, found');
      if id == "" {
        continue;
      }
      if id in targets {
        if id !in found' {
          OneFewer(targets, found'.Keys, id);
          found' := found'[id := folder];
          remaining' := remaining' - 1;
        }
      }
    }
    assert folder.ids[..|folder.ids|] == folder.ids;
  }

  /** The state of the scan after the first `j` messages of the folder. */
  ghost predicate Scanned(targets: set<string>, folder: Folder, j: nat,
                          before: map<string, Folder>, after: map<string, Folder>) {
    && j <= |folder.ids| && after.Keys <= targets
    && forall id | id in targets ::
         && (id in before ==> id in after && after[id] == before[id])
         && (id !in before ==>
               && (id in after <==> id != "" && id in folder.ids[..j])
               && (id in after ==> after[id] == folder))
  }

  lemma ScannedOneMore(targets: set<string>, folder: Folder, j: nat,
                       before: map<string, Folder>, after: map<string, Folder>)
    requires Scanned(targets, folder, j, before, after) && j < |folder.ids|
    ensures var id := folder.ids[j];
            Scanned(targets, folder, j + 1, before,
                    if id != "" && id in targets && id !in after then after[id := folder] else after)
  {
    OneMore(folder.ids, j);
  }

  lemma OneFewer(targets: set<string>, keys: set<string>, id: string)
    requires id in targets && id !in keys
    ensures |targets - keys| == |targets - (keys + {id})| + 1
  {
    assert targets - (keys + {id}) == (targets - keys) - {id};
  }

  /** Every target is mapped to its first holder and to nothing else; stopping once nothing
      remains loses nothing. */
  method FindMessagesInFoldersBatch(targets: set<string>, folders: seq<Folder>)
    returns (found: map<string, Folder>)
    ensures Located(targets, folders, found)
    ensures found.Keys <= targets
    ensures forall id | id in targets && id !in found ::
              forall k | 0 <= k < |folders| && folders[k].selectable :: id == "" || id !in folders[k].ids
    ensures forall id | id in found ::
              exists k | 0 <= k < |folders| :: folders[k] == found[id] && FirstWith(folders, id, k)
  {
    LocatedMeans(targets, folders);
    found := map[];
    var remaining := |targets|;
    assert targets - found.Keys == targets;
    for k := 0 to |folders|
      invariant Located(targets, folders[..k], found)
      invariant remaining == |targets - found.Keys|
    {
      if remaining == 0 {
        AllFoundEarly(targets, folders, k, found);
        return;
      }
      var folder := folders[k];
      ghost var before := found;
      OneMore(folders, k);
      if folder.selectable && |folder.ids| > 0 {
        found, remaining := ScanFolder(targets, folder, found, remaining);
      }
      LocatedOneMore(targets, folders[..k], folder, before, found);
    }
    assert folders[..|folders|] == folders;
  }

  lemma OneMore<T>(s: seq<T>, k: nat)
    requires k < |s|
    ensures s[..k + 1] == s[..k] + [s[k]]
  {
  }

  /** What the scan of one more folder has to achieve. */
  ghost predicate Extends(targets: set<string>, folder: Folder,
                          before: map<string, Folder>, after: map<string, Folder>) {
    && after.Keys <= targets
    && forall id | id in targets ::
         && (id in before ==> id in after && after[id] == before[id])
         && (id !in before ==> (id in after <==> Holds(folder, id)) && (id in after ==> after[id] == folder))
  }

  lemma LocatedOneMore(targets: set<string>, folders: seq<Folder>, folder: Folder,
                       before: map<string, Folder>, after: map<string, Folder>)
    requires Located(targets, folders, before) && Extends(targets, folder, before, after)
    ensures Located(targets, folders + [folder], after)
  {
    forall id | id in targets
      ensures FirstHolder(folders + [folder], id) == if id in after then Some(after[id]) else None
    {
      FirstHolderConcat(folders, [folder], id);
      assert [folder][1..] == [];
    }
  }

  lemma AllFoundEarly(targets: set<string>, folders: seq<Folder>, k: nat, found: map<string, Folder>)
    requires k <= |folders| && Located(targets, folders[..k], found) && targets - found.Keys == {}
    ensures Located(targets, folders, found)
  {
    assert targets <= found.Keys + (targets - found.Keys);
    forall id | id in targets
      ensures FirstHolder(folders, id) == Some(found[id])
    {
      assert folders == folders[..k] + folders[k..];
      FirstHolderConcat(folders[..k], folders[k..], id);
    }
  }

  // ---------------------------------------------------------------- the one-message search

  /** Does the server's search for `id` report a message of this folder? */
  ghost predicate Reports(folder: Folder, id: string, hit: (string, string) -> bool) {
    && folder.selectable && folder.searchable
    && exists i | 0 <= i < |folder.ids| :: hit(folder.ids[i], id)
  }

  ghost function FirstReport(folders: seq<Folder>, id: string, hit: (string, string) -> bool): Option<Folder> {
    if folders == [] then None
    else if Reports(folders[0], id, hit) then Some(folders[0])
    else FirstReport(folders[1..], id, hit)
  }

  /** The k-th folder can be selected and searched and the search reports something there, and
      in none before. */
  ghost predicate FirstReporting(folders: seq<Folder>, id: string, hit: (string, string) -> bool, k: nat) {
    && k < |folders| && folders[k].selectable && folders[k].searchable
    && (exists i | 0 <= i < |folders[k].ids| :: hit(folders[k].ids[i], id))
    && forall j | 0 <= j < k && folders[j].selectable && folders[j].searchable ::
         forall i | 0 <= i < |folders[j].ids| :: !hit(folders[j].ids[i], id)
  }

  lemma {:induction false} FirstReportIsFirst(folders: seq<Folder>, id: string, hit: (string, string) -> bool)
    ensures match FirstReport(folders, id, hit)
            case None => forall k | 0 <= k < |folders| && folders[k].selectable && folders[k].searchable ::
              forall i | 0 <= i < |folders[k].ids| :: !hit(folders[k].ids[i], id)
            case Some(f) => exists k | 0 <= k < |folders| :: folders[k] == f && FirstReporting(folders, id, hit, k)
  {
    if folders != [] {
      if Reports(folders[0], id, hit) {
        assert FirstReporting(folders, id, hit, 0);
      } else {
        FirstReportIsFirst(folders[1..], id, hit);
        assert forall k | 0 < k < |folders| :: folders[k] == folders[1..][k - 1];
        if FirstReport(folders, id, hit).Some? {
          var k :| 0 <= k < |folders[1..]| && folders[1..][k] == FirstReport(folders, id, hit).value
                   && FirstReporting(folders[1..], id, hit, k);
          assert FirstReporting(folders, id, hit, k + 1);
        }
      }
    }
  }

  method FindMessageInFolders(id: string, folders: seq<Folder>, hit: (string, string) -> bool)
    returns (r: Option<Folder>)
    ensures r == FirstReport(folders, id, hit)
    ensures match r
            case None => forall k | 0 <= k < |folders| && folders[k].selectable && folders[k].searchable ::
              forall i | 0 <= i < |folders[k].ids| :: !hit(folders[k].ids[i], id)
            case Some(f) => exists k | 0 <= k < |folders| :: folders[k] == f && FirstReporting(folders, id, hit, k)
  {
    FirstReportIsFirst(folders, id, hit);
    for k := 0 to |folders|
      invariant FirstReport(folders, id, hit) == FirstReport(folders[k..], id, hit)
    {
      var folder := folders[k];
      assert folders[k..][1..] == folders[k + 1..];
      if !folder.selectable || |folder.ids| == 0 || !folder.searchable {
        continue;
      }
      var count := 0;
      for i := 0 to |folder.ids|
        invariant count > 0 <==> exists j | 0 <= j < i :: hit(folder.ids[j], id)
      {
        if hit(folder.ids[i], id) {
          count := count + 1;
        }
      }
      if count > 0 {
        return Some(folder);
      }
    }
    r := None;
  }

  // ---------------------------------------------------------------- agreement

  /** A folder the search reports although no message in it has this ID. */
  ghost predicate Decoy(folder: Folder, id: string, hit: (string, string) -> bool) {
    Reports(folder, id, hit) && !Holds(folder, id)
  }

  /** Up to and including the first holder, no folder is a decoy, and the holder can be
      searched; with no holder, no folder is a decoy. */
  ghost predicate Undisturbed(folders: seq<Folder>, id: string, hit: (string, string) -> bool) {
    folders == [] ||
    if Holds(folders[0], id) then folders[0].searchable
    else !Decoy(folders[0], id, hit) && Undisturbed(folders[1..], id, hit)
  }

  /** The two searches agree on a Message-ID exactly when the listing is undisturbed,
      whatever else the server's matching accepts. */
  lemma {:induction false} SearchesAgreeIff(folders: seq<Folder>, id: string, hit: (string, string) -> bool)
    requires id != "" && hit(id, id)
    ensures FirstReport(folders, id, hit) == FirstHolder(folders, id) <==> Undisturbed(folders, id, hit)
  {
    if folders != [] {
      if Holds(folders[0], id) {
        var i :| 0 <= i < |folders[0].ids| && folders[0].ids[i] == id;
        assert hit(folders[0].ids[i], id);
        if !folders[0].searchable {
          FirstReportIsSearchable(folders[1..], id, hit);
        }
      } else if Reports(folders[0], id, hit) {
        FirstHolderHolds(folders[1..], id);
      } else {
        SearchesAgreeIff(folders[1..], id, hit);
      }
    }
  }

  lemma {:induction false} FirstReportIsSearchable(folders: seq<Folder>, id: string, hit: (string, string) -> bool)
    ensures FirstReport(folders, id, hit).Some? ==> FirstReport(folders, id, hit).value.searchable
  {
    if folders != [] {
      FirstReportIsSearchable(folders[1..], id, hit);
    }
  }

  lemma {:induction false} FirstHolderHolds(folders: seq<Folder>, id: string)
    ensures FirstHolder(folders, id).Some? ==>
              Holds(FirstHolder(folders, id).value, id) && FirstHolder(folders, id).value in folders
  {
    if folders != [] {
      FirstHolderHolds(folders[1..], id);
    }
  }

  /** With a server that matches whole IDs and answers every search, batch and single search
      agree on every target set and folder list. */
  lemma {:induction false} ExactServerAgrees(folders: seq<Folder>, id: string, hit: (string, string) -> bool)
    requires id != "" && forall a, b :: hit(a, b) <==> a == b
    requires forall i | 0 <= i < |folders| :: folders[i].searchable
    ensures FirstReport(folders, id, hit) == FirstHolder(folders, id)
  {
    if folders != [] {
      if Holds(folders[0], id) {
        SearchesAgreeIff(folders, id, hit);
      } else {
        ExactServerAgrees(folders[1..], id, hit);
      }
    }
  }

  /** They do differ on a server that follows the standard: a longer Message-ID in an
      earlier folder attracts the one-message search. */
  lemma SubstringServerMisleads()
    ensures var hit := (a, b) => Contains(a, b);
            var decoy := Folder("Lists", true, true, ["xa@h"]);
            var holder := Folder("Work", true, true, ["a@h"]);
            && FirstReport([decoy, holder], "a@h", hit) == Some(decoy)
            && FirstHolder([decoy, holder], "a@h") == Some(holder)
  {
    var hit := (a, b) => Contains(a, b);
    var decoy := Folder("Lists", true, true, ["xa@h"]);
    var holder := Folder("Work", true, true, ["a@h"]);
    assert "xa@h"[1..] == "a@h";
    assert At("xa@h", "a@h", 1);
    assert hit(decoy.ids[0], "a@h");
    assert "xa@h" != "a@h" by {
      assert |"xa@h"| != |"a@h"|;
    }
    assert [decoy, holder][1..] == [holder];
    assert holder.ids[0] == "a@h";
  }
}
