/** Which folder a user keeps a cipher in (src/services/ciphers.ts). */
module FolderLinks {
  import opened Base

  datatype FolderLink = FolderLink(cipherUuid: Id, folderUuid: Id)

  /** `folders` maps each folder to its user; `links` is the folders_ciphers table. */
  datatype State = State(folders: map<Id, Id>, links: seq<FolderLink>)

  predicate OwnedBy(folders: map<Id, Id>, folderUuid: Id, userUuid: Id) {
    folderUuid in folders && folders[folderUuid] == userUuid
  }

  /** The link is one of this user's for this cipher. */
  predicate Mine(s: State, cipherUuid: Id, userUuid: Id, l: FolderLink) {
    l.cipherUuid == cipherUuid && OwnedBy(s.folders, l.folderUuid, userUuid)
  }

  function ExistingLinks(s: State, cipherUuid: Id, userUuid: Id): seq<FolderLink> {
    Select(s.links, (l: FolderLink) => Mine(s, cipherUuid, userUuid, l))
  }

  /** The rows deleted before the loop stops at the target folder, or all of them. */
  function DeletedRows(existing: seq<FolderLink>, folderUuid: Option<Id>): (r: seq<FolderLink>)
    ensures |r| <= |existing| && r == existing[..|r|]
    ensures forall l | l in r :: Some(l.folderUuid) != folderUuid
    ensures |r| == |existing| || Some(existing[|r|].folderUuid) == folderUuid
  {
    if existing == [] || Some(existing[0].folderUuid) == folderUuid then []
    else [existing[0]] + DeletedRows(existing[1..], folderUuid)
  }

  function AddLink(links: seq<FolderLink>, l: FolderLink): (r: seq<FolderLink>)
    ensures forall k :: k in r <==> k in links || k == l
  {
    if l in links then links else links + [l]
  }

  function Moved(s: State, cipherUuid: Id, folderUuid: Option<Id>, userUuid: Id): State {
    var existing := ExistingLinks(s, cipherUuid, userUuid);
    var deleted := DeletedRows(existing, folderUuid);
    var kept := Select(s.links, (l: FolderLink) => l !in deleted);
    if |deleted| < |existing| || folderUuid.None? then s.(links := kept)
    else s.(links := AddLink(kept, FolderLink(cipherUuid, folderUuid.value)))
  }

  lemma SelectTwice(links: seq<FolderLink>, a: seq<FolderLink>, x: FolderLink)
    ensures Select(Select(links, (l: FolderLink) => l !in a), (l: FolderLink) => l != x)
         == Select(links, (l: FolderLink) => l !in a + [x])
  {
    if links != [] {
      SelectTwice(links[1..], a, x);
    }
  }

  lemma SelectAll(links: seq<FolderLink>)
    ensures Select(links, (l: FolderLink) => l !in []) == links
  {
    if links != [] {
      SelectAll(links[1..]);
    }
  }

  class FolderTable {
    var s: State

    method MoveToFolder(cipherUuid: Id, folderUuid: Option<Id>, userUuid: Id)
      modifies this
      ensures s == Moved(old(s), cipherUuid, folderUuid, userUuid)
    {
      var existing := ExistingLinks(s, cipherUuid, userUuid);
      ghost var start := s;
      ghost var deleted := DeletedRows(existing, folderUuid);
      SelectAll(s.links);
      for i := 0 to |existing|
        invariant i <= |deleted|
        invariant s == start.(links := Select(start.links, (l: FolderLink) => l !in deleted[..i]))
      {
        if Some(existing[i].folderUuid) == folderUuid {
          assert i == |deleted|;
          assert deleted[..i] == deleted;
          return;
        }
        assert i < |deleted|;
        assert deleted[..i + 1] == deleted[..i] + [existing[i]];
        SelectTwice(start.links, deleted[..i], existing[i]);
        s := s.(links := Select(s.links, (l: FolderLink) => l != existing[i]));
      }
      assert deleted[..|existing|] == deleted;
      if folderUuid.Some? {
        s := s.(links := AddLink(s.links, FolderLink(cipherUuid, folderUuid.value)));
      }
    }
  }

  // ---------------------------------------------------------------------
  // What a move leaves behind
  // ---------------------------------------------------------------------

  /** At most one folder per cipher and user. */
  ghost predicate AtMostOne(s: State) {
    forall c, u, a, b | a in s.links && b in s.links && Mine(s, c, u, a) && Mine(s, c, u, b) :: a == b
  }

  /** Every link points to an existing folder, as the foreign key demands. */
  ghost predicate FoldersExist(s: State) {
    forall l | l in s.links :: l.folderUuid in s.folders
  }

  /** Links of other ciphers and of other users' folders are never touched, whatever the table held before. */
  lemma MoveTouchesOnlyMine(s: State, cipherUuid: Id, folderUuid: Option<Id>, userUuid: Id, l: FolderLink)
    requires folderUuid.Some? ==> OwnedBy(s.folders, folderUuid.value, userUuid)
    requires !Mine(s, cipherUuid, userUuid, l)
    ensures l in Moved(s, cipherUuid, folderUuid, userUuid).links <==> l in s.links
  {
    var existing := ExistingLinks(s, cipherUuid, userUuid);
    assert l !in existing;
    assert l !in DeletedRows(existing, folderUuid);
  }

  /** From a table with at most one folder per user, a move leaves exactly the requested one. */
  lemma MoveLeavesExactlyTarget(s: State, cipherUuid: Id, folderUuid: Option<Id>, userUuid: Id, l: FolderLink)
    requires AtMostOne(s)
    requires folderUuid.Some? ==> OwnedBy(s.folders, folderUuid.value, userUuid)
    requires Mine(s, cipherUuid, userUuid, l)
    ensures l in Moved(s, cipherUuid, folderUuid, userUuid).links <==> Some(l.folderUuid) == folderUuid
  {
    var existing := ExistingLinks(s, cipherUuid, userUuid);
    var deleted := DeletedRows(existing, folderUuid);
    if |deleted| < |existing| {
      var target := existing[|deleted|];
      assert target in existing && Some(target.folderUuid) == folderUuid;
      assert target !in deleted;
      if l in s.links {
        assert Mine(s, cipherUuid, userUuid, target);
        assert l == target;
      } else {
        assert l != target;
        assert target == FolderLink(cipherUuid, target.folderUuid);
      }
    } else {
      assert deleted == existing;
      if l in s.links { assert l in existing; }
    }
  }

  /**
   Without that invariant the early return can leave stale folders behind: the move then succeeds in
   full exactly when the target is not among the rows already there, or is the last of them.
   */
  lemma MoveWithStaleRows(s: State, cipherUuid: Id, target: Id, userUuid: Id)
    requires OwnedBy(s.folders, target, userUuid) && NoDuplicates(s.links)
    ensures (forall l | Mine(s, cipherUuid, userUuid, l) ::
               l in Moved(s, cipherUuid, Some(target), userUuid).links <==> l.folderUuid == target)
       <==> (var existing := ExistingLinks(s, cipherUuid, userUuid);
             FolderLink(cipherUuid, target) !in existing || existing[|existing| - 1] == FolderLink(cipherUuid, target))
  {
    var existing := ExistingLinks(s, cipherUuid, userUuid);
    var deleted := DeletedRows(existing, Some(target));
    var t := FolderLink(cipherUuid, target);
    SelectKeepsNoDuplicates(s.links, (l: FolderLink) => Mine(s, cipherUuid, userUuid, l));
    if t !in existing {
      assert forall l | l in existing :: l.folderUuid != target by {
        assert forall l | l in existing :: l == FolderLink(cipherUuid, l.folderUuid);
      }
      assert deleted == existing;
      forall l | Mine(s, cipherUuid, userUuid, l)
        ensures l in Moved(s, cipherUuid, Some(target), userUuid).links <==> l.folderUuid == target
      {
        if l in s.links { assert l in existing; }
      }
    } else {
      assert t !in deleted;
      assert existing[|deleted|] in existing && existing[|deleted|] == t;
      var last := existing[|existing| - 1];
      if last == t {
        assert |deleted| == |existing| - 1;
        forall l | Mine(s, cipherUuid, userUuid, l)
          ensures l in Moved(s, cipherUuid, Some(target), userUuid).links <==> l.folderUuid == target
        {
          if l in s.links && l != t {
            assert l in existing;
            var i :| 0 <= i < |existing| && existing[i] == l;
            assert deleted[i] == l;
          }
        }
      } else {
        assert forall i | 0 <= i < |deleted| :: deleted[i] == existing[i] && deleted[i] != last;
        assert last !in deleted;
        assert last in existing && Mine(s, cipherUuid, userUuid, last);
      }
    }
  }

  // ---------------------------------------------------------------------
  // Runs
  // ---------------------------------------------------------------------

  datatype Event =
    | Move(userUuid: Id, cipherUuid: Id, target: Option<Id>)
    | CreateFolder(userUuid: Id, folderUuid: Id)
    | DeleteFolder(userUuid: Id, folderUuid: Id)
    | DeleteCipher(cipherUuid: Id)

  /** Callers check the folder's owner before moving; a new folder gets a fresh id; deletions cascade. */
  function Step(s: State, e: Event): State {
    match e
    case Move(u, c, f) =>
      if f.Some? && !OwnedBy(s.folders, f.value, u) then s else Moved(s, c, f, u)
    case CreateFolder(u, f) =>
      if f in s.folders then s else s.(folders := s.folders[f := u])
    case DeleteFolder(u, f) =>
      if !OwnedBy(s.folders, f, u) then s
      else State(s.folders - {f}, Select(s.links, (l: FolderLink) => l.folderUuid != f))
    case DeleteCipher(c) =>
      s.(links := Select(s.links, (l: FolderLink) => l.cipherUuid != c))
  }

  function Run(s: State, events: seq<Event>): State
    decreases |events|
  {
    if events == [] then s else Run(Step(s, events[0]), events[1..])
  }

  /** Nothing that one user does touches the folders of another, or what lies in them, but deleting a cipher. */
  lemma OthersFoldersStay(s: State, e: Event, l: FolderLink)
    requires l.folderUuid in s.folders && !e.DeleteCipher? && e.userUuid != s.folders[l.folderUuid]
    ensures l.folderUuid in Step(s, e).folders && Step(s, e).folders[l.folderUuid] == s.folders[l.folderUuid]
    ensures l in Step(s, e).links <==> l in s.links
  {
    if e.Move? && (e.target.None? || OwnedBy(s.folders, e.target.value, e.userUuid)) {
      MoveTouchesOnlyMine(s, e.cipherUuid, e.target, e.userUuid, l);
    }
  }

  lemma MoveKeepsInvariant(s: State, u: Id, c: Id, f: Option<Id>)
    requires AtMostOne(s) && FoldersExist(s) && (f.Some? ==> OwnedBy(s.folders, f.value, u))
    ensures AtMostOne(Moved(s, c, f, u)) && FoldersExist(Moved(s, c, f, u))
  {
    var t := Moved(s, c, f, u);
    forall k, v, a, b | a in t.links && b in t.links && Mine(t, k, v, a) && Mine(t, k, v, b) ensures a == b {
      if k == c && v == u {
        MoveLeavesExactlyTarget(s, c, f, u, a);
        MoveLeavesExactlyTarget(s, c, f, u, b);
      } else {
        MoveTouchesOnlyMine(s, c, f, u, a);
        MoveTouchesOnlyMine(s, c, f, u, b);
        assert Mine(s, k, v, a) && Mine(s, k, v, b);
      }
    }
  }

  lemma StepKeepsInvariant(s: State, e: Event)
    requires AtMostOne(s) && FoldersExist(s)
    ensures AtMostOne(Step(s, e)) && FoldersExist(Step(s, e))
  {
    var t := Step(s, e);
    match e
    case Move(u, c, f) =>
      if f.None? || OwnedBy(s.folders, f.value, u) { MoveKeepsInvariant(s, u, c, f); }
    case _ =>
      forall k, v, a, b | a in t.links && b in t.links && Mine(t, k, v, a) && Mine(t, k, v, b) ensures a == b {
        assert Mine(s, k, v, a) && Mine(s, k, v, b);
      }
  }

  /** Over every run from empty tables, no user ever has a cipher in two folders. */
  lemma {:induction false} RunsKeepOneFolder(s: State, events: seq<Event>)
    requires AtMostOne(s) && FoldersExist(s)
    ensures AtMostOne(Run(s, events)) && FoldersExist(Run(s, events))
    decreases |events|
  {
    if events != [] {
      StepKeepsInvariant(s, events[0]);
      RunsKeepOneFolder(Step(s, events[0]), events[1..]);
    }
  }
}
