/**
 The folder hierarchy: FolderCreate, FolderDelete and FolderUpdate from any number of
 devices as steps on one tree, each gated by the device's own hierarchy key.
 */
module Folders {
  import opened Strconv
  import opened SyncState

  const ROOT := 0x01
  const IPM_SUBTREE := 0x09
  /** The first id handed out to a user-created folder. */
  const UNASSIGNED_START := 0x21

  datatype Folder = Folder(parent: int, name: string)

  type Tree = map<int, Folder>

  predicate Builtin(id: int) {
    id < UNASSIGNED_START
  }

  const SPOOLER_QUEUE := 0x03

  /** The folders of the store's own table; the spooler queue is a search folder beside it. */
  predicate Provisioned(id: int) {
    ROOT <= id < UNASSIGNED_START && id != SPOOLER_QUEUE
  }

  // ---------- ancestry ----------

  /** `path` walks from a folder up the parent links. */
  ghost predicate IsPath(tree: Tree, path: seq<int>) {
    && |path| > 0
    && (forall i :: 0 <= i < |path| ==> path[i] in tree)
    && (forall i :: 0 <= i < |path| - 1 ==> path[i + 1] == tree[path[i]].parent)
  }

  ghost predicate PathTo(tree: Tree, path: seq<int>, id: int, top: int) {
    IsPath(tree, path) && path[0] == id && path[|path| - 1] == top
  }

  /** `id` is `top` or lies somewhere below it. */
  ghost predicate Under(tree: Tree, id: int, top: int) {
    exists path :: PathTo(tree, path, id, top)
  }

  ghost function Subtree(tree: Tree, top: int): set<int> {
    set id | id in tree && Under(tree, id, top)
  }

  lemma UnderSelf(tree: Tree, id: int)
    requires id in tree
    ensures Under(tree, id, id)
  {
    assert PathTo(tree, [id], id, id);
  }

  lemma UnderParent(tree: Tree, id: int, top: int)
    requires id in tree && Under(tree, tree[id].parent, top)
    ensures Under(tree, id, top)
  {
    var path :| PathTo(tree, path, tree[id].parent, top);
    assert PathTo(tree, [id] + path, id, top);
  }

  lemma UnderStep(tree: Tree, id: int, top: int)
    requires Under(tree, id, top) && id != top
    ensures id in tree && Under(tree, tree[id].parent, top)
  {
    var path :| PathTo(tree, path, id, top);
    assert PathTo(tree, path[1..], tree[id].parent, top);
  }

  // ---------- the invariant ----------

  /** A rank that falls along every parent link: no folder is its own ancestor. */
  ghost predicate IsRank(tree: Tree, rank: map<int, nat>) {
    && (forall id :: id in tree ==> id in rank)
    && (forall id :: id in tree && id != ROOT ==> tree[id].parent in rank && rank[tree[id].parent] < rank[id])
  }

  ghost predicate Acyclic(tree: Tree) {
    exists rank :: IsRank(tree, rank)
  }

  ghost predicate ParentsExist(tree: Tree) {
    && ROOT in tree && IPM_SUBTREE in tree && tree[ROOT].parent !in tree
    && forall id :: id in tree && id != ROOT ==> tree[id].parent in tree
  }

  ghost predicate SiblingsUnique(tree: Tree) {
    forall a, b :: a in tree && b in tree && tree[a] == tree[b] ==> a == b
  }

  /** No built-in folder has a user-created parent. */
  ghost predicate BuiltinsClosed(tree: Tree) {
    forall id :: id in tree && Builtin(id) && id != ROOT ==> Builtin(tree[id].parent)
  }

  ghost predicate TreeOk(tree: Tree) {
    ParentsExist(tree) && Acyclic(tree) && SiblingsUnique(tree) && BuiltinsClosed(tree)
  }

  /** Every built-in folder is where and what it was. */
  ghost predicate BuiltinsKept(tree: Tree, tree': Tree) {
    forall id :: Builtin(id) ==> (id in tree <==> id in tree') && (id in tree ==> tree[id] == tree'[id])
  }

  /** Every folder hangs off the root. */
  lemma {:induction false} ReachesRoot(tree: Tree, rank: map<int, nat>, id: int)
    requires ParentsExist(tree) && IsRank(tree, rank) && id in tree
    ensures Under(tree, id, ROOT)
    decreases rank[id]
  {
    if id == ROOT {
      UnderSelf(tree, ROOT);
    } else {
      ReachesRoot(tree, rank, tree[id].parent);
      UnderParent(tree, id, ROOT);
    }
  }

  lemma {:induction false} RankFalls(tree: Tree, rank: map<int, nat>, path: seq<int>)
    requires ParentsExist(tree) && IsRank(tree, rank) && IsPath(tree, path)
    ensures path[|path| - 1] in rank && path[0] in rank && rank[path[|path| - 1]] + |path| <= rank[path[0]] + 1
  {
    var first, last := path[0], path[|path| - 1];
    assert first in tree && last in tree;
    if |path| > 1 {
      assert path[1] == tree[path[0]].parent;
      assert path[0] != ROOT;
      RankFalls(tree, rank, path[1..]);
      assert path[1..][|path| - 2] == path[|path| - 1];
    }
  }

  /** No folder lies below itself. */
  lemma NoCycle(tree: Tree, path: seq<int>)
    requires TreeOk(tree) && IsPath(tree, path) && path[0] == path[|path| - 1]
    ensures |path| == 1
  {
    var rank :| IsRank(tree, rank);
    RankFalls(tree, rank, path);
  }

  /** The ancestors of a built-in folder are built-in. */
  lemma {:induction false} BuiltinAncestors(tree: Tree, path: seq<int>)
    requires ParentsExist(tree) && BuiltinsClosed(tree) && IsPath(tree, path) && Builtin(path[0])
    ensures Builtin(path[|path| - 1])
  {
    if |path| > 1 {
      assert path[1] == tree[path[0]].parent;
      assert path[0] != ROOT;
      BuiltinAncestors(tree, path[1..]);
    }
  }

  lemma BuiltinNotUnder(tree: Tree, id: int, top: int)
    requires TreeOk(tree) && Builtin(id) && !Builtin(top)
    ensures !Under(tree, id, top)
  {
    forall path | PathTo(tree, path, id, top) ensures false {
      BuiltinAncestors(tree, path);
    }
  }

  // ---------- what the steps do to the tree ----------

  lemma CreateKeeps(tree: Tree, parent: int, name: string, id: int)
    requires TreeOk(tree) && parent in tree && id !in tree && !Builtin(id)
    requires forall s :: s in tree ==> tree[s] != Folder(parent, name)
    requires tree[ROOT].parent != id
    ensures TreeOk(tree[id := Folder(parent, name)]) && BuiltinsKept(tree, tree[id := Folder(parent, name)])
  {
    var rank :| IsRank(tree, rank);
    assert IsRank(tree[id := Folder(parent, name)], rank[id := rank[parent] + 1]);
  }

  function Removed(tree: Tree, gone: set<int>): Tree {
    map id | id in tree && id !in gone :: tree[id]
  }

  lemma RemoveKeeps(tree: Tree, top: int)
    requires TreeOk(tree) && !Builtin(top)
    ensures TreeOk(Removed(tree, Subtree(tree, top))) && BuiltinsKept(tree, Removed(tree, Subtree(tree, top)))
  {
    var tree' := Removed(tree, Subtree(tree, top));
    forall id | Builtin(id) ensures id !in Subtree(tree, top) {
      BuiltinNotUnder(tree, id, top);
    }
    forall id | id in tree' && id != ROOT ensures tree[id].parent in tree' {
      if tree[id].parent in Subtree(tree, top) {
        UnderParent(tree, id, top);
      }
    }
    var rank :| IsRank(tree, rank);
    assert IsRank(tree', rank);
  }

  ghost function MovedRank(tree: Tree, rank: map<int, nat>, id: int, parent: int): map<int, nat>
    requires IsRank(tree, rank) && parent in tree
  {
    map x | x in tree :: if Under(tree, x, id) then rank[x] + rank[parent] + 1 else rank[x]
  }

  lemma MoveRanks(tree: Tree, rank: map<int, nat>, id: int, parent: int, name: string)
    requires ParentsExist(tree) && IsRank(tree, rank) && id in tree && id != ROOT
    requires parent in tree && !Under(tree, parent, id)
    ensures IsRank(tree[id := Folder(parent, name)], MovedRank(tree, rank, id, parent))
  {
    var tree', rank' := tree[id := Folder(parent, name)], MovedRank(tree, rank, id, parent);
    UnderSelf(tree, id);
    forall x | x in tree' && x != ROOT ensures tree'[x].parent in rank' && rank'[tree'[x].parent] < rank'[x] {
      if x != id {
        if Under(tree, x, id) {
          UnderStep(tree, x, id);
        } else if Under(tree, tree[x].parent, id) {
          UnderParent(tree, x, id);
        }
      }
    }
  }

  lemma MoveKeeps(tree: Tree, id: int, parent: int, name: string)
    requires TreeOk(tree) && id in tree && !Builtin(id) && parent in tree && !Under(tree, parent, id)
    requires forall s :: s in tree && s != id ==> tree[s] != Folder(parent, name)
    ensures TreeOk(tree[id := Folder(parent, name)]) && BuiltinsKept(tree, tree[id := Folder(parent, name)])
  {
    var rank :| IsRank(tree, rank);
    MoveRanks(tree, rank, id, parent, name);
    MovePlaces(tree, id, Folder(parent, name));
  }

  lemma MovePlaces(tree: Tree, id: int, f: Folder)
    requires ParentsExist(tree) && BuiltinsClosed(tree) && id in tree && !Builtin(id) && f.parent in tree
    ensures ParentsExist(tree[id := f]) && BuiltinsClosed(tree[id := f]) && BuiltinsKept(tree, tree[id := f])
  {
  }

  // ---------- requests and their statuses ----------

  const OK := 1
  const EXISTS := 2
  const SPECIAL := 3
  const NOT_FOUND := 4
  const PARENT_NOT_FOUND := 5
  const SERVER_ERROR := 6
  const BAD_SYNC_KEY := 9
  const BAD_REQUEST := 10

  /** `newId` is the id the store allocates for the new folder. */
  datatype Request =
    | Create(key: string, parentId: string, name: string, newId: int)
    | Delete(key: string, serverId: string)
    | Update(key: string, serverId: string, parentId: string, name: string)
    | Prime

  datatype State = State(tree: Tree, keys: map<string, string>)

  function KeyOf(keys: map<string, string>, dev: string): string {
    if dev in keys then keys[dev] else ""
  }

  predicate KeyMatches(st: State, dev: string, key: string) {
    key != "" && key == KeyOf(st.keys, dev)
  }

  /** resolveFolderParent: the mailbox root, an existing folder, or nothing. */
  datatype Parent = TopLevel | Named(id: int) | Missing

  function ResolveParent(tree: Tree, parentId: string): Parent {
    if parentId == "" || parentId == "0" then TopLevel
    else
      match ParseInt(parentId)
      case None => Missing
      case Some(id) => if id in tree then Named(id) else Missing
  }

  function ParentFolder(p: Parent): int
    requires !p.Missing?
  {
    if p.TopLevel? then IPM_SUBTREE else p.id
  }

  ghost predicate Taken(tree: Tree, parent: int, name: string) {
    exists id :: id in tree && tree[id] == Folder(parent, name)
  }

  ghost predicate TakenByOther(tree: Tree, parent: int, name: string, fid: int) {
    exists id :: id in tree && id != fid && tree[id] == Folder(parent, name)
  }

  ghost function CreateStatus(st: State, dev: string, r: Request): int
    requires r.Create?
  {
    if r.name == "" then BAD_REQUEST
    else if !KeyMatches(st, dev, r.key) then BAD_SYNC_KEY
    else
      var p := ResolveParent(st.tree, r.parentId);
      if p.Missing? then PARENT_NOT_FOUND
      else if Taken(st.tree, ParentFolder(p), r.name) then EXISTS
      else OK
  }

  function DeleteStatus(st: State, dev: string, r: Request): int
    requires r.Delete?
  {
    if r.serverId == "" then BAD_REQUEST
    else if !KeyMatches(st, dev, r.key) then BAD_SYNC_KEY
    else
      match ParseInt(r.serverId)
      case None => NOT_FOUND
      case Some(fid) => if Builtin(fid) then SPECIAL else if fid !in st.tree then NOT_FOUND else OK
  }

  ghost function UpdateStatus(st: State, dev: string, r: Request): int
    requires r.Update?
  {
    if r.serverId == "" || r.name == "" then BAD_REQUEST
    else if !KeyMatches(st, dev, r.key) then BAD_SYNC_KEY
    else
      match ParseInt(r.serverId)
      case None => NOT_FOUND
      case Some(fid) =>
        var p := ResolveParent(st.tree, r.parentId);
        if Builtin(fid) then SPECIAL
        else if p.Missing? then PARENT_NOT_FOUND
        else if TakenByOther(st.tree, ParentFolder(p), r.name, fid) then EXISTS
        // The store refuses a move into the folder's own subtree, and looks only when a parent was named.
        else if p.Named? && Under(st.tree, p.id, fid) then SERVER_ERROR
        else if fid !in st.tree then NOT_FOUND
        else OK
  }

  /** The state after a successful rename or move. */
  function Updated(st: State, dev: string, r: Request): State
    requires r.Update? && ParseInt(r.serverId).Some? && !ResolveParent(st.tree, r.parentId).Missing?
  {
    State(st.tree[ParseInt(r.serverId).value := Folder(ParentFolder(ResolveParent(st.tree, r.parentId)), r.name)],
          Advanced(st.keys, dev))
  }

  /** The folder does not share its new place and name with another one while it already has them. */
  ghost predicate UpdateDecided(tree: Tree, r: Request)
    requires r.Update?
  {
    var fid, p := ParseInt(r.serverId), ResolveParent(tree, r.parentId);
    fid.Some? && !p.Missing? && fid.value in tree && tree[fid.value] == Folder(ParentFolder(p), r.name) ==>
      !TakenByOther(tree, ParentFolder(p), r.name, fid.value)
  }

  ghost function StatusOf(st: State, dev: string, r: Request): int {
    match r
    case Create(_, _, _, _) => CreateStatus(st, dev, r)
    case Delete(_, _) => DeleteStatus(st, dev, r)
    case Update(_, _, _, _) => UpdateStatus(st, dev, r)
    case Prime => OK
  }

  /** A status other than OK answers without touching the tree or any key. */
  ghost function Next(st: State, dev: string, r: Request): State {
    if StatusOf(st, dev, r) != OK then st
    else
      match r
      case Create(_, parentId, name, newId) =>
        State(st.tree[newId := Folder(ParentFolder(ResolveParent(st.tree, parentId)), name)], Advanced(st.keys, dev))
      case Delete(_, serverId) =>
        State(Removed(st.tree, Subtree(st.tree, ParseInt(serverId).value)), Advanced(st.keys, dev))
      case Update(_, _, _, _) => Updated(st, dev, r)
      case Prime => st.(keys := st.keys[dev := "1"])
  }

  function Advanced(keys: map<string, string>, dev: string): map<string, string> {
    keys[dev := NextSyncKey(KeyOf(keys, dev))]
  }

  /** The store allocates a fresh id outside the built-in range. */
  ghost predicate Allocated(st: State, r: Request) {
    r.Create? ==> !Builtin(r.newId) && r.newId !in st.tree && (ROOT in st.tree ==> st.tree[ROOT].parent != r.newId)
  }

  /** Every step keeps the tree sound and every built-in folder in place. */
  lemma StepKeepsTree(st: State, dev: string, r: Request)
    requires TreeOk(st.tree) && Allocated(st, r)
    ensures TreeOk(Next(st, dev, r).tree) && BuiltinsKept(st.tree, Next(st, dev, r).tree)
  {
    if StatusOf(st, dev, r) == OK {
      match r
      case Create(_, parentId, name, newId) =>
        CreateKeeps(st.tree, ParentFolder(ResolveParent(st.tree, parentId)), name, newId);
      case Delete(_, serverId) =>
        RemoveKeeps(st.tree, ParseInt(serverId).value);
      case Update(_, serverId, parentId, name) =>
        var p, fid := ResolveParent(st.tree, parentId), ParseInt(serverId).value;
        if p.TopLevel? {
          // No cycle check guards this move; the invariant does.
          BuiltinNotUnder(st.tree, IPM_SUBTREE, fid);
        }
        MoveKeeps(st.tree, fid, ParentFolder(p), name);
      case Prime =>
    }
  }

  // ---------- the refusals are exact ----------

  function FirstIndex(path: seq<int>, id: int): (k: nat)
    requires id in path
    ensures k < |path| && path[k] == id && id !in path[..k]
  {
    if path[0] == id then 0
    else
      assert path == [path[0]] + path[1..];
      1 + FirstIndex(path[1..], id)
  }

  /** Hanging a folder under its own descendant closes a cycle. */
  lemma MoveBelowBreaks(tree: Tree, id: int, parent: int, name: string)
    requires id in tree && Under(tree, parent, id)
    ensures !TreeOk(tree[id := Folder(parent, name)])
  {
    var tree' := tree[id := Folder(parent, name)];
    var path :| PathTo(tree, path, parent, id);
    var up := path[..FirstIndex(path, id) + 1];
    var loop := [id] + up;
    assert IsPath(tree', loop) by {
      forall i | 0 <= i < |loop| - 1 ensures loop[i + 1] == tree'[loop[i]].parent {
        if i > 0 {
          assert loop[i] == path[i - 1] && loop[i + 1] == path[i];
          assert path[i - 1] in path[..FirstIndex(path, id)];
        }
      }
    }
    if TreeOk(tree') {
      NoCycle(tree', loop);
    }
  }

  /** Two folders of one name under one parent. */
  lemma DuplicateBreaks(tree: Tree, id: int, f: Folder, other: int)
    requires other in tree && other != id && tree[other] == f
    ensures !TreeOk(tree[id := f])
  {
    var tree' := tree[id := f];
    assert tree'[id] == tree'[other];
  }

  /** A well-formed rename or move of a user folder is refused exactly when it would break the tree. */
  lemma UpdateRefusedIffBreaks(st: State, dev: string, r: Request, fid: int)
    requires TreeOk(st.tree) && r.Update? && r.serverId != "" && r.name != "" && KeyMatches(st, dev, r.key)
    requires ParseInt(r.serverId) == Some(fid) && !Builtin(fid) && fid in st.tree
    requires !ResolveParent(st.tree, r.parentId).Missing?
    ensures var parent := ParentFolder(ResolveParent(st.tree, r.parentId));
            StatusOf(st, dev, r) == OK <==> TreeOk(st.tree[fid := Folder(parent, r.name)])
  {
    var parent := ParentFolder(ResolveParent(st.tree, r.parentId));
    if StatusOf(st, dev, r) == OK {
      StepKeepsTree(st, dev, r);
    } else if TakenByOther(st.tree, parent, r.name, fid) {
      var other :| other in st.tree && other != fid && st.tree[other] == Folder(parent, r.name);
      DuplicateBreaks(st.tree, fid, Folder(parent, r.name), other);
    } else {
      MoveBelowBreaks(st.tree, fid, parent, r.name);
    }
  }

  /** A well-formed creation is refused exactly when it would break the tree. */
  lemma CreateRefusedIffBreaks(st: State, dev: string, r: Request)
    requires TreeOk(st.tree) && r.Create? && Allocated(st, r) && r.name != "" && KeyMatches(st, dev, r.key)
    requires !ResolveParent(st.tree, r.parentId).Missing?
    ensures var parent := ParentFolder(ResolveParent(st.tree, r.parentId));
            StatusOf(st, dev, r) == OK <==> TreeOk(st.tree[r.newId := Folder(parent, r.name)])
  {
    var parent := ParentFolder(ResolveParent(st.tree, r.parentId));
    if StatusOf(st, dev, r) == OK {
      StepKeepsTree(st, dev, r);
    } else {
      var other :| other in st.tree && st.tree[other] == Folder(parent, r.name);
      DuplicateBreaks(st.tree, r.newId, Folder(parent, r.name), other);
    }
  }

  // ---------- runs ----------

  datatype Event = Event(dev: string, request: Request)

  ghost predicate Run(sts: seq<State>, es: seq<Event>) {
    && |sts| == |es| + 1
    && forall i :: 0 <= i < |es| ==> StepAt(sts, es, i)
  }

  ghost predicate StepAt(sts: seq<State>, es: seq<Event>, i: nat)
    requires |sts| == |es| + 1 && i < |es|
  {
    Allocated(sts[i], es[i].request) && sts[i + 1] == Next(sts[i], es[i].dev, es[i].request)
  }

  lemma RunStepKeepsTree(sts: seq<State>, es: seq<Event>, n: nat)
    requires Run(sts, es) && 0 < n <= |es| && TreeOk(sts[n - 1].tree)
    ensures TreeOk(sts[n].tree) && BuiltinsKept(sts[n - 1].tree, sts[n].tree)
  {
    assert StepAt(sts, es, n - 1);
    StepKeepsTree(sts[n - 1], es[n - 1].dev, es[n - 1].request);
  }

  lemma {:induction false} RunKeepsSound(sts: seq<State>, es: seq<Event>, n: nat)
    requires Run(sts, es) && n <= |es| && TreeOk(sts[0].tree)
    ensures TreeOk(sts[n].tree)
  {
    if n > 0 {
      RunKeepsSound(sts, es, n - 1);
      RunStepKeepsTree(sts, es, n);
    }
  }

  function Trees(sts: seq<State>): (trees: seq<Tree>)
    ensures |trees| == |sts| && forall i :: 0 <= i < |sts| ==> trees[i] == sts[i].tree
  {
    seq(|sts|, i requires 0 <= i < |sts| => sts[i].tree)
  }

  ghost predicate KeptAt(trees: seq<Tree>, n: nat)
    requires 0 < n < |trees|
  {
    BuiltinsKept(trees[n - 1], trees[n])
  }

  lemma {:induction false} KeptThroughout(trees: seq<Tree>, n: nat)
    requires n < |trees| && forall i :: 0 < i < |trees| ==> KeptAt(trees, i)
    ensures BuiltinsKept(trees[0], trees[n])
  {
    if n > 0 {
      KeptThroughout(trees, n - 1);
      assert KeptAt(trees, n);
    }
  }

  /**
   The folder tree invariant over every run of any number of devices: parents exist, no
   folder is its own ancestor, sibling names are unique, built-in folders hang under
   built-in folders only, and none of them is ever moved, renamed or removed.
   */
  lemma RunKeepsTree(sts: seq<State>, es: seq<Event>, n: nat)
    requires Run(sts, es) && n <= |es| && TreeOk(sts[0].tree)
    ensures TreeOk(sts[n].tree) && BuiltinsKept(sts[0].tree, sts[n].tree)
  {
    RunKeepsSound(sts, es, n);
    forall i | 0 < i < |sts| ensures KeptAt(Trees(sts), i) {
      RunKeepsSound(sts, es, i - 1);
      RunStepKeepsTree(sts, es, i);
    }
    KeptThroughout(Trees(sts), n);
  }

  // ---------- hierarchy keys ----------

  ghost predicate KeyOk(key: string) {
    key == "" || IssuedKey(key)
  }

  predicate Keyed(r: Request) {
    !r.Prime?
  }

  /** A command changes anything only under the device's current key, and then spends it. */
  lemma StepSpendsKey(st: State, dev: string, r: Request)
    requires Keyed(r) && KeyOk(KeyOf(st.keys, dev))
    ensures StatusOf(st, dev, r) == OK ==> r.key == KeyOf(st.keys, dev) && IssuedKey(r.key)
    ensures StatusOf(st, dev, r) != OK ==> Next(st, dev, r) == st
    ensures var st' := Next(st, dev, r);
            && KeyOk(KeyOf(st'.keys, dev))
            && (KeyNumber(KeyOf(st.keys, dev)) < TWO_64 - 1 ==>
                  KeyNumber(KeyOf(st'.keys, dev)) ==
                  KeyNumber(KeyOf(st.keys, dev)) + if StatusOf(st, dev, r) == OK then 1 else 0)
  {
    if StatusOf(st, dev, r) == OK {
      NextOfIssued(KeyOf(st.keys, dev));
    }
  }

  lemma OtherKeysKept(st: State, dev: string, r: Request, other: string)
    requires other != dev
    ensures KeyOf(Next(st, dev, r).keys, other) == KeyOf(st.keys, other)
  {
  }

  /** Successful commands of one device among events i .. j. */
  ghost function Successes(sts: seq<State>, es: seq<Event>, dev: string, i: nat, j: nat): nat
    requires |sts| == |es| + 1 && i <= j <= |es|
  {
    if i == j then 0
    else Successes(sts, es, dev, i, j - 1) + if SucceedsAt(sts, es, dev, j - 1) then 1 else 0
  }

  ghost predicate SucceedsAt(sts: seq<State>, es: seq<Event>, dev: string, k: nat)
    requires |sts| == |es| + 1 && k < |es|
  {
    es[k].dev == dev && StatusOf(sts[k], dev, es[k].request) == OK
  }

  /** The device does not prime between i and j, and its counter does not run out. */
  ghost predicate SteadyKey(sts: seq<State>, es: seq<Event>, dev: string, i: nat, j: nat)
    requires |sts| == |es| + 1 && i <= j <= |es|
  {
    forall k :: i <= k < j ==>
      (es[k].dev == dev ==> Keyed(es[k].request)) && KeyNumber(KeyOf(sts[k].keys, dev)) < TWO_64 - 1
  }

  /** Between primes a device's hierarchy key counts its own successful commands, whatever other devices do. */
  lemma {:induction false} KeyCountsSuccesses(sts: seq<State>, es: seq<Event>, dev: string, i: nat, j: nat)
    requires Run(sts, es) && i <= j <= |es| && KeyOk(KeyOf(sts[i].keys, dev))
    requires SteadyKey(sts, es, dev, i, j)
    ensures KeyOk(KeyOf(sts[j].keys, dev))
    ensures KeyNumber(KeyOf(sts[j].keys, dev)) == KeyNumber(KeyOf(sts[i].keys, dev)) + Successes(sts, es, dev, i, j)
  {
    if i < j {
      KeyCountsSuccesses(sts, es, dev, i, j - 1);
      assert StepAt(sts, es, j - 1);
      var e := es[j - 1];
      if e.dev == dev {
        StepSpendsKey(sts[j - 1], dev, e.request);
      } else {
        OtherKeysKept(sts[j - 1], e.dev, e.request, dev);
      }
    }
  }

  /** The tree moves only on a success. */
  lemma {:induction false} TreeMovesOnSuccess(sts: seq<State>, es: seq<Event>, i: nat, j: nat)
    requires Run(sts, es) && i <= j <= |es|
    requires forall k :: i <= k < j ==> !SucceedsAt(sts, es, es[k].dev, k) || es[k].request.Prime?
    ensures sts[j].tree == sts[i].tree
  {
    if i < j {
      TreeMovesOnSuccess(sts, es, i, j - 1);
      assert StepAt(sts, es, j - 1);
      assert !SucceedsAt(sts, es, es[j - 1].dev, j - 1) || es[j - 1].request.Prime?;
    }
  }

  // ---------- the handlers ----------

  /** folderSubtreeIDs: the folder and its descendants, level by level; empty when it does not exist. */
  method FolderSubtree(tree: Tree, top: int) returns (sub: set<int>)
    ensures sub == Subtree(tree, top)
    ensures sub == {} <==> top !in tree
    ensures forall id :: id in sub <==> Under(tree, id, top)
  {
    if top !in tree {
      return {};
    }
    UnderSelf(tree, top);
    sub := {top};
    var next := set id | id in tree && tree[id].parent in sub && id !in sub;
    while next != {}
      invariant top in sub && sub <= tree.Keys && forall id :: id in sub ==> Under(tree, id, top)
      invariant next == set id | id in tree && tree[id].parent in sub && id !in sub
      decreases tree.Keys - sub
    {
      forall id | id in next ensures Under(tree, id, top) {
        UnderParent(tree, id, top);
      }
      assert next !! sub && next <= tree.Keys && |next| > 0;
      sub := sub + next;
      next := set id | id in tree && tree[id].parent in sub && id !in sub;
    }
    forall id | id in tree && tree[id].parent in sub ensures id in sub {
      assert id !in next;
    }
    forall id | Under(tree, id, top) ensures id in sub {
      var path :| PathTo(tree, path, id, top);
      ClosedHoldsPaths(tree, sub, path);
    }
  }

  lemma {:induction false} ClosedHoldsPaths(tree: Tree, sub: set<int>, path: seq<int>)
    requires IsPath(tree, path) && path[|path| - 1] in sub
    requires forall id :: id in tree && tree[id].parent in sub ==> id in sub
    ensures path[0] in sub
  {
    if |path| > 1 {
      assert path[1] == tree[path[0]].parent;
      ClosedHoldsPaths(tree, sub, path[1..]);
    }
  }

  /** FolderByName: some folder of that name under that parent. */
  method FolderByName(tree: Tree, parent: int, name: string) returns (id: Option<int>)
    ensures id.Some? ==> id.value in tree && tree[id.value] == Folder(parent, name)
    ensures id.None? <==> !Taken(tree, parent, name)
  {
    if x :| x in tree && tree[x] == Folder(parent, name) {
      return Some(x);
    }
    return None;
  }

  /** The mailbox's folder tree and each device's hierarchy key. */
  class Hierarchy {
    var tree: Tree
    var keys: map<string, string>

    constructor (tree: Tree)
      ensures Value() == State(tree, map[])
    {
      this.tree, keys := tree, map[];
    }

    ghost function Value(): State
      reads this
    {
      State(tree, keys)
    }

    method FolderSyncPrime(dev: string)
      modifies this
      ensures Value() == Next(old(Value()), dev, Prime)
    {
      keys := keys[dev := "1"];
    }

    method HandleFolderCreate(dev: string, r: Request) returns (code: int, key: string, serverId: string)
      requires r.Create?
      modifies this
      ensures code == StatusOf(old(Value()), dev, r) && Value() == Next(old(Value()), dev, r)
      ensures if code == OK then key == KeyOf(keys, dev) && serverId == FormatInt(r.newId) else key == serverId == ""
    {
      if r.name == "" {
        return BAD_REQUEST, "", "";
      }
      if r.key == "" || r.key != KeyOf(keys, dev) {
        return BAD_SYNC_KEY, "", "";
      }
      var p := ResolveParent(tree, r.parentId);
      if p.Missing? {
        return PARENT_NOT_FOUND, "", "";
      }
      var existing := FolderByName(tree, ParentFolder(p), r.name);
      if existing.Some? {
        return EXISTS, "", "";
      }
      tree := tree[r.newId := Folder(ParentFolder(p), r.name)];
      keys := keys[dev := NextSyncKey(KeyOf(keys, dev))];
      return OK, keys[dev], FormatInt(r.newId);
    }

    method HandleFolderDelete(dev: string, r: Request) returns (code: int, key: string)
      requires r.Delete?
      modifies this
      ensures code == StatusOf(old(Value()), dev, r) && Value() == Next(old(Value()), dev, r)
      ensures key == if code == OK then KeyOf(keys, dev) else ""
    {
      if r.serverId == "" {
        return BAD_REQUEST, "";
      }
      if r.key == "" || r.key != KeyOf(keys, dev) {
        return BAD_SYNC_KEY, "";
      }
      var fid := ParseInt(r.serverId);
      if fid.None? {
        return NOT_FOUND, "";
      }
      if fid.value < UNASSIGNED_START {
        return SPECIAL, "";
      }
      var sub := FolderSubtree(tree, fid.value);
      if sub == {} {
        return NOT_FOUND, "";
      }
      tree := map id | id in tree && id !in sub :: tree[id];
      keys := keys[dev := NextSyncKey(KeyOf(keys, dev))];
      return OK, keys[dev];
    }

    /** renameFolderStatus: the store's refusals, in its order. */
    method RenameFolder(fid: int, p: Parent, name: string) returns (code: int)
      requires !p.Missing?
      modifies this`tree
      ensures code == if Provisioned(fid) || (p.Named? && Under(old(tree), p.id, fid)) then SERVER_ERROR
                      else if fid !in old(tree) then NOT_FOUND else OK
      ensures tree == if code == OK then old(tree)[fid := Folder(ParentFolder(p), name)] else old(tree)
    {
      if Provisioned(fid) {
        return SERVER_ERROR;
      }
      if p.Named? {
        var sub := FolderSubtree(tree, fid);
        if p.id in sub {
          return SERVER_ERROR;
        }
      }
      if fid !in tree {
        return NOT_FOUND;
      }
      tree := tree[fid := Folder(ParentFolder(p), name)];
      return OK;
    }

    /**
     Of two siblings of one name the code may find either; which one matters only when the
     folder itself is one of them.
     */
    method HandleFolderUpdate(dev: string, r: Request) returns (code: int, key: string)
      requires r.Update?
      modifies this
      ensures UpdateDecided(old(tree), r) ==>
              code == StatusOf(old(Value()), dev, r) && Value() == Next(old(Value()), dev, r)
      ensures code == StatusOf(old(Value()), dev, r) || StatusOf(old(Value()), dev, r) == EXISTS
      ensures code != OK ==> Value() == old(Value())
      ensures key == if code == OK then KeyOf(keys, dev) else ""
      ensures code == OK ==> KeyMatches(old(Value()), dev, r.key) && Value() == Updated(old(Value()), dev, r)
    {
      if r.serverId == "" || r.name == "" {
        return BAD_REQUEST, "";
      }
      if r.key == "" || r.key != KeyOf(keys, dev) {
        return BAD_SYNC_KEY, "";
      }
      var fid := ParseInt(r.serverId);
      if fid.None? {
        return NOT_FOUND, "";
      }
      if fid.value < UNASSIGNED_START {
        return SPECIAL, "";
      }
      var p := ResolveParent(tree, r.parentId);
      if p.Missing? {
        return PARENT_NOT_FOUND, "";
      }
      var existing := FolderByName(tree, ParentFolder(p), r.name);
      if existing.Some? && existing.value != fid.value {
        return EXISTS, "";
      }
      code := RenameFolder(fid.value, p, r.name);
      key := "";
      if code == OK {
        keys := keys[dev := NextSyncKey(KeyOf(keys, dev))];
        key := keys[dev];
      }
    }
  }
}
