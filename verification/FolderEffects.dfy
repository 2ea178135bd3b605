/**
 What the folder commands do, read off the request's own texts: when each succeeds, what
 the tree is afterwards, and which folders a whole run of them leaves.
 */
module FolderEffects {
  import opened Strconv
  import opened Folders

  /** The folder a ParentId names: the top of the mailbox for none or "0", else the id it spells. */
  ghost predicate Names(parentId: string, parent: int) {
    if parentId == "" || parentId == "0" then parent == 9 else ParseInt(parentId) == Some(parent)
  }

  /** A named parent has to exist; the top of the mailbox is not looked up. */
  ghost predicate ParentFound(tree: Tree, parentId: string) {
    parentId == "" || parentId == "0" || exists id :: id in tree && ParseInt(parentId) == Some(id)
  }

  ghost predicate SiblingOf(tree: Tree, id: int, parentId: string, name: string) {
    id in tree && tree[id].name == name && Names(parentId, tree[id].parent)
  }

  /** The request carries the key the device was last given. */
  predicate HoldsKey(st: State, dev: string, key: string) {
    key != "" && dev in st.keys && st.keys[dev] == key
  }

  /** The folder a ServerId spells, one of the user's own. */
  predicate SpellsUserFolder(serverId: string, fid: int) {
    serverId != "" && ParseInt(serverId) == Some(fid) && fid >= 0x21
  }

  /** The trees agree everywhere but at one id. */
  ghost predicate SameBut(tree: Tree, tree': Tree, fid: int) {
    forall id :: id != fid ==> (id in tree <==> id in tree') && (id in tree ==> tree[id] == tree'[id])
  }

  lemma NamesParent(tree: Tree, parentId: string)
    ensures ParentFound(tree, parentId) <==> !ResolveParent(tree, parentId).Missing?
    ensures !ResolveParent(tree, parentId).Missing? ==>
              forall p :: Names(parentId, p) <==> p == ParentFolder(ResolveParent(tree, parentId))
  {
  }

  // ---------- FolderCreate ----------

  /** A creation succeeds exactly with a name, the current key, an existing parent and no sibling of that name. */
  lemma CreateSucceedsIff(st: State, dev: string, r: Request)
    requires r.Create?
    ensures StatusOf(st, dev, r) == 1 <==>
            && r.name != "" && HoldsKey(st, dev, r.key) && ParentFound(st.tree, r.parentId)
            && forall id :: !SiblingOf(st.tree, id, r.parentId, r.name)
  {
    NamesParent(st.tree, r.parentId);
    var p := ResolveParent(st.tree, r.parentId);
    if !p.Missing? {
      forall id | id in st.tree
        ensures SiblingOf(st.tree, id, r.parentId, r.name) <==> st.tree[id] == Folder(ParentFolder(p), r.name)
      {
      }
    }
  }

  /** It adds one folder, of that name, under that parent, and a refused one adds none. */
  lemma CreateAdds(st: State, dev: string, r: Request)
    requires r.Create?
    ensures var tree' := Next(st, dev, r).tree;
            if StatusOf(st, dev, r) == 1 then
              && SameBut(st.tree, tree', r.newId) && r.newId in tree'
              && tree'[r.newId].name == r.name && Names(r.parentId, tree'[r.newId].parent)
            else tree' == st.tree
  {
    NamesParent(st.tree, r.parentId);
  }

  // ---------- FolderDelete ----------

  /** A deletion succeeds exactly with the current key and the id of an existing folder of the user's. */
  lemma DeleteSucceedsIff(st: State, dev: string, r: Request)
    requires r.Delete?
    ensures StatusOf(st, dev, r) == 1 <==>
            HoldsKey(st, dev, r.key) && exists fid :: fid in st.tree && SpellsUserFolder(r.serverId, fid)
  {
    if StatusOf(st, dev, r) == 1 {
      assert SpellsUserFolder(r.serverId, ParseInt(r.serverId).value);
    }
  }

  /** It removes the folder with everything below it and leaves all other folders as they are. */
  lemma DeleteRemoves(st: State, dev: string, r: Request, fid: int)
    requires r.Delete? && StatusOf(st, dev, r) == 1 && SpellsUserFolder(r.serverId, fid)
    ensures var tree' := Next(st, dev, r).tree;
            forall id :: && (id in tree' <==> id in st.tree && !Under(st.tree, id, fid))
                         && (id in tree' ==> tree'[id] == st.tree[id])
  {
  }

  // ---------- FolderUpdate ----------

  /**
   A rename or move succeeds exactly with a name, the current key, an existing folder of
   the user's, an existing parent that is not at or below the folder when one is named, and
   no other folder of that name there.
   */
  lemma UpdateSucceedsIff(st: State, dev: string, r: Request)
    requires r.Update?
    ensures StatusOf(st, dev, r) == 1 <==>
            && r.name != "" && HoldsKey(st, dev, r.key) && ParentFound(st.tree, r.parentId)
            && exists fid :: fid in st.tree && SpellsUserFolder(r.serverId, fid) && MoveAllowed(st.tree, fid, r)
  {
    NamesParent(st.tree, r.parentId);
    var p, fid := ResolveParent(st.tree, r.parentId), ParseInt(r.serverId);
    if !p.Missing? && fid.Some? {
      forall id | id in st.tree
        ensures SiblingOf(st.tree, id, r.parentId, r.name) <==> st.tree[id] == Folder(ParentFolder(p), r.name)
      {
      }
      assert MoveAllowed(st.tree, fid.value, r) <==>
             !TakenByOther(st.tree, ParentFolder(p), r.name, fid.value) &&
             !(p.Named? && Under(st.tree, p.id, fid.value));
    }
    if StatusOf(st, dev, r) == 1 {
      assert SpellsUserFolder(r.serverId, fid.value);
    }
  }

  ghost predicate MoveAllowed(tree: Tree, fid: int, r: Request)
    requires r.Update?
  {
    && (forall id :: id != fid ==> !SiblingOf(tree, id, r.parentId, r.name))
    && (r.parentId != "" && r.parentId != "0" ==>
          forall parent :: ParseInt(r.parentId) == Some(parent) ==> !Under(tree, parent, fid))
  }

  /** It gives the folder that name and parent and leaves all other folders as they are. */
  lemma UpdateMoves(st: State, dev: string, r: Request, fid: int)
    requires r.Update? && SpellsUserFolder(r.serverId, fid)
    ensures var tree' := Next(st, dev, r).tree;
            if StatusOf(st, dev, r) == 1 then
              && SameBut(st.tree, tree', fid) && fid in tree'
              && tree'[fid].name == r.name && Names(r.parentId, tree'[fid].parent)
            else tree' == st.tree
  {
    NamesParent(st.tree, r.parentId);
  }

  // ---------- keys ----------

  /** A prime gives the device key "1", and like every command touches no other device's key. */
  lemma PrimeGivesOne(st: State, dev: string, r: Request)
    ensures Next(st, dev, Prime).tree == st.tree
    ensures dev in Next(st, dev, Prime).keys && Next(st, dev, Prime).keys[dev] == "1"
    ensures forall other :: other != dev ==>
              && (other in Next(st, dev, r).keys <==> other in st.keys)
              && (other in st.keys ==> Next(st, dev, r).keys[other] == st.keys[other])
  {
  }

  /** A success hands out the key numbered next; a refusal leaves the key as it was. */
  lemma SuccessGivesNext(st: State, dev: string, r: Request, n: nat)
    requires !r.Prime? && n < TWO_64 - 1 && dev in st.keys && st.keys[dev] == FormatUint(n)
    ensures var keys' := Next(st, dev, r).keys;
            dev in keys' && keys'[dev] == FormatUint(if StatusOf(st, dev, r) == 1 then n + 1 else n)
  {
    ParseFormatUint(n, TWO_64);
  }

  // ---------- refusals ----------

  /** The codes of MS-ASCMD: 10 for an empty name or id, 9 for a key that is not current, 3 for a built-in folder. */
  lemma RefusedRequest(st: State, dev: string, r: Request)
    requires !r.Prime?
    ensures StatusOf(st, dev, r) == 10 <==> (!r.Delete? && r.name == "") || (!r.Create? && r.serverId == "")
    ensures StatusOf(st, dev, r) == 9 <==> StatusOf(st, dev, r) != 10 && !HoldsKey(st, dev, r.key)
    ensures StatusOf(st, dev, r) == 3 <==>
            && StatusOf(st, dev, r) != 10 && HoldsKey(st, dev, r.key) && !r.Create?
            && ParseInt(r.serverId).Some? && ParseInt(r.serverId).value < 0x21
  {
  }

  /** Some folder other than the one the request is about has the wanted name in the wanted place. */
  ghost predicate NameTaken(tree: Tree, r: Request)
    requires r.Create? || r.Update?
  {
    exists id :: SiblingOf(tree, id, r.parentId, r.name) && (r.Update? ==> ParseInt(r.serverId) != Some(id))
  }

  /** The wanted parent is named and lies at or below the folder. */
  ghost predicate BelowItself(tree: Tree, r: Request)
    requires r.Update?
  {
    && r.parentId != "" && r.parentId != "0" && ParseInt(r.parentId).Some? && ParseInt(r.serverId).Some?
    && Under(tree, ParseInt(r.parentId).value, ParseInt(r.serverId).value)
  }

  /** Past those, a creation: 5 without a parent, then 2 for a name taken. */
  lemma CreateRefused(st: State, dev: string, r: Request)
    requires r.Create? && StatusOf(st, dev, r) !in {10, 9}
    ensures StatusOf(st, dev, r) ==
            if !ParentFound(st.tree, r.parentId) then 5 else if NameTaken(st.tree, r) then 2 else 1
  {
    NamesParent(st.tree, r.parentId);
    TakenIff(st.tree, r);
  }

  lemma TakenIff(tree: Tree, r: Request)
    requires r.Create? || r.Update?
    ensures var p := ResolveParent(tree, r.parentId);
            !p.Missing? ==>
              && (r.Create? ==> (NameTaken(tree, r) <==> Taken(tree, ParentFolder(p), r.name)))
              && (r.Update? && ParseInt(r.serverId).Some? ==>
                    (NameTaken(tree, r) <==> TakenByOther(tree, ParentFolder(p), r.name, ParseInt(r.serverId).value)))
  {
    NamesParent(tree, r.parentId);
    var p := ResolveParent(tree, r.parentId);
    if !p.Missing? {
      forall id | id in tree
        ensures SiblingOf(tree, id, r.parentId, r.name) <==> tree[id] == Folder(ParentFolder(p), r.name)
      {
      }
    }
  }

  /** A deletion: 4 for an id that is no number or no folder. */
  lemma DeleteRefused(st: State, dev: string, r: Request)
    requires r.Delete? && StatusOf(st, dev, r) !in {10, 9, 3}
    ensures StatusOf(st, dev, r) ==
            if ParseInt(r.serverId).Some? && ParseInt(r.serverId).value in st.tree then 1 else 4
  {
  }

  /**
   A rename or move: 4 for an id that is no number, then 5 and 2 as above, 6 for a move
   below itself, 4 for no folder.
   */
  lemma UpdateRefused(st: State, dev: string, r: Request)
    requires r.Update? && StatusOf(st, dev, r) !in {10, 9, 3}
    ensures StatusOf(st, dev, r) ==
            if ParseInt(r.serverId).None? then 4
            else if !ParentFound(st.tree, r.parentId) then 5
            else if NameTaken(st.tree, r) then 2
            else if BelowItself(st.tree, r) then 6
            else if ParseInt(r.serverId).value !in st.tree then 4
            else 1
  {
    NamesParent(st.tree, r.parentId);
    TakenIff(st.tree, r);
  }

  // ---------- a whole run ----------

  /** Event j creates folder id. */
  ghost predicate CreatesAt(sts: seq<State>, es: seq<Event>, j: nat, id: int)
    requires |sts| == |es| + 1 && j < |es|
  {
    es[j].request.Create? && es[j].request.newId == id && StatusOf(sts[j], es[j].dev, es[j].request) == 1
  }

  /** Event j deletes a folder that id is or lies below. */
  ghost predicate DeletesAt(sts: seq<State>, es: seq<Event>, j: nat, id: int)
    requires |sts| == |es| + 1 && j < |es|
  {
    && es[j].request.Delete? && StatusOf(sts[j], es[j].dev, es[j].request) == 1
    && exists fid :: SpellsUserFolder(es[j].request.serverId, fid) && Under(sts[j].tree, id, fid)
  }

  /** Folder id came to be by event i, or was there when i is 0, and nothing since deleted it. */
  ghost predicate LivesSince(sts: seq<State>, es: seq<Event>, n: nat, id: int, i: int)
    requires |sts| == |es| + 1 && n <= |es|
  {
    && 0 <= i <= n && (if i == 0 then id in sts[0].tree else CreatesAt(sts, es, i - 1, id))
    && forall j :: i <= j < n ==> !DeletesAt(sts, es, j, id)
  }

  lemma LivesStep(sts: seq<State>, es: seq<Event>, n: nat, id: int)
    requires Run(sts, es) && n < |es|
    ensures id in sts[n + 1].tree <==> CreatesAt(sts, es, n, id) || (id in sts[n].tree && !DeletesAt(sts, es, n, id))
  {
    assert StepAt(sts, es, n);
    var st, dev, r := sts[n], es[n].dev, es[n].request;
    match r
    case Create(_, _, _, _) => CreateAdds(st, dev, r);
    case Delete(_, _) =>
      if StatusOf(st, dev, r) == 1 {
        DeleteSucceedsIff(st, dev, r);
        var fid :| fid in st.tree && SpellsUserFolder(r.serverId, fid);
        DeleteRemoves(st, dev, r, fid);
      }
    case Update(_, _, _, _) =>
      if StatusOf(st, dev, r) == 1 {
        UpdateSucceedsIff(st, dev, r);
        var fid :| fid in st.tree && SpellsUserFolder(r.serverId, fid);
        UpdateMoves(st, dev, r, fid);
      }
    case Prime =>
  }

  ghost predicate Lives(sts: seq<State>, es: seq<Event>, n: nat, id: int)
    requires |sts| == |es| + 1 && n <= |es|
  {
    exists i :: LivesSince(sts, es, n, id, i)
  }

  lemma LivesNext(sts: seq<State>, es: seq<Event>, n: nat, id: int)
    requires |sts| == |es| + 1 && n < |es|
    ensures Lives(sts, es, n + 1, id) <==>
            CreatesAt(sts, es, n, id) || (Lives(sts, es, n, id) && !DeletesAt(sts, es, n, id))
  {
    var n' := n + 1;
    if i :| LivesSince(sts, es, n', id, i) {
      if i <= n {
        assert LivesSince(sts, es, n, id, i);
      }
    }
    if CreatesAt(sts, es, n, id) {
      assert LivesSince(sts, es, n + 1, id, n + 1);
    } else if Lives(sts, es, n, id) && !DeletesAt(sts, es, n, id) {
      var i :| LivesSince(sts, es, n, id, i);
      assert LivesSince(sts, es, n + 1, id, i);
    }
  }

  /**
   After any run of any number of devices the tree holds exactly the folders that were
   there or were created, and that no deletion of them or of a folder above them followed.
   */
  lemma {:induction false} FoldersOfRun(sts: seq<State>, es: seq<Event>, n: nat, id: int)
    requires Run(sts, es) && n <= |es|
    ensures id in sts[n].tree <==> Lives(sts, es, n, id)
  {
    if n == 0 {
      assert id in sts[0].tree <==> LivesSince(sts, es, 0, id, 0);
    } else {
      FoldersOfRun(sts, es, n - 1, id);
      LivesStep(sts, es, n - 1, id);
      LivesNext(sts, es, n - 1, id);
    }
  }
}
