/**
 The Sync engine as it runs: loops over listings, commands and pending changes that
 update the store and the collection state in place, each proved against the
 specifications of the modules before it.
 */
module Engine {
  import opened Strconv
  import opened Snapshot
  import opened SyncState
  import opened Rounds
  import Mail
  import Objects

  // ---------- sorting the deletions ----------

  ghost predicate Pairwise(gone: seq<string>) {
    forall i, j :: 0 <= i < j < |gone| ==> gone[i] != gone[j] && !LessSid(gone[j], gone[i])
  }

  lemma {:induction false} PairwiseOrdered(gone: seq<string>)
    requires Pairwise(gone)
    ensures Ordered(gone)
  {
    if gone != [] {
      PairwiseOrdered(gone[..|gone| - 1]);
    }
  }

  /** sort.Slice by lessSID, ties in any order. */
  method SortSids(sids: seq<string>) returns (sorted: seq<string>)
    requires forall i, j :: 0 <= i < j < |sids| ==> sids[i] != sids[j]
    ensures Ordered(sorted) && Elements(sorted) == Elements(sids)
  {
    sorted := [];
    for n := 0 to |sids|
      invariant Pairwise(sorted) && Elements(sorted) == Elements(sids[..n])
    {
      var x := sids[n];
      assert sids[..n + 1] == sids[..n] + [x];
      assert x !in Elements(sids[..n]);
      var k := |sorted|;
      while k > 0 && LessSid(x, sorted[k - 1])
        invariant 0 <= k <= |sorted|
        invariant forall i :: k <= i < |sorted| ==> LessSid(x, sorted[i])
      {
        k := k - 1;
      }
      InsertPairwise(sorted, k, x);
      assert Elements(sorted[..k] + [x] + sorted[k..]) == Elements(sorted) + {x} by {
        assert sorted == sorted[..k] + sorted[k..];
      }
      sorted := sorted[..k] + [x] + sorted[k..];
    }
    assert sids[..|sids|] == sids;
    PairwiseOrdered(sorted);
  }

  lemma InsertPairwise(sorted: seq<string>, k: nat, x: string)
    requires Pairwise(sorted) && k <= |sorted| && x !in Elements(sorted)
    requires k > 0 ==> !LessSid(x, sorted[k - 1])
    requires forall i :: k <= i < |sorted| ==> LessSid(x, sorted[i])
    ensures Pairwise(sorted[..k] + [x] + sorted[k..])
  {
    var r := sorted[..k] + [x] + sorted[k..];
    forall i | 0 <= i < |r| ensures r[i] == if i < k then sorted[i] else if i == k then x else sorted[i - 1] {
    }
    forall i | 0 <= i < |sorted| ensures sorted[i] != x {
      assert sorted[i] in Elements(sorted);
    }
    forall i | 0 <= i < k ensures !LessSid(x, sorted[i]) {
      if i < k - 1 {
        assert !LessSid(sorted[k - 1], sorted[i]);
      }
    }
  }

  // ---------- the diff ----------

  /** diffSnapshot and pendingObjectChanges: one scan of the listing, then the sorted deletions. */
  method DiffSnapshot(snapshot: Items, live: seq<Entry>) returns (out: seq<Change>)
    ensures IsDiff(snapshot, live, out)
  {
    var liveSeen;
    out, liveSeen := ScanListing(snapshot, live);
    var gone := VanishedInOrder(snapshot, live, liveSeen);
    ghost var changes := out;
    for i := 0 to |gone|
      invariant out == changes + Removals(gone[..i])
    {
      assert gone[..i + 1][..i] == gone[..i];
      out := out + [Change(Removed, gone[i], 0)];
    }
    assert gone[..|gone|] == gone;
  }

  lemma ScanStep(snapshot: Items, live: seq<Entry>, i: nat)
    requires i < |live|
    ensures LiveChanges(snapshot, live[..i + 1]) == LiveChanges(snapshot, live[..i]) + Pending(snapshot, live[i])
    ensures Sids(live[..i + 1]) == Sids(live[..i]) + {live[i].sid}
  {
    assert live[..i + 1][..i] == live[..i];
    assert live[..i + 1] == live[..i] + [live[i]];
  }

  method ScanListing(snapshot: Items, live: seq<Entry>) returns (out: seq<Change>, liveSeen: set<string>)
    ensures out == LiveChanges(snapshot, live) && liveSeen == Sids(live)
  {
    out, liveSeen := [], {};
    for i := 0 to |live|
      invariant out == LiveChanges(snapshot, live[..i]) && liveSeen == Sids(live[..i])
    {
      var e := live[i];
      ScanStep(snapshot, live, i);
      liveSeen := liveSeen + {e.sid};
      if e.sid !in snapshot {
        out := out + [Change(Added, e.sid, e.version)];
      } else if snapshot[e.sid] != e.version {
        out := out + [Change(Modified, e.sid, e.version)];
      }
    }
    assert live[..|live|] == live;
  }

  /** The snapshot is a map and is visited in no particular order. */
  method VanishedInOrder(snapshot: Items, ghost live: seq<Entry>, liveSeen: set<string>) returns (gone: seq<string>)
    requires liveSeen == Sids(live)
    ensures IsRemovalOrder(snapshot, live, gone)
  {
    var deletes := [];
    var rest := snapshot.Keys;
    while rest != {}
      invariant rest <= snapshot.Keys
      invariant Elements(deletes) == Vanished(snapshot, live) - rest
      invariant forall i, j :: 0 <= i < j < |deletes| ==> deletes[i] != deletes[j]
    {
      var sid :| sid in rest;
      rest := rest - {sid};
      if sid !in liveSeen {
        assert sid !in Elements(deletes);
        assert Elements(deletes + [sid]) == Elements(deletes) + {sid};
        deletes := deletes + [sid];
      }
    }
    gone := SortSids(deletes);
  }

  // ---------- the store ----------

  /** A mailbox's contents as a value. */
  datatype Contents = Contents(mail: map<int, seq<Mail.Message>>, objects: Objects.Store)
  {
    /** ListMessages; a folder without index rows lists nothing. */
    function Folder(fid: int): seq<Mail.Message> {
      if fid in mail then mail[fid] else []
    }
  }

  ghost predicate ValidContents(m: Contents) {
    forall fid :: Mail.ValidFolder(m.Folder(fid))
  }

  /** The part of a mailbox a Sync reaches: the IMAP index by folder, and the object rows. */
  class Mailbox {
    var mail: map<int, seq<Mail.Message>>
    var objects: Objects.Store

    constructor (mail: map<int, seq<Mail.Message>>, objects: Objects.Store)
      ensures this.mail == mail && this.objects == objects
    {
      this.mail, this.objects := mail, objects;
    }

    function Value(): Contents
      reads this
    {
      Contents(mail, objects)
    }

    function Folder(fid: int): seq<Mail.Message>
      reads this
    {
      Value().Folder(fid)
    }

    ghost predicate Valid()
      reads this
    {
      ValidContents(Value())
    }

    twostate predicate OnlyFolder(fid: int)
      reads this
    {
      objects == old(objects) && forall f :: f != fid ==> Folder(f) == old(Folder(f))
    }

    method SetMessageFlags(fid: int, uid: nat, flags: int) returns (ok: bool)
      modifies this
      ensures OnlyFolder(fid)
      ensures var k := Mail.Find(old(Folder(fid)), uid);
              && ok == (k < |old(Folder(fid))|)
              && Folder(fid) ==
                 if ok then old(Folder(fid))[k := old(Folder(fid))[k].(flags := flags)] else old(Folder(fid))
    {
      var f := Folder(fid);
      var k := Mail.Find(f, uid);
      ok := k < |f|;
      if ok {
        mail := mail[fid := f[k := f[k].(flags := flags)]];
      }
    }

    method SoftDeleteMessage(fid: int, uid: nat) returns (ok: bool)
      modifies this
      ensures OnlyFolder(fid)
      ensures var k := Mail.Find(old(Folder(fid)), uid);
              && ok == (k < |old(Folder(fid))|)
              && Folder(fid) == if ok then Mail.Without(old(Folder(fid)), k) else old(Folder(fid))
    {
      var f := Folder(fid);
      var k := Mail.Find(f, uid);
      ok := k < |f|;
      if ok {
        mail := mail[fid := Mail.Without(f, k)];
      }
    }
  }

  // ---------- mail commands ----------

  /** One device Change: the read flag, recorded in the snapshot. Some(id) when it took the message to read. */
  method ApplyReadFlag(mb: Mailbox, fid: int, uid: nat, cstate: CollectionState, cmd: Mail.Command)
    returns (becameRead: Option<int>)
    requires cmd.ChangeCmd? && ParseUint(cmd.sid, TWO_32) == Some(uid)
    modifies mb, cstate
    ensures mb.OnlyFolder(fid) && cstate.syncKey == old(cstate.syncKey)
    ensures var st := old(Mail.State(mb.Folder(fid), cstate.items));
            var k := Mail.Target(st.folder, cmd);
            && Mail.State(mb.Folder(fid), cstate.items) == Mail.Apply(st, cmd)
            && becameRead == if k < |st.folder| && !Mail.Seen(st.folder[k].flags) && Mail.Seen(mb.Folder(fid)[k].flags)
                             then Some(st.folder[k].id) else None
  {
    if cmd.data.None? {
      return None;
    }
    var f := mb.Folder(fid);
    var k := Mail.Find(f, uid);
    if k == |f| {
      return None;
    }
    var m := f[k];
    var cur := Mail.ApplyRead(m.flags, cmd.data.value);
    var ok := mb.SetMessageFlags(fid, uid, cur);
    if !ok {
      return None;
    }
    cstate.items := cstate.items[cmd.sid := cur];
    return if !Mail.Seen(m.flags) && Mail.Seen(cur) then Some(m.id) else None;
  }

  /** One command of the batch; the ids it took from unread to read. */
  method ApplyClientCommand(mb: Mailbox, fid: int, cstate: CollectionState, cmd: Mail.Command) returns (ids: seq<int>)
    requires Mail.ValidFolder(mb.Folder(fid))
    modifies mb, cstate
    ensures mb.OnlyFolder(fid) && cstate.syncKey == old(cstate.syncKey)
    ensures var st := old(Mail.State(mb.Folder(fid), cstate.items));
            && Mail.State(mb.Folder(fid), cstate.items) == Mail.Apply(st, cmd)
            && ids == Mail.NewlyRead(st.folder, mb.Folder(fid))
  {
    Transition(Mail.State(mb.Folder(fid), cstate.items), cmd);
    ids := [];
    var uid := ParseUint(cmd.sid, TWO_32);
    if uid.None? {
      return;
    }
    match cmd {
      case ChangeCmd(_, _) =>
        var id := ApplyReadFlag(mb, fid, uid.value, cstate, cmd);
        if id.Some? {
          ids := [id.value];
        }
      case DeleteCmd(sid) =>
        var ok := mb.SoftDeleteMessage(fid, uid.value);
        if ok {
          cstate.items := cstate.items - {sid};
        }
      case OtherCmd(_) =>
    }
  }

  /** applyClientCommands: the batch in order, and the messages it took from unread to read. */
  method ApplyClientCommands(mb: Mailbox, fid: int, cstate: CollectionState, cmds: seq<Mail.Command>)
    returns (becameRead: seq<int>)
    requires Mail.ValidFolder(mb.Folder(fid))
    modifies mb, cstate
    ensures mb.OnlyFolder(fid) && cstate.syncKey == old(cstate.syncKey)
    ensures var st := old(Mail.State(mb.Folder(fid), cstate.items));
            && Mail.State(mb.Folder(fid), cstate.items) == Mail.ApplyAll(st, cmds)
            && becameRead == Mail.ReadTransitions(st, cmds)
  {
    ghost var st := Mail.State(mb.Folder(fid), cstate.items);
    becameRead := [];
    for i := 0 to |cmds|
      invariant mb.OnlyFolder(fid) && cstate.syncKey == old(cstate.syncKey)
      invariant Mail.State(mb.Folder(fid), cstate.items) == Mail.ApplyAll(st, cmds[..i])
      invariant becameRead == Mail.ReadTransitions(st, cmds[..i])
    {
      assert cmds[..i + 1][..i] == cmds[..i];
      Mail.ApplyAllValid(st, cmds[..i]);
      var ids := ApplyClientCommand(mb, fid, cstate, cmds[i]);
      becameRead := becameRead + ids;
    }
    assert cmds[..|cmds|] == cmds;
  }

  /** The transitions of one command, as the code reports them. */
  lemma Transition(st: Mail.State, cmd: Mail.Command)
    requires Mail.ValidFolder(st.folder)
    ensures var k, f' := Mail.Target(st.folder, cmd), Mail.Apply(st, cmd).folder;
            Mail.NewlyRead(st.folder, f') ==
            if cmd.ChangeCmd? && k < |st.folder| && !Mail.Seen(st.folder[k].flags) && Mail.Seen(f'[k].flags)
            then [st.folder[k].id] else []
  {
    if cmd.ChangeCmd? && Mail.Succeeds(st.folder, cmd) {
      Mail.ChangeTransition(st, cmd);
    } else {
      Mail.SilentTransition(st, cmd);
    }
  }

  // ---------- sending and recording ----------

  /** Recording stopped at the first addition that cannot be read. */
  ghost predicate StopsAt(items: Items, cs: seq<Change>, unreadable: set<string>, n: nat, items': Items) {
    && n < |cs| && !Readable(unreadable, cs[n]) && (forall i :: 0 <= i < n ==> Readable(unreadable, cs[i]))
    && items' == RecordAll(items, cs[..n])
  }

  /** mailChangeCommands: an Add whose message cannot be read aborts the round. */
  method MailChangeCommands(cstate: CollectionState, pending: seq<Change>, unreadable: set<string>)
    returns (ok: bool, cmds: seq<Change>)
    modifies cstate
    ensures cstate.syncKey == old(cstate.syncKey)
    ensures ok <==> AllReadable(unreadable, pending)
    ensures ok ==> cstate.items == RecordAll(old(cstate.items), pending) && cmds == pending
    ensures !ok ==> cmds == [] && exists n :: StopsAt(old(cstate.items), pending, unreadable, n, cstate.items)
  {
    cmds := [];
    for i := 0 to |pending|
      invariant cstate.syncKey == old(cstate.syncKey)
      invariant forall j :: 0 <= j < i ==> Readable(unreadable, pending[j])
      invariant cstate.items == RecordAll(old(cstate.items), pending[..i]) && cmds == pending[..i]
    {
      var c := pending[i];
      assert pending[..i + 1][..i] == pending[..i];
      match c.kind {
        case Added =>
          if c.sid in unreadable {
            assert StopsAt(old(cstate.items), pending, unreadable, i, cstate.items);
            return false, [];
          }
          cstate.items := cstate.items[c.sid := c.version];
        case Modified =>
          cstate.items := cstate.items[c.sid := c.version];
        case Removed =>
          cstate.items := cstate.items - {c.sid};
      }
      cmds := cmds + [c];
    }
    assert pending[..|pending|] == pending;
    ok := true;
  }

  lemma {:induction false} EmittedSnoc(render: Renderer, cs: seq<Change>, c: Change)
    ensures Emitted(render, cs + [c]) == Emitted(render, cs) + if Emits(render, c) then [c] else []
  {
    var all := cs + [c];
    if cs == [] {
      assert all[1..] == [];
    } else {
      assert all[0] == cs[0] && all[1..] == cs[1..] + [c];
      EmittedSnoc(render, cs[1..], c);
      var head := if Emits(render, cs[0]) then [cs[0]] else [];
      assert Emitted(render, cs) == head + Emitted(render, cs[1..]);
    }
  }

  /** renderObjectChange: records what it renders; an item the class cannot render is nothing to stream. */
  method RenderObjectChange(cstate: CollectionState, c: Change, render: Renderer) returns (r: Rendering)
    modifies cstate
    ensures cstate.syncKey == old(cstate.syncKey)
    ensures r == if c.kind == Removed then Rendered else render(c.sid)
    ensures cstate.items == if r == Rendered then Record(old(cstate.items), c) else old(cstate.items)
  {
    if c.kind == Removed {
      cstate.items := cstate.items - {c.sid};
      return Rendered;
    }
    r := render(c.sid);
    if r == Rendered {
      cstate.items := cstate.items[c.sid := c.version];
    }
  }

  /** Rendering stopped at the first item whose renderer fails. */
  ghost predicate BreaksAt(items: Items, cs: seq<Change>, render: Renderer, n: nat, items': Items) {
    && n < |cs| && !Survives(render, cs[n]) && (forall i :: 0 <= i < n ==> Survives(render, cs[i]))
    && items' == RecordAll(items, Emitted(render, cs[..n]))
  }

  /** objectChanges' render loop: items the class cannot render are skipped, a renderer error aborts. */
  method RenderObjectChanges(cstate: CollectionState, pending: seq<Change>, render: Renderer)
    returns (ok: bool, cmds: seq<Change>)
    modifies cstate
    ensures cstate.syncKey == old(cstate.syncKey)
    ensures ok <==> Renders(render, pending)
    ensures ok ==> cmds == Emitted(render, pending) && cstate.items == RecordAll(old(cstate.items), cmds)
    ensures !ok ==> cmds == [] && exists n :: BreaksAt(old(cstate.items), pending, render, n, cstate.items)
  {
    cmds := [];
    for i := 0 to |pending|
      invariant cstate.syncKey == old(cstate.syncKey)
      invariant forall j :: 0 <= j < i ==> Survives(render, pending[j])
      invariant cmds == Emitted(render, pending[..i])
      invariant cstate.items == RecordAll(old(cstate.items), cmds)
    {
      assert pending[..i + 1] == pending[..i] + [pending[i]];
      EmittedSnoc(render, pending[..i], pending[i]);
      var r := RenderObjectChange(cstate, pending[i], render);
      if r == Broken {
        assert BreaksAt(old(cstate.items), pending, render, i, cstate.items);
        return false, [];
      }
      if r == Rendered {
        cmds := cmds + [pending[i]];
      }
    }
    assert pending[..|pending|] == pending;
    ok := true;
  }

  // ---------- object commands ----------

  /** addObject: the response maps the client id to the new server id. */
  method AddObject(mb: Mailbox, folder: int, cmd: Objects.Command) returns (resp: Option<Objects.AddResponse>)
    requires cmd.AddCmd?
    modifies mb
    ensures mb.mail == old(mb.mail)
    ensures resp ==
            if Objects.Creates(cmd) then Some(Objects.AddResponse(cmd.clientId, Objects.Sid(cmd.newId.value))) else None
    ensures mb.objects == Objects.Apply(Objects.State(old(mb.objects), map[], {}, []), folder, cmd).store
  {
    if cmd.clientId == "" || !cmd.payload.Parsed? || cmd.newId.None? {
      return None;
    }
    var id, cn := cmd.newId.value, mb.objects.nextCn;
    var row := Objects.Row(id, folder, false, false, cn, cmd.payload.props);
    mb.objects := Objects.Store(Objects.Insert(mb.objects.rows, row), cn + 1);
    return Some(Objects.AddResponse(cmd.clientId, Objects.Sid(id)));
  }

  /** changeObject: the id it wrote, or "" when it wrote none. */
  method ChangeObject(mb: Mailbox, cmd: Objects.Command) returns (sid: string)
    requires cmd.ChangeCmd?
    modifies mb
    ensures mb.mail == old(mb.mail)
    ensures var st := Objects.State(old(mb.objects), map[], {}, []);
            && (sid != "" <==> Objects.Writes(st, cmd)) && (sid != "" ==> sid == cmd.sid)
            && mb.objects == Objects.Apply(st, 0, cmd).store
  {
    var rows, cn := mb.objects.rows, mb.objects.nextCn;
    var k := Objects.RowOf(rows, cmd.sid);
    if !cmd.payload.Parsed? || cmd.payload.props == map[] || k == |rows| {
      return "";
    }
    var props := rows[k].props + cmd.payload.props;
    mb.objects := Objects.Store(rows[k := rows[k].(cn := cn, props := props)], cn + 1);
    return cmd.sid;
  }

  /** deleteObject: the item leaves the folder and the snapshot. */
  method DeleteObject(mb: Mailbox, cstate: CollectionState, cmd: Objects.Command)
    requires cmd.DeleteCmd?
    modifies mb, cstate
    ensures mb.mail == old(mb.mail) && cstate.syncKey == old(cstate.syncKey)
    ensures var st := Objects.State(old(mb.objects), old(cstate.items), {}, []);
            Objects.State(mb.objects, cstate.items, {}, []) == Objects.Apply(st, 0, cmd)
  {
    var rows, cn := mb.objects.rows, mb.objects.nextCn;
    var k := Objects.RowOf(rows, cmd.sid);
    if k < |rows| {
      if !rows[k].deleted {
        mb.objects := Objects.Store(rows[k := rows[k].(deleted := true, cn := cn + 1)], cn + 2);
      }
      cstate.items := cstate.items - {cmd.sid};
    }
  }

  /** foldClientWritesIntoSnapshot. */
  method FoldClientWrites(cstate: CollectionState, objs: seq<Entry>, written: set<string>)
    modifies cstate
    ensures cstate.syncKey == old(cstate.syncKey)
    ensures cstate.items == Objects.Fold(old(cstate.items), objs, written)
  {
    for i := 0 to |objs|
      invariant cstate.syncKey == old(cstate.syncKey)
      invariant cstate.items == Objects.Fold(old(cstate.items), objs[..i], written)
    {
      assert objs[..i + 1][..i] == objs[..i];
      if objs[i].sid in written {
        cstate.items := cstate.items[objs[i].sid := objs[i].version];
      }
    }
    assert objs[..|objs|] == objs;
  }

  /** One command of the batch, with the ids written and the responses so far. */
  method ApplyObjectCommand(mb: Mailbox, folder: int, cstate: CollectionState, cmd: Objects.Command,
                            written: set<string>, responses: seq<Objects.AddResponse>)
    returns (written': set<string>, responses': seq<Objects.AddResponse>)
    modifies mb, cstate
    ensures mb.mail == old(mb.mail) && cstate.syncKey == old(cstate.syncKey)
    ensures var st := Objects.State(old(mb.objects), old(cstate.items), written, responses);
            Objects.State(mb.objects, cstate.items, written', responses') == Objects.Apply(st, folder, cmd)
  {
    written', responses' := written, responses;
    match cmd {
      case AddCmd(_, _, _) =>
        var resp := AddObject(mb, folder, cmd);
        if resp.Some? {
          written', responses' := written + {resp.value.sid}, responses + [resp.value];
        }
      case ChangeCmd(_, _) =>
        var sid := ChangeObject(mb, cmd);
        if sid != "" {
          written' := written + {sid};
        }
      case DeleteCmd(_) =>
        DeleteObject(mb, cstate, cmd);
      case OtherCmd =>
    }
  }

  /** applyObjectClientCommands: the batch in order, then one fold. */
  method ApplyObjectClientCommands(mb: Mailbox, folder: int, cstate: CollectionState, cmds: seq<Objects.Command>)
    returns (responses: seq<Objects.AddResponse>)
    modifies mb, cstate
    ensures mb.mail == old(mb.mail) && cstate.syncKey == old(cstate.syncKey)
    ensures var st := Objects.Batch(old(mb.objects), old(cstate.items), folder, cmds);
            mb.objects == st.store && cstate.items == st.items && responses == st.responses
  {
    ghost var st0 := Objects.State(mb.objects, cstate.items, {}, []);
    responses := [];
    var written := {};
    for i := 0 to |cmds|
      invariant mb.mail == old(mb.mail) && cstate.syncKey == old(cstate.syncKey)
      invariant Objects.State(mb.objects, cstate.items, written, responses) == Objects.ApplyAll(st0, folder, cmds[..i])
    {
      assert cmds[..i + 1][..i] == cmds[..i];
      written, responses := ApplyObjectCommand(mb, folder, cstate, cmds[i], written, responses);
    }
    assert cmds[..|cmds|] == cmds;
    FoldClientWrites(cstate, Objects.Listing(mb.objects.rows, folder), written);
  }

  // ---------- one collection ----------

  const OBJECT_FOLDERS: set<int> := {0x0f, 0x11, 0x12, 0x13}

  /** Calendar, notes, tasks and contacts are versioned by change number. */
  predicate IsObjectFolder(fid: int) {
    fid in OBJECT_FOLDERS
  }

  /** One Collection element; without a Commands element there are no commands, whatever the lists hold. */
  datatype CollectionRequest = CollectionRequest(
    collId: string, syncKey: string, windowSize: string, hasCommands: bool,
    mailCommands: seq<Mail.Command>, objectCommands: seq<Objects.Command>)
  {
    function MailCmds(): seq<Mail.Command> {
      if hasCommands then mailCommands else []
    }

    function ObjectCmds(): seq<Objects.Command> {
      if hasCommands then objectCommands else []
    }
  }

  datatype Reply =
    | Status(code: int)
    | Changes(key: string, cmds: seq<Change>, responses: seq<Objects.AddResponse>, more: bool)
    | Failed

  const STATUS_INVALID_KEY := 3
  const STATUS_BAD_REQUEST := 4

  /** A current-key mail round was answered with `r`: commands, the capped diff, the next key. */
  ghost predicate MailServed(st0: Mail.State, req: CollectionRequest, st': Mail.State, key': string, r: Reply,
                             becameRead: seq<int>) {
    var st := Mail.ApplyAll(st0, req.MailCmds());
    && st'.folder == st.folder && becameRead == Mail.ReadTransitions(st0, req.MailCmds())
    && (r.Failed? || r.Changes?)
    && (r.Changes? ==>
          && MailRound(st.items, Mail.Listing(st.folder), ParseWindow(req.windowSize), st'.items, r.cmds, r.more)
          && r.responses == [] && r.key == key' == NextSyncKey(req.syncKey))
  }

  /** A current-key object round was answered with `r`: edits and fold, the capped rendered diff, the next key. */
  ghost predicate ObjectServed(store: Objects.Store, items: Items, fid: int, req: CollectionRequest, render: Renderer,
                               store': Objects.Store, c': Coll, r: Reply) {
    var st := Objects.Batch(store, items, fid, req.ObjectCmds());
    && store' == st.store
    && (r.Failed? || r.Changes?)
    && (r.Changes? ==>
          && ObjectRound(render, st.items, Objects.Listing(st.store.rows, fid), ParseWindow(req.windowSize),
                         c'.items, r.cmds, r.more)
          && r.responses == st.responses && r.key == c'.syncKey == NextSyncKey(req.syncKey))
  }

  /** A mail folder was served: its messages, its snapshot and its key, and no other folder. */
  ghost predicate MailPath(m: Contents, c: Coll, fid: int, req: CollectionRequest, r: Reply, becameRead: seq<int>,
                           m': Contents, c': Coll) {
    && m'.objects == m.objects && (forall f :: f != fid ==> m'.Folder(f) == m.Folder(f))
    && MailServed(Mail.State(m.Folder(fid), c.items), req, Mail.State(m'.Folder(fid), c'.items), c'.syncKey, r,
                  becameRead)
  }

  /** An object folder was served: the object rows, its snapshot and its key, and no mail. */
  ghost predicate ObjectPath(m: Contents, c: Coll, fid: int, req: CollectionRequest, render: Renderer, r: Reply,
                             m': Contents, c': Coll) {
    m'.mail == m.mail && ObjectServed(m.objects, c.items, fid, req, render, m'.objects, c', r)
  }

  /** A batch leaves every folder listed by uid. */
  method ApplyBatch(mb: Mailbox, fid: int, cstate: CollectionState, cmds: seq<Mail.Command>)
    returns (becameRead: seq<int>)
    requires mb.Valid()
    modifies mb, cstate
    ensures mb.Valid() && mb.objects == old(mb.objects) && cstate.syncKey == old(cstate.syncKey)
    ensures forall f :: f != fid ==> mb.Value().Folder(f) == old(mb.Value()).Folder(f)
    ensures var st := old(Mail.State(mb.Folder(fid), cstate.items));
            && Mail.State(mb.Folder(fid), cstate.items) == Mail.ApplyAll(st, cmds)
            && becameRead == Mail.ReadTransitions(st, cmds)
  {
    Mail.ApplyAllValid(Mail.State(mb.Folder(fid), cstate.items), cmds);
    becameRead := ApplyClientCommands(mb, fid, cstate, cmds);
    forall f
      ensures Mail.ValidFolder(mb.Folder(f))
      ensures f != fid ==> mb.Value().Folder(f) == old(mb.Value()).Folder(f)
    {
      if f != fid {
        assert mb.Folder(f) == old(mb.Folder(f));
      }
    }
  }

  /** `unreadable` are the messages whose body cannot be read. */
  method SyncMail(mb: Mailbox, cstate: CollectionState, fid: int, req: CollectionRequest, unreadable: set<string>)
    returns (r: Reply, becameRead: seq<int>)
    requires mb.Valid() && req.syncKey == cstate.syncKey
    modifies mb, cstate
    ensures mb.Valid()
    ensures MailPath(old(mb.Value()), old(cstate.Value()), fid, req, r, becameRead, mb.Value(), cstate.Value())
    ensures var st := Mail.ApplyAll(old(Mail.State(mb.Folder(fid), cstate.items)), req.MailCmds());
            r.Failed? <==> Blocked(unreadable, st.items, Mail.Listing(st.folder), ParseWindow(req.windowSize))
  {
    becameRead := ApplyBatch(mb, fid, cstate, req.MailCmds());
    var window := ParseWindow(req.windowSize);
    ghost var items := cstate.items;
    var live := Mail.Listing(mb.Folder(fid));
    var pending := DiffSnapshot(cstate.items, live);
    var more := |pending| > window;
    var sent := pending[..Taken(pending, window)];
    BlockedIff(unreadable, items, live, pending, window);
    var ok, cmds := MailChangeCommands(cstate, sent, unreadable);
    if !ok {
      return Failed, becameRead;
    }
    cstate.syncKey := NextSyncKey(req.syncKey);
    assert MailRound(items, live, window, cstate.items, cmds, more);
    r := Changes(cstate.syncKey, cmds, [], more);
  }

  lemma SameMailValid(m: Contents, m': Contents)
    requires ValidContents(m) && m'.mail == m.mail
    ensures ValidContents(m')
  {
    forall f ensures Mail.ValidFolder(m'.Folder(f)) {
      assert m'.Folder(f) == m.Folder(f);
    }
  }

  method SyncObjects(mb: Mailbox, cstate: CollectionState, fid: int, req: CollectionRequest, render: Renderer)
    returns (r: Reply)
    requires mb.Valid() && req.syncKey == cstate.syncKey
    modifies mb, cstate
    ensures mb.Valid()
    ensures ObjectPath(old(mb.Value()), old(cstate.Value()), fid, req, render, r, mb.Value(), cstate.Value())
    ensures (forall s :: render(s) != Broken) ==> r.Changes?
  {
    var responses := ApplyObjectClientCommands(mb, fid, cstate, req.ObjectCmds());
    SameMailValid(old(mb.Value()), mb.Value());
    var window := ParseWindow(req.windowSize);
    ghost var items := cstate.items;
    var live := Objects.Listing(mb.objects.rows, fid);
    var pending := DiffSnapshot(cstate.items, live);
    var more := |pending| > window;
    var ok, cmds := RenderObjectChanges(cstate, pending[..Taken(pending, window)], render);
    if !ok {
      return Failed;
    }
    cstate.syncKey := NextSyncKey(req.syncKey);
    assert ObjectRound(render, items, live, window, cstate.items, cmds, more);
    r := Changes(cstate.syncKey, cmds, responses, more);
  }

  /** One collection was served with `r`. */
  ghost predicate CollectionServed(m: Contents, c: Coll, req: CollectionRequest, render: Renderer,
                                   r: Reply, becameRead: seq<int>, m': Contents, c': Coll) {
    var p := ParseInt(req.collId);
    if p.None? then r == Status(STATUS_BAD_REQUEST) && c' == c && m' == m && becameRead == []
    else
      match GateOf(c, req.syncKey)
      case Primed => r == Changes("1", [], [], false) && c' == Coll("1", map[]) && m' == m && becameRead == []
      case Refused => r == Status(STATUS_INVALID_KEY) && c' == c && m' == m && becameRead == []
      case Current =>
        if IsObjectFolder(p.value) then ObjectPath(m, c, p.value, req, render, r, m', c') && becameRead == []
        else MailPath(m, c, p.value, req, r, becameRead, m', c')
  }

  /** syncCollection: the id, the key gate, then the folder's own path. */
  method SyncCollection(mb: Mailbox, cstate: CollectionState, req: CollectionRequest, unreadable: set<string>,
                        render: Renderer)
    returns (r: Reply, becameRead: seq<int>)
    requires mb.Valid()
    modifies mb, cstate
    ensures mb.Valid()
    ensures CollectionServed(old(mb.Value()), old(cstate.Value()), req, render, r, becameRead, mb.Value(),
                             cstate.Value())
    ensures unreadable == {} && (forall s :: render(s) != Broken) ==> !r.Failed?
  {
    becameRead := [];
    var p := ParseInt(req.collId);
    if p.None? {
      return Status(STATUS_BAD_REQUEST), [];
    }
    var g := SyncKeyGate(req.syncKey, cstate);
    if g == Primed {
      return Changes(cstate.syncKey, [], [], false), [];
    }
    if g == Refused {
      return Status(STATUS_INVALID_KEY), [];
    }
    if IsObjectFolder(p.value) {
      r := SyncObjects(mb, cstate, p.value, req, render);
    } else {
      r, becameRead := SyncMail(mb, cstate, p.value, req, unreadable);
    }
  }
}
