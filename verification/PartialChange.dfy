/**
 A device's Change of part of an item while another writer's change of the rest is still
 pending: the fold marks the item as synced, and the rest never reaches the device.
 */
module PartialChange {
  import opened Strconv
  import opened Snapshot
  import opened SyncState
  import opened Rounds
  import opened Objects
  import opened ObjectEcho
  import opened Additions
  import opened ObjectReplica
  import Replica

  // ---------- the exact condition ----------

  lemma RoundSkipsSettled(render: Renderer, items: Items, live: seq<Entry>, w: nat, items': Items, sent: seq<Change>,
                          more: bool, s: string)
    requires Distinct(live) && ObjectRound(render, items, live, w, items', sent, more) && Settled(items, live, s)
    ensures s !in ChangeSids(sent) && Settled(items', live, s)
  {
    var out :| IsDiff(items, live, out) && sent == Emitted(render, out[..Taken(out, w)]) &&
               items' == RecordAll(items, sent);
    PendingIffUnsettled(items, live, out, s);
    EmittedMembers(render, out[..Taken(out, w)]);
    forall i | 0 <= i < |sent| ensures sent[i].sid != s {
      assert sent[i] in sent;
      assert sent[i] in out;
    }
    RecordAllOutside(items, sent, s);
  }

  lemma NotAmongSent(sent: seq<seq<Change>>, n: nat, s: string)
    requires 0 < n <= |sent| && s !in ChangeSids(Concat(sent[..n - 1])) && s !in ChangeSids(sent[n - 1])
    ensures s !in ChangeSids(Concat(sent[..n]))
  {
    assert sent[..n][..n - 1] == sent[..n - 1];
    assert Concat(sent[..n]) == Concat(sent[..n - 1]) + sent[n - 1];
  }

  /** No round of an object drain sends a settled item. */
  lemma {:induction false} DrainSkipsSettled(render: Renderer, d: Drain, live: seq<Entry>, n: nat, s: string)
    requires Distinct(live) && ObjectDrain(render, d, live) && n <= |d.ws| && Settled(d.snaps[0], live, s)
    ensures Settled(d.snaps[n], live, s) && s !in ChangeSids(Concat(d.sent[..n]))
  {
    if n > 0 {
      DrainSkipsSettled(render, d, live, n - 1, s);
      assert ObjectRoundAt(render, d, live, n - 1);
      RoundSkipsSettled(render, d.snaps[n - 1], live, d.ws[n - 1], d.snaps[n], d.sent[n - 1], d.more[n - 1], s);
      NotAmongSent(d.sent, n, s);
    }
  }

  lemma {:induction false} ReceivedElsewhere(view: View, cs: seq<Change>, rows: seq<Row>, s: string)
    requires s !in ChangeSids(cs) && s in view
    ensures s in ReceiveAll(view, cs, rows) && ReceiveAll(view, cs, rows)[s] == view[s]
  {
    if cs != [] {
      assert cs[|cs| - 1] in cs;
      assert ChangeSids(cs[..|cs| - 1]) <= ChangeSids(cs);
      ReceivedElsewhere(view, cs[..|cs| - 1], rows, s);
    }
  }

  /** A device's copy of a settled item is the same after any number of rounds. */
  lemma DrainKeepsCopy(view: View, rows: seq<Row>, folder: int, render: Renderer, d: Drain, n: nat, s: string)
    requires ValidRows(rows) && ObjectDrain(render, d, Listing(rows, folder)) && n <= |d.ws|
    requires Settled(d.snaps[0], Listing(rows, folder), s) && s in view
    ensures s !in ChangeSids(Concat(d.sent[..n]))
    ensures var copy := ReceiveAll(view, Concat(d.sent[..n]), rows); s in copy && copy[s] == view[s]
  {
    ListingDistinct(rows, folder);
    DrainSkipsSettled(render, d, Listing(rows, folder), n, s);
    ReceivedElsewhere(view, Concat(d.sent[..n]), rows, s);
  }

  /** A Change of a listed item settles it and upserts its properties. */
  lemma ChangeSettles(store: Store, items: Items, folder: int, cmd: Command)
    requires ValidRows(store.rows) && Writes(State(store, items, {}, []), cmd) && IssuedSpelling(cmd.sid)
    requires cmd.sid in Sids(Listing(store.rows, folder))
    ensures var st' := Batch(store, items, folder, [cmd]);
            && ValidRows(st'.store.rows) && Settled(st'.items, Listing(st'.store.rows, folder), cmd.sid)
            && ContentOf(st'.store.rows, cmd.sid) == ContentOf(store.rows, cmd.sid) + cmd.payload.props
  {
    var st, k := State(store, items, {}, []), RowOf(store.rows, cmd.sid);
    RowOfIssued(store.rows, cmd.sid);
    SidListed(store.rows, folder, store.rows[k].id);
    FindUnique(store.rows, k);
    ChangeReachedSettlesIff(store, items, folder, cmd);
    OneCommand(store, items, folder, cmd);
    ContentStep(st, folder, cmd, cmd.sid);
    ReplaceValid(store.rows, k, Changed(store, cmd, k));
  }

  /** The copies after a drain, from the facts about the Change before it. */
  lemma CopiesAgreeIff(view: View, cmd: Command, rows: seq<Row>, rows': seq<Row>, folder: int, render: Renderer,
                       d: Drain, n: nat)
    requires cmd.ChangeCmd? && cmd.payload.Parsed? && cmd.sid in view && ValidRows(rows')
    requires ContentOf(rows', cmd.sid) == ContentOf(rows, cmd.sid) + cmd.payload.props
    requires ObjectDrain(render, d, Listing(rows', folder)) && n <= |d.ws|
    requires Settled(d.snaps[0], Listing(rows', folder), cmd.sid)
    ensures cmd.sid !in ChangeSids(Concat(d.sent[..n]))
    ensures var copy := ReceiveAll(Local(view, cmd), Concat(d.sent[..n]), rows');
            && cmd.sid in copy && copy[cmd.sid] == view[cmd.sid] + cmd.payload.props
            && (Matches(copy, rows', cmd.sid) <==>
                  AgreeBeyond(view[cmd.sid], ContentOf(rows, cmd.sid), cmd.payload.props.Keys))
  {
    DrainKeepsCopy(Local(view, cmd), rows', folder, render, d, n, cmd.sid);
    UpsertEqualIff(view[cmd.sid], ContentOf(rows, cmd.sid), cmd.payload.props);
  }

  /**
   The object twin of a mail Change without Read. After a Change of a listed item device
   and folder agree on it exactly when they agreed on every property the Change does not
   carry. Either way the item is settled: no round on the folder as it then is sends it, so
   where they differ they go on differing, however long the device keeps syncing.
   */
  lemma ChangeAgreesIff(store: Store, items: Items, view: View, folder: int, cmd: Command, render: Renderer, d: Drain,
                        n: nat)
    requires ValidRows(store.rows) && Writes(State(store, items, {}, []), cmd) && IssuedSpelling(cmd.sid)
    requires cmd.sid in Sids(Listing(store.rows, folder)) && cmd.sid in view
    requires var st' := Batch(store, items, folder, [cmd]);
             && ObjectDrain(render, d, Listing(st'.store.rows, folder)) && d.snaps[0] == st'.items && n <= |d.ws|
    ensures cmd.sid !in ChangeSids(Concat(d.sent[..n]))
    ensures var rows' := Batch(store, items, folder, [cmd]).store.rows;
            var copy := ReceiveAll(Local(view, cmd), Concat(d.sent[..n]), rows');
            && cmd.sid in copy && copy[cmd.sid] == view[cmd.sid] + cmd.payload.props
            && (Matches(copy, rows', cmd.sid) <==>
                  AgreeBeyond(view[cmd.sid], ContentOf(store.rows, cmd.sid), cmd.payload.props.Keys))
  {
    ChangeSettles(store, items, folder, cmd);
    CopiesAgreeIff(view, cmd, store.rows, Batch(store, items, folder, [cmd]).store.rows, folder, render, d, n);
  }

  // ---------- a run that loses a change ----------

  const SUBJECT := 0x37
  const LOCATION := 0x8208

  // The device syncs an appointment, someone else moves it to another room, and the device
  // renames it before it has been sent the move.
  const BOOKED: Properties := map[SUBJECT := "Meeting", LOCATION := "Room 1"]
  const MOVED: Properties := map[SUBJECT := "Meeting", LOCATION := "Room 2"]
  const RENAME: Properties := map[SUBJECT := "Renamed"]

  function Shelf(cn: int, props: Properties): Store {
    Store([Row(7, FOLDER, false, false, cn, props)], cn + 1)
  }

  const FRESH := World(Shelf(1, BOOKED), NEVER_SYNCED, "0", map[])
  const PRIMED := FRESH.(coll := Coll("1", map[]), key := "1")
  const SYNCED := PRIMED.(coll := Coll("2", map["7" := 1]), key := "2", view := map["7" := BOOKED])
  const ELSEWHERE := SYNCED.(store := Shelf(2, MOVED))
  const LOST_MOVE := World(Shelf(3, MOVED + RENAME), Coll("3", map["7" := 3]), "3", map["7" := BOOKED + RENAME])

  const RENAMING := ChangeCmd("7", Parsed(RENAME))

  function RenderAll(s: string): Rendering {
    Rendered
  }

  lemma ShelfListing(cn: int, props: Properties)
    ensures ValidRows(Shelf(cn, props).rows) && Listing(Shelf(cn, props).rows, FOLDER) == [Entry("7", cn)]
    ensures RowOf(Shelf(cn, props).rows, "7") == 0 && ContentOf(Shelf(cn, props).rows, "7") == props
    ensures NumbersOk(Shelf(cn, props), FOLDER)
  {
    SidSeven();
    OneRow(Row(7, FOLDER, false, false, cn, props), FOLDER);
  }

  lemma FirstSync()
    ensures RoundRequest(PRIMED, SYNCED, FOLDER, false, [], 1, RenderAll, Replica.Delivered, [Change(Added, "7", 1)],
                         false)
  {
    var c, live := Change(Added, "7", 1), [Entry("7", 1)];
    ShelfListing(1, BOOKED);
    NoCommands(PRIMED.store, map[], FOLDER, map[]);
    OnlyNew(Entry("7", 1));
    assert [c][..Taken([c], 1)] == [c] && [c][1..] == [] && [c][..0] == [];
    assert Emitted(RenderAll, [c]) == [c];
    assert RecordAll(map[], [c]) == map["7" := 1];
    assert ObjectRound(RenderAll, map[], live, 1, map["7" := 1], [c], false);
    assert ReceiveAll(map[], [c], PRIMED.store.rows) == SYNCED.view;
    SmallKeys();
  }

  lemma NoCommands(store: Store, items: Items, folder: int, view: View)
    ensures Batch(store, items, folder, []).store == store && Batch(store, items, folder, []).items == items
    ensures LocalAll(view, []) == view && CreatedBy([]) == {}
  {
    var st := State(store, items, {}, []);
    assert ApplyAll(st, folder, []) == st;
    FoldNothing(items, Listing(store.rows, folder));
  }

  lemma OnlyNew(e: Entry)
    ensures IsDiff(map[], [e], [Change(Added, e.sid, e.version)])
  {
    assert [e][..0] == [];
    assert LiveChanges(map[], [e]) == [Change(Added, e.sid, e.version)];
    assert IsRemovalOrder(map[], [e], []);
  }

  lemma SmallKeys()
    ensures NextSyncKey("1") == "2" && NextSyncKey("2") == "3"
  {
    NextSyncKeyOf(1);
    NextSyncKeyOf(2);
    assert FormatUint(1) == "1" && FormatUint(2) == "2" && FormatUint(3) == "3";
  }

  lemma RenamingBatch()
    ensures ProperBatch(State(Shelf(2, MOVED), map["7" := 1], {}, []), FOLDER, [RENAMING])
    ensures var st := Batch(Shelf(2, MOVED), map["7" := 1], FOLDER, [RENAMING]);
            st.store == Shelf(3, MOVED + RENAME) && st.items == map["7" := 3]
  {
    var store, st0 := Shelf(2, MOVED), State(Shelf(2, MOVED), map["7" := 1], {}, []);
    ShelfListing(2, MOVED);
    ShelfListing(3, MOVED + RENAME);
    SidSeven();
    assert SUBJECT in RENAME;
    assert [RENAMING][..0] == [] && ProperBatch(st0, FOLDER, []);
    OneChange(store, map["7" := 1], FOLDER, RENAMING);
    assert [Entry("7", 3)][..0] == [];
    assert Fold(map["7" := 1], [Entry("7", 3)], {"7"}) == map["7" := 3];
  }

  lemma RenamingCopy()
    ensures DeviceBatch({"7"}, [RENAMING]) && CreatedBy([RENAMING]) == {}
    ensures LocalAll(map["7" := BOOKED], [RENAMING]) == map["7" := BOOKED + RENAME]
  {
    assert SUBJECT in RENAME;
    assert [RENAMING][..0] == [];
    assert DeviceBatch({"7"}, []) && HeldAfter({"7"}, []) == {"7"};
    assert LocalAll(map["7" := BOOKED], []) == map["7" := BOOKED];
  }

  lemma NothingPending()
    ensures IsDiff(map["7" := 3], [Entry("7", 3)], [])
  {
    var live := [Entry("7", 3)];
    assert live[..0] == [];
    assert LiveChanges(map["7" := 3], live) == [];
    assert Sids(live) == {"7"};
    assert IsRemovalOrder(map["7" := 3], live, []);
  }

  /** A round whose commands leave nothing pending. */
  lemma QuietRound(w: World, w': World, cmds: seq<Command>)
    requires ProperBatch(State(w.store, w.coll.items, {}, []), FOLDER, cmds)
    requires ValidRows(w.store.rows) && DeviceBatch(w.view.Keys, cmds) && CreatedBy(cmds) == {} && DistinctClients(cmds)
    requires ObjectRound(RenderAll, w'.coll.items, Listing(w'.store.rows, FOLDER), 1, w'.coll.items, [], false)
    requires w'.store == Batch(w.store, w.coll.items, FOLDER, cmds).store
    requires w'.coll.items == Batch(w.store, w.coll.items, FOLDER, cmds).items
    requires w'.coll.syncKey == w'.key == NextSyncKey(w.coll.syncKey) && w'.view == LocalAll(w.view, cmds)
    ensures RoundRequest(w, w', FOLDER, false, cmds, 1, RenderAll, Replica.Delivered, [], false)
  {
    AnswersSuffice(w.store, w.coll.items, w.view, FOLDER, cmds);
  }

  lemma RenamedStore()
    ensures ProperBatch(State(ELSEWHERE.store, ELSEWHERE.coll.items, {}, []), FOLDER, [RENAMING])
    ensures LOST_MOVE.store == Batch(ELSEWHERE.store, ELSEWHERE.coll.items, FOLDER, [RENAMING]).store
    ensures LOST_MOVE.coll.items == Batch(ELSEWHERE.store, ELSEWHERE.coll.items, FOLDER, [RENAMING]).items
  {
    RenamingBatch();
  }

  lemma RenamedCopy()
    ensures DeviceBatch(ELSEWHERE.view.Keys, [RENAMING]) && CreatedBy([RENAMING]) == {}
    ensures LOST_MOVE.view == LocalAll(ELSEWHERE.view, [RENAMING])
  {
    RenamingCopy();
    assert ELSEWHERE.view.Keys == {"7"};
  }

  lemma NothingSent()
    ensures ObjectRound(RenderAll, LOST_MOVE.coll.items, Listing(LOST_MOVE.store.rows, FOLDER), 1, LOST_MOVE.coll.items,
                        [], false)
  {
    ShelfListing(3, MOVED + RENAME);
    NothingPending();
  }

  lemma LateRename()
    ensures RoundRequest(ELSEWHERE, LOST_MOVE, FOLDER, false, [RENAMING], 1, RenderAll, Replica.Delivered, [], false)
  {
    RenamedStore();
    RenamedCopy();
    NothingSent();
    SmallKeys();
    QuietRound(ELSEWHERE, LOST_MOVE, [RENAMING]);
  }

  lemma MovedElsewhere()
    ensures ObjectReplica.Step(SYNCED, ELSEWHERE, FOLDER, false)
  {
    ShelfListing(1, BOOKED);
    ShelfListing(2, MOVED);
    assert StoreChange(SYNCED, ELSEWHERE, FOLDER);
  }

  const LOSING_RUN := [FRESH, PRIMED, SYNCED, ELSEWHERE, LOST_MOVE]

  lemma ChainOfFive(a: World, b: World, c: World, d: World, e: World)
    requires Init(a, FOLDER) && ObjectReplica.Step(a, b, FOLDER, false) && ObjectReplica.Step(b, c, FOLDER, false)
             && ObjectReplica.Step(c, d, FOLDER, false) && ObjectReplica.Step(d, e, FOLDER, false)
    ensures ObjectReplica.Run([a, b, c, d, e], FOLDER, false)
  {
  }

  lemma RoundIsStep(w: World, w': World, cmds: seq<Command>, sent: seq<Change>)
    requires GateOf(w.coll, w.key) == Current
    requires RoundRequest(w, w', FOLDER, false, cmds, 1, RenderAll, Replica.Delivered, sent, false)
    ensures ObjectReplica.Step(w, w', FOLDER, false)
  {
    RoundIsSync(w, w', FOLDER, false, cmds, 1, RenderAll, Replica.Delivered, sent, false);
    SyncIsStep(w, w', FOLDER, false, w.key, Replica.Delivered);
  }

  lemma PrimeIsStep()
    ensures Init(FRESH, FOLDER) && ObjectReplica.Step(FRESH, PRIMED, FOLDER, false)
  {
    ShelfListing(1, BOOKED);
    assert ObjectReplica.SyncRequest(FRESH, PRIMED, FOLDER, false, "0", Replica.Delivered);
  }

  lemma FirstSyncIsStep()
    ensures ObjectReplica.Step(PRIMED, SYNCED, FOLDER, false)
  {
    FirstSync();
    RoundIsStep(PRIMED, SYNCED, [], [Change(Added, "7", 1)]);
  }

  lemma LateRenameIsStep()
    ensures ObjectReplica.Step(ELSEWHERE, LOST_MOVE, FOLDER, false)
  {
    LateRename();
    RoundIsStep(ELSEWHERE, LOST_MOVE, [RENAMING], []);
  }

  /**
   A run from a fresh mailbox that ends with equal keys and nothing pending, the device in
   the old room and the folder in the new one.
   */
  lemma AChangeCanBeLost()
    ensures ObjectReplica.Run(LOSING_RUN, FOLDER, false)
    ensures var w := LOSING_RUN[4];
            && w.key != "0" && w.key == w.coll.syncKey && IsDiff(w.coll.items, Listing(w.store.rows, FOLDER), [])
            && "7" in w.view && LOCATION in w.view["7"] && w.view["7"][LOCATION] == "Room 1"
            && LOCATION in ContentOf(w.store.rows, "7") && ContentOf(w.store.rows, "7")[LOCATION] == "Room 2"
  {
    PrimeIsStep();
    FirstSyncIsStep();
    MovedElsewhere();
    LateRenameIsStep();
    ChainOfFive(FRESH, PRIMED, SYNCED, ELSEWHERE, LOST_MOVE);
    ShelfListing(3, MOVED + RENAME);
    NothingPending();
  }
}
