/**
 Which of a device's own object edits come back to it, decided on the request and the
 store as they are before the batch.
 */
module ObjectEcho {
  import opened Strconv
  import opened Snapshot
  import opened Objects

  // ---------- what an edit does to the listing ----------

  ghost predicate RowListed(rows: seq<Row>, folder: int, id: int) {
    var k := Find(rows, id);
    k < |rows| && Listed(rows[k], folder)
  }

  lemma ListedSids(rows: seq<Row>, folder: int, s: string)
    requires ValidRows(rows)
    ensures s in Sids(Listing(rows, folder)) <==> exists id :: s == Sid(id) && RowListed(rows, folder, id)
  {
    if s in Sids(Listing(rows, folder)) {
      ListingMembers(rows, folder);
      var e :| e in Listing(rows, folder) && e.sid == s;
      var i :| 0 <= i < |rows| && Listed(rows[i], folder) && e == Entry(Sid(rows[i].id), rows[i].cn);
      SidListed(rows, folder, rows[i].id);
      assert s == Sid(rows[i].id) && RowListed(rows, folder, rows[i].id);
    }
    if id :| s == Sid(id) && RowListed(rows, folder, id) {
      SidListed(rows, folder, id);
    }
  }

  predicate Present(rows: seq<Row>, id: int) {
    Find(rows, id) < |rows|
  }

  lemma FindNone(rows: seq<Row>, id: int)
    requires forall i :: 0 <= i < |rows| ==> rows[i].id != id
    ensures !Present(rows, id)
  {
  }

  lemma PresentAt(rows: seq<Row>, id: int, i: nat)
    requires i < |rows| && rows[i].id == id
    ensures Present(rows, id)
  {
  }

  /** An edit adds the row it inserts and takes none away. */
  lemma EditPresent(rows: seq<Row>, e: Edit, id: int)
    requires ValidRows(rows) && ProperEdit(rows, e)
    ensures Present(Edited(rows, e), id) <==> Present(rows, id) || (e.Add? && e.r.id == id)
  {
    var rows' := Edited(rows, e);
    if Present(rows, id) {
      RowAfter(rows, e, id);
    } else if e.Add? && e.r.id == id {
      InsertAt(rows, e.r, Slot(rows, id));
      PresentAt(rows', id, Slot(rows, id));
    } else {
      forall i | 0 <= i < |rows'| ensures rows'[i].id != id {
        if e.Add? {
          InsertAt(rows, e.r, i);
        }
      }
      FindNone(rows', id);
    }
  }

  lemma AddedRow(rows: seq<Row>, r: Row)
    requires ValidRows(rows) && ProperEdit(rows, Add(r))
    ensures var rows' := Insert(rows, r); Present(rows', r.id) && rows'[Find(rows', r.id)] == r
  {
    var k := Slot(rows, r.id);
    InsertAt(rows, r, k);
    InsertValid(rows, r);
    FindUnique(Insert(rows, r), k);
  }

  lemma EditListed(rows: seq<Row>, e: Edit, folder: int, id: int)
    requires ValidRows(rows) && ProperEdit(rows, e)
    ensures RowListed(Edited(rows, e), folder, id) <==>
            if !e.Keep? && e.r.id == id then Listed(e.r, folder) else RowListed(rows, folder, id)
  {
    EditPresent(rows, e, id);
    if e.Add? && e.r.id == id {
      AddedRow(rows, e.r);
    } else if Present(rows, id) {
      RowAfter(rows, e, id);
    } else if e.Put? {
      PresentAt(rows, e.r.id, e.k);
    }
  }

  lemma EditListedSid(rows: seq<Row>, e: Edit, folder: int, s: string)
    requires ValidRows(rows) && ProperEdit(rows, e)
    ensures s in Sids(Listing(Edited(rows, e), folder)) <==>
            if !e.Keep? && s == Sid(e.r.id) then Listed(e.r, folder) else s in Sids(Listing(rows, folder))
  {
    EditValid(rows, e);
    ListedSids(rows, folder, s);
    ListedSids(Edited(rows, e), folder, s);
    forall id | s == Sid(id)
      ensures RowListed(Edited(rows, e), folder, id) <==>
              if !e.Keep? && s == Sid(e.r.id) then Listed(e.r, folder) else RowListed(rows, folder, id)
    {
      EditListed(rows, e, folder, id);
      if !e.Keep? && s == Sid(e.r.id) {
        FormatIntInjective(id, e.r.id);
      }
    }
    if !e.Keep? && s == Sid(e.r.id) {
      assert RowListed(Edited(rows, e), folder, e.r.id) <==> Listed(e.r, folder);
    }
  }

  // ---------- what a command does to the listing ----------

  predicate CreatesSid(cmd: Command, s: string) {
    Creates(cmd) && s == Sid(cmd.newId.value)
  }

  lemma PutListed(rows: seq<Row>, e: Edit, folder: int)
    requires ValidRows(rows) && ProperEdit(rows, e) && e.Put?
    ensures Listed(e.r, folder) <==> Sid(e.r.id) in Sids(Listing(rows, folder)) && !e.r.deleted
    ensures Sid(e.r.id) in Sids(Listing(rows, folder)) ==> !rows[e.k].deleted
  {
    FindUnique(rows, e.k);
    SidListed(rows, folder, e.r.id);
  }

  /** A command that deletes nothing: what it creates is listed, and nothing else changes. */
  lemma KeepingStep(st: State, folder: int, cmd: Command, s: string)
    requires ValidRows(st.store.rows) && Proper(st, cmd) && !Deletes(st, cmd)
    ensures s in Sids(Listing(Apply(st, folder, cmd).store.rows, folder)) <==>
            s in Sids(Listing(st.store.rows, folder)) || CreatesSid(cmd, s)
  {
    var rows, e := st.store.rows, EditOf(st, folder, cmd);
    CommandEdits(st, folder, cmd);
    EditListedSid(rows, e, folder, s);
    if e.Put? {
      PutListed(rows, e, folder);
    }
  }

  lemma DeletingStep(st: State, folder: int, cmd: Command, s: string)
    requires ValidRows(st.store.rows) && Proper(st, cmd) && Deletes(st, cmd)
    ensures s in Sids(Listing(Apply(st, folder, cmd).store.rows, folder)) <==>
            s != cmd.sid && s in Sids(Listing(st.store.rows, folder))
  {
    var rows, e := st.store.rows, EditOf(st, folder, cmd);
    CommandEdits(st, folder, cmd);
    RowOfIssued(rows, cmd.sid);
    EditListedSid(rows, e, folder, s);
    EditValid(rows, e);
    DeleteKills(st, folder, cmd);
    DeadNotListed(Edited(rows, e), folder, cmd.sid);
  }

  /** The ids the batch creates. */
  function CreatedBy(cmds: seq<Command>): set<string> {
    if cmds == [] then {}
    else
      var last := cmds[|cmds| - 1];
      CreatedBy(cmds[..|cmds| - 1]) + if Creates(last) then {Sid(last.newId.value)} else {}
  }

  lemma FreshNotDead(st: State, cmd: Command, s: string)
    requires Proper(st, cmd) && Dead(st.store.rows, s)
    ensures !CreatesSid(cmd, s)
  {
    if CreatesSid(cmd, s) {
      ParseFormatInt(cmd.newId.value);
    }
  }

  /** What the folder lists after a batch: what it listed or was given, without what was deleted. */
  lemma {:induction false} ListedAfterIff(st: State, folder: int, cmds: seq<Command>, s: string)
    requires ValidRows(st.store.rows) && ProperBatch(st, folder, cmds)
    ensures s in Sids(Listing(ApplyAll(st, folder, cmds).store.rows, folder)) <==>
            s !in Dropped(st, folder, cmds) && (s in Sids(Listing(st.store.rows, folder)) || s in CreatedBy(cmds))
  {
    if cmds != [] {
      var init, last := cmds[..|cmds| - 1], cmds[|cmds| - 1];
      var mid := ApplyAll(st, folder, init);
      ListedAfterIff(st, folder, init, s);
      BatchKeeps(st, folder, init);
      if s in Dropped(st, folder, init) {
        FreshNotDead(mid, last, s);
      }
      if Deletes(mid, last) {
        DeletingStep(mid, folder, last, s);
      } else {
        KeepingStep(mid, folder, last, s);
      }
    }
  }

  // ---------- which ids a batch reaches ----------

  /** The id names a row, in this folder or another, deleted or not. */
  predicate Known(rows: seq<Row>, s: string) {
    RowOf(rows, s) < |rows|
  }

  lemma KnownStep(st: State, folder: int, cmd: Command, s: string)
    requires ValidRows(st.store.rows) && Proper(st, cmd) && IssuedSpelling(s)
    ensures Known(Apply(st, folder, cmd).store.rows, s) <==> Known(st.store.rows, s) || CreatesSid(cmd, s)
  {
    CommandEdits(st, folder, cmd);
    var p := ParseInt(s);
    if p.Some? {
      EditPresent(st.store.rows, EditOf(st, folder, cmd), p.value);
      if Creates(cmd) {
        ParseFormatInt(cmd.newId.value);
      }
    } else if CreatesSid(cmd, s) {
      ParseFormatInt(cmd.newId.value);
    }
  }

  lemma {:induction false} KnownAfterIff(st: State, folder: int, cmds: seq<Command>, s: string)
    requires ValidRows(st.store.rows) && ProperBatch(st, folder, cmds) && IssuedSpelling(s)
    ensures Known(ApplyAll(st, folder, cmds).store.rows, s) <==> Known(st.store.rows, s) || s in CreatedBy(cmds)
  {
    if cmds != [] {
      var init := cmds[..|cmds| - 1];
      KnownAfterIff(st, folder, init, s);
      BatchKeeps(st, folder, init);
      KnownStep(ApplyAll(st, folder, init), folder, cmds[|cmds| - 1], s);
    }
  }

  /** A Change of the batch names the id and carries something to write. */
  predicate Changes(cmds: seq<Command>, s: string) {
    exists i :: 0 <= i < |cmds| && IsChange(cmds[i], s)
  }

  predicate IsChange(cmd: Command, s: string) {
    cmd.ChangeCmd? && cmd.sid == s && cmd.payload.Parsed? && cmd.payload.props != map[]
  }

  lemma ChangesLast(cmds: seq<Command>, s: string)
    requires cmds != []
    ensures Changes(cmds, s) <==> Changes(cmds[..|cmds| - 1], s) || IsChange(cmds[|cmds| - 1], s)
  {
    var init := cmds[..|cmds| - 1];
    if i :| 0 <= i < |cmds| && IsChange(cmds[i], s) {
      if i < |init| {
        assert IsChange(init[i], s);
      }
    }
    if i :| 0 <= i < |init| && IsChange(init[i], s) {
      assert IsChange(cmds[i], s);
    }
  }

  /** What a batch writes: what it creates, and what it changes that existed. */
  lemma {:induction false} WrittenIff(st: State, folder: int, cmds: seq<Command>, s: string)
    requires ValidRows(st.store.rows) && ProperBatch(st, folder, cmds) && st.written == {} && IssuedSpelling(s)
    ensures s in ApplyAll(st, folder, cmds).written <==>
            s in CreatedBy(cmds) || (Changes(cmds, s) && Known(st.store.rows, s))
  {
    if cmds != [] {
      var init, last := cmds[..|cmds| - 1], cmds[|cmds| - 1];
      WrittenIff(st, folder, init, s);
      KnownAfterIff(st, folder, init, s);
      ChangesLast(cmds, s);
      WrittenStep(ApplyAll(st, folder, init), folder, last, s);
    }
  }

  lemma WrittenStep(st: State, folder: int, cmd: Command, s: string)
    ensures s in Apply(st, folder, cmd).written <==>
            s in st.written || CreatesSid(cmd, s) || (IsChange(cmd, s) && Known(st.store.rows, s))
  {
  }

  lemma InLast(cmds: seq<Command>, cmd: Command)
    requires cmds != []
    ensures cmd in cmds <==> cmd in cmds[..|cmds| - 1] || cmd == cmds[|cmds| - 1]
  {
    assert cmds == cmds[..|cmds| - 1] + [cmds[|cmds| - 1]];
  }

  lemma DroppedStep(st: State, cmd: Command, s: string)
    requires Known(st.store.rows, s)
    ensures s in DroppedBy(st, cmd) <==> cmd == DeleteCmd(s)
  {
  }

  /** Every Delete of an object the store knows succeeds. */
  lemma {:induction false} DroppedIff(st: State, folder: int, cmds: seq<Command>, s: string)
    requires ValidRows(st.store.rows) && ProperBatch(st, folder, cmds) && IssuedSpelling(s) && Known(st.store.rows, s)
    ensures s in Dropped(st, folder, cmds) <==> DeleteCmd(s) in cmds
  {
    if cmds != [] {
      var init, last := cmds[..|cmds| - 1], cmds[|cmds| - 1];
      DroppedIff(st, folder, init, s);
      KnownAfterIff(st, folder, init, s);
      DroppedStep(ApplyAll(st, folder, init), last, s);
      InLast(cmds, DeleteCmd(s));
    }
  }

  lemma {:induction false} KnownNotCreated(st: State, folder: int, cmds: seq<Command>, s: string)
    requires ValidRows(st.store.rows) && ProperBatch(st, folder, cmds) && IssuedSpelling(s) && Known(st.store.rows, s)
    ensures s !in CreatedBy(cmds)
  {
    if cmds != [] {
      var init, last := cmds[..|cmds| - 1], cmds[|cmds| - 1];
      KnownNotCreated(st, folder, init, s);
      KnownAfterIff(st, folder, init, s);
      if CreatesSid(last, s) {
        ParseFormatInt(last.newId.value);
      }
    }
  }

  // ---------- what comes back ----------

  /** The batch writes the object: it creates it, or changes it and the store knows it. */
  predicate Reaches(store: Store, cmds: seq<Command>, s: string) {
    s in CreatedBy(cmds) || (Changes(cmds, s) && Known(store.rows, s))
  }

  /**
   When an object the batch writes comes back all the same: exactly when the snapshot
   holds it, the folder did not list it beforehand, and the batch neither created nor
   deletes it. The Change reached an object that had left the folder, and its deletion
   stays pending.
   */
  lemma WrittenComesBackIff(store: Store, items: Items, folder: int, cmds: seq<Command>, out': seq<Change>, s: string)
    requires ValidRows(store.rows) && ProperBatch(State(store, items, {}, []), folder, cmds)
    requires IssuedSpelling(s) && Reaches(store, cmds, s)
    requires var st' := Batch(store, items, folder, cmds); IsDiff(st'.items, Listing(st'.store.rows, folder), out')
    ensures s in ChangeSids(out') <==>
            s in items && s !in Sids(Listing(store.rows, folder)) && s !in CreatedBy(cmds) && DeleteCmd(s) !in cmds
  {
    var st, st' := State(store, items, {}, []), Batch(store, items, folder, cmds);
    var live := Listing(st'.store.rows, folder);
    BatchSettles(store, items, folder, cmds);
    ListingDistinct(st'.store.rows, folder);
    PendingIffUnsettled(st'.items, live, out', s);
    ListedAfterIff(st, folder, cmds, s);
    WrittenIff(st, folder, cmds, s);
    if Known(store.rows, s) {
      DroppedIff(st, folder, cmds, s);
      KnownNotCreated(st, folder, cmds, s);
    }
  }

  const FOLDER := 0x0f

  /** Object 7 was deleted elsewhere; the device, which still holds version 2 of it, changes it. */
  const EDIT: Properties := map[0x37 := "Renamed"]
  const GONE := Store([Row(7, FOLDER, true, false, 3, map[])], 4)
  const HELD: Items := map["7" := 2]
  const LATE_CHANGE := ChangeCmd("7", Parsed(EDIT))

  lemma EditWrites()
    ensures EDIT != map[] && map[] + EDIT == EDIT
  {
    assert 0x37 in EDIT;
  }

  lemma SidSeven()
    ensures Sid(7) == "7" && ParseInt("7") == Some(7)
  {
    assert FormatUint(7) == "7";
    ParseFormatInt(7);
  }

  lemma OneRow(r: Row, folder: int)
    ensures Listing([r], folder) == (if Listed(r, folder) then [Entry(Sid(r.id), r.cn)] else [])
    ensures ValidRows([r]) <==> -TWO_63 <= r.id < TWO_63
  {
    ListingOne(r, folder);
  }

  lemma {:induction false} FoldNothing(items: Items, live: seq<Entry>)
    ensures Fold(items, live, {}) == items
  {
    if live != [] {
      FoldNothing(items, live[..|live| - 1]);
    }
  }

  lemma EmptyBatch(store: Store, items: Items, folder: int)
    ensures Batch(store, items, folder, []) == State(store, items, {}, [])
  {
    FoldNothing(items, Listing(store.rows, folder));
  }

  lemma OneCommand(store: Store, items: Items, folder: int, cmd: Command)
    ensures ApplyAll(State(store, items, {}, []), folder, [cmd]) == Apply(State(store, items, {}, []), folder, cmd)
  {
    var st := State(store, items, {}, []);
    assert [cmd][..0] == [];
    assert ApplyAll(st, folder, []) == st;
  }

  /** A Change the device is sent the deletion of. */
  lemma LateChangeComesBack()
    ensures ValidRows(GONE.rows) && ProperBatch(State(GONE, HELD, {}, []), FOLDER, [LATE_CHANGE])
    ensures var st' := Batch(GONE, HELD, FOLDER, [LATE_CHANGE]);
            && "7" in st'.written
            && IsDiff(st'.items, Listing(st'.store.rows, FOLDER), [Change(Removed, "7", 0)])
  {
    var st := State(GONE, HELD, {}, []);
    EditWrites();
    SidSeven();
    OneCommand(GONE, HELD, FOLDER, LATE_CHANGE);
    OneRow(GONE.rows[0], FOLDER);
    assert [LATE_CHANGE][..0] == [] && ProperBatch(st, FOLDER, []);
    var after := Apply(st, FOLDER, LATE_CHANGE);
    assert after.store.rows == [Row(7, FOLDER, true, false, 4, EDIT)];
    OneRow(after.store.rows[0], FOLDER);
    OnlyDeletion(after.items, "7");
  }

  lemma OnlyDeletion(items: Items, s: string)
    requires items.Keys == {s}
    ensures IsDiff(items, [], [Change(Removed, s, 0)])
  {
    OneRemoval(s);
    assert Vanished(items, []) == {s};
    assert IsRemovalOrder(items, [], [s]);
    assert LiveChanges(items, []) == [];
  }

  // ---------- other spellings ----------

  /** A row is listed once, at its change number. */
  lemma ListedAs(rows: seq<Row>, folder: int, k: nat, version: int)
    requires ValidRows(rows) && k < |rows| && Listed(rows[k], folder)
    ensures Entry(Sid(rows[k].id), version) in Listing(rows, folder) <==> version == rows[k].cn
  {
    ListingMembers(rows, folder);
    assert Entry(Sid(rows[k].id), rows[k].cn) in Listing(rows, folder);
    ListingDistinct(rows, folder);
    DistinctEntries(Listing(rows, folder));
  }

  /** The row a Change leaves at position k. */
  function Changed(store: Store, cmd: Command, k: nat): Row
    requires k < |store.rows| && cmd.ChangeCmd? && cmd.payload.Parsed?
  {
    store.rows[k].(cn := store.nextCn, props := store.rows[k].props + cmd.payload.props)
  }

  lemma OneChange(store: Store, items: Items, folder: int, cmd: Command)
    requires Writes(State(store, items, {}, []), cmd)
    ensures var k := RowOf(store.rows, cmd.sid);
            ApplyAll(State(store, items, {}, []), folder, [cmd]) ==
            State(Store(store.rows[k := Changed(store, cmd, k)], store.nextCn + 1), items, {cmd.sid}, [])
  {
    OneCommand(store, items, folder, cmd);
    assert Apply(State(store, items, {}, []), folder, cmd).written == {cmd.sid};
  }

  /** What the fold makes of a listed item when the batch wrote `name`. */
  lemma FoldSettlesIff(items: Items, live: seq<Entry>, name: string, e: Entry)
    requires Distinct(live) && e in live
    ensures Settled(Fold(items, live, {name}), live, e.sid) <==>
            name == e.sid || (e.sid in items && items[e.sid] == e.version)
  {
    DistinctEntries(live);
    assert e.sid in Sids(live);
    var i :| 0 <= i < |live| && live[i] == e;
    if name == e.sid {
      FoldInside(items, live, {name}, i);
    } else {
      FoldOutside(items, live, {name}, e.sid);
    }
  }

  /**
   The listed object a Change reaches, whatever the spelling: it is settled afterwards
   exactly when the Change named it, or the snapshot already held the change number the
   store was about to give out. Otherwise the device's own edit is sent back to it.
   */
  lemma ChangeReachedSettlesIff(store: Store, items: Items, folder: int, cmd: Command)
    requires ValidRows(store.rows) && Writes(State(store, items, {}, []), cmd)
    requires Listed(store.rows[RowOf(store.rows, cmd.sid)], folder)
    ensures var st', sid := Batch(store, items, folder, [cmd]), Sid(store.rows[RowOf(store.rows, cmd.sid)].id);
            Settled(st'.items, Listing(st'.store.rows, folder), sid) <==>
            cmd.sid == sid || (sid in items && items[sid] == store.nextCn)
  {
    var k := RowOf(store.rows, cmd.sid);
    var row := Changed(store, cmd, k);
    var rows' := store.rows[k := row];
    OneChange(store, items, folder, cmd);
    ReplaceValid(store.rows, k, row);
    ListingDistinct(rows', folder);
    ListedAs(rows', folder, k, store.nextCn);
    FoldSettlesIff(items, Listing(rows', folder), cmd.sid, Entry(Sid(row.id), store.nextCn));
  }

  /** The object a Delete reaches: settled exactly when the Delete named it, or the snapshot had never held it. */
  lemma DeleteReachedSettlesIff(store: Store, items: Items, folder: int, cmd: Command)
    requires ValidRows(store.rows) && Deletes(State(store, items, {}, []), cmd)
    ensures var st', sid := Batch(store, items, folder, [cmd]), Sid(store.rows[RowOf(store.rows, cmd.sid)].id);
            Settled(st'.items, Listing(st'.store.rows, folder), sid) <==> cmd.sid == sid || sid !in items
  {
    var st := State(store, items, {}, []);
    var rows, k := store.rows, RowOf(store.rows, cmd.sid);
    var after, sid := Apply(st, folder, cmd), Sid(rows[k].id);
    var live := Listing(after.store.rows, folder);
    OneCommand(store, items, folder, cmd);
    ReplaceValid(rows, k, after.store.rows[k]);
    FindUnique(after.store.rows, k);
    SidListed(after.store.rows, folder, rows[k].id);
    FoldOutside(after.items, live, {}, sid);
    assert sid in after.items ==> (Entry(sid, after.items[sid]) in live ==> sid in Sids(live));
  }

  const SEVEN := Store([Row(7, FOLDER, false, false, 1, map[])], 2)
  const IN_SYNC: Items := map["7" := 1]

  lemma ReadsSeven()
    ensures ParseInt("007") == Some(7)
  {
    assert "007"[..2] == "00" && "00"[..1] == "0" && "0"[..0] == "";
    assert DigitsValue("0") == 0 && DigitsValue("00") == 0 && DigitsValue("007") == 7;
  }

  /** "007" reaches object 7: the device is sent its own Change, and a deletion of the object it deleted. */
  lemma OddSpellingEchoes()
    ensures var st' := Batch(SEVEN, IN_SYNC, FOLDER, [ChangeCmd("007", Parsed(EDIT))]);
            IsDiff(st'.items, Listing(st'.store.rows, FOLDER), [Change(Modified, "7", 2)])
    ensures var st' := Batch(SEVEN, IN_SYNC, FOLDER, [DeleteCmd("007")]);
            IsDiff(st'.items, Listing(st'.store.rows, FOLDER), [Change(Removed, "7", 0)])
  {
    SidSeven();
    ReadsSeven();
    OddChangeEchoes();
    OddDeleteEchoes();
  }

  lemma OddChangeEchoes()
    requires ParseInt("007") == Some(7) && Sid(7) == "7"
    ensures var st' := Batch(SEVEN, IN_SYNC, FOLDER, [ChangeCmd("007", Parsed(EDIT))]);
            IsDiff(st'.items, Listing(st'.store.rows, FOLDER), [Change(Modified, "7", 2)])
  {
    EditWrites();
    OneChange(SEVEN, IN_SYNC, FOLDER, ChangeCmd("007", Parsed(EDIT)));
    OneRow(Row(7, FOLDER, false, false, 2, EDIT), FOLDER);
    FoldSkips(IN_SYNC, Entry("7", 2), "007");
    OnlyModified(IN_SYNC, Entry("7", 2));
  }

  lemma FoldSkips(items: Items, e: Entry, name: string)
    requires name != e.sid
    ensures Fold(items, [e], {name}) == items
  {
    assert [e][..0] == [];
  }

  lemma OnlyModified(items: Items, e: Entry)
    requires items.Keys == {e.sid} && items[e.sid] != e.version
    ensures IsDiff(items, [e], [Change(Modified, e.sid, e.version)])
  {
    assert [e][..0] == [];
    assert LiveChanges(items, [e]) == [Change(Modified, e.sid, e.version)];
    assert Sids([e]) == {e.sid};
    assert IsRemovalOrder(items, [e], []);
  }

  lemma OddDeleteEchoes()
    requires ParseInt("007") == Some(7) && Sid(7) == "7"
    ensures var st' := Batch(SEVEN, IN_SYNC, FOLDER, [DeleteCmd("007")]);
            IsDiff(st'.items, Listing(st'.store.rows, FOLDER), [Change(Removed, "7", 0)])
  {
    var cmd := DeleteCmd("007");
    var after := Apply(State(SEVEN, IN_SYNC, {}, []), FOLDER, cmd);
    OneCommand(SEVEN, IN_SYNC, FOLDER, cmd);
    assert after.store.rows == [Row(7, FOLDER, true, false, 3, map[])] && after.items == IN_SYNC;
    OneRow(after.store.rows[0], FOLDER);
    OnlyDeletion(IN_SYNC, "7");
  }
}
