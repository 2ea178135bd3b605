/**
 The replication protocol for an object folder over whole runs, down to the items'
 properties: the device learns the ids of its additions from the responses, and a Change
 is an upsert on either side.
 */
module ObjectReplica {
  import opened Strconv
  import opened Snapshot
  import opened SyncState
  import opened Rounds
  import opened Objects
  import opened ObjectEcho
  import opened Additions
  import Replica

  /** What the device holds: server id to the item's properties. */
  type View = map<string, Properties>

  /** The properties of the row an id names. */
  function ContentOf(rows: seq<Row>, s: string): Properties {
    if Known(rows, s) then rows[RowOf(rows, s)].props else map[]
  }

  /** The device holds the item exactly when the folder lists it. */
  predicate Presence(view: View, rows: seq<Row>, folder: int, s: string) {
    s in view <==> s in Sids(Listing(rows, folder))
  }

  /** The device's copy of the item is the folder's. */
  predicate Matches(view: View, rows: seq<Row>, s: string) {
    s in view && view[s] == ContentOf(rows, s)
  }

  // ---------- the device ----------

  /** A device changes and deletes what it holds, and a Change carries something to write. */
  predicate DeviceCommand(held: set<string>, cmd: Command) {
    match cmd
    case ChangeCmd(sid, payload) => sid in held && payload.Parsed? && payload.props != map[]
    case DeleteCmd(sid) => sid in held
    case _ => true
  }

  /** The ids still held after some commands. */
  function HeldAfter(held: set<string>, cmds: seq<Command>): set<string> {
    if cmds == [] then held
    else
      var rest, last := HeldAfter(held, cmds[..|cmds| - 1]), cmds[|cmds| - 1];
      if last.DeleteCmd? then rest - {last.sid} else rest
  }

  predicate DeviceBatch(held: set<string>, cmds: seq<Command>) {
    cmds == [] ||
    var init := cmds[..|cmds| - 1];
    DeviceBatch(held, init) && DeviceCommand(HeldAfter(held, init), cmds[|cmds| - 1])
  }

  /** The device's own copy after one of its commands, an addition under the id the store gave it. */
  function Local(view: View, cmd: Command): View {
    if Creates(cmd) then view[Sid(cmd.newId.value) := cmd.payload.props]
    else
      match cmd
      case ChangeCmd(sid, Parsed(props)) => if sid in view then view[sid := view[sid] + props] else view
      case DeleteCmd(sid) => view - {sid}
      case _ => view
  }

  function LocalAll(view: View, cmds: seq<Command>): View {
    if cmds == [] then view else Local(LocalAll(view, cmds[..|cmds| - 1]), cmds[|cmds| - 1])
  }

  /** The device's own copy once it has the answers: an addition is held under the id they give for it. */
  function Learn(view: View, cmd: Command, responses: seq<AddResponse>): View {
    match cmd
    case AddCmd(clientId, Parsed(props), _) =>
      (match Told(responses, clientId)
       case Some(sid) => view[sid := props]
       case None => view)
    case AddCmd(_, _, _) => view
    case _ => Local(view, cmd)
  }

  function LearnAll(view: View, cmds: seq<Command>, responses: seq<AddResponse>): View {
    if cmds == [] then view
    else Learn(LearnAll(view, cmds[..|cmds| - 1], responses), cmds[|cmds| - 1], responses)
  }

  lemma LearnsOne(view: View, cmds: seq<Command>, responses: seq<AddResponse>, at: seq<nat>, i: nat)
    requires AnswersInOrder(cmds, responses, at) && DistinctClients(cmds) && i < |cmds|
    ensures Learn(view, cmds[i], responses) == Local(view, cmds[i])
  {
    if cmds[i].AddCmd? {
      ToldIff(cmds, responses, at, i);
    }
  }

  lemma {:induction false} LearnsPrefix(view: View, cmds: seq<Command>, responses: seq<AddResponse>, at: seq<nat>,
                                        n: nat)
    requires AnswersInOrder(cmds, responses, at) && DistinctClients(cmds) && n <= |cmds|
    ensures LearnAll(view, cmds[..n], responses) == LocalAll(view, cmds[..n])
  {
    if n > 0 {
      LearnsPrefix(view, cmds, responses, at, n - 1);
      assert cmds[..n][..n - 1] == cmds[..n - 1];
      LearnsOne(LocalAll(view, cmds[..n - 1]), cmds, responses, at, n - 1);
    }
  }

  /** The answers tell the device all it needs to know about its additions. */
  lemma AnswersSuffice(store: Store, items: Items, view: View, folder: int, cmds: seq<Command>)
    requires ValidRows(store.rows) && ProperBatch(State(store, items, {}, []), folder, cmds) && DistinctClients(cmds)
    ensures LearnAll(view, cmds, Batch(store, items, folder, cmds).responses) == LocalAll(view, cmds)
  {
    var at := AddsAnswered(store, items, folder, cmds);
    LearnsPrefix(view, cmds, Batch(store, items, folder, cmds).responses, at, |cmds|);
    assert cmds[..|cmds|] == cmds;
  }

  /** The device's copy after one server command, which carries the item's properties. */
  function Receive(view: View, c: Change, rows: seq<Row>): View {
    if c.kind == Removed then view - {c.sid} else view[c.sid := ContentOf(rows, c.sid)]
  }

  function ReceiveAll(view: View, cs: seq<Change>, rows: seq<Row>): View {
    if cs == [] then view else Receive(ReceiveAll(view, cs[..|cs| - 1], rows), cs[|cs| - 1], rows)
  }

  lemma {:induction false} HeldIff(held: set<string>, cmds: seq<Command>, s: string)
    ensures s in HeldAfter(held, cmds) <==> s in held && DeleteCmd(s) !in cmds
  {
    if cmds != [] {
      HeldIff(held, cmds[..|cmds| - 1], s);
      InLast(cmds, DeleteCmd(s));
    }
  }

  /** A device's commands name only what it holds. */
  lemma {:induction false} NamedIsHeld(held: set<string>, cmds: seq<Command>, s: string)
    requires DeviceBatch(held, cmds)
    ensures Changes(cmds, s) || DeleteCmd(s) in cmds ==> s in held
  {
    if cmds != [] {
      var init := cmds[..|cmds| - 1];
      NamedIsHeld(held, init, s);
      HeldIff(held, init, s);
      ChangesLast(cmds, s);
      InLast(cmds, DeleteCmd(s));
    }
  }

  lemma {:induction false} DroppedIsNamed(st: State, folder: int, cmds: seq<Command>, s: string)
    ensures s in Dropped(st, folder, cmds) ==> DeleteCmd(s) in cmds
  {
    if cmds != [] {
      DroppedIsNamed(st, folder, cmds[..|cmds| - 1], s);
      InLast(cmds, DeleteCmd(s));
    }
  }

  /** What the device holds after its batch. */
  lemma {:induction false} LocalIff(view: View, cmds: seq<Command>, s: string)
    requires DeviceBatch(view.Keys, cmds) && view.Keys !! CreatedBy(cmds)
    ensures s in LocalAll(view, cmds) <==> (s in view && DeleteCmd(s) !in cmds) || s in CreatedBy(cmds)
  {
    if cmds != [] {
      var init := cmds[..|cmds| - 1];
      LocalIff(view, init, s);
      HeldIff(view.Keys, init, s);
      InLast(cmds, DeleteCmd(s));
    }
  }

  // ---------- upserts ----------

  /** The two agree on every property outside `tags`. */
  ghost predicate AgreeBeyond(a: Properties, b: Properties, tags: set<int>) {
    forall t :: t !in tags ==> (t in a <==> t in b) && (t in a ==> a[t] == b[t])
  }

  /** The same upsert makes two copies equal exactly when they agreed on all it does not carry. */
  lemma UpsertEqualIff(a: Properties, b: Properties, p: Properties)
    ensures a + p == b + p <==> AgreeBeyond(a, b, p.Keys)
  {
    if a + p == b + p {
      forall t | t !in p.Keys ensures (t in a <==> t in b) && (t in a ==> a[t] == b[t]) {
        assert t in a <==> t in a + p;
        assert t in b <==> t in b + p;
        assert t in a ==> (a + p)[t] == a[t];
        assert t in b ==> (b + p)[t] == b[t];
      }
    }
    if AgreeBeyond(a, b, p.Keys) {
      forall t ensures t in a + p <==> t in b + p {
      }
      forall t | t in a + p ensures (a + p)[t] == (b + p)[t] {
      }
    }
  }

  /** A Change of a listed item covers the properties in which folder and device differ. */
  ghost predicate Covers(view: View, rows: seq<Row>, folder: int, cmd: Command) {
    cmd.ChangeCmd? && cmd.payload.Parsed? && cmd.sid in view && cmd.sid in Sids(Listing(rows, folder)) ==>
      AgreeBeyond(view[cmd.sid], ContentOf(rows, cmd.sid), cmd.payload.props.Keys)
  }

  ghost predicate CoversAll(view: View, st: State, folder: int, cmds: seq<Command>) {
    cmds == [] ||
    var init := cmds[..|cmds| - 1];
    CoversAll(view, st, folder, init) &&
    Covers(LocalAll(view, init), ApplyAll(st, folder, init).store.rows, folder, cmds[|cmds| - 1])
  }

  lemma KeptRow(rows: seq<Row>, e: Edit, s: string)
    requires ValidRows(rows) && ProperEdit(rows, e) && Known(rows, s)
    ensures Known(Edited(rows, e), s)
    ensures ContentOf(Edited(rows, e), s) ==
            if e.Put? && e.r.id == ParseInt(s).value then e.r.props else ContentOf(rows, s)
  {
    RowAfter(rows, e, ParseInt(s).value);
  }

  /** What a command does to the properties of one item. */
  lemma ContentStep(st: State, folder: int, cmd: Command, s: string)
    requires ValidRows(st.store.rows) && Proper(st, cmd) && IssuedSpelling(s)
    ensures ContentOf(Apply(st, folder, cmd).store.rows, s) ==
            if CreatesSid(cmd, s) then cmd.payload.props
            else if IsChange(cmd, s) && Known(st.store.rows, s) then ContentOf(st.store.rows, s) + cmd.payload.props
            else ContentOf(st.store.rows, s)
  {
    var rows, e := st.store.rows, EditOf(st, folder, cmd);
    CommandEdits(st, folder, cmd);
    KnownStep(st, folder, cmd, s);
    if CreatesSid(cmd, s) {
      ParseFormatInt(cmd.newId.value);
      AddedRow(rows, e.r);
    } else if Known(rows, s) {
      KeptRow(rows, e, s);
      if e.Put? {
        FindUnique(rows, e.k);
        PutNames(st, folder, cmd, s);
      }
    }
  }

  /** The row a Change or Delete rewrites is the one it names. */
  lemma PutNames(st: State, folder: int, cmd: Command, s: string)
    requires ValidRows(st.store.rows) && Proper(st, cmd) && IssuedSpelling(s) && Known(st.store.rows, s)
    requires EditOf(st, folder, cmd).Put?
    ensures !Creates(cmd) && (cmd.ChangeCmd? || cmd.DeleteCmd?)
    ensures EditOf(st, folder, cmd).r.id == ParseInt(s).value <==> cmd.sid == s
  {
    RowOfIssued(st.store.rows, cmd.sid);
  }

  // ---------- the invariant ----------

  /**
   What holds of one item while the keys agree: the device holds it only if the snapshot
   does, and where the snapshot is settled with the folder the device holds it exactly when
   the folder lists it, with the folder's properties if `exact`.
   */
  ghost predicate TrackedAt(view: View, items: Items, rows: seq<Row>, folder: int, exact: bool, s: string) {
    && (s in view ==> s in items)
    && (Settled(items, Listing(rows, folder), s) ==>
          Presence(view, rows, folder, s) && (exact && s in view ==> Matches(view, rows, s)))
  }

  ghost predicate Tracked(view: View, items: Items, rows: seq<Row>, folder: int, exact: bool) {
    forall s :: TrackedAt(view, items, rows, folder, exact, s)
  }

  // ---------- a batch ----------

  ghost predicate AllIssued(ids: set<string>) {
    forall s :: s in ids ==> IssuedSpelling(s)
  }

  /** What a batch of the device may be: it names what it holds, and the store hands out new ids. */
  ghost predicate Batched(store: Store, items: Items, view: View, folder: int, cmds: seq<Command>) {
    && ValidRows(store.rows) && ProperBatch(State(store, items, {}, []), folder, cmds)
    && DeviceBatch(view.Keys, cmds) && view.Keys !! CreatedBy(cmds)
    && AllIssued(view.Keys) && AllIssued(items.Keys)
  }

  lemma {:induction false} CreatedIssued(st: State, folder: int, cmds: seq<Command>)
    requires ProperBatch(st, folder, cmds)
    ensures AllIssued(CreatedBy(cmds))
  {
    if cmds != [] {
      CreatedIssued(st, folder, cmds[..|cmds| - 1]);
      var last := cmds[|cmds| - 1];
      if Creates(last) {
        ParseFormatInt(last.newId.value);
      }
    }
  }

  /** Items the batch neither wrote into the folder nor deleted are as settled as before. */
  lemma UntouchedSame(store: Store, items: Items, folder: int, cmds: seq<Command>, s: string)
    requires ValidRows(store.rows) && ProperBatch(State(store, items, {}, []), folder, cmds)
    requires s !in SettledBy(store, items, folder, cmds)
    ensures var st' := Batch(store, items, folder, cmds);
            && (s in items <==> s in st'.items) && (s in items ==> items[s] == st'.items[s])
            && (Settled(items, Listing(store.rows, folder), s) <==>
                Settled(st'.items, Listing(st'.store.rows, folder), s))
  {
    var st', t := Batch(store, items, folder, cmds), SettledBy(store, items, folder, cmds);
    var l, l' := Listing(store.rows, folder), Listing(st'.store.rows, folder);
    BatchSettles(store, items, folder, cmds);
    BatchOutside(store, items, folder, cmds);
    SettledElsewhere(items, st'.items, l, l', t, s);
  }

  lemma SettledElsewhere(items: Items, items': Items, l: seq<Entry>, l': seq<Entry>, t: set<string>, s: string)
    requires EntriesOutside(l, t) == EntriesOutside(l', t) && s !in t
    requires (s in items <==> s in items') && (s in items ==> items[s] == items'[s])
    ensures Settled(items, l, s) <==> Settled(items', l', s)
  {
    SidsOutside(l, t);
    SidsOutside(l', t);
    assert s in Sids(l) <==> s in Sids(l) - t;
    assert s in Sids(l') <==> s in Sids(l') - t;
    if s in items {
      var e := Entry(s, items[s]);
      assert e in l <==> e in EntriesOutside(l, t);
    }
  }

  lemma ListedKnown(rows: seq<Row>, folder: int, s: string)
    requires ValidRows(rows) && s in Sids(Listing(rows, folder))
    ensures Known(rows, s)
  {
    ListedSids(rows, folder, s);
    var id :| s == Sid(id) && RowListed(rows, folder, id);
    assert rows[Find(rows, id)].id == id;
    ParseFormatInt(id);
  }

  lemma {:induction false} NotWritten(st: State, folder: int, cmds: seq<Command>, s: string)
    requires s !in st.written && s !in CreatedBy(cmds) && !Changes(cmds, s)
    ensures s !in ApplyAll(st, folder, cmds).written
  {
    if cmds != [] {
      var init := cmds[..|cmds| - 1];
      ChangesLast(cmds, s);
      NotWritten(st, folder, init, s);
      WrittenStep(ApplyAll(st, folder, init), folder, cmds[|cmds| - 1], s);
    }
  }

  lemma {:induction false} UntouchedContent(st: State, folder: int, cmds: seq<Command>, s: string)
    requires ValidRows(st.store.rows) && ProperBatch(st, folder, cmds) && IssuedSpelling(s)
    requires s !in CreatedBy(cmds) && !Changes(cmds, s)
    ensures ContentOf(ApplyAll(st, folder, cmds).store.rows, s) == ContentOf(st.store.rows, s)
  {
    if cmds != [] {
      var init := cmds[..|cmds| - 1];
      ChangesLast(cmds, s);
      UntouchedContent(st, folder, init, s);
      BatchKeeps(st, folder, init);
      ContentStep(ApplyAll(st, folder, init), folder, cmds[|cmds| - 1], s);
    }
  }

  /** A device's Change is one that writes. */
  lemma {:induction false} UntouchedCopy(view: View, cmds: seq<Command>, s: string)
    requires DeviceBatch(view.Keys, cmds) && s in view
    requires s !in CreatedBy(cmds) && !Changes(cmds, s) && DeleteCmd(s) !in cmds
    ensures s in LocalAll(view, cmds) && LocalAll(view, cmds)[s] == view[s]
  {
    if cmds != [] {
      ChangesLast(cmds, s);
      InLast(cmds, DeleteCmd(s));
      UntouchedCopy(view, cmds[..|cmds| - 1], s);
    }
  }

  lemma CreatedStep(st: State, view: View, folder: int, cmd: Command, s: string)
    requires ValidRows(st.store.rows) && Proper(st, cmd) && IssuedSpelling(s)
    requires CreatesSid(cmd, s) || (Matches(view, st.store.rows, s) && DoesNotName(cmd, s))
    ensures Matches(Local(view, cmd), Apply(st, folder, cmd).store.rows, s)
  {
    ContentStep(st, folder, cmd, s);
  }

  predicate DoesNotName(cmd: Command, s: string) {
    !(cmd.ChangeCmd? && cmd.sid == s) && !(cmd.DeleteCmd? && cmd.sid == s)
  }

  /** An item the batch creates: the device's copy is what it sent, and so is the row. */
  lemma {:induction false} CreatedMatches(st: State, view: View, folder: int, cmds: seq<Command>, s: string)
    requires ValidRows(st.store.rows) && ProperBatch(st, folder, cmds) && DeviceBatch(view.Keys, cmds)
    requires s in CreatedBy(cmds) && s !in view && IssuedSpelling(s)
    ensures Matches(LocalAll(view, cmds), ApplyAll(st, folder, cmds).store.rows, s)
  {
    var init, last := cmds[..|cmds| - 1], cmds[|cmds| - 1];
    BatchKeeps(st, folder, init);
    if !CreatesSid(last, s) {
      CreatedMatches(st, view, folder, init, s);
      HeldIff(view.Keys, init, s);
    }
    CreatedStep(ApplyAll(st, folder, init), LocalAll(view, init), folder, last, s);
  }

  /** What a command of the device does to its copy of an item it holds. */
  lemma LocalStep(view: View, cmd: Command, s: string)
    requires s in view && cmd != DeleteCmd(s) && !CreatesSid(cmd, s)
    requires cmd.ChangeCmd? && cmd.sid == s ==> IsChange(cmd, s)
    ensures s in Local(view, cmd)
    ensures Local(view, cmd)[s] == if IsChange(cmd, s) then view[s] + cmd.payload.props else view[s]
  {
  }

  /** One of the device's commands on a listed item it holds. */
  lemma MatchStep(st: State, view: View, folder: int, cmd: Command, s: string)
    requires ValidRows(st.store.rows) && Proper(st, cmd) && IssuedSpelling(s) && Known(st.store.rows, s) && s in view
    requires cmd != DeleteCmd(s) && !CreatesSid(cmd, s) && (cmd.ChangeCmd? && cmd.sid == s ==> IsChange(cmd, s))
    ensures s in Local(view, cmd)
    ensures Matches(view, st.store.rows, s) ==> Matches(Local(view, cmd), Apply(st, folder, cmd).store.rows, s)
    ensures IsChange(cmd, s) && AgreeBeyond(view[s], ContentOf(st.store.rows, s), cmd.payload.props.Keys) ==>
              Matches(Local(view, cmd), Apply(st, folder, cmd).store.rows, s)
  {
    ContentStep(st, folder, cmd, s);
    LocalStep(view, cmd, s);
    if IsChange(cmd, s) {
      UpsertEqualIff(view[s], ContentOf(st.store.rows, s), cmd.payload.props);
    }
  }

  /** A listed item the device changes, each time covering what it differs in: the copies end up equal. */
  lemma {:induction false} ChangedMatches(st: State, view: View, folder: int, cmds: seq<Command>, s: string)
    requires ValidRows(st.store.rows) && ProperBatch(st, folder, cmds) && DeviceBatch(view.Keys, cmds)
    requires CoversAll(view, st, folder, cmds) && s in view && IssuedSpelling(s)
    requires s in Sids(Listing(st.store.rows, folder)) && DeleteCmd(s) !in cmds && s !in CreatedBy(cmds)
    ensures s in LocalAll(view, cmds)
    ensures Changes(cmds, s) || Matches(view, st.store.rows, s) ==>
              Matches(LocalAll(view, cmds), ApplyAll(st, folder, cmds).store.rows, s)
  {
    if cmds != [] {
      var init, last := cmds[..|cmds| - 1], cmds[|cmds| - 1];
      var mid := ApplyAll(st, folder, init);
      InLast(cmds, DeleteCmd(s));
      ChangesLast(cmds, s);
      ChangedMatches(st, view, folder, init, s);
      BatchKeeps(st, folder, init);
      StaysListed(st, folder, init, s);
      MatchStep(mid, LocalAll(view, init), folder, last, s);
    }
  }

  lemma StaysListed(st: State, folder: int, cmds: seq<Command>, s: string)
    requires ValidRows(st.store.rows) && ProperBatch(st, folder, cmds)
    requires s in Sids(Listing(st.store.rows, folder)) && DeleteCmd(s) !in cmds
    ensures var rows' := ApplyAll(st, folder, cmds).store.rows; s in Sids(Listing(rows', folder)) && Known(rows', s)
  {
    DroppedIsNamed(st, folder, cmds, s);
    ListedAfterIff(st, folder, cmds, s);
    BatchKeeps(st, folder, cmds);
    ListedKnown(ApplyAll(st, folder, cmds).store.rows, folder, s);
  }

  lemma CreatedTracked(store: Store, items: Items, view: View, folder: int, cmds: seq<Command>, exact: bool, s: string)
    requires Batched(store, items, view, folder, cmds) && s in CreatedBy(cmds)
    ensures var st' := Batch(store, items, folder, cmds);
            TrackedAt(LocalAll(view, cmds), st'.items, st'.store.rows, folder, exact, s)
  {
    var st := State(store, items, {}, []);
    var st' := Batch(store, items, folder, cmds);
    CreatedIssued(st, folder, cmds);
    WrittenIff(st, folder, cmds, s);
    NamedIsHeld(view.Keys, cmds, s);
    DroppedIsNamed(st, folder, cmds, s);
    ListedAfterIff(st, folder, cmds, s);
    LocalIff(view, cmds, s);
    CreatedMatches(st, view, folder, cmds, s);
    BatchSettles(store, items, folder, cmds);
    assert Settled(st'.items, Listing(st'.store.rows, folder), s);
  }

  /** An item the device has changed and still holds. */
  lemma ChangedTracked(store: Store, items: Items, view: View, folder: int, cmds: seq<Command>, exact: bool, s: string)
    requires Batched(store, items, view, folder, cmds) && s in view && s in items
    requires exact ==> CoversAll(view, State(store, items, {}, []), folder, cmds)
    requires Changes(cmds, s) && DeleteCmd(s) !in cmds && s !in CreatedBy(cmds)
    ensures var st' := Batch(store, items, folder, cmds);
            TrackedAt(LocalAll(view, cmds), st'.items, st'.store.rows, folder, exact, s)
  {
    var st, st' := State(store, items, {}, []), Batch(store, items, folder, cmds);
    LocalIff(view, cmds, s);
    DroppedIsNamed(st, folder, cmds, s);
    ListedAfterIff(st, folder, cmds, s);
    if s in Sids(Listing(store.rows, folder)) {
      ListedKnown(store.rows, folder, s);
      WrittenIff(st, folder, cmds, s);
      BatchSettles(store, items, folder, cmds);
      assert Settled(st'.items, Listing(st'.store.rows, folder), s);
      if exact {
        ChangedMatches(st, view, folder, cmds, s);
      }
    } else {
      UntouchedSame(store, items, folder, cmds, s);
    }
  }

  /** An item the device has deleted. */
  lemma DeletedTracked(store: Store, items: Items, view: View, folder: int, cmds: seq<Command>, exact: bool, s: string)
    requires Batched(store, items, view, folder, cmds) && DeleteCmd(s) in cmds
    ensures var st' := Batch(store, items, folder, cmds);
            TrackedAt(LocalAll(view, cmds), st'.items, st'.store.rows, folder, exact, s)
  {
    var st := State(store, items, {}, []);
    NamedIsHeld(view.Keys, cmds, s);
    LocalIff(view, cmds, s);
    ListedAfterIff(st, folder, cmds, s);
    if Known(store.rows, s) {
      DroppedIff(st, folder, cmds, s);
    } else if s in Sids(Listing(store.rows, folder)) {
      ListedKnown(store.rows, folder, s);
    }
  }

  lemma OtherTracked(store: Store, items: Items, view: View, folder: int, cmds: seq<Command>, exact: bool, s: string)
    requires Batched(store, items, view, folder, cmds) && TrackedAt(view, items, store.rows, folder, exact, s)
    requires s !in CreatedBy(cmds) && !Changes(cmds, s) && DeleteCmd(s) !in cmds
    ensures var st' := Batch(store, items, folder, cmds);
            TrackedAt(LocalAll(view, cmds), st'.items, st'.store.rows, folder, exact, s)
  {
    var st := State(store, items, {}, []);
    DroppedIsNamed(st, folder, cmds, s);
    NotWritten(st, folder, cmds, s);
    UntouchedSame(store, items, folder, cmds, s);
    ListedAfterIff(st, folder, cmds, s);
    LocalIff(view, cmds, s);
    if s in view {
      UntouchedCopy(view, cmds, s);
      UntouchedContent(st, folder, cmds, s);
    }
  }

  /** A batch keeps the invariant, with the properties if each Change covers what the copies differ in. */
  lemma BatchTracked(store: Store, items: Items, view: View, folder: int, cmds: seq<Command>, exact: bool)
    requires Batched(store, items, view, folder, cmds) && Tracked(view, items, store.rows, folder, exact)
    requires exact ==> CoversAll(view, State(store, items, {}, []), folder, cmds)
    ensures var st' := Batch(store, items, folder, cmds);
            Tracked(LocalAll(view, cmds), st'.items, st'.store.rows, folder, exact)
  {
    var st' := Batch(store, items, folder, cmds);
    forall s ensures TrackedAt(LocalAll(view, cmds), st'.items, st'.store.rows, folder, exact, s) {
      assert TrackedAt(view, items, store.rows, folder, exact, s);
      NamedIsHeld(view.Keys, cmds, s);
      if s in CreatedBy(cmds) {
        CreatedTracked(store, items, view, folder, cmds, exact, s);
      } else if DeleteCmd(s) in cmds {
        DeletedTracked(store, items, view, folder, cmds, exact, s);
      } else if Changes(cmds, s) {
        ChangedTracked(store, items, view, folder, cmds, exact, s);
      } else {
        OtherTracked(store, items, view, folder, cmds, exact, s);
      }
    }
  }

  lemma {:induction false} ReceivedTracked(view: View, items: Items, rows: seq<Row>, folder: int, exact: bool,
                                           cs: seq<Change>)
    requires Tracked(view, items, rows, folder, exact)
    ensures Tracked(ReceiveAll(view, cs, rows), RecordAll(items, cs), rows, folder, exact)
  {
    if cs != [] {
      var init := cs[..|cs| - 1];
      ReceivedTracked(view, items, rows, folder, exact, init);
      OneReceived(ReceiveAll(view, init, rows), RecordAll(items, init), rows, folder, exact, cs[|cs| - 1]);
    }
  }

  lemma OneReceived(view: View, items: Items, rows: seq<Row>, folder: int, exact: bool, c: Change)
    requires Tracked(view, items, rows, folder, exact)
    ensures Tracked(Receive(view, c, rows), Record(items, c), rows, folder, exact)
  {
    var view', items' := Receive(view, c, rows), Record(items, c);
    forall s ensures TrackedAt(view', items', rows, folder, exact, s) {
      assert TrackedAt(view, items, rows, folder, exact, s);
    }
  }

  // ---------- change numbers ----------

  /** Whatever the folder lists anew, or with other properties, carries a change number given out since. */
  ghost predicate Fresher(store: Store, store': Store, folder: int) {
    && store.nextCn <= store'.nextCn
    && forall e :: e in Listing(store'.rows, folder) ==>
         e.version < store'.nextCn && (e.version >= store.nextCn || Unchanged(store, store', folder, e))
  }

  ghost predicate Unchanged(store: Store, store': Store, folder: int, e: Entry) {
    e in Listing(store.rows, folder) && ContentOf(store'.rows, e.sid) == ContentOf(store.rows, e.sid)
  }

  ghost predicate NumbersOk(store: Store, folder: int) {
    forall e :: e in Listing(store.rows, folder) ==> e.version < store.nextCn
  }

  ghost predicate Below(items: Items, n: int) {
    forall s :: s in items ==> items[s] < n
  }

  lemma ListedAfterEdit(rows: seq<Row>, e: Edit, folder: int, x: Entry)
    requires ProperEdit(rows, e) && x in Listing(Edited(rows, e), folder)
    ensures x in Listing(rows, folder) || (!e.Keep? && x == Entry(Sid(e.r.id), e.r.cn))
  {
    var rows' := Edited(rows, e);
    ListingMembers(rows', folder);
    ListingMembers(rows, folder);
    var i :| 0 <= i < |rows'| && Listed(rows'[i], folder) && x == Entry(Sid(rows'[i].id), rows'[i].cn);
    if e.Add? {
      InsertAt(rows, e.r, i);
      var k := Slot(rows, e.r.id);
      if i != k {
        assert rows'[i] == rows[if i < k then i else i - 1];
      }
    } else if e.Put? && i != e.k {
      assert rows'[i] == rows[i];
    }
  }

  /** An item a Change writes is listed afterwards at a new number, if at all. */
  lemma WrittenIsNew(st: State, folder: int, cmd: Command, x: Entry)
    requires ValidRows(st.store.rows) && Proper(st, cmd) && Writes(st, cmd) && x.sid == cmd.sid
    requires x in Listing(Apply(st, folder, cmd).store.rows, folder)
    ensures x.version == st.store.nextCn
  {
    var k := RowOf(st.store.rows, cmd.sid);
    var row := Changed(st.store, cmd, k);
    var rows' := st.store.rows[k := row];
    RowOfIssued(st.store.rows, cmd.sid);
    ReplaceValid(st.store.rows, k, row);
    FindUnique(rows', k);
    SidListed(rows', folder, row.id);
    ListedAs(rows', folder, k, x.version);
  }

  lemma OldEntryUnchanged(st: State, folder: int, cmd: Command, x: Entry)
    requires ValidRows(st.store.rows) && Proper(st, cmd) && x.version < st.store.nextCn
    requires x in Listing(st.store.rows, folder) && x in Listing(Apply(st, folder, cmd).store.rows, folder)
    ensures Unchanged(st.store, Apply(st, folder, cmd).store, folder, x)
  {
    assert x.sid in Sids(Listing(st.store.rows, folder));
    ListingIssued(st.store.rows, folder);
    ListedKnown(st.store.rows, folder, x.sid);
    ContentStep(st, folder, cmd, x.sid);
    if IsChange(cmd, x.sid) {
      WrittenIsNew(st, folder, cmd, x);
    }
    if CreatesSid(cmd, x.sid) {
      ParseFormatInt(cmd.newId.value);
    }
  }

  lemma EntryFresher(st: State, folder: int, cmd: Command, x: Entry)
    requires ValidRows(st.store.rows) && Proper(st, cmd) && NumbersOk(st.store, folder)
    requires x in Listing(Apply(st, folder, cmd).store.rows, folder)
    ensures var store' := Apply(st, folder, cmd).store;
            x.version < store'.nextCn && (x.version >= st.store.nextCn || Unchanged(st.store, store', folder, x))
  {
    CommandEdits(st, folder, cmd);
    ListedAfterEdit(st.store.rows, EditOf(st, folder, cmd), folder, x);
    if x.version < st.store.nextCn {
      OldEntryUnchanged(st, folder, cmd, x);
    }
  }

  lemma CommandFresher(st: State, folder: int, cmd: Command)
    requires ValidRows(st.store.rows) && Proper(st, cmd) && NumbersOk(st.store, folder)
    ensures Fresher(st.store, Apply(st, folder, cmd).store, folder)
  {
    var store' := Apply(st, folder, cmd).store;
    forall x | x in Listing(store'.rows, folder)
      ensures x.version < store'.nextCn && (x.version >= st.store.nextCn || Unchanged(st.store, store', folder, x))
    {
      EntryFresher(st, folder, cmd, x);
    }
  }

  lemma FresherTwice(a: Store, b: Store, c: Store, folder: int)
    requires Fresher(a, b, folder) && Fresher(b, c, folder)
    ensures Fresher(a, c, folder)
  {
  }

  lemma {:induction false} BatchFresher(st: State, folder: int, cmds: seq<Command>)
    requires ValidRows(st.store.rows) && ProperBatch(st, folder, cmds) && NumbersOk(st.store, folder)
    ensures Fresher(st.store, ApplyAll(st, folder, cmds).store, folder)
  {
    if cmds != [] {
      var init := cmds[..|cmds| - 1];
      var mid := ApplyAll(st, folder, init);
      BatchFresher(st, folder, init);
      BatchKeeps(st, folder, init);
      CommandFresher(mid, folder, cmds[|cmds| - 1]);
      FresherTwice(st.store, mid.store, ApplyAll(st, folder, cmds).store, folder);
    }
  }

  /** A pending item stays pending, and a settled one the same, whatever others do to the folder. */
  lemma FresherTracked(view: View, items: Items, store: Store, store': Store, folder: int, exact: bool)
    requires Tracked(view, items, store.rows, folder, exact) && Below(items, store.nextCn)
    requires Fresher(store, store', folder)
    ensures Tracked(view, items, store'.rows, folder, exact)
  {
    forall s ensures TrackedAt(view, items, store'.rows, folder, exact, s) {
      assert TrackedAt(view, items, store.rows, folder, exact, s);
      if s in items && Settled(items, Listing(store'.rows, folder), s) {
        assert Unchanged(store, store', folder, Entry(s, items[s]));
      }
    }
  }

  lemma BatchBelow(store: Store, items: Items, folder: int, cmds: seq<Command>)
    requires ValidRows(store.rows) && ProperBatch(State(store, items, {}, []), folder, cmds)
    requires NumbersOk(store, folder) && Below(items, store.nextCn)
    ensures var st' := Batch(store, items, folder, cmds);
            && Fresher(store, st'.store, folder) && NumbersOk(st'.store, folder) && Below(st'.items, st'.store.nextCn)
  {
    var st', t := Batch(store, items, folder, cmds), SettledBy(store, items, folder, cmds);
    BatchFresher(State(store, items, {}, []), folder, cmds);
    BatchSettles(store, items, folder, cmds);
    forall s | s in st'.items ensures st'.items[s] < st'.store.nextCn {
      if s in t {
        assert Settled(st'.items, Listing(st'.store.rows, folder), s);
      }
    }
  }

  // ---------- ids ----------

  lemma ListingIssued(rows: seq<Row>, folder: int)
    requires ValidRows(rows)
    ensures AllIssued(Sids(Listing(rows, folder)))
  {
    forall s | s in Sids(Listing(rows, folder)) ensures IssuedSpelling(s) {
      ListedSids(rows, folder, s);
      var id :| s == Sid(id) && RowListed(rows, folder, id);
      assert rows[Find(rows, id)].id == id;
      ParseFormatInt(id);
    }
  }

  lemma BatchKeys(store: Store, items: Items, view: View, folder: int, cmds: seq<Command>)
    requires Batched(store, items, view, folder, cmds)
    ensures var st' := Batch(store, items, folder, cmds);
            ValidRows(st'.store.rows) && AllIssued(st'.items.Keys) && AllIssued(LocalAll(view, cmds).Keys)
  {
    var st', t := Batch(store, items, folder, cmds), SettledBy(store, items, folder, cmds);
    BatchSettles(store, items, folder, cmds);
    ListingIssued(st'.store.rows, folder);
    forall s | s in st'.items ensures IssuedSpelling(s) {
      if s in t {
        assert Settled(st'.items, Listing(st'.store.rows, folder), s);
      }
    }
    CreatedIssued(State(store, items, {}, []), folder, cmds);
    forall s | s in LocalAll(view, cmds) ensures s in view || s in CreatedBy(cmds) {
      LocalIff(view, cmds, s);
    }
  }

  // ---------- a round ----------

  /** What a round emits of a diff is about listed items, apart from the deletions. */
  lemma EmittedListed(render: Renderer, items: Items, live: seq<Entry>, out: seq<Change>, n: nat, c: Change)
    requires Distinct(live) && IsDiff(items, live, out) && n <= |out| && c in Emitted(render, out[..n])
    ensures c.kind == Removed || Entry(c.sid, c.version) in live
  {
    DiffDistinct(items, live, out);
    EmittedMembers(render, out[..n]);
    assert c in out;
    assert Unsettled(items, live, c);
  }

  lemma {:induction false} RecordedBelow(items: Items, cs: seq<Change>, n: int)
    requires Below(items, n) && forall c :: c in cs ==> c.kind == Removed || c.version < n
    ensures Below(RecordAll(items, cs), n)
  {
    if cs != [] {
      assert cs[|cs| - 1] in cs;
      RecordedBelow(items, cs[..|cs| - 1], n);
    }
  }

  lemma {:induction false} ReceivedKeys(view: View, cs: seq<Change>, rows: seq<Row>, ids: set<string>)
    requires view.Keys <= ids && forall c :: c in cs ==> c.kind == Removed || c.sid in ids
    ensures ReceiveAll(view, cs, rows).Keys <= ids
  {
    if cs != [] {
      assert cs[|cs| - 1] in cs;
      ReceivedKeys(view, cs[..|cs| - 1], rows, ids);
    }
  }

  // ---------- the world ----------

  /** The object store, the server's collection for one folder, the device's key and copy. */
  datatype World = World(store: Store, coll: Coll, key: string, view: View)

  ghost predicate Init(w: World, folder: int) {
    ValidRows(w.store.rows) && NumbersOk(w.store, folder) && w.coll == NEVER_SYNCED && w.key == "0" && w.view == map[]
  }

  /** Everyone else's writes, deletions and recoveries. */
  ghost predicate StoreChange(w: World, w': World, folder: int) {
    w' == w.(store := w'.store) && ValidRows(w'.store.rows) && Fresher(w.store, w'.store, folder)
  }

  ghost predicate Abandon(w: World, w': World) {
    w' == w.(key := "0")
  }

  ghost predicate AdminResync(w: World, w': World) {
    w' == w.(coll := NEVER_SYNCED)
  }

  ghost predicate PrimeRequest(w: World, w': World, outcome: Replica.Outcome) {
    match outcome
    case FailedBeforeSave => w' == w
    case Lost => w' == w.(coll := Coll("1", map[]))
    case Delivered => w' == w.(coll := Coll("1", map[]), key := "1", view := map[])
  }

  ghost predicate RefusedRequest(w: World, w': World, outcome: Replica.Outcome) {
    w' == if outcome.Delivered? then w.(key := "0") else w
  }

  /** A current-key round; in an `exact` one each Change covers what folder and device differ in. */
  ghost predicate RoundRequest(w: World, w': World, folder: int, exact: bool, cmds: seq<Command>, window: nat,
                               render: Renderer, outcome: Replica.Outcome, sent: seq<Change>, more: bool) {
    var st0 := State(w.store, w.coll.items, {}, []);
    var st := Batch(w.store, w.coll.items, folder, cmds);
    && ProperBatch(st0, folder, cmds) && (exact ==> CoversAll(w.view, st0, folder, cmds))
    && DeviceBatch(w.view.Keys, cmds) && DistinctClients(cmds) && w.view.Keys !! CreatedBy(cmds)
    && if outcome.FailedBeforeSave? then w' == w.(store := st.store)
       else
         && ObjectRound(render, st.items, Listing(st.store.rows, folder), window, w'.coll.items, sent, more)
         && w'.coll.syncKey == NextSyncKey(w.coll.syncKey)
         && w' == w.(store := st.store, coll := w'.coll, key := w'.key, view := w'.view)
         && if outcome.Lost? then w'.key == w.key && w'.view == w.view
            else
              && w'.key == w'.coll.syncKey
              && w'.view == ReceiveAll(LearnAll(w.view, cmds, st.responses), sent, st.store.rows)
  }

  ghost predicate SyncRequest(w: World, w': World, folder: int, exact: bool, key: string, outcome: Replica.Outcome) {
    && (key == w.key || key == "0")
    && match GateOf(w.coll, key)
       case Primed => PrimeRequest(w, w', outcome)
       case Refused => RefusedRequest(w, w', outcome)
       case Current =>
         exists cmds, window, render, sent, more ::
           RoundRequest(w, w', folder, exact, cmds, window, render, outcome, sent, more)
  }

  ghost predicate Step(w: World, w': World, folder: int, exact: bool) {
    || StoreChange(w, w', folder)
    || Abandon(w, w')
    || AdminResync(w, w')
    || exists key, outcome :: SyncRequest(w, w', folder, exact, key, outcome)
  }

  /** A run; in an `exact` one no Change leaves out a property in which folder and device differ. */
  lemma RoundIsSync(w: World, w': World, folder: int, exact: bool, cmds: seq<Command>, window: nat, render: Renderer,
                    outcome: Replica.Outcome, sent: seq<Change>, more: bool)
    requires GateOf(w.coll, w.key) == Current
    requires RoundRequest(w, w', folder, exact, cmds, window, render, outcome, sent, more)
    ensures SyncRequest(w, w', folder, exact, w.key, outcome)
  {
  }

  lemma SyncIsStep(w: World, w': World, folder: int, exact: bool, key: string, outcome: Replica.Outcome)
    requires SyncRequest(w, w', folder, exact, key, outcome)
    ensures Step(w, w', folder, exact)
  {
  }

  ghost predicate Run(ws: seq<World>, folder: int, exact: bool) {
    && |ws| > 0 && Init(ws[0], folder)
    && forall i :: 0 <= i < |ws| - 1 ==> Step(ws[i], ws[i + 1], folder, exact)
  }

  ghost predicate StoreSafe(w: World, folder: int) {
    && ValidRows(w.store.rows) && NumbersOk(w.store, folder) && Below(w.coll.items, w.store.nextCn)
    && AllIssued(w.coll.items.Keys) && AllIssued(w.view.Keys)
  }

  ghost predicate KeysSafe(w: World) {
    WellKeyed(w.coll) && (w.key == "0" || IssuedKey(w.key)) && (w.key == "1" ==> w.view == map[])
  }

  ghost predicate Safe(w: World, folder: int, exact: bool) {
    && StoreSafe(w, folder) && KeysSafe(w)
    && (w.key != "0" && w.key == w.coll.syncKey ==> Tracked(w.view, w.coll.items, w.store.rows, folder, exact))
  }

  lemma StoreChangeSafe(w: World, w': World, folder: int, exact: bool)
    requires Safe(w, folder, exact) && StoreChange(w, w', folder)
    ensures Safe(w', folder, exact)
  {
    if w.key != "0" && w.key == w.coll.syncKey {
      FresherTracked(w.view, w.coll.items, w.store, w'.store, folder, exact);
    }
  }

  /** A round that fails after touching the store is everyone else's change as far as the device can tell. */
  lemma FailedRoundSafe(w: World, folder: int, exact: bool, cmds: seq<Command>)
    requires Safe(w, folder, exact) && ProperBatch(State(w.store, w.coll.items, {}, []), folder, cmds)
    ensures Safe(w.(store := Batch(w.store, w.coll.items, folder, cmds).store), folder, exact)
  {
    BatchBelow(w.store, w.coll.items, folder, cmds);
    BatchSettles(w.store, w.coll.items, folder, cmds);
    StoreChangeSafe(w, w.(store := Batch(w.store, w.coll.items, folder, cmds).store), folder, exact);
  }

  /** Apart from deletions, the changes are about listed items at their versions. */
  ghost predicate AboutListed(sent: seq<Change>, live: seq<Entry>) {
    forall c :: c in sent ==> c.kind == Removed || Entry(c.sid, c.version) in live
  }

  lemma RoundStoreSafe(w: World, folder: int, cmds: seq<Command>, sent: seq<Change>)
    requires StoreSafe(w, folder) && Batched(w.store, w.coll.items, w.view, folder, cmds)
    requires AboutListed(sent, Listing(Batch(w.store, w.coll.items, folder, cmds).store.rows, folder))
    ensures var st := Batch(w.store, w.coll.items, folder, cmds);
            var items' := RecordAll(st.items, sent);
            && ValidRows(st.store.rows) && NumbersOk(st.store, folder) && Below(items', st.store.nextCn)
            && w.store.nextCn <= st.store.nextCn && AllIssued(items'.Keys)
            && AllIssued(ReceiveAll(LocalAll(w.view, cmds), sent, st.store.rows).Keys)
  {
    var st := Batch(w.store, w.coll.items, folder, cmds);
    var live, view' := Listing(st.store.rows, folder), LocalAll(w.view, cmds);
    BatchBelow(w.store, w.coll.items, folder, cmds);
    BatchKeys(w.store, w.coll.items, w.view, folder, cmds);
    ListingIssued(st.store.rows, folder);
    RecordedBelow(st.items, sent, st.store.nextCn);
    var ids := st.items.Keys + view'.Keys + Sids(live);
    forall c | c in sent && c.kind != Removed ensures c.sid in ids {
      assert Entry(c.sid, c.version) in live;
    }
    Replica.RecordedKeys(st.items, sent, ids);
    ReceivedKeys(view', sent, st.store.rows, ids);
  }

  lemma RoundTracked(w: World, folder: int, exact: bool, cmds: seq<Command>, sent: seq<Change>)
    requires Batched(w.store, w.coll.items, w.view, folder, cmds)
    requires Tracked(w.view, w.coll.items, w.store.rows, folder, exact)
    requires exact ==> CoversAll(w.view, State(w.store, w.coll.items, {}, []), folder, cmds)
    ensures var st := Batch(w.store, w.coll.items, folder, cmds);
            Tracked(ReceiveAll(LocalAll(w.view, cmds), sent, st.store.rows), RecordAll(st.items, sent), st.store.rows,
                    folder, exact)
  {
    var st := Batch(w.store, w.coll.items, folder, cmds);
    BatchTracked(w.store, w.coll.items, w.view, folder, cmds, exact);
    ReceivedTracked(LocalAll(w.view, cmds), st.items, st.store.rows, folder, exact, sent);
  }

  lemma RoundSent(render: Renderer, items: Items, live: seq<Entry>, w: nat, items': Items, sent: seq<Change>,
                  more: bool)
    requires Distinct(live) && ObjectRound(render, items, live, w, items', sent, more)
    ensures items' == RecordAll(items, sent) && AboutListed(sent, live)
  {
    var out :| IsDiff(items, live, out) && sent == Emitted(render, out[..Taken(out, w)]) &&
               items' == RecordAll(items, sent);
    forall c | c in sent ensures c.kind == Removed || Entry(c.sid, c.version) in live {
      EmittedListed(render, items, live, out, Taken(out, w), c);
    }
  }

  lemma RoundSafe(w: World, w': World, folder: int, exact: bool, cmds: seq<Command>, window: nat, render: Renderer,
                  outcome: Replica.Outcome, sent: seq<Change>, more: bool)
    requires Safe(w, folder, exact) && w.key != "0" && w.key == w.coll.syncKey
    requires RoundRequest(w, w', folder, exact, cmds, window, render, outcome, sent, more)
    ensures Safe(w', folder, exact)
  {
    if outcome.FailedBeforeSave? {
      FailedRoundSafe(w, folder, exact, cmds);
    } else {
      var st := Batch(w.store, w.coll.items, folder, cmds);
      BatchSettles(w.store, w.coll.items, folder, cmds);
      ListingDistinct(st.store.rows, folder);
      RoundSent(render, st.items, Listing(st.store.rows, folder), window, w'.coll.items, sent, more);
      RoundStoreSafe(w, folder, cmds, sent);
      RoundTracked(w, folder, exact, cmds, sent);
      AnswersSuffice(w.store, w.coll.items, w.view, folder, cmds);
      Replica.SpentKey(w.coll.syncKey);
    }
  }

  lemma StepSafe(w: World, w': World, folder: int, exact: bool)
    requires Safe(w, folder, exact) && Step(w, w', folder, exact)
    ensures Safe(w', folder, exact)
  {
    if StoreChange(w, w', folder) {
      StoreChangeSafe(w, w', folder, exact);
    } else if key, outcome :| SyncRequest(w, w', folder, exact, key, outcome) {
      match GateOf(w.coll, key) {
        case Primed => assert FormatUint(1) == "1";
        case Refused =>
        case Current =>
          var cmds, window, render, sent, more :|
            RoundRequest(w, w', folder, exact, cmds, window, render, outcome, sent, more);
          RoundSafe(w, w', folder, exact, cmds, window, render, outcome, sent, more);
      }
    }
  }

  /**
   Replica safety for object folders over every run. While both sides hold the same key,
   the device holds nothing the snapshot does not, and every item the snapshot is settled
   about the device holds exactly when the folder lists it. In an exact run, whose Changes
   each cover what folder and device differ in, it also holds the folder's properties.
   */
  lemma {:induction false} RunSafe(ws: seq<World>, folder: int, exact: bool, i: nat)
    requires Run(ws, folder, exact) && i < |ws|
    ensures Safe(ws[i], folder, exact)
  {
    if i > 0 {
      RunSafe(ws, folder, exact, i - 1);
      StepSafe(ws[i - 1], ws[i], folder, exact);
    }
  }

  /**
   With nothing pending, the device holds exactly the folder's items, in an exact run with
   the folder's properties.
   */
  lemma CaughtUp(ws: seq<World>, folder: int, exact: bool, i: nat)
    requires Run(ws, folder, exact) && i < |ws| && ws[i].key != "0" && ws[i].key == ws[i].coll.syncKey
    requires IsDiff(ws[i].coll.items, Listing(ws[i].store.rows, folder), [])
    ensures ws[i].view.Keys == Sids(Listing(ws[i].store.rows, folder))
    ensures exact ==> forall s :: s in ws[i].view ==> ws[i].view[s] == ContentOf(ws[i].store.rows, s)
  {
    var w := ws[i];
    var live := Listing(w.store.rows, folder);
    RunSafe(ws, folder, exact, i);
    ListingDistinct(w.store.rows, folder);
    forall s
      ensures Presence(w.view, w.store.rows, folder, s)
      ensures exact && s in w.view ==> Matches(w.view, w.store.rows, s)
    {
      PendingIffUnsettled(w.coll.items, live, [], s);
      assert TrackedAt(w.view, w.coll.items, w.store.rows, folder, exact, s);
    }
  }
}
