/**
 Object folders (calendar, contacts, tasks, notes): their items live in the object
 store and are versioned by change number. A device's Add, Change and Delete are
 applied first and folded into the snapshot at the change number they produced.
 */
module Objects {
  import opened Strconv
  import opened Snapshot

  /** Property values by tag. */
  type Properties = map<int, string>

  /** One row of the store's messages table, with the item's properties. */
  datatype Row = Row(id: int, folder: int, deleted: bool, associated: bool, cn: int, props: Properties)

  /** The rows in id order, and the store-wide change-number counter. */
  datatype Store = Store(rows: seq<Row>, nextCn: int)

  ghost predicate ValidRows(rows: seq<Row>) {
    && (forall i :: 0 <= i < |rows| ==> -TWO_63 <= rows[i].id < TWO_63)
    && (forall i, j :: 0 <= i < j < |rows| ==> rows[i].id < rows[j].id)
  }

  function Sid(id: int): string {
    FormatInt(id)
  }

  predicate Listed(r: Row, folder: int) {
    r.folder == folder && !r.deleted && !r.associated
  }

  /** ListFolderObjects: the folder's live, non-associated rows in id order. */
  function Listing(rows: seq<Row>, folder: int): seq<Entry> {
    if rows == [] then []
    else Listing(rows[..|rows| - 1], folder) + ListingOf(rows[|rows| - 1], folder)
  }

  function ListingOf(r: Row, folder: int): seq<Entry> {
    if Listed(r, folder) then [Entry(Sid(r.id), r.cn)] else []
  }

  function Find(rows: seq<Row>, id: int): (k: nat)
    ensures k <= |rows|
    ensures k < |rows| ==> rows[k].id == id
    ensures forall i :: 0 <= i < k ==> rows[i].id != id
  {
    if rows == [] then 0 else if rows[0].id == id then 0 else 1 + Find(rows[1..], id)
  }

  /** Where a new id belongs in the id order. */
  function Slot(rows: seq<Row>, id: int): (k: nat)
    ensures k <= |rows|
    ensures forall i :: 0 <= i < k ==> rows[i].id < id
    ensures k < |rows| ==> id <= rows[k].id
  {
    if rows == [] || id <= rows[0].id then 0 else 1 + Slot(rows[1..], id)
  }

  // ---------- commands ----------

  /** A command's ApplicationData as the folder's parser reads it. */
  datatype Payload = NoData | Unparsable | Parsed(props: Properties)

  /** `newId` is the id the store hands out for the insert; None when the insert fails. */
  datatype Command =
    | AddCmd(clientId: string, payload: Payload, newId: Option<int>)
    | ChangeCmd(sid: string, payload: Payload)
    | DeleteCmd(sid: string)
    | OtherCmd

  /** Client id to server id: the answer to one Add. */
  datatype AddResponse = AddResponse(clientId: string, sid: string)

  datatype State = State(store: Store, items: Items, written: set<string>, responses: seq<AddResponse>)

  function RowOf(rows: seq<Row>, sid: string): (k: nat)
    ensures k <= |rows|
  {
    match ParseInt(sid)
    case None => |rows|
    case Some(id) => Find(rows, id)
  }

  predicate Creates(cmd: Command) {
    cmd.AddCmd? && cmd.clientId != "" && cmd.payload.Parsed? && cmd.newId.Some?
  }

  /** The Change reached a row; a soft-deleted row and one of another folder count. */
  predicate Writes(st: State, cmd: Command) {
    cmd.ChangeCmd? && cmd.payload.Parsed? && cmd.payload.props != map[]
    && RowOf(st.store.rows, cmd.sid) < |st.store.rows|
  }

  predicate Deletes(st: State, cmd: Command) {
    cmd.DeleteCmd? && RowOf(st.store.rows, cmd.sid) < |st.store.rows|
  }

  function Insert(rows: seq<Row>, r: Row): seq<Row> {
    var k := Slot(rows, r.id);
    rows[..k] + [r] + rows[k..]
  }

  function Apply(st: State, folder: int, cmd: Command): State {
    var rows, cn := st.store.rows, st.store.nextCn;
    if Creates(cmd) then
      var sid := Sid(cmd.newId.value);
      st.(store := Store(Insert(rows, Row(cmd.newId.value, folder, false, false, cn, cmd.payload.props)), cn + 1),
          written := st.written + {sid},
          responses := st.responses + [AddResponse(cmd.clientId, sid)])
    else if Writes(st, cmd) then
      var k := RowOf(rows, cmd.sid);
      // The write is an upsert: properties the Change does not carry keep their values.
      st.(store := Store(rows[k := rows[k].(cn := cn, props := rows[k].props + cmd.payload.props)], cn + 1),
          written := st.written + {cmd.sid})
    else if Deletes(st, cmd) then
      var k := RowOf(rows, cmd.sid);
      // A second soft delete is accepted and changes nothing; the first bumps the
      // change number once for the flag and once for the deletion stamp.
      var store := if rows[k].deleted then st.store
                   else Store(rows[k := rows[k].(deleted := true, cn := cn + 1)], cn + 2);
      st.(store := store, items := st.items - {cmd.sid})
    else st
  }

  function ApplyAll(st: State, folder: int, cmds: seq<Command>): State {
    if cmds == [] then st else Apply(ApplyAll(st, folder, cmds[..|cmds| - 1]), folder, cmds[|cmds| - 1])
  }

  /** foldClientWritesIntoSnapshot over the folder's listing. */
  function Fold(items: Items, live: seq<Entry>, written: set<string>): Items {
    if live == [] then items
    else
      var rest := Fold(items, live[..|live| - 1], written);
      var e := live[|live| - 1];
      if e.sid in written then rest[e.sid := e.version] else rest
  }

  /** The whole batch: commands in order, then one fold. */
  function Batch(store: Store, items: Items, folder: int, cmds: seq<Command>): State {
    var st := ApplyAll(State(store, items, {}, []), folder, cmds);
    st.(items := Fold(st.items, Listing(st.store.rows, folder), st.written))
  }

  /** Ids a Delete of the batch succeeded on. */
  function Dropped(st: State, folder: int, cmds: seq<Command>): set<string> {
    if cmds == [] then {}
    else
      var init, last := cmds[..|cmds| - 1], cmds[|cmds| - 1];
      Dropped(st, folder, init) + DroppedBy(ApplyAll(st, folder, init), last)
  }

  /** A server id in issued spelling, or one that names no object. */
  ghost predicate IssuedSpelling(s: string) {
    var p := ParseInt(s);
    p.Some? ==> s == Sid(p.value)
  }

  /** What the device and the store's id allocation owe the batch. */
  ghost predicate Proper(st: State, cmd: Command) {
    && (Creates(cmd) ==> var id := cmd.newId.value;
                         -TWO_63 <= id < TWO_63 && Find(st.store.rows, id) == |st.store.rows|)
    && (cmd.ChangeCmd? || cmd.DeleteCmd? ==> IssuedSpelling(cmd.sid))
  }

  ghost predicate ProperBatch(st: State, folder: int, cmds: seq<Command>) {
    cmds == [] ||
    var init, last := cmds[..|cmds| - 1], cmds[|cmds| - 1];
    ProperBatch(st, folder, init) && Proper(ApplyAll(st, folder, init), last)
  }

  /**
   The change numbers a command takes: one for an Add that stores and a Change that reaches
   a row, two for the Delete of a row not yet deleted, which keeps the second.
   */
  lemma NumbersTaken(st: State, folder: int, cmd: Command)
    ensures var k, rows, store' := if cmd.ChangeCmd? || cmd.DeleteCmd? then RowOf(st.store.rows, cmd.sid) else 0,
                                   st.store.rows, Apply(st, folder, cmd).store;
            store'.nextCn - st.store.nextCn ==
            if cmd.AddCmd? && cmd.clientId != "" && cmd.payload.Parsed? && cmd.newId.Some? then 1
            else if cmd.ChangeCmd? && cmd.payload.Parsed? && cmd.payload.props != map[] && k < |rows| then 1
            else if cmd.DeleteCmd? && k < |rows| && !rows[k].deleted then 2
            else 0
    ensures cmd.DeleteCmd? ==>
              var k, rows' := RowOf(st.store.rows, cmd.sid), Apply(st, folder, cmd).store.rows;
              k < |st.store.rows| && !st.store.rows[k].deleted ==>
                rows'[k].cn == st.store.nextCn + 1 && rows'[k].deleted
  {
  }

  // ---------- listings ----------

  lemma {:induction false} ListingConcat(a: seq<Row>, b: seq<Row>, folder: int)
    ensures Listing(a + b, folder) == Listing(a, folder) + Listing(b, folder)
  {
    if b == [] {
      assert a + b == a;
    } else {
      assert (a + b)[..|a + b| - 1] == a + b[..|b| - 1];
      ListingConcat(a, b[..|b| - 1], folder);
    }
  }

  lemma {:induction false} ListingMembers(rows: seq<Row>, folder: int)
    ensures forall e :: e in Listing(rows, folder) <==>
              exists i :: 0 <= i < |rows| && Listed(rows[i], folder) && e == Entry(Sid(rows[i].id), rows[i].cn)
  {
    if rows != [] {
      ListingMembers(rows[..|rows| - 1], folder);
      var init, last := rows[..|rows| - 1], rows[|rows| - 1];
      forall e ensures e in Listing(rows, folder) <==>
          exists i :: 0 <= i < |rows| && Listed(rows[i], folder) && e == Entry(Sid(rows[i].id), rows[i].cn)
      {
        if e in Listing(init, folder) {
          var i :| 0 <= i < |init| && Listed(init[i], folder) && e == Entry(Sid(init[i].id), init[i].cn);
          assert rows[i] == init[i];
        } else if e in ListingOf(last, folder) {
          assert rows[|rows| - 1] == last;
        }
        if i :| 0 <= i < |rows| && Listed(rows[i], folder) && e == Entry(Sid(rows[i].id), rows[i].cn) {
          if i < |init| {
            assert init[i] == rows[i];
          }
        }
      }
    }
  }

  /** An object is listed exactly when its row is listed. */
  lemma SidListed(rows: seq<Row>, folder: int, id: int)
    requires ValidRows(rows)
    ensures Sid(id) in Sids(Listing(rows, folder)) <==>
            Find(rows, id) < |rows| && Listed(rows[Find(rows, id)], folder)
  {
    ListingMembers(rows, folder);
    var k := Find(rows, id);
    if k < |rows| && Listed(rows[k], folder) {
      assert Entry(Sid(rows[k].id), rows[k].cn) in Listing(rows, folder);
    }
    if Sid(id) in Sids(Listing(rows, folder)) {
      var e :| e in Listing(rows, folder) && e.sid == Sid(id);
      var i :| 0 <= i < |rows| && Listed(rows[i], folder) && e == Entry(Sid(rows[i].id), rows[i].cn);
      FormatIntInjective(rows[i].id, id);
      assert k == i;
    }
  }

  lemma {:induction false} ListingDistinct(rows: seq<Row>, folder: int)
    requires ValidRows(rows)
    ensures Distinct(Listing(rows, folder))
  {
    if rows != [] {
      var init, last := rows[..|rows| - 1], rows[|rows| - 1];
      ListingDistinct(init, folder);
      SidListed(init, folder, last.id);
      assert Find(init, last.id) == |init|;
      var l := Listing(init, folder);
      forall i | 0 <= i < |l| ensures l[i].sid != Sid(last.id) {
        assert l[i] in l;
      }
    }
  }

  // ---------- one command ----------

  /** The ids a command's success touches. */
  function Affected(st: State, cmd: Command): set<string> {
    if Creates(cmd) then {Sid(cmd.newId.value)}
    else if Writes(st, cmd) || Deletes(st, cmd) then {cmd.sid}
    else {}
  }

  lemma ListingThree(a: seq<Row>, mid: seq<Row>, b: seq<Row>, folder: int)
    ensures Listing(a + mid + b, folder) == Listing(a, folder) + Listing(mid, folder) + Listing(b, folder)
  {
    ListingConcat(a + mid, b, folder);
    ListingConcat(a, mid, folder);
  }

  lemma OutsideThree(a: seq<Entry>, mid: seq<Entry>, b: seq<Entry>, t: set<string>)
    requires EntriesOutside(mid, t) == []
    ensures EntriesOutside(a + mid + b, t) == EntriesOutside(a, t) + EntriesOutside(b, t)
  {
    OutsideConcat(a + mid, b, t);
    OutsideConcat(a, mid, t);
  }

  /** Rows whose ids lie in `t` can be spliced in and out without moving any other entry. */
  lemma ListingSplice(a: seq<Row>, mid: seq<Row>, b: seq<Row>, folder: int, t: set<string>)
    requires |mid| <= 1 && (mid != [] ==> Sid(mid[0].id) in t)
    ensures EntriesOutside(Listing(a + mid + b, folder), t)
         == EntriesOutside(Listing(a, folder), t) + EntriesOutside(Listing(b, folder), t)
  {
    ListingThree(a, mid, b, folder);
    OutsideThree(Listing(a, folder), Listing(mid, folder), Listing(b, folder), t);
  }

  lemma ListingOne(r: Row, folder: int)
    ensures Listing([r], folder) == ListingOf(r, folder)
  {
    assert [r][..0] == [];
  }

  lemma ReplaceOutside(rows: seq<Row>, k: nat, r: Row, folder: int)
    requires k < |rows| && r.id == rows[k].id
    ensures var t := {Sid(r.id)};
            EntriesOutside(Listing(rows, folder), t) == EntriesOutside(Listing(rows[k := r], folder), t)
  {
    assert rows == rows[..k] + [rows[k]] + rows[k + 1..];
    assert rows[k := r] == rows[..k] + [r] + rows[k + 1..];
    ListingSplice(rows[..k], [rows[k]], rows[k + 1..], folder, {Sid(r.id)});
    ListingSplice(rows[..k], [r], rows[k + 1..], folder, {Sid(r.id)});
  }

  lemma InsertOutside(rows: seq<Row>, r: Row, folder: int)
    ensures var t := {Sid(r.id)};
            EntriesOutside(Listing(rows, folder), t) == EntriesOutside(Listing(Insert(rows, r), folder), t)
  {
    var k := Slot(rows, r.id);
    assert rows == rows[..k] + [] + rows[k..];
    ListingSplice(rows[..k], [], rows[k..], folder, {Sid(r.id)});
    ListingSplice(rows[..k], [r], rows[k..], folder, {Sid(r.id)});
  }

  lemma InsertAt(rows: seq<Row>, r: Row, i: nat)
    requires i <= |rows|
    ensures var k := Slot(rows, r.id);
            Insert(rows, r)[i] == if i < k then rows[i] else if i == k then r else rows[i - 1]
  {
  }

  lemma InsertAbove(rows: seq<Row>, id: int, i: nat)
    requires ValidRows(rows) && Find(rows, id) == |rows| && Slot(rows, id) <= i < |rows|
    ensures id < rows[i].id
  {
    var k := Slot(rows, id);
    assert rows[k].id != id;
    if k < i {
      assert rows[k].id < rows[i].id;
    }
  }

  lemma InsertOrder(rows: seq<Row>, r: Row, i: nat, j: nat)
    requires ValidRows(rows) && Find(rows, r.id) == |rows| && i < j <= |rows|
    ensures Insert(rows, r)[i].id < Insert(rows, r)[j].id
  {
    var k := Slot(rows, r.id);
    InsertAt(rows, r, i);
    InsertAt(rows, r, j);
    if j > k {
      InsertAbove(rows, r.id, j - 1);
    }
  }

  lemma InsertValid(rows: seq<Row>, r: Row)
    requires ValidRows(rows) && -TWO_63 <= r.id < TWO_63 && Find(rows, r.id) == |rows|
    ensures ValidRows(Insert(rows, r))
  {
    var rows' := Insert(rows, r);
    forall i | 0 <= i < |rows'| ensures -TWO_63 <= rows'[i].id < TWO_63 {
      InsertAt(rows, r, i);
    }
    forall i, j | 0 <= i < j < |rows'| ensures rows'[i].id < rows'[j].id {
      InsertOrder(rows, r, i, j);
    }
  }

  lemma ReplaceValid(rows: seq<Row>, k: nat, r: Row)
    requires ValidRows(rows) && k < |rows| && r.id == rows[k].id
    ensures ValidRows(rows[k := r])
  {
  }

  lemma RowOfIssued(rows: seq<Row>, sid: string)
    requires IssuedSpelling(sid) && RowOf(rows, sid) < |rows|
    ensures sid == Sid(rows[RowOf(rows, sid)].id)
  {
  }

  /** What a proper command does to the rows: nothing, one insert, or one rewrite in place. */
  datatype Edit = Keep | Add(r: Row) | Put(k: nat, r: Row)

  function EditOf(st: State, folder: int, cmd: Command): Edit {
    var rows, cn := st.store.rows, st.store.nextCn;
    if Creates(cmd) then Add(Row(cmd.newId.value, folder, false, false, cn, cmd.payload.props))
    else if Writes(st, cmd) then
      var k := RowOf(rows, cmd.sid);
      Put(k, rows[k].(cn := cn, props := rows[k].props + cmd.payload.props))
    else if Deletes(st, cmd) then
      var k := RowOf(rows, cmd.sid);
      if rows[k].deleted then Keep else Put(k, rows[k].(deleted := true, cn := cn + 1))
    else Keep
  }

  ghost predicate ProperEdit(rows: seq<Row>, e: Edit) {
    match e
    case Keep => true
    case Add(r) => -TWO_63 <= r.id < TWO_63 && Find(rows, r.id) == |rows|
    case Put(k, r) =>
      && k < |rows| && r == rows[k].(deleted := r.deleted, cn := r.cn, props := r.props)
      && (rows[k].deleted ==> r.deleted)
  }

  function Edited(rows: seq<Row>, e: Edit): seq<Row>
    requires e.Put? ==> e.k < |rows|
  {
    match e
    case Keep => rows
    case Add(r) => Insert(rows, r)
    case Put(k, r) => rows[k := r]
  }

  lemma CommandEdits(st: State, folder: int, cmd: Command)
    requires Proper(st, cmd)
    ensures var e := EditOf(st, folder, cmd);
            && ProperEdit(st.store.rows, e)
            && Apply(st, folder, cmd).store.rows == Edited(st.store.rows, e)
            && (!e.Keep? ==> Affected(st, cmd) == {Sid(e.r.id)})
            && (e.Put? ==> e.r.deleted == (st.store.rows[e.k].deleted || Deletes(st, cmd)))
            && (Deletes(st, cmd) ==> e.Put? || e.Keep?)
  {
    if Writes(st, cmd) || Deletes(st, cmd) {
      RowOfIssued(st.store.rows, cmd.sid);
    }
  }

  lemma EditValid(rows: seq<Row>, e: Edit)
    requires ValidRows(rows) && ProperEdit(rows, e)
    ensures ValidRows(Edited(rows, e))
  {
    match e
    case Keep =>
    case Add(r) => InsertValid(rows, r);
    case Put(k, r) => ReplaceValid(rows, k, r);
  }

  /** An edit leaves every entry but its own where it was. */
  lemma EditOutside(rows: seq<Row>, e: Edit, folder: int, t: set<string>)
    requires ProperEdit(rows, e) && (!e.Keep? ==> t == {Sid(e.r.id)})
    ensures EntriesOutside(Listing(rows, folder), t) == EntriesOutside(Listing(Edited(rows, e), folder), t)
  {
    match e
    case Keep =>
    case Add(r) => InsertOutside(rows, r, folder);
    case Put(k, r) => ReplaceOutside(rows, k, r, folder);
  }

  lemma FindUnique(rows: seq<Row>, i: nat)
    requires ValidRows(rows) && i < |rows|
    ensures Find(rows, rows[i].id) == i
  {
    var k := Find(rows, rows[i].id);
    assert k <= i;
  }

  lemma InsertFind(rows: seq<Row>, r: Row, i: nat)
    requires ValidRows(rows) && -TWO_63 <= r.id < TWO_63 && Find(rows, r.id) == |rows| && i < |rows|
    ensures var rows' := Insert(rows, r);
            Find(rows', rows[i].id) < |rows'| && rows'[Find(rows', rows[i].id)] == rows[i]
  {
    var i' := if i < Slot(rows, r.id) then i else i + 1;
    assert Insert(rows, r)[i'] == rows[i] by {
      InsertAt(rows, r, i');
    }
    InsertValid(rows, r);
    FindUnique(Insert(rows, r), i');
  }

  lemma ReplaceFind(rows: seq<Row>, k: nat, r: Row, i: nat)
    requires ValidRows(rows) && k < |rows| && r.id == rows[k].id && i < |rows|
    ensures Find(rows[k := r], rows[i].id) == i
  {
    ReplaceValid(rows, k, r);
    FindUnique(rows[k := r], i);
  }

  /** The row of `id` before and after an edit. */
  lemma RowAfter(rows: seq<Row>, e: Edit, id: int)
    requires ValidRows(rows) && ProperEdit(rows, e) && Find(rows, id) < |rows|
    ensures var rows' := Edited(rows, e);
            && Find(rows', id) < |rows'|
            && rows'[Find(rows', id)] == if e.Put? && e.r.id == id then e.r else rows[Find(rows, id)]
  {
    var i := Find(rows, id);
    match e
    case Keep =>
    case Add(r) => InsertFind(rows, r, i);
    case Put(k, r) =>
      ReplaceFind(rows, k, r, i);
      FindUnique(rows, k);
  }

  // ---------- the batch ----------

  /** An id whose row is in the dumpster. */
  predicate Dead(rows: seq<Row>, sid: string) {
    var k := RowOf(rows, sid);
    k < |rows| && rows[k].deleted
  }

  lemma DeadNotListed(rows: seq<Row>, folder: int, sid: string)
    requires ValidRows(rows) && IssuedSpelling(sid) && Dead(rows, sid)
    ensures sid !in Sids(Listing(rows, folder))
  {
    SidListed(rows, folder, ParseInt(sid).value);
  }

  function DroppedBy(st: State, cmd: Command): set<string> {
    if Deletes(st, cmd) then {cmd.sid} else {}
  }

  ghost predicate AllDead(st: State, dropped: set<string>) {
    forall s :: s in dropped ==> s !in st.items && IssuedSpelling(s) && Dead(st.store.rows, s)
  }

  ghost predicate SameEntries(st: State, st': State, folder: int, u: set<string>) {
    EntriesOutside(Listing(st.store.rows, folder), u) == EntriesOutside(Listing(st'.store.rows, folder), u)
  }

  ghost predicate StillListed(st: State, st': State, folder: int, dropped: set<string>) {
    forall s :: s in Sids(Listing(st.store.rows, folder)) && s !in dropped ==>
                  s in Sids(Listing(st'.store.rows, folder))
  }

  ghost predicate BatchInvariant(st: State, st': State, folder: int, dropped: set<string>) {
    && ValidRows(st'.store.rows)
    && AllDead(st', dropped)
    && SameOutside(st.items, st'.items, dropped)
    && SameEntries(st, st', folder, st'.written + dropped)
    && StillListed(st, st', folder, dropped)
  }

  lemma StepOutside(a: seq<Entry>, b: seq<Entry>, c: seq<Entry>, u: set<string>, t: set<string>)
    requires EntriesOutside(a, u) == EntriesOutside(b, u)
    requires EntriesOutside(b, t) == EntriesOutside(c, t)
    ensures EntriesOutside(a, u + t) == EntriesOutside(c, u + t)
  {
    OutsideTwice(a, u, t);
    OutsideTwice(b, u, t);
    OutsideTwice(b, t, u);
    OutsideTwice(c, t, u);
    assert u + t == t + u;
  }

  lemma StepListed(rows: seq<Row>, e: Edit, folder: int, s: string)
    requires ValidRows(rows) && ProperEdit(rows, e)
    requires s in Sids(Listing(rows, folder))
    requires e.Put? && Sid(e.r.id) == s ==> e.r.deleted == rows[e.k].deleted
    ensures s in Sids(Listing(Edited(rows, e), folder))
  {
    ListingMembers(rows, folder);
    var x :| x in Listing(rows, folder) && x.sid == s;
    var i :| 0 <= i < |rows| && Listed(rows[i], folder) && x == Entry(Sid(rows[i].id), rows[i].cn);
    FindUnique(rows, i);
    RowAfter(rows, e, rows[i].id);
    EditValid(rows, e);
    SidListed(Edited(rows, e), folder, rows[i].id);
    if e.Put? && e.r.id == rows[i].id {
      FindUnique(rows, e.k);
    }
  }

  lemma StepDead(rows: seq<Row>, e: Edit, s: string)
    requires ValidRows(rows) && ProperEdit(rows, e) && Dead(rows, s)
    ensures Dead(Edited(rows, e), s)
  {
    RowAfter(rows, e, ParseInt(s).value);
    if e.Put? {
      FindUnique(rows, e.k);
    }
  }

  lemma DeleteKills(st: State, folder: int, cmd: Command)
    requires ValidRows(st.store.rows) && Proper(st, cmd) && Deletes(st, cmd)
    ensures Dead(Apply(st, folder, cmd).store.rows, cmd.sid)
  {
    CommandEdits(st, folder, cmd);
    var rows, e := st.store.rows, EditOf(st, folder, cmd);
    var k := RowOf(rows, cmd.sid);
    RowAfter(rows, e, rows[k].id);
  }

  lemma StepAllDead(mid: State, folder: int, dropped: set<string>, cmd: Command)
    requires ValidRows(mid.store.rows) && Proper(mid, cmd) && AllDead(mid, dropped)
    ensures AllDead(Apply(mid, folder, cmd), dropped + DroppedBy(mid, cmd))
  {
    var st' := Apply(mid, folder, cmd);
    CommandEdits(mid, folder, cmd);
    forall s | s in dropped + DroppedBy(mid, cmd)
      ensures s !in st'.items && IssuedSpelling(s) && Dead(st'.store.rows, s)
    {
      if s in DroppedBy(mid, cmd) {
        DeleteKills(mid, folder, cmd);
      } else {
        StepDead(mid.store.rows, EditOf(mid, folder, cmd), s);
      }
    }
  }

  lemma StepItems(st: State, mid: State, folder: int, dropped: set<string>, cmd: Command)
    requires SameOutside(st.items, mid.items, dropped)
    ensures SameOutside(st.items, Apply(mid, folder, cmd).items, dropped + DroppedBy(mid, cmd))
  {
    assert Apply(mid, folder, cmd).items == mid.items - DroppedBy(mid, cmd);
  }

  lemma StepStillListed(st: State, mid: State, folder: int, dropped: set<string>, cmd: Command)
    requires ValidRows(mid.store.rows) && Proper(mid, cmd) && StillListed(st, mid, folder, dropped)
    ensures StillListed(st, Apply(mid, folder, cmd), folder, dropped + DroppedBy(mid, cmd))
  {
    CommandEdits(mid, folder, cmd);
    var e := EditOf(mid, folder, cmd);
    forall s | s in Sids(Listing(st.store.rows, folder)) && s !in dropped + DroppedBy(mid, cmd)
      ensures s in Sids(Listing(Apply(mid, folder, cmd).store.rows, folder))
    {
      assert s in Sids(Listing(mid.store.rows, folder));
      StepListed(mid.store.rows, e, folder, s);
    }
  }

  lemma TouchedGrows(mid: State, folder: int, dropped: set<string>, cmd: Command)
    ensures mid.written + dropped + Affected(mid, cmd)
         == Apply(mid, folder, cmd).written + (dropped + DroppedBy(mid, cmd))
  {
  }

  lemma StepEntries(st: State, mid: State, folder: int, dropped: set<string>, cmd: Command)
    requires Proper(mid, cmd) && SameEntries(st, mid, folder, mid.written + dropped)
    ensures SameEntries(st, Apply(mid, folder, cmd), folder, mid.written + dropped + Affected(mid, cmd))
  {
    var st', e := Apply(mid, folder, cmd), EditOf(mid, folder, cmd);
    CommandEdits(mid, folder, cmd);
    EditOutside(mid.store.rows, e, folder, Affected(mid, cmd));
    StepOutside(Listing(st.store.rows, folder), Listing(mid.store.rows, folder), Listing(st'.store.rows, folder),
                mid.written + dropped, Affected(mid, cmd));
  }

  lemma StepInvariant(st: State, mid: State, folder: int, dropped: set<string>, cmd: Command)
    requires BatchInvariant(st, mid, folder, dropped) && Proper(mid, cmd)
    ensures BatchInvariant(st, Apply(mid, folder, cmd), folder, dropped + DroppedBy(mid, cmd))
  {
    CommandEdits(mid, folder, cmd);
    EditValid(mid.store.rows, EditOf(mid, folder, cmd));
    StepAllDead(mid, folder, dropped, cmd);
    StepItems(st, mid, folder, dropped, cmd);
    StepStillListed(st, mid, folder, dropped, cmd);
    StepEntries(st, mid, folder, dropped, cmd);
    TouchedGrows(mid, folder, dropped, cmd);
  }

  lemma {:induction false} BatchKeeps(st: State, folder: int, cmds: seq<Command>)
    requires ValidRows(st.store.rows) && ProperBatch(st, folder, cmds)
    ensures BatchInvariant(st, ApplyAll(st, folder, cmds), folder, Dropped(st, folder, cmds))
  {
    if cmds != [] {
      var init := cmds[..|cmds| - 1];
      BatchKeeps(st, folder, init);
      StepInvariant(st, ApplyAll(st, folder, init), folder, Dropped(st, folder, init), cmds[|cmds| - 1]);
    }
  }

  lemma {:induction false} FoldOutside(items: Items, live: seq<Entry>, written: set<string>, s: string)
    requires s !in written || s !in Sids(live)
    ensures s in items <==> s in Fold(items, live, written)
    ensures s in items ==> Fold(items, live, written)[s] == items[s]
  {
    if live != [] {
      var init, last := live[..|live| - 1], live[|live| - 1];
      assert live == init + [last];
      assert last in live;
      FoldOutside(items, init, written, s);
    }
  }

  lemma {:induction false} FoldInside(items: Items, live: seq<Entry>, written: set<string>, i: nat)
    requires Distinct(live) && i < |live| && live[i].sid in written
    ensures var f := Fold(items, live, written);
            live[i].sid in f && f[live[i].sid] == live[i].version
  {
    if i < |live| - 1 {
      FoldInside(items, live[..|live| - 1], written, i);
      assert live[i].sid != live[|live| - 1].sid;
    }
  }

  /** The ids a batch settles: those it deleted, and those it wrote that the folder lists. */
  function SettledBy(store: Store, items: Items, folder: int, cmds: seq<Command>): set<string> {
    var st' := Batch(store, items, folder, cmds);
    Dropped(State(store, items, {}, []), folder, cmds) + st'.written * Sids(Listing(st'.store.rows, folder))
  }

  lemma BatchSettles(store: Store, items: Items, folder: int, cmds: seq<Command>)
    requires ValidRows(store.rows) && ProperBatch(State(store, items, {}, []), folder, cmds)
    ensures var st' := Batch(store, items, folder, cmds);
            var t := SettledBy(store, items, folder, cmds);
            && ValidRows(st'.store.rows)
            && AllSettled(st'.items, Listing(st'.store.rows, folder), t)
            && SameOutside(items, st'.items, t)
  {
    var st := State(store, items, {}, []);
    var mid := ApplyAll(st, folder, cmds);
    var st' := Batch(store, items, folder, cmds);
    var dropped := Dropped(st, folder, cmds);
    var live := Listing(st'.store.rows, folder);
    BatchKeeps(st, folder, cmds);
    ListingDistinct(st'.store.rows, folder);
    forall s | s in SettledBy(store, items, folder, cmds) ensures Settled(st'.items, live, s) {
      if s in dropped {
        DeadNotListed(st'.store.rows, folder, s);
        FoldOutside(mid.items, live, mid.written, s);
      } else {
        var i :| 0 <= i < |live| && live[i].sid == s;
        FoldInside(mid.items, live, mid.written, i);
        assert live[i] in live;
      }
    }
    forall s | s !in SettledBy(store, items, folder, cmds)
      ensures (s in items <==> s in st'.items) && (s in items ==> items[s] == st'.items[s])
    {
      FoldOutside(mid.items, live, mid.written, s);
    }
  }

  lemma BatchOutside(store: Store, items: Items, folder: int, cmds: seq<Command>)
    requires ValidRows(store.rows) && ProperBatch(State(store, items, {}, []), folder, cmds)
    ensures var st' := Batch(store, items, folder, cmds);
            var t := SettledBy(store, items, folder, cmds);
            EntriesOutside(Listing(store.rows, folder), t) == EntriesOutside(Listing(st'.store.rows, folder), t)
  {
    var st := State(store, items, {}, []);
    var st' := Batch(store, items, folder, cmds);
    var dropped := Dropped(st, folder, cmds);
    var t := SettledBy(store, items, folder, cmds);
    var l, l' := Listing(store.rows, folder), Listing(st'.store.rows, folder);
    BatchKeeps(st, folder, cmds);
    forall e | e in l ensures e.sid in t <==> e.sid in st'.written + dropped {
      assert e.sid in Sids(l);
    }
    forall e | e in l' ensures e.sid in t <==> e.sid in st'.written + dropped {
      assert e.sid in Sids(l');
    }
    OutsideSame(l, t, st'.written + dropped);
    OutsideSame(l', t, st'.written + dropped);
  }

  /**
   No echo plus frame, object folders: after a batch of Add, Change and Delete the
   pending changes are the earlier ones with exactly the settled ids filtered out.
   */
  lemma NoEcho(store: Store, items: Items, folder: int, cmds: seq<Command>, out: seq<Change>)
    requires ValidRows(store.rows) && ProperBatch(State(store, items, {}, []), folder, cmds)
    requires IsDiff(items, Listing(store.rows, folder), out)
    ensures var st' := Batch(store, items, folder, cmds);
            IsDiff(st'.items, Listing(st'.store.rows, folder), WithoutSids(out, SettledBy(store, items, folder, cmds)))
  {
    var st' := Batch(store, items, folder, cmds);
    BatchSettles(store, items, folder, cmds);
    BatchOutside(store, items, folder, cmds);
    ListingDistinct(st'.store.rows, folder);
    Frame(items, Listing(store.rows, folder), out, st'.items, Listing(st'.store.rows, folder),
          SettledBy(store, items, folder, cmds));
  }
}
