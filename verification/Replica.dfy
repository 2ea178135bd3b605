/**
 The two-party replication protocol over whole runs: one device and the server's
 state for one mail collection, with mailbox changes between requests, lost
 responses, rounds that fail after touching the store, re-primes and administrator
 resyncs. Each request runs from load to save as one step.
 */
module Replica {
  import opened Strconv
  import opened Snapshot
  import opened SyncState
  import opened Mail
  import opened Rounds

  /** What the device holds: server id to read state. */
  type View = map<string, bool>

  /** The read state the snapshot says the device holds. */
  function Projection(items: Items): View {
    map s | s in items :: Seen(items[s])
  }

  /** The device and the snapshot say the same about `s`. */
  predicate Agree(view: View, items: Items, s: string) {
    && (s in view <==> s in items)
    && (s in view ==> view[s] == Seen(items[s]))
  }

  // ---------- the device ----------

  /** The device's own copy after it issues a command. */
  function Local(view: View, cmd: Command): View {
    match cmd
    case ChangeCmd(sid, Some(text)) =>
      if text == "1" then view[sid := true] else if text == "0" then view[sid := false] else view
    case DeleteCmd(sid) => view - {sid}
    case _ => view
  }

  function LocalAll(view: View, cmds: seq<Command>): View {
    if cmds == [] then view else Local(LocalAll(view, cmds[..|cmds| - 1]), cmds[|cmds| - 1])
  }

  /** A device edits items it holds, and a Change carries the Read element. */
  predicate DeviceCommand(view: View, cmd: Command) {
    && cmd.sid in view
    && (cmd.DeleteCmd? || (cmd.ChangeCmd? && (cmd.data == Some("0") || cmd.data == Some("1"))))
  }

  predicate DeviceBatch(view: View, cmds: seq<Command>) {
    cmds == [] ||
    var init := cmds[..|cmds| - 1];
    DeviceBatch(view, init) && DeviceCommand(LocalAll(view, init), cmds[|cmds| - 1])
  }

  /** The device's copy after one server command: an Add or Change carries the read state. */
  function Receive(view: View, c: Change): View {
    if c.kind == Removed then view - {c.sid} else view[c.sid := Seen(c.version)]
  }

  function ReceiveAll(view: View, cs: seq<Change>): View {
    if cs == [] then view else Receive(ReceiveAll(view, cs[..|cs| - 1]), cs[|cs| - 1])
  }

  // ---------- the world ----------

  /** The folder and its uid counter, the server's collection, the device's key and copy. */
  datatype World = World(folder: seq<Message>, uidNext: nat, coll: Coll, key: string, view: View)

  datatype Outcome = Delivered | Lost | FailedBeforeSave

  ghost predicate FolderOk(f: seq<Message>, uidNext: nat) {
    ValidFolder(f) && uidNext <= TWO_32 && forall u :: u in Uids(f) ==> u < uidNext
  }

  ghost predicate Init(w: World) {
    FolderOk(w.folder, w.uidNext) && w.coll == NEVER_SYNCED && w.key == "0" && w.view == map[]
  }

  /** Delivery, deletion and flag changes by anyone else: a new message takes a fresh uid. */
  ghost predicate MailboxChange(w: World, w': World) {
    && w' == w.(folder := w'.folder, uidNext := w'.uidNext)
    && FolderOk(w'.folder, w'.uidNext) && w.uidNext <= w'.uidNext
    && forall u :: u in Uids(w'.folder) ==> u in Uids(w.folder) || u >= w.uidNext
  }

  /** The device drops its key and will prime. */
  ghost predicate Abandon(w: World, w': World) {
    w' == w.(key := "0")
  }

  ghost predicate AdminResync(w: World, w': World) {
    w' == w.(coll := NEVER_SYNCED)
  }

  ghost predicate PrimeRequest(w: World, w': World, outcome: Outcome) {
    match outcome
    case FailedBeforeSave => w' == w
    case Lost => w' == w.(coll := Coll("1", map[]))
    case Delivered => w' == w.(coll := Coll("1", map[]), key := "1", view := map[])
  }

  /** Status 3 sends the device back to priming. */
  ghost predicate RefusedRequest(w: World, w': World, outcome: Outcome) {
    w' == if outcome == Delivered then w.(key := "0") else w
  }

  /** A current-key round: the commands are applied, the snapshot diff is collected, the key is spent. */
  ghost predicate RoundRequest(w: World, w': World, cmds: seq<Command>, window: nat, outcome: Outcome,
                               sent: seq<Change>, more: bool) {
    var st := ApplyAll(State(w.folder, w.coll.items), cmds);
    && DeviceBatch(w.view, cmds)
    && if outcome == FailedBeforeSave then w' == w.(folder := st.folder)
       else
         && MailRound(st.items, Listing(st.folder), window, w'.coll.items, sent, more)
         && w'.coll.syncKey == NextSyncKey(w.coll.syncKey)
         && w' == w.(folder := st.folder, coll := w'.coll, key := w'.key, view := w'.view)
         && if outcome == Lost then w'.key == w.key && w'.view == w.view
            else w'.key == w'.coll.syncKey && w'.view == ReceiveAll(LocalAll(w.view, cmds), sent)
  }

  /** The device sends its key, or "0" at any time. */
  ghost predicate SyncRequest(w: World, w': World, key: string, outcome: Outcome) {
    && (key == w.key || key == "0")
    && match GateOf(w.coll, key)
       case Primed => PrimeRequest(w, w', outcome)
       case Refused => RefusedRequest(w, w', outcome)
       case Current => exists cmds, window, sent, more :: RoundRequest(w, w', cmds, window, outcome, sent, more)
  }

  ghost predicate Step(w: World, w': World) {
    || MailboxChange(w, w')
    || Abandon(w, w')
    || AdminResync(w, w')
    || exists key, outcome :: SyncRequest(w, w', key, outcome)
  }

  ghost predicate Run(ws: seq<World>) {
    && |ws| > 0 && Init(ws[0])
    && forall i :: 0 <= i < |ws| - 1 ==> Step(ws[i], ws[i + 1])
  }

  // ---------- the invariant ----------

  ghost predicate KnownSid(s: string, uidNext: nat) {
    exists u: nat :: u < uidNext && s == Sid(u)
  }

  ghost predicate AllKnown(ids: set<string>, uidNext: nat) {
    forall s :: s in ids ==> KnownSid(s, uidNext)
  }

  /** Device and snapshot differ at most about items that have left the folder, whose deletion is pending. */
  ghost predicate DifferOnlyOnVanished(view: View, items: Items, live: seq<Entry>) {
    forall s :: !Agree(view, items, s) ==> s in Vanished(items, live)
  }

  ghost predicate Safe(w: World) {
    && FolderOk(w.folder, w.uidNext)
    && WellKeyed(w.coll)
    && (w.key == "0" || IssuedKey(w.key))
    && (w.key == "1" ==> w.view == map[])
    && AllKnown(w.coll.items.Keys, w.uidNext)
    && AllKnown(w.view.Keys, w.uidNext)
    && (w.key != "0" && w.key == w.coll.syncKey ==>
          DifferOnlyOnVanished(w.view, w.coll.items, Listing(w.folder)))
  }

  // ---------- client commands ----------

  lemma KnownTarget(f: seq<Message>, uidNext: nat, cmd: Command)
    requires KnownSid(cmd.sid, uidNext) && uidNext <= TWO_32
    requires cmd.DeleteCmd? || (cmd.ChangeCmd? && cmd.data.Some?)
    ensures IssuedSpelling(cmd.sid)
    ensures Succeeds(f, cmd) <==> cmd.sid in Sids(Listing(f))
  {
    var u: nat :| u < uidNext && cmd.sid == Sid(u);
    ParseFormatUint(u, TWO_32);
    SidListed(f, u);
  }

  lemma ListingSids(f: seq<Message>, s: string)
    ensures s in Sids(Listing(f)) <==> exists u :: u in Uids(f) && s == Sid(u)
  {
    var l := Listing(f);
    if s in Sids(l) {
      var i :| 0 <= i < |l| && l[i].sid == s;
      assert f[i].uid in Uids(f);
    }
    if u :| u in Uids(f) && s == Sid(u) {
      var i :| 0 <= i < |f| && f[i].uid == u;
      assert l[i] in l && l[i].sid == s;
    }
  }

  /** A command never brings an item into the folder. */
  lemma ListingShrinks(f: seq<Message>, f': seq<Message>, s: string)
    requires Uids(f') <= Uids(f) && s in Sids(Listing(f'))
    ensures s in Sids(Listing(f))
  {
    ListingSids(f, s);
    ListingSids(f', s);
  }

  lemma CommandOthers(st: State, view: View, cmd: Command, s: string)
    requires s != cmd.sid
    ensures Agree(Local(view, cmd), Apply(st, cmd).items, s) <==> Agree(view, st.items, s)
    ensures s in Apply(st, cmd).items <==> s in st.items
  {
  }

  lemma FailedOwn(st: State, view: View, cmd: Command)
    requires !Succeeds(st.folder, cmd) && cmd.sid !in Sids(Listing(st.folder)) && cmd.sid in view
    requires DifferOnlyOnVanished(view, st.items, Listing(st.folder))
    ensures Apply(st, cmd) == st && cmd.sid in Vanished(st.items, Listing(st.folder))
  {
    if Agree(view, st.items, cmd.sid) {
      assert cmd.sid in st.items;
    }
  }

  lemma SucceededOwn(st: State, view: View, cmd: Command)
    requires Succeeds(st.folder, cmd) && DeviceCommand(view, cmd)
    ensures Agree(Local(view, cmd), Apply(st, cmd).items, cmd.sid)
  {
  }

  /** What a device command does to the agreement about its own item. */
  lemma CommandOwn(st: State, view: View, cmd: Command, uidNext: nat)
    requires uidNext <= TWO_32 && DeviceCommand(view, cmd) && KnownSid(cmd.sid, uidNext)
    requires DifferOnlyOnVanished(view, st.items, Listing(st.folder))
    ensures var st' := Apply(st, cmd);
            Agree(Local(view, cmd), st'.items, cmd.sid) || cmd.sid in Vanished(st'.items, Listing(st'.folder))
  {
    KnownTarget(st.folder, uidNext, cmd);
    if Succeeds(st.folder, cmd) {
      SucceededOwn(st, view, cmd);
    } else {
      FailedOwn(st, view, cmd);
    }
  }

  lemma CommandSafe(st: State, view: View, cmd: Command, uidNext: nat)
    requires ValidFolder(st.folder) && uidNext <= TWO_32
    requires DeviceCommand(view, cmd) && KnownSid(cmd.sid, uidNext)
    requires DifferOnlyOnVanished(view, st.items, Listing(st.folder))
    ensures var st' := Apply(st, cmd);
            DifferOnlyOnVanished(Local(view, cmd), st'.items, Listing(st'.folder))
  {
    var st' := Apply(st, cmd);
    forall s | !Agree(Local(view, cmd), st'.items, s) ensures s in Vanished(st'.items, Listing(st'.folder)) {
      if s == cmd.sid {
        CommandOwn(st, view, cmd, uidNext);
      } else {
        CommandOthers(st, view, cmd, s);
        assert s in Vanished(st.items, Listing(st.folder));
        if s in Sids(Listing(st'.folder)) {
          ListingShrinks(st.folder, st'.folder, s);
        }
      }
    }
  }

  lemma {:induction false} LocalKeys(view: View, cmds: seq<Command>)
    requires DeviceBatch(view, cmds)
    ensures LocalAll(view, cmds).Keys <= view.Keys
  {
    if cmds != [] {
      LocalKeys(view, cmds[..|cmds| - 1]);
    }
  }

  lemma {:induction false} BatchItems(st: State, view: View, cmds: seq<Command>)
    requires DeviceBatch(view, cmds)
    ensures ApplyAll(st, cmds).items.Keys <= st.items.Keys + view.Keys
  {
    if cmds != [] {
      var init := cmds[..|cmds| - 1];
      BatchItems(st, view, init);
      LocalKeys(view, init);
    }
  }

  lemma {:induction false} BatchSafe(st: State, view: View, cmds: seq<Command>, uidNext: nat)
    requires ValidFolder(st.folder) && uidNext <= TWO_32
    requires DeviceBatch(view, cmds) && AllKnown(view.Keys, uidNext)
    requires DifferOnlyOnVanished(view, st.items, Listing(st.folder))
    ensures var st' := ApplyAll(st, cmds);
            DifferOnlyOnVanished(LocalAll(view, cmds), st'.items, Listing(st'.folder))
  {
    if cmds != [] {
      var init, last := cmds[..|cmds| - 1], cmds[|cmds| - 1];
      BatchSafe(st, view, init, uidNext);
      ApplyAllValid(st, init);
      LocalKeys(view, init);
      CommandSafe(ApplyAll(st, init), LocalAll(view, init), last, uidNext);
    }
  }

  // ---------- server commands ----------

  lemma {:induction false} ReceivedSafe(view: View, items: Items, live: seq<Entry>, cs: seq<Change>)
    requires DifferOnlyOnVanished(view, items, live)
    ensures DifferOnlyOnVanished(ReceiveAll(view, cs), RecordAll(items, cs), live)
  {
    if cs != [] {
      var init, c := cs[..|cs| - 1], cs[|cs| - 1];
      ReceivedSafe(view, items, live, init);
      var v, m := ReceiveAll(view, init), RecordAll(items, init);
      forall s | !Agree(Receive(v, c), Record(m, c), s) ensures s in Vanished(Record(m, c), live) {
        assert s != c.sid;
        assert !Agree(v, m, s);
      }
    }
  }

  lemma {:induction false} ReceivedKeys(view: View, cs: seq<Change>, ids: set<string>)
    requires view.Keys <= ids && forall c :: c in cs ==> c.kind == Removed || c.sid in ids
    ensures ReceiveAll(view, cs).Keys <= ids
  {
    if cs != [] {
      assert cs[|cs| - 1] in cs;
      ReceivedKeys(view, cs[..|cs| - 1], ids);
    }
  }

  lemma {:induction false} RecordedKeys(items: Items, cs: seq<Change>, ids: set<string>)
    requires items.Keys <= ids && forall c :: c in cs ==> c.kind == Removed || c.sid in ids
    ensures RecordAll(items, cs).Keys <= ids
  {
    if cs != [] {
      assert cs[|cs| - 1] in cs;
      RecordedKeys(items, cs[..|cs| - 1], ids);
    }
  }

  lemma ListingKnown(f: seq<Message>, uidNext: nat)
    requires FolderOk(f, uidNext)
    ensures AllKnown(Sids(Listing(f)), uidNext)
  {
    forall s | s in Sids(Listing(f)) ensures KnownSid(s, uidNext) {
      ListingSids(f, s);
      var u :| u in Uids(f) && s == Sid(u);
      assert u < uidNext;
    }
  }

  /** Apart from deletions, the changes are about listed items. */
  ghost predicate AboutListed(sent: seq<Change>, live: seq<Entry>) {
    forall c :: c in sent ==> c.kind == Removed || c.sid in Sids(live)
  }

  lemma RoundSent(items: Items, live: seq<Entry>, window: nat, items': Items, sent: seq<Change>, more: bool)
    requires Distinct(live) && MailRound(items, live, window, items', sent, more)
    ensures items' == RecordAll(items, sent) && AboutListed(sent, live)
  {
    var out :| IsDiff(items, live, out) && sent == out[..Taken(out, window)] && items' == RecordAll(items, sent);
    SentIsKnown(items, live, out, Taken(out, window));
  }

  // ---------- steps ----------

  lemma MailboxChangeSafe(w: World, w': World)
    requires Safe(w) && MailboxChange(w, w')
    ensures Safe(w')
  {
    var l, l' := Listing(w.folder), Listing(w'.folder);
    GrownKnown(w.coll.items.Keys, w.uidNext, w'.uidNext);
    GrownKnown(w.view.Keys, w.uidNext, w'.uidNext);
    if w.key != "0" && w.key == w.coll.syncKey {
      forall s | !Agree(w.view, w.coll.items, s) ensures s in Vanished(w.coll.items, l') {
        assert s in Vanished(w.coll.items, l);
        StaysVanished(w, w', s);
      }
    }
  }

  lemma GrownKnown(ids: set<string>, uidNext: nat, uidNext': nat)
    requires AllKnown(ids, uidNext) && uidNext <= uidNext'
    ensures AllKnown(ids, uidNext')
  {
    forall s | s in ids ensures KnownSid(s, uidNext') {
      var u: nat :| u < uidNext && s == Sid(u);
      assert u < uidNext';
    }
  }

  /** Uids are never reused, so an item that left the folder stays gone. */
  lemma StaysVanished(w: World, w': World, s: string)
    requires MailboxChange(w, w') && KnownSid(s, w.uidNext) && s !in Sids(Listing(w.folder))
    ensures s !in Sids(Listing(w'.folder))
  {
    ListingSids(w.folder, s);
    ListingSids(w'.folder, s);
    var u: nat :| u < w.uidNext && s == Sid(u);
    forall v | v in Uids(w'.folder) ensures s != Sid(v) {
      if s == Sid(v) {
        FormatUintInjective(u, v);
      }
    }
  }

  lemma PrimeSafe(w: World, w': World, outcome: Outcome)
    requires Safe(w) && PrimeRequest(w, w', outcome)
    ensures Safe(w')
  {
    assert FormatUint(1) == "1";
  }

  lemma RoundKnown(w: World, cmds: seq<Command>, sent: seq<Change>)
    requires Safe(w) && DeviceBatch(w.view, cmds)
    requires AboutListed(sent, Listing(ApplyAll(State(w.folder, w.coll.items), cmds).folder))
    ensures AllKnown(RecordAll(ApplyAll(State(w.folder, w.coll.items), cmds).items, sent).Keys, w.uidNext)
    ensures AllKnown(ReceiveAll(LocalAll(w.view, cmds), sent).Keys, w.uidNext)
  {
    var st0 := State(w.folder, w.coll.items);
    var st := ApplyAll(st0, cmds);
    var live := Listing(st.folder);
    ApplyAllValid(st0, cmds);
    ListingKnown(st.folder, w.uidNext);
    BatchItems(st0, w.view, cmds);
    LocalKeys(w.view, cmds);
    var ids := st.items.Keys + LocalAll(w.view, cmds).Keys + Sids(live);
    RecordedKeys(st.items, sent, ids);
    ReceivedKeys(LocalAll(w.view, cmds), sent, ids);
  }

  lemma RoundAgrees(w: World, cmds: seq<Command>, sent: seq<Change>)
    requires Safe(w) && DeviceBatch(w.view, cmds) && w.key != "0" && w.key == w.coll.syncKey
    ensures var st := ApplyAll(State(w.folder, w.coll.items), cmds);
            DifferOnlyOnVanished(ReceiveAll(LocalAll(w.view, cmds), sent), RecordAll(st.items, sent),
                                 Listing(st.folder))
  {
    var st0 := State(w.folder, w.coll.items);
    var st := ApplyAll(st0, cmds);
    BatchSafe(st0, w.view, cmds, w.uidNext);
    ReceivedSafe(LocalAll(w.view, cmds), st.items, Listing(st.folder), sent);
  }

  /** A round that fails after touching the store: items may have left the folder, nothing else moved. */
  lemma FailedRoundSafe(w: World, cmds: seq<Command>)
    requires Safe(w)
    ensures Safe(w.(folder := ApplyAll(State(w.folder, w.coll.items), cmds).folder))
  {
    var st0 := State(w.folder, w.coll.items);
    var f' := ApplyAll(st0, cmds).folder;
    ApplyAllValid(st0, cmds);
    if w.key != "0" && w.key == w.coll.syncKey {
      forall s | !Agree(w.view, w.coll.items, s) ensures s in Vanished(w.coll.items, Listing(f')) {
        assert s in Vanished(w.coll.items, Listing(w.folder));
        if s in Sids(Listing(f')) {
          ListingShrinks(w.folder, f', s);
        }
      }
    }
  }

  lemma RoundSafe(w: World, w': World, cmds: seq<Command>, window: nat, outcome: Outcome, sent: seq<Change>, more: bool)
    requires Safe(w) && w.key != "0" && w.key == w.coll.syncKey
    requires RoundRequest(w, w', cmds, window, outcome, sent, more)
    ensures Safe(w')
  {
    if outcome == FailedBeforeSave {
      FailedRoundSafe(w, cmds);
    } else {
      var st0 := State(w.folder, w.coll.items);
      var st := ApplyAll(st0, cmds);
      ApplyAllValid(st0, cmds);
      ListingDistinct(st.folder);
      RoundSent(st.items, Listing(st.folder), window, w'.coll.items, sent, more);
      RoundKnown(w, cmds, sent);
      RoundAgrees(w, cmds, sent);
      SpentKey(w.coll.syncKey);
    }
  }

  /** A spent key is neither repeated nor followed by "1". */
  lemma SpentKey(key: string)
    requires IssuedKey(key) && key != "0"
    ensures IssuedKey(NextSyncKey(key)) && NextSyncKey(key) != key && NextSyncKey(key) != "1"
  {
    NextKeyLargerIff(key);
    NextOfIssued(key);
    KeyOne(key);
    KeyOne(NextSyncKey(key));
  }

  lemma StepSafe(w: World, w': World)
    requires Safe(w) && Step(w, w')
    ensures Safe(w')
  {
    if MailboxChange(w, w') {
      MailboxChangeSafe(w, w');
    } else if key, outcome :| SyncRequest(w, w', key, outcome) {
      match GateOf(w.coll, key) {
        case Primed => PrimeSafe(w, w', outcome);
        case Refused =>
        case Current =>
          var cmds, window, sent, more :| RoundRequest(w, w', cmds, window, outcome, sent, more);
          RoundSafe(w, w', cmds, window, outcome, sent, more);
      }
    }
  }

  /**
   Replica safety over every run: whenever the device's key is the server's, the device
   and the snapshot agree about every item, except that they may differ about one that
   has left the folder and whose deletion the server still owes the device.
   */
  lemma {:induction false} RunSafe(ws: seq<World>, i: nat)
    requires Run(ws) && i < |ws|
    ensures Safe(ws[i])
  {
    if i > 0 {
      RunSafe(ws, i - 1);
      StepSafe(ws[i - 1], ws[i]);
    }
  }

  // ---------- exact agreement ----------

  lemma AgreeEverywhere(view: View, items: Items)
    ensures view == Projection(items) <==> forall s :: Agree(view, items, s)
  {
    var p := Projection(items);
    if forall s :: Agree(view, items, s) {
      forall s ensures s in view <==> s in p {
        assert Agree(view, items, s);
      }
      forall s | s in view ensures view[s] == p[s] {
        assert Agree(view, items, s);
      }
    }
  }

  /**
   Caught up: a delivered round without MoreAvailable leaves the device holding exactly
   the messages of the folder, each with its read state.
   */
  lemma CaughtUp(ws: seq<World>, i: nat, cmds: seq<Command>, window: nat, sent: seq<Change>)
    requires Run(ws) && i + 1 < |ws| && ws[i].key != "0" && ws[i].key == ws[i].coll.syncKey
    requires RoundRequest(ws[i], ws[i + 1], cmds, window, Delivered, sent, false)
    ensures ws[i + 1].coll.items == AsItems(Listing(ws[i + 1].folder))
    ensures ws[i + 1].view == Projection(AsItems(Listing(ws[i + 1].folder)))
  {
    var w, w' := ws[i], ws[i + 1];
    RunSafe(ws, i);
    var st0 := State(w.folder, w.coll.items);
    var st := ApplyAll(st0, cmds);
    var live := Listing(st.folder);
    ApplyAllValid(st0, cmds);
    ListingDistinct(st.folder);
    RoundSent(st.items, live, window, w'.coll.items, sent, false);
    RoundAgrees(w, cmds, sent);
    MailRoundCounts(st.items, live, window, w'.coll.items, sent, false);
    NothingPendingIffAgree(w'.coll.items, live);
    assert Vanished(w'.coll.items, live) == {};
    AgreeEverywhere(w'.view, w'.coll.items);
  }

  lemma ReceiveOne(view: View, items: Items, c: Change, s: string)
    ensures Agree(Receive(view, c), Record(items, c), s) <==> s == c.sid || Agree(view, items, s)
  {
  }

  lemma {:induction false} ReceivedAgreeIff(view: View, items: Items, cs: seq<Change>, s: string)
    ensures Agree(ReceiveAll(view, cs), RecordAll(items, cs), s) <==> s in ChangeSids(cs) || Agree(view, items, s)
  {
    if cs != [] {
      var init, c := cs[..|cs| - 1], cs[|cs| - 1];
      ReceivedAgreeIff(view, items, init, s);
      assert s in ChangeSids(cs) <==> s in ChangeSids(init) || s == c.sid by {
        assert cs == init + [c];
      }
      ReceiveOne(ReceiveAll(view, init), RecordAll(items, init), c, s);
    }
  }
}
