/**
 Exact agreement of device and snapshot: which runs keep it, which rounds end in it, a run
 that loses it, and the Change that loses it for good.
 */
module Exact {
  import opened Strconv
  import opened Snapshot
  import opened SyncState
  import opened Mail
  import opened Rounds
  import opened Replica

  // ---------- a batch, item by item ----------

  lemma SidsElsewhere(a: seq<Entry>, b: seq<Entry>, t: string, s: string)
    requires EntriesOutside(a, {t}) == EntriesOutside(b, {t}) && s != t
    ensures s in Sids(a) <==> s in Sids(b)
  {
    SidsOutside(a, {t});
    SidsOutside(b, {t});
    assert s in Sids(a) <==> s in Sids(a) - {t};
    assert s in Sids(b) <==> s in Sids(b) - {t};
  }

  /** A command in issued spelling leaves every other item listed or not as it was. */
  lemma CommandElsewhere(st: State, cmd: Command, s: string)
    requires ValidFolder(st.folder) && IssuedSpelling(cmd.sid) && s != cmd.sid
    ensures s in Sids(Listing(Apply(st, cmd).folder)) <==> s in Sids(Listing(st.folder))
  {
    if Succeeds(st.folder, cmd) {
      if cmd.ChangeCmd? {
        ChangeSettles(st, cmd);
      } else {
        DeleteSettles(st, cmd);
      }
      SidsElsewhere(Listing(st.folder), Listing(Apply(st, cmd).folder), cmd.sid, s);
    }
  }

  /** An item the folder holds: device and snapshot agree, and the folder holds it while the device does. */
  ghost predicate InStep(st: State, view: View, s: string) {
    Agree(view, st.items, s) && (s in view ==> s in Sids(Listing(st.folder)))
  }

  lemma HeldStep(st: State, view: View, cmd: Command, uidNext: nat, s: string)
    requires ValidFolder(st.folder) && uidNext <= TWO_32 && DeviceCommand(view, cmd) && KnownSid(cmd.sid, uidNext)
    requires InStep(st, view, s)
    ensures InStep(Apply(st, cmd), Local(view, cmd), s)
  {
    KnownTarget(st.folder, uidNext, cmd);
    if s != cmd.sid {
      CommandElsewhere(st, cmd, s);
      CommandOthers(st, view, cmd, s);
    } else {
      SucceededOwn(st, view, cmd);
      if cmd.ChangeCmd? {
        ChangeSettles(st, cmd);
      }
    }
  }

  ghost predicate SameItem(items: Items, items': Items, s: string) {
    (s in items <==> s in items') && (s in items ==> items[s] == items'[s])
  }

  lemma GoneStep(st: State, view: View, cmd: Command, uidNext: nat, s: string)
    requires ValidFolder(st.folder) && uidNext <= TWO_32 && DeviceCommand(view, cmd) && KnownSid(cmd.sid, uidNext)
    requires s !in Sids(Listing(st.folder))
    ensures s !in Sids(Listing(Apply(st, cmd).folder)) && SameItem(st.items, Apply(st, cmd).items, s)
  {
    KnownTarget(st.folder, uidNext, cmd);
    if s != cmd.sid {
      CommandElsewhere(st, cmd, s);
    }
  }

  lemma {:induction false} HeldBatch(st: State, view: View, cmds: seq<Command>, uidNext: nat, s: string)
    requires ValidFolder(st.folder) && uidNext <= TWO_32 && DeviceBatch(view, cmds) && AllKnown(view.Keys, uidNext)
    requires InStep(st, view, s)
    ensures InStep(ApplyAll(st, cmds), LocalAll(view, cmds), s)
  {
    if cmds != [] {
      var init := cmds[..|cmds| - 1];
      HeldBatch(st, view, init, uidNext, s);
      ApplyAllValid(st, init);
      LocalKeys(view, init);
      HeldStep(ApplyAll(st, init), LocalAll(view, init), cmds[|cmds| - 1], uidNext, s);
    }
  }

  lemma {:induction false} GoneBatch(st: State, view: View, cmds: seq<Command>, uidNext: nat, s: string)
    requires ValidFolder(st.folder) && uidNext <= TWO_32 && DeviceBatch(view, cmds) && AllKnown(view.Keys, uidNext)
    requires s !in Sids(Listing(st.folder))
    ensures s !in Sids(Listing(ApplyAll(st, cmds).folder)) && SameItem(st.items, ApplyAll(st, cmds).items, s)
  {
    if cmds != [] {
      var init := cmds[..|cmds| - 1];
      GoneBatch(st, view, init, uidNext, s);
      ApplyAllValid(st, init);
      LocalKeys(view, init);
      GoneStep(ApplyAll(st, init), LocalAll(view, init), cmds[|cmds| - 1], uidNext, s);
    }
  }

  /** The two copies say the same about `s`. */
  predicate SameAt(view: View, view': View, s: string) {
    (s in view <==> s in view') && (s in view ==> view[s] == view'[s])
  }

  /** After a batch the device and the snapshot agree about all but the gone items the device has edited. */
  lemma BatchAgreesIff(st: State, view: View, cmds: seq<Command>, uidNext: nat, s: string)
    requires ValidFolder(st.folder) && uidNext <= TWO_32 && DeviceBatch(view, cmds) && AllKnown(view.Keys, uidNext)
    requires Agree(view, st.items, s)
    ensures Agree(LocalAll(view, cmds), ApplyAll(st, cmds).items, s) <==>
            s in Sids(Listing(st.folder)) || SameAt(view, LocalAll(view, cmds), s)
  {
    if s in Sids(Listing(st.folder)) {
      HeldBatch(st, view, cmds, uidNext, s);
    } else {
      GoneBatch(st, view, cmds, uidNext, s);
    }
  }

  // ---------- one round ----------

  lemma SidValueOf(u: nat)
    requires u < TWO_32
    ensures SidValue(Sid(u)) == u
  {
    FormatUintValue(u);
  }

  /** Ids the server issued never tie, so the diff is unique. */
  lemma KnownUnique(items: Items, live: seq<Entry>, uidNext: nat, a: seq<Change>, b: seq<Change>)
    requires AllKnown(items.Keys, uidNext) && uidNext <= TWO_32 && IsDiff(items, live, a) && IsDiff(items, live, b)
    ensures a == b
  {
    forall s, t | s in Vanished(items, live) && t in Vanished(items, live) && SidValue(s) == SidValue(t)
      ensures s == t
    {
      var u: nat :| u < uidNext && s == Sid(u);
      var v: nat :| v < uidNext && t == Sid(v);
      SidValueOf(u);
      SidValueOf(v);
    }
    DiffUnique(items, live, a, b);
  }

  function FirstOf(cs: seq<Change>, w: nat): seq<Change> {
    cs[..Taken(cs, w)]
  }

  /** What a round sends, from the pending changes before it and the commands in it. */
  lemma RoundSends(w: World, w': World, cmds: seq<Command>, window: nat, sent: seq<Change>, more: bool,
                   out: seq<Change>)
    requires Safe(w) && RoundRequest(w, w', cmds, window, Delivered, sent, more)
    requires IsDiff(w.coll.items, Listing(w.folder), out)
    ensures sent == FirstOf(WithoutSids(out, Touched(State(w.folder, w.coll.items), cmds)), window)
  {
    var st0 := State(w.folder, w.coll.items);
    var st := ApplyAll(st0, cmds);
    BatchIssued(w.view, cmds, w.uidNext);
    NoEcho(st0, cmds, out);
    BatchItems(st0, w.view, cmds);
    var out' :| IsDiff(st.items, Listing(st.folder), out') && sent == out'[..Taken(out', window)];
    KnownUnique(st.items, Listing(st.folder), w.uidNext, out', WithoutSids(out, Touched(st0, cmds)));
  }

  lemma {:induction false} BatchIssued(view: View, cmds: seq<Command>, uidNext: nat)
    requires DeviceBatch(view, cmds) && AllKnown(view.Keys, uidNext) && uidNext <= TWO_32
    ensures forall c :: c in cmds ==> IssuedSpelling(c.sid)
  {
    if cmds != [] {
      var init, last := cmds[..|cmds| - 1], cmds[|cmds| - 1];
      BatchIssued(view, init, uidNext);
      LocalKeys(view, init);
      KnownTarget([], uidNext, last);
      assert cmds == init + [last];
    }
  }

  /** The device edits something that has already left the folder. */
  ghost predicate LateEdit(w: World, cmds: seq<Command>, s: string) {
    s !in Sids(Listing(w.folder)) && !SameAt(w.view, LocalAll(w.view, cmds), s)
  }

  /**
   When a delivered round keeps exact agreement, decided on the request and the state
   before it: if and only if every item the device edits too late is among the first
   `window` changes pending once the items of its successful commands are taken out.
   */
  lemma ExactAfterRoundIff(w: World, w': World, cmds: seq<Command>, window: nat, sent: seq<Change>, more: bool,
                           out: seq<Change>)
    requires Safe(w) && w.view == Projection(w.coll.items) && RoundRequest(w, w', cmds, window, Delivered, sent, more)
    requires IsDiff(w.coll.items, Listing(w.folder), out)
    ensures w'.view == Projection(w'.coll.items) <==>
            forall s :: LateEdit(w, cmds, s) ==>
              s in ChangeSids(FirstOf(WithoutSids(out, Touched(State(w.folder, w.coll.items), cmds)), window))
  {
    var st0 := State(w.folder, w.coll.items);
    var st := ApplyAll(st0, cmds);
    ApplyAllValid(st0, cmds);
    ListingDistinct(st.folder);
    RoundSent(st.items, Listing(st.folder), window, w'.coll.items, sent, more);
    RoundSends(w, w', cmds, window, sent, more, out);
    AgreeEverywhere(w.view, w.coll.items);
    AgreeEverywhere(w'.view, w'.coll.items);
    forall s ensures Agree(w'.view, w'.coll.items, s) <==> s in ChangeSids(sent) || !LateEdit(w, cmds, s) {
      ReceivedAgreeIff(LocalAll(w.view, cmds), st.items, sent, s);
      BatchAgreesIff(st0, w.view, cmds, w.uidNext, s);
    }
  }

  // ---------- whole runs ----------

  /** Each command reaches a message when its turn comes. */
  ghost predicate AllReach(st: State, cmds: seq<Command>) {
    cmds == [] ||
    var init := cmds[..|cmds| - 1];
    AllReach(st, init) && Succeeds(ApplyAll(st, init).folder, cmds[|cmds| - 1])
  }

  ghost predicate TimelyRound(w: World, w': World, outcome: Outcome) {
    exists cmds, window, sent, more ::
      RoundRequest(w, w', cmds, window, outcome, sent, more) && AllReach(State(w.folder, w.coll.items), cmds)
  }

  ghost predicate TimelyRequest(w: World, w': World, key: string, outcome: Outcome) {
    && SyncRequest(w, w', key, outcome)
    && (GateOf(w.coll, key) == Current ==> TimelyRound(w, w', outcome))
  }

  /** A step of the protocol in which no command of the device comes too late. */
  ghost predicate TimelyStep(w: World, w': World) {
    || MailboxChange(w, w')
    || Abandon(w, w')
    || AdminResync(w, w')
    || exists key, outcome :: TimelyRequest(w, w', key, outcome)
  }

  ghost predicate TimelyRun(ws: seq<World>) {
    && |ws| > 0 && Init(ws[0])
    && forall i :: 0 <= i < |ws| - 1 ==> TimelyStep(ws[i], ws[i + 1])
  }

  ghost predicate ExactWhenCurrent(w: World) {
    w.key != "0" && w.key == w.coll.syncKey ==> w.view == Projection(w.coll.items)
  }

  lemma {:induction false} ReachingAgrees(st: State, view: View, cmds: seq<Command>, s: string)
    requires DeviceBatch(view, cmds) && AllReach(st, cmds) && Agree(view, st.items, s)
    ensures Agree(LocalAll(view, cmds), ApplyAll(st, cmds).items, s)
  {
    if cmds != [] {
      var init, last := cmds[..|cmds| - 1], cmds[|cmds| - 1];
      ReachingAgrees(st, view, init, s);
      if s == last.sid {
        SucceededOwn(ApplyAll(st, init), LocalAll(view, init), last);
      } else {
        CommandOthers(ApplyAll(st, init), LocalAll(view, init), last, s);
      }
    }
  }

  lemma TimelyRoundExact(w: World, w': World, cmds: seq<Command>, window: nat, outcome: Outcome, sent: seq<Change>,
                         more: bool)
    requires Safe(w) && ExactWhenCurrent(w) && w.key != "0" && w.key == w.coll.syncKey
    requires RoundRequest(w, w', cmds, window, outcome, sent, more) && AllReach(State(w.folder, w.coll.items), cmds)
    ensures ExactWhenCurrent(w')
  {
    SpentKey(w.key);
    if outcome == Delivered {
      var st0 := State(w.folder, w.coll.items);
      var st := ApplyAll(st0, cmds);
      ApplyAllValid(st0, cmds);
      ListingDistinct(st.folder);
      RoundSent(st.items, Listing(st.folder), window, w'.coll.items, sent, more);
      AgreeEverywhere(w.view, w.coll.items);
      forall s ensures Agree(w'.view, w'.coll.items, s) {
        ReachingAgrees(st0, w.view, cmds, s);
        ReceivedAgreeIff(LocalAll(w.view, cmds), st.items, sent, s);
      }
      AgreeEverywhere(w'.view, w'.coll.items);
    }
  }

  lemma TimelyStepExact(w: World, w': World)
    requires Safe(w) && ExactWhenCurrent(w) && TimelyStep(w, w')
    ensures ExactWhenCurrent(w')
  {
    assert IssuedKey(w.key) ==> w.key != "";
    if !(MailboxChange(w, w') || Abandon(w, w') || AdminResync(w, w')) {
      var key, outcome :| TimelyRequest(w, w', key, outcome);
      match GateOf(w.coll, key) {
        case Primed => assert Projection(map[]) == map[];
        case Refused =>
        case Current =>
          var cmds, window, sent, more :|
            RoundRequest(w, w', cmds, window, outcome, sent, more) && AllReach(State(w.folder, w.coll.items), cmds);
          TimelyRoundExact(w, w', cmds, window, outcome, sent, more);
      }
    }
  }

  /**
   Exact agreement over every run in which each command finds its message: whenever both
   sides hold the same key, the device holds exactly what the snapshot says.
   */
  lemma {:induction false} TimelyRunExact(ws: seq<World>, i: nat)
    requires TimelyRun(ws) && i < |ws|
    ensures Safe(ws[i]) && ExactWhenCurrent(ws[i])
  {
    if i > 0 {
      TimelyRunExact(ws, i - 1);
      assert TimelyStep(ws[i - 1], ws[i]);
      StepSafe(ws[i - 1], ws[i]);
      TimelyStepExact(ws[i - 1], ws[i]);
    }
  }

  // ---------- a run that loses exact agreement ----------

  // The device primes, two messages arrive and are synced, both leave the folder, and the
  // device marks the second one read in a round whose window holds one deletion.
  const FRESH := World([], 1, NEVER_SYNCED, "0", map[])
  const PRIMED := FRESH.(coll := Coll("1", map[]), key := "1")
  const ARRIVED := PRIMED.(folder := [Message(1, 10, 0), Message(2, 20, 0)], uidNext := 3)
  const SYNCED := ARRIVED.(coll := Coll("2", map["1" := 0, "2" := 0]), key := "2",
                           view := map["1" := false, "2" := false])
  const EXPUNGED := SYNCED.(folder := [])
  const EDITED := EXPUNGED.(coll := Coll("3", map["2" := 0]), key := "3", view := map["2" := true])

  const LATE_EDIT := ChangeCmd("2", Some("1"))
  const ADDITIONS := [Change(Added, "1", 0), Change(Added, "2", 0)]
  const DELETIONS := [Change(Removed, "1", 0), Change(Removed, "2", 0)]

  lemma OneByOne(cs: seq<Change>)
    requires |cs| == 2
    ensures cs[..1] == [cs[0]] && [cs[0]][..0] == []
    ensures forall items :: RecordAll(items, cs) == Record(Record(items, cs[0]), cs[1])
    ensures forall view :: ReceiveAll(view, cs) == Receive(Receive(view, cs[0]), cs[1])
  {
    assert cs[..1][..0] == [];
    forall items ensures RecordAll(items, cs) == Record(Record(items, cs[0]), cs[1]) {
      assert RecordAll(items, cs[..1]) == Record(RecordAll(items, []), cs[0]);
    }
    forall view ensures ReceiveAll(view, cs) == Receive(Receive(view, cs[0]), cs[1]) {
      assert ReceiveAll(view, cs[..1]) == Receive(ReceiveAll(view, []), cs[0]);
    }
  }

  lemma TwoNew(live: seq<Entry>)
    requires live == [Entry("1", 0), Entry("2", 0)]
    ensures IsDiff(map[], live, ADDITIONS)
  {
    assert live[..1] == [Entry("1", 0)] && [Entry("1", 0)][..0] == [];
    assert LiveChanges(map[], [Entry("1", 0)]) == [Change(Added, "1", 0)];
    assert LiveChanges(map[], live) == ADDITIONS;
    assert IsRemovalOrder(map[], live, []);
    assert ADDITIONS + Removals([]) == ADDITIONS;
  }

  lemma TwoGone(items: Items)
    requires items == map["1" := 0, "2" := 0]
    ensures IsDiff(items, [], DELETIONS)
  {
    var gone := ["1", "2"];
    OneRemoval("1");
    assert gone[..1] == ["1"];
    SidValueOf(1);
    SidValueOf(2);
    assert Ordered(gone);
    assert Vanished(items, []) == {"1", "2"};
    assert Elements(gone) == {"1", "2"};
    assert Removals(gone) == DELETIONS;
    assert IsRemovalOrder(items, [], gone);
    assert LiveChanges(items, []) == [];
  }

  lemma FirstSync()
    ensures RoundRequest(ARRIVED, SYNCED, [], 2, Delivered, ADDITIONS, false)
  {
    var live := Listing(ARRIVED.folder);
    assert live == [Entry("1", 0), Entry("2", 0)];
    TwoNew(live);
    OneByOne(ADDITIONS);
    assert ADDITIONS[..Taken(ADDITIONS, 2)] == ADDITIONS;
    assert RecordAll(map[], ADDITIONS) == SYNCED.coll.items;
    assert MailRound(map[], live, 2, SYNCED.coll.items, ADDITIONS, false);
    assert ReceiveAll(LocalAll(ARRIVED.view, []), ADDITIONS) == SYNCED.view;
  }

  lemma LateEditCommands()
    ensures DeviceBatch(EXPUNGED.view, [LATE_EDIT])
    ensures LocalAll(EXPUNGED.view, [LATE_EDIT]) == map["1" := false, "2" := true]
    ensures var st := State([], EXPUNGED.coll.items); ApplyAll(st, [LATE_EDIT]) == st
  {
    assert [LATE_EDIT][..0] == [];
    assert LocalAll(EXPUNGED.view, []) == EXPUNGED.view;
    assert DeviceBatch(EXPUNGED.view, []) && DeviceCommand(EXPUNGED.view, LATE_EDIT);
  }

  lemma FirstDeletionOnly(items: Items)
    requires items == map["1" := 0, "2" := 0]
    ensures MailRound(items, [], 1, map["2" := 0], [DELETIONS[0]], true)
  {
    TwoGone(items);
    assert DELETIONS[..Taken(DELETIONS, 1)] == [DELETIONS[0]];
    OnlyOne(items, map[], DELETIONS[0]);
    assert Record(items, DELETIONS[0]) == map["2" := 0];
  }

  lemma LateRound()
    ensures MailRound(EXPUNGED.coll.items, Listing([]), 1, EDITED.coll.items, [DELETIONS[0]], true)
    ensures ReceiveAll(map["1" := false, "2" := true], [DELETIONS[0]]) == EDITED.view
  {
    FirstDeletionOnly(EXPUNGED.coll.items);
    assert Listing([]) == [];
    OnlyOne(map[], map["1" := false, "2" := true], DELETIONS[0]);
  }

  lemma OnlyOne(items: Items, view: View, c: Change)
    ensures RecordAll(items, [c]) == Record(items, c) && ReceiveAll(view, [c]) == Receive(view, c)
  {
    assert [c][..0] == [];
    assert RecordAll(items, []) == items && ReceiveAll(view, []) == view;
  }

  lemma LateSync()
    ensures RoundRequest(EXPUNGED, EDITED, [LATE_EDIT], 1, Delivered, [DELETIONS[0]], true)
  {
    LateEditCommands();
    LateRound();
  }

  lemma FirstSteps()
    ensures Init(FRESH) && Replica.Step(FRESH, PRIMED) && Replica.Step(PRIMED, ARRIVED) &&
            Replica.Step(SYNCED, EXPUNGED)
  {
    assert SyncRequest(FRESH, PRIMED, "0", Delivered);
  }

  lemma SyncSteps()
    ensures Replica.Step(ARRIVED, SYNCED) && Replica.Step(EXPUNGED, EDITED)
  {
    FirstSync();
    assert SyncRequest(ARRIVED, SYNCED, "1", Delivered);
    LateSync();
    assert SyncRequest(EXPUNGED, EDITED, "2", Delivered);
  }

  lemma ChainOfSix(a: World, b: World, c: World, d: World, e: World, f: World)
    requires Init(a) && Replica.Step(a, b) && Replica.Step(b, c) && Replica.Step(c, d) && Replica.Step(d, e)
             && Replica.Step(e, f)
    ensures Replica.Run([a, b, c, d, e, f])
  {
    assert [a] + [b] + [c] + [d] + [e] + [f] == [a, b, c, d, e, f];
  }

  const LOSING_RUN := [FRESH, PRIMED, ARRIVED, SYNCED, EXPUNGED, EDITED]

  /** A run from a fresh mailbox after which both sides hold the same key and different read states. */
  lemma ExactAgreementCanFail()
    ensures Replica.Run(LOSING_RUN)
    ensures var w := LOSING_RUN[5]; w.key != "0" && w.key == w.coll.syncKey && w.view != Projection(w.coll.items)
  {
    FirstSteps();
    SyncSteps();
    ChainOfSix(FRESH, PRIMED, ARRIVED, SYNCED, EXPUNGED, EDITED);
    assert EDITED.view["2"] != Projection(EDITED.coll.items)["2"];
  }

  // ---------- a Change without Read ----------

  lemma RoundSkipsSettled(items: Items, live: seq<Entry>, w: nat, items': Items, sent: seq<Change>, more: bool,
                          s: string)
    requires Distinct(live) && MailRound(items, live, w, items', sent, more) && Settled(items, live, s)
    ensures s !in ChangeSids(sent) && SameItem(items, items', s) && Settled(items', live, s)
  {
    var out :| IsDiff(items, live, out) && sent == out[..Taken(out, w)] && items' == RecordAll(items, sent);
    PendingIffUnsettled(items, live, out, s);
    assert s !in ChangeSids(sent);
    forall i | 0 <= i < |sent| ensures sent[i].sid != s {
      assert sent[i] in sent;
    }
    RecordAllOutside(items, sent, s);
  }

  /** No round of a drain sends a settled item. */
  lemma {:induction false} DrainSkipsSettled(d: Drain, live: seq<Entry>, n: nat, s: string)
    requires Distinct(live) && MailDrain(d, live) && n <= |d.ws| && Settled(d.snaps[0], live, s)
    ensures Settled(d.snaps[n], live, s) && SameItem(d.snaps[0], d.snaps[n], s)
    ensures s !in ChangeSids(Concat(d.sent[..n]))
  {
    if n > 0 {
      DrainSkipsSettled(d, live, n - 1, s);
      assert MailRoundAt(d, live, n - 1);
      RoundSkipsSettled(d.snaps[n - 1], live, d.ws[n - 1], d.snaps[n], d.sent[n - 1], d.more[n - 1], s);
      assert d.sent[..n][..n - 1] == d.sent[..n - 1];
      assert Concat(d.sent[..n]) == Concat(d.sent[..n - 1]) + d.sent[n - 1];
    }
  }

  lemma {:induction false} ReceivedElsewhere(view: View, cs: seq<Change>, s: string)
    requires s !in ChangeSids(cs)
    ensures SameAt(view, ReceiveAll(view, cs), s)
  {
    if cs != [] {
      assert cs[|cs| - 1] in cs;
      assert ChangeSids(cs[..|cs| - 1]) <= ChangeSids(cs);
      ReceivedElsewhere(view, cs[..|cs| - 1], s);
    }
  }

  /**
   Why a device's Change must carry Read: one that does not folds the folder's own read
   state into the snapshot and settles the item, so no round on the folder as it then is
   ever sends it. However long the device goes on syncing, its copy agrees with the
   snapshot, and with the folder, exactly when it did already before the Change.
   */
  lemma ChangeWithoutReadAgreesIff(st: State, view: View, cmd: Command, d: Drain, n: nat)
    requires ValidFolder(st.folder) && cmd.ChangeCmd? && cmd.data.Some? && cmd.data.value != "0" &&
             cmd.data.value != "1"
    requires Succeeds(st.folder, cmd) && IssuedSpelling(cmd.sid) && cmd.sid in view
    requires MailDrain(d, Listing(Apply(st, cmd).folder)) && d.snaps[0] == Apply(st, cmd).items && n <= |d.ws|
    ensures cmd.sid !in ChangeSids(Concat(d.sent[..n]))
    ensures var copy := ReceiveAll(Local(view, cmd), Concat(d.sent[..n]));
            && cmd.sid in copy && copy[cmd.sid] == view[cmd.sid]
            && (Agree(copy, d.snaps[n], cmd.sid) <==> view[cmd.sid] == Seen(st.folder[Target(st.folder, cmd)].flags))
  {
    var st' := Apply(st, cmd);
    ApplyValid(st, cmd);
    ListingDistinct(st'.folder);
    ChangeSettles(st, cmd);
    DrainSkipsSettled(d, Listing(st'.folder), n, cmd.sid);
    ReceivedElsewhere(Local(view, cmd), Concat(d.sent[..n]), cmd.sid);
  }
}
