/**
 A device that keeps syncing catches up: from every state a run can reach, on a mailbox
 that stays as it is and with answers that arrive, a bounded number of requests leaves the
 device holding the folder.
 */
module Convergence {
  import opened Strconv
  import opened Snapshot
  import opened SyncState
  import opened Mail
  import opened Rounds
  import opened Replica

  /** A delivered command-free request with the device's own key. */
  ghost predicate QuietStep(w: World, w': World) {
    match GateOf(w.coll, w.key)
    case Primed => PrimeRequest(w, w', Delivered)
    case Refused => RefusedRequest(w, w', Delivered)
    case Current => exists window, sent, more :: QuietRound(w, w', window, sent, more)
  }

  ghost predicate QuietRound(w: World, w': World, window: nat, sent: seq<Change>, more: bool) {
    && window >= 1 && MailRound(w.coll.items, Listing(w.folder), window, w'.coll.items, sent, more)
    && w'.coll.syncKey == w'.key == NextSyncKey(w.coll.syncKey) && w'.view == ReceiveAll(w.view, sent)
    && w' == w.(coll := w'.coll, key := w'.key, view := w'.view)
  }

  ghost predicate QuietRun(ws: seq<World>) {
    |ws| > 0 && forall i :: 0 <= i < |ws| - 1 ==> QuietStep(ws[i], ws[i + 1])
  }

  /** The device holds exactly the messages of the folder, each with its read state, and the snapshot says so. */
  ghost predicate HoldsFolder(w: World) {
    w.coll.items == AsItems(Listing(w.folder)) && w.view == Projection(w.coll.items)
  }

  lemma QuietIsRound(w: World, w': World, window: nat, sent: seq<Change>, more: bool)
    requires QuietRound(w, w', window, sent, more)
    ensures RoundRequest(w, w', [], window, Delivered, sent, more)
  {
    assert ApplyAll(State(w.folder, w.coll.items), []) == State(w.folder, w.coll.items);
    assert LocalAll(w.view, []) == w.view && DeviceBatch(w.view, []);
  }

  lemma QuietIsStep(w: World, w': World)
    requires QuietStep(w, w')
    ensures Replica.Step(w, w')
  {
    if GateOf(w.coll, w.key) == Current {
      var window, sent, more :| QuietRound(w, w', window, sent, more);
      QuietIsRound(w, w', window, sent, more);
    }
    assert SyncRequest(w, w', w.key, Delivered);
  }

  // ---------- how many requests ----------

  /** Changes pending for a device that holds nothing. */
  function Whole(w: World): nat {
    DiffCount(map[], Listing(w.folder))
  }

  function Left(w: World): nat {
    DiffCount(w.coll.items, Listing(w.folder))
  }

  /**
   How many requests it takes at most: one per pending change under a current key, one
   more to prime, and one more to be refused first. A counter about to wrap costs a prime
   as well.
   */
  ghost function Requests(w: World): int {
    match GateOf(w.coll, w.key)
    case Refused => 2 + Whole(w)
    case Primed => 1 + Whole(w)
    case Current => RoundsLeft(KeyNumber(w.key), Left(w), Whole(w))
  }

  function RoundsLeft(key: nat, left: nat, whole: nat): int {
    if key + left < TWO_64 then left else TWO_64 - key + 1 + whole
  }

  lemma FewerRoundsLeft(key: nat, left: nat, left': nat, whole: nat)
    requires key < TWO_64 && left' < left
    ensures key + 1 < TWO_64 ==> RoundsLeft(key + 1, left', whole) < RoundsLeft(key, left, whole)
    ensures key + 1 == TWO_64 ==> 1 + whole < RoundsLeft(key, left, whole)
  {
  }

  lemma {:induction false} LiveChangesAtMost(items: Items, live: seq<Entry>)
    ensures |LiveChanges(items, live)| <= |live|
  {
    if live != [] {
      LiveChangesAtMost(items, live[..|live| - 1]);
    }
  }

  lemma {:induction false} UidsGrow(f: seq<Message>, i: nat)
    requires ValidFolder(f) && i < |f|
    ensures i <= f[i].uid
  {
    if i > 0 {
      UidsGrow(f, i - 1);
    }
  }

  lemma WholeBound(w: World)
    requires ValidFolder(w.folder)
    ensures Whole(w) <= TWO_32
  {
    LiveChangesAtMost(map[], Listing(w.folder));
    if w.folder != [] {
      UidsGrow(w.folder, |w.folder| - 1);
    }
  }

  // ---------- one request ----------

  lemma QuietRoundCounts(w: World, w': World, window: nat, sent: seq<Change>, more: bool)
    requires ValidFolder(w.folder) && QuietRound(w, w', window, sent, more)
    ensures w'.folder == w.folder && w'.coll.syncKey == w'.key == NextSyncKey(w.coll.syncKey)
    ensures Left(w') == if Left(w) > window then Left(w) - window else 0
  {
    ListingDistinct(w.folder);
    MailRoundCounts(w.coll.items, Listing(w.folder), window, w'.coll.items, sent, more);
  }

  lemma NextRequest(w: World, w': World)
    requires IssuedKey(w.key) && w'.coll.syncKey == w'.key == NextSyncKey(w.key)
    ensures KeyNumber(w.key) < TWO_64
    ensures if KeyNumber(w.key) + 1 == TWO_64 then GateOf(w'.coll, w'.key) == Primed
            else GateOf(w'.coll, w'.key) == Current && KeyNumber(w'.key) == KeyNumber(w.key) + 1
  {
    NextOfIssued(w.key);
    KeyOne(w'.key);
  }

  lemma RoundShortens(w: World, w': World)
    requires IssuedKey(w.key) && GateOf(w.coll, w.key) == Current && w'.folder == w.folder
    requires w'.coll.syncKey == w'.key == NextSyncKey(w.key) && Left(w') < Left(w)
    ensures 0 <= Requests(w') < Requests(w)
  {
    NextRequest(w, w');
    FewerRoundsLeft(KeyNumber(w.key), Left(w), Left(w'), Whole(w));
  }

  /** Under a current key with nothing pending the device holds the folder. */
  lemma NothingLeft(w: World)
    requires Safe(w) && GateOf(w.coll, w.key) == Current && Left(w) == 0
    ensures HoldsFolder(w)
  {
    var live := Listing(w.folder);
    ListingDistinct(w.folder);
    NothingPendingIffAgree(w.coll.items, live);
    AsItemsKeys(live);
    assert Vanished(w.coll.items, live) == {};
    AgreeEverywhere(w.view, w.coll.items);
  }

  lemma PrimeShortens(w: World, w': World)
    requires ValidFolder(w.folder) && GateOf(w.coll, w.key) == Primed && PrimeRequest(w, w', Delivered)
    ensures w'.folder == w.folder && 0 <= Requests(w') < Requests(w)
  {
    WholeBound(w);
    assert GateOf(w'.coll, w'.key) == Current;
  }

  lemma StepShortens(w: World, w': World)
    requires Safe(w) && QuietStep(w, w') && !HoldsFolder(w)
    ensures w'.folder == w.folder && 0 <= Requests(w') < Requests(w)
  {
    match GateOf(w.coll, w.key) {
      case Primed => PrimeShortens(w, w');
      case Refused => assert GateOf(w'.coll, w'.key) == Primed;
      case Current =>
        var window, sent, more :| QuietRound(w, w', window, sent, more);
        LeftToSend(w);
        QuietRoundCounts(w, w', window, sent, more);
        RoundShortens(w, w');
    }
  }

  lemma LeftToSend(w: World)
    requires Safe(w) && GateOf(w.coll, w.key) == Current && !HoldsFolder(w)
    ensures Left(w) > 0
  {
    if Left(w) == 0 {
      NothingLeft(w);
    }
  }

  // ---------- a conversation ----------

  lemma {:induction false} QuietRunHolds(ws: seq<World>)
    requires QuietRun(ws) && Safe(ws[0]) && Requests(ws[0]) < |ws|
    ensures exists n :: 0 <= n < |ws| && n <= Requests(ws[0]) && ws[n].folder == ws[0].folder && HoldsFolder(ws[n])
  {
    if HoldsFolder(ws[0]) {
      assert ws[0].folder == ws[0].folder;
    } else {
      if |ws| == 1 {
        assert Requests(ws[0]) == 0;
        NothingLeft(ws[0]);
      }
      var rest := ws[1..];
      assert QuietStep(ws[0], ws[1]);
      StepShortens(ws[0], ws[1]);
      QuietIsStep(ws[0], ws[1]);
      StepSafe(ws[0], ws[1]);
      assert QuietRun(rest) by {
        forall i | 0 <= i < |rest| - 1 ensures QuietStep(rest[i], rest[i + 1]) {
          assert QuietStep(ws[i + 1], ws[i + 2]);
        }
      }
      QuietRunHolds(rest);
      var n :| 0 <= n < |rest| && n <= Requests(rest[0]) && rest[n].folder == rest[0].folder && HoldsFolder(rest[n]);
      assert ws[n + 1] == rest[n];
    }
  }

  /**
   A device that keeps syncing ends up holding the folder: from every state a run reaches,
   every conversation of delivered requests on an unchanged mailbox has the device hold the
   folder after at most one refusal, one prime and one round for each pending change.
   */
  lemma CatchesUp(run: seq<World>, ws: seq<World>)
    requires Replica.Run(run) && QuietRun(ws) && ws[0] == run[|run| - 1] && Requests(ws[0]) < |ws|
    ensures exists n :: 0 <= n < |ws| && n <= Requests(ws[0]) && ws[n].folder == ws[0].folder && HoldsFolder(ws[n])
  {
    RunSafe(run, |run| - 1);
    QuietRunHolds(ws);
  }

  /** Once it does, every further round leaves it so. */
  lemma StaysCaughtUp(w: World, w': World)
    requires Safe(w) && HoldsFolder(w) && GateOf(w.coll, w.key) == Current && QuietStep(w, w')
    ensures HoldsFolder(w') && w'.folder == w.folder && w'.view == w.view
  {
    var window, sent, more :| QuietRound(w, w', window, sent, more);
    ListingDistinct(w.folder);
    NothingPendingIffAgree(w.coll.items, Listing(w.folder));
    QuietRoundCounts(w, w', window, sent, more);
    MailRoundCounts(w.coll.items, Listing(w.folder), window, w'.coll.items, sent, more);
    NothingPendingIffAgree(w'.coll.items, Listing(w.folder));
    assert sent == [];
  }

  lemma QuietRoundExists(w: World) returns (w': World)
    ensures exists window, sent, more :: QuietRound(w, w', window, sent, more)
  {
    var items', sent, more := MailRoundExists(w.coll.items, Listing(w.folder), 1);
    var key' := NextSyncKey(w.coll.syncKey);
    w' := w.(coll := Coll(key', items'), key := key', view := ReceiveAll(w.view, sent));
    assert QuietRound(w, w', 1, sent, more);
  }

  /** The server always has an answer. */
  lemma QuietStepExists(w: World) returns (w': World)
    ensures QuietStep(w, w')
  {
    match GateOf(w.coll, w.key)
    case Primed => w' := w.(coll := Coll("1", map[]), key := "1", view := map[]);
    case Refused => w' := w.(key := "0");
    case Current => w' := QuietRoundExists(w);
  }

  lemma {:induction false} QuietRunExists(w: World, n: nat) returns (ws: seq<World>)
    ensures QuietRun(ws) && ws[0] == w && |ws| == n + 1
  {
    ws := [w];
    if n > 0 {
      var init := QuietRunExists(w, n - 1);
      var next := QuietStepExists(init[n - 1]);
      ws := init + [next];
      forall i | 0 <= i < |ws| - 1 ensures QuietStep(ws[i], ws[i + 1]) {
        if i < n - 1 {
          assert QuietStep(init[i], init[i + 1]);
        }
      }
    }
  }

  /** So every reachable state leads to one in which the device holds the folder. */
  lemma CanCatchUp(run: seq<World>) returns (ws: seq<World>, n: nat)
    requires Replica.Run(run)
    ensures QuietRun(ws) && ws[0] == run[|run| - 1] && n < |ws| && n <= Requests(ws[0])
    ensures ws[n].folder == ws[0].folder && HoldsFolder(ws[n])
  {
    var w := run[|run| - 1];
    RunSafe(run, |run| - 1);
    ws := QuietRunExists(w, Requests(w));
    CatchesUp(run, ws);
    n :| 0 <= n < |ws| && n <= Requests(ws[0]) && ws[n].folder == ws[0].folder && HoldsFolder(ws[n]);
  }
}
