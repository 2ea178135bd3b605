/**
 A device that keeps syncing an object folder catches up on everything its class can
 render: from every state a run can reach, on a store that stays as it is, with answers
 that arrive and windows wider than the number of items withheld.
 */
module ObjectConvergence {
  import opened Strconv
  import opened Snapshot
  import opened SyncState
  import opened Rounds
  import opened Objects
  import opened ObjectEcho
  import opened Additions
  import opened ObjectReplica
  import Convergence
  import Replica

  // ---------- what is due ----------

  /** The pending changes the renderer turns away. */
  function Held(render: Renderer, items: Items, live: seq<Entry>): seq<Change> {
    Withheld(render, LiveChanges(items, live))
  }

  lemma {:induction false} RemovalsEmitted(render: Renderer, cs: seq<Change>)
    requires forall i :: 0 <= i < |cs| ==> cs[i].kind == Removed
    ensures Withheld(render, cs) == []
  {
    if cs != [] {
      RemovalsEmitted(render, cs[1..]);
    }
  }

  /** Whichever way deletions tie, a diff withholds the same changes. */
  lemma HeldOfDiff(render: Renderer, items: Items, live: seq<Entry>, out: seq<Change>)
    requires IsDiff(items, live, out)
    ensures Withheld(render, out) == Held(render, items, live)
  {
    var gone :| IsRemovalOrder(items, live, gone) && out == LiveChanges(items, live) + Removals(gone);
    RemovalsSids(gone);
    RemovalsEmitted(render, Removals(gone));
    WithheldConcat(render, LiveChanges(items, live), Removals(gone));
  }

  /** How many pending changes can be sent. */
  function Due(render: Renderer, items: Items, live: seq<Entry>): nat {
    |Emitted(render, LiveChanges(items, live))| + |Vanished(items, live)|
  }

  lemma {:induction false} EmittedOrWithheld(render: Renderer, cs: seq<Change>)
    ensures |Emitted(render, cs)| + |Withheld(render, cs)| == |cs|
    ensures Withheld(render, cs) == cs <==> |Emitted(render, cs)| == 0
  {
    if cs != [] {
      EmittedOrWithheld(render, cs[1..]);
      assert cs == [cs[0]] + cs[1..];
    }
  }

  lemma DueOfDiff(render: Renderer, items: Items, live: seq<Entry>, out: seq<Change>)
    requires IsDiff(items, live, out)
    ensures Due(render, items, live) + |Withheld(render, out)| == |out|
    ensures Due(render, items, live) == 0 <==> Withheld(render, out) == out
  {
    HeldOfDiff(render, items, live, out);
    DiffLength(items, live, out);
    EmittedOrWithheld(render, LiveChanges(items, live));
    EmittedOrWithheld(render, out);
  }

  /** A round with a wide window sends something that is due, and leaves the withheld changes as they are. */
  lemma RoundDue(render: Renderer, items: Items, live: seq<Entry>, w: nat, items': Items, sent: seq<Change>, more: bool)
    requires Distinct(live) && ObjectRound(render, items, live, w, items', sent, more)
    requires |Held(render, items, live)| < w && Due(render, items, live) > 0
    ensures Due(render, items', live) < Due(render, items, live)
  {
    var out :| IsDiff(items, live, out) && sent == Emitted(render, out[..Taken(out, w)]) &&
               items' == RecordAll(items, sent);
    ObjectResidual(render, items, live, out, w);
    DueOfDiff(render, items, live, out);
    HeldOfDiff(render, items, live, out);
    DueOfDiff(render, items', live, Residual(render, out, w));
    WideRound(render, out, w);
  }

  /** Nothing due: every item but the withheld ones is settled. */
  lemma NothingDue(render: Renderer, items: Items, live: seq<Entry>, s: string)
    requires Distinct(live) && Due(render, items, live) == 0 && s !in ChangeSids(Held(render, items, live))
    ensures Settled(items, live, s)
  {
    var out := DiffExists(items, live);
    DueOfDiff(render, items, live, out);
    HeldOfDiff(render, items, live, out);
    PendingIffUnsettled(items, live, out, s);
  }

  // ---------- a conversation ----------

  function Live(w: World, folder: int): seq<Entry> {
    Listing(w.store.rows, folder)
  }

  /** A delivered command-free round whose window is wider than what the renderer turns away. */
  ghost predicate QuietRound(w: World, w': World, folder: int, render: Renderer, window: nat, sent: seq<Change>,
                             more: bool) {
    && |Held(render, w.coll.items, Live(w, folder))| < window
    && ObjectRound(render, w.coll.items, Live(w, folder), window, w'.coll.items, sent, more)
    && w'.coll.syncKey == w'.key == NextSyncKey(w.coll.syncKey) && w'.view == ReceiveAll(w.view, sent, w.store.rows)
    && w' == w.(coll := w'.coll, key := w'.key, view := w'.view)
  }

  ghost predicate QuietStep(w: World, w': World, folder: int, render: Renderer) {
    match GateOf(w.coll, w.key)
    case Primed => PrimeRequest(w, w', Replica.Delivered)
    case Refused => RefusedRequest(w, w', Replica.Delivered)
    case Current => exists window, sent, more :: QuietRound(w, w', folder, render, window, sent, more)
  }

  ghost predicate QuietRun(ws: seq<World>, folder: int, render: Renderer) {
    |ws| > 0 && forall i :: 0 <= i < |ws| - 1 ==> QuietStep(ws[i], ws[i + 1], folder, render)
  }

  /** The device holds every item of the folder but the withheld ones, if `exact` with its properties, and no other. */
  ghost predicate HoldsRest(w: World, folder: int, render: Renderer, exact: bool) {
    forall s :: s !in ChangeSids(Held(render, w.coll.items, Live(w, folder))) ==>
                  Presence(w.view, w.store.rows, folder, s) &&
                  (exact && s in w.view ==> Matches(w.view, w.store.rows, s))
  }

  lemma QuietIsRound(w: World, w': World, folder: int, exact: bool, render: Renderer, window: nat, sent: seq<Change>,
                     more: bool)
    requires QuietRound(w, w', folder, render, window, sent, more)
    ensures RoundRequest(w, w', folder, exact, [], window, render, Replica.Delivered, sent, more)
  {
    EmptyBatch(w.store, w.coll.items, folder);
    NoCommandsAllowed(w, folder, exact);
  }

  lemma NoCommandsAllowed(w: World, folder: int, exact: bool)
    ensures var st0 := State(w.store, w.coll.items, {}, []);
            && ProperBatch(st0, folder, []) && CoversAll(w.view, st0, folder, []) && DeviceBatch(w.view.Keys, [])
            && DistinctClients([]) && CreatedBy([]) == {} && LearnAll(w.view, [], []) == w.view
  {
  }

  lemma QuietIsStep(w: World, w': World, folder: int, exact: bool, render: Renderer)
    requires QuietStep(w, w', folder, render)
    ensures ObjectReplica.Step(w, w', folder, exact)
  {
    if GateOf(w.coll, w.key) == Current {
      var window, sent, more :| QuietRound(w, w', folder, render, window, sent, more);
      QuietIsRound(w, w', folder, exact, render, window, sent, more);
    }
    assert ObjectReplica.SyncRequest(w, w', folder, exact, w.key, Replica.Delivered);
  }

  // ---------- how many requests ----------

  function Left(w: World, folder: int, render: Renderer): nat {
    Due(render, w.coll.items, Live(w, folder))
  }

  function Whole(w: World, folder: int, render: Renderer): nat {
    Due(render, map[], Live(w, folder))
  }

  /**
   At most one refusal, one prime, and one round for each change that is due; a counter
   about to wrap costs a prime.
   */
  ghost function Requests(w: World, folder: int, render: Renderer): int {
    match GateOf(w.coll, w.key)
    case Refused => 2 + Whole(w, folder, render)
    case Primed => 1 + Whole(w, folder, render)
    case Current => Convergence.RoundsLeft(KeyNumber(w.key), Left(w, folder, render), Whole(w, folder, render))
  }

  lemma {:induction false} ListingAtMost(rows: seq<Row>, folder: int)
    ensures |Listing(rows, folder)| <= |rows|
  {
    if rows != [] {
      ListingAtMost(rows[..|rows| - 1], folder);
    }
  }

  lemma WholeBound(w: World, folder: int, render: Renderer)
    ensures Whole(w, folder, render) <= |w.store.rows|
  {
    EmittedOrWithheld(render, LiveChanges(map[], Live(w, folder)));
    Convergence.LiveChangesAtMost(map[], Live(w, folder));
    ListingAtMost(w.store.rows, folder);
  }

  lemma RequestsNatural(w: World, folder: int, render: Renderer)
    requires KeysSafe(w)
    ensures Requests(w, folder, render) >= 0
  {
    if IssuedKey(w.key) {
      NextOfIssued(w.key);
    }
  }

  lemma RoundShortens(w: World, w': World, folder: int, render: Renderer)
    requires IssuedKey(w.key) && GateOf(w.coll, w.key) == Current && w'.store == w.store
    requires w'.coll.syncKey == w'.key == NextSyncKey(w.key)
    requires Left(w', folder, render) < Left(w, folder, render)
    ensures 0 <= Requests(w', folder, render) < Requests(w, folder, render)
  {
    NextOfIssued(w.key);
    KeyOne(w'.key);
    Convergence.FewerRoundsLeft(KeyNumber(w.key), Left(w, folder, render), Left(w', folder, render),
                                Whole(w, folder, render));
  }

  lemma PrimeShortens(w: World, w': World, folder: int, render: Renderer)
    requires |w.store.rows| < TWO_63 && GateOf(w.coll, w.key) == Primed && PrimeRequest(w, w', Replica.Delivered)
    ensures w'.store == w.store && 0 <= Requests(w', folder, render) < Requests(w, folder, render)
  {
    WholeBound(w, folder, render);
    NextSyncKeyOf(1);
    assert FormatUint(1) == "1";
    assert GateOf(w'.coll, w'.key) == Current;
  }

  lemma NothingLeft(w: World, folder: int, render: Renderer, exact: bool)
    requires Safe(w, folder, exact) && GateOf(w.coll, w.key) == Current && Left(w, folder, render) == 0
    ensures HoldsRest(w, folder, render, exact)
  {
    ListingDistinct(w.store.rows, folder);
    forall s | s !in ChangeSids(Held(render, w.coll.items, Live(w, folder)))
      ensures Presence(w.view, w.store.rows, folder, s) && (exact && s in w.view ==> Matches(w.view, w.store.rows, s))
    {
      NothingDue(render, w.coll.items, Live(w, folder), s);
      assert TrackedAt(w.view, w.coll.items, w.store.rows, folder, exact, s);
    }
  }

  lemma LeftToSend(w: World, folder: int, render: Renderer, exact: bool)
    requires Safe(w, folder, exact) && GateOf(w.coll, w.key) == Current && !HoldsRest(w, folder, render, exact)
    ensures Left(w, folder, render) > 0
  {
    if Left(w, folder, render) == 0 {
      NothingLeft(w, folder, render, exact);
    }
  }

  lemma StepShortens(w: World, w': World, folder: int, render: Renderer, exact: bool)
    requires Safe(w, folder, exact) && |w.store.rows| < TWO_63
    requires QuietStep(w, w', folder, render) && !HoldsRest(w, folder, render, exact)
    ensures w'.store == w.store && 0 <= Requests(w', folder, render) < Requests(w, folder, render)
  {
    match GateOf(w.coll, w.key) {
      case Primed => PrimeShortens(w, w', folder, render);
      case Refused => assert GateOf(w'.coll, w'.key) == Primed;
      case Current =>
        var window, sent, more :| QuietRound(w, w', folder, render, window, sent, more);
        LeftToSend(w, folder, render, exact);
        ListingDistinct(w.store.rows, folder);
        RoundDue(render, w.coll.items, Live(w, folder), window, w'.coll.items, sent, more);
        RoundShortens(w, w', folder, render);
    }
  }

  /** The conversation has caught up by its n-th state. */
  ghost predicate CaughtUpAt(ws: seq<World>, folder: int, render: Renderer, exact: bool, n: nat) {
    n < |ws| && n <= Requests(ws[0], folder, render) && ws[n].store == ws[0].store &&
    HoldsRest(ws[n], folder, render, exact)
  }

  lemma {:induction false} QuietRunHolds(ws: seq<World>, folder: int, render: Renderer, exact: bool) returns (n: nat)
    requires QuietRun(ws, folder, render) && Safe(ws[0], folder, exact) && |ws[0].store.rows| < TWO_63
    requires Requests(ws[0], folder, render) < |ws|
    ensures CaughtUpAt(ws, folder, render, exact, n)
  {
    RequestsNatural(ws[0], folder, render);
    n := 0;
    if !HoldsRest(ws[0], folder, render, exact) {
      MoreThanOne(ws, folder, render, exact);
      var rest := ws[1..];
      assert QuietStep(ws[0], ws[1], folder, render);
      StepShortens(ws[0], ws[1], folder, render, exact);
      QuietIsStep(ws[0], ws[1], folder, exact, render);
      StepSafe(ws[0], ws[1], folder, exact);
      QuietTail(ws, folder, render);
      var k := QuietRunHolds(rest, folder, render, exact);
      n := k + 1;
      assert ws[n] == rest[k];
    }
  }

  lemma QuietTail(ws: seq<World>, folder: int, render: Renderer)
    requires QuietRun(ws, folder, render) && |ws| > 1
    ensures QuietRun(ws[1..], folder, render)
  {
    forall i | 0 <= i < |ws[1..]| - 1 ensures QuietStep(ws[1..][i], ws[1..][i + 1], folder, render) {
      assert QuietStep(ws[i + 1], ws[i + 2], folder, render);
    }
  }

  lemma MoreThanOne(ws: seq<World>, folder: int, render: Renderer, exact: bool)
    requires |ws| > 0 && Safe(ws[0], folder, exact) && Requests(ws[0], folder, render) < |ws|
    requires !HoldsRest(ws[0], folder, render, exact)
    ensures |ws| > 1
  {
    if GateOf(ws[0].coll, ws[0].key) == Current {
      LeftToSend(ws[0], folder, render, exact);
      NextOfIssued(ws[0].key);
    }
  }

  /**
   A device that keeps syncing an object folder ends up holding every item but the withheld
   ones: from every state a run reaches, every such conversation gets there after at most
   one refusal, one prime and one round for each change that is due. After an exact run it
   holds their properties too.
   */
  lemma CatchesUp(run: seq<World>, ws: seq<World>, folder: int, render: Renderer, exact: bool) returns (n: nat)
    requires ObjectReplica.Run(run, folder, exact) && QuietRun(ws, folder, render) && ws[0] == run[|run| - 1]
    requires |ws[0].store.rows| < TWO_63 && Requests(ws[0], folder, render) < |ws|
    ensures CaughtUpAt(ws, folder, render, exact, n)
  {
    RunSafe(run, folder, exact, |run| - 1);
    n := QuietRunHolds(ws, folder, render, exact);
  }
}
