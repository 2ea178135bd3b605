/**
 The readers of a device's snapshots that decide whether there is anything to sync
 (the hanging Sync, GetItemEstimate, Ping) and the Sync handler, which loads the
 saved state, may hold, and saves once at the end.
 */
module Server {
  import opened Strconv
  import opened Snapshot
  import opened SyncState
  import opened Rounds
  import opened Engine
  import Additions
  import Mail
  import Objects
  import ObjectEcho
  import ObjectReplica
  import Replica

  /** A device's collections as saved; one never synced reads as empty. */
  type Collections = map<string, Coll>

  function CollOf(colls: Collections, id: string): Coll {
    if id in colls then colls[id] else NEVER_SYNCED
  }

  /** What a Sync of the folder diffs its snapshot against. */
  function LiveOf(m: Contents, fid: int): seq<Entry> {
    if IsObjectFolder(fid) then Objects.Listing(m.objects.rows, fid) else Mail.Listing(m.Folder(fid))
  }

  // ---------- counting without collecting ----------

  /** objectsDiffer agrees with the diff. */
  method ObjectsDiffer(snap: Items, objs: seq<Entry>) returns (differ: bool)
    ensures differ <==> DiffCount(snap, objs) > 0
  {
    var live := {};
    for i := 0 to |objs|
      invariant live == Sids(objs[..i]) && LiveChanges(snap, objs[..i]) == []
    {
      ScanStep(snap, objs, i);
      live := live + {objs[i].sid};
      if objs[i].sid !in snap || snap[objs[i].sid] != objs[i].version {
        LiveChangesContains(snap, objs, i);
        assert Pending(snap, objs[i])[0] in LiveChanges(snap, objs);
        return true;
      }
    }
    assert objs[..|objs|] == objs;
    var rest := snap.Keys;
    while rest != {}
      invariant rest <= snap.Keys && Vanished(snap, objs) <= rest
    {
      var sid :| sid in rest;
      rest := rest - {sid};
      if sid !in live {
        assert sid in Vanished(snap, objs);
        return true;
      }
    }
    differ := false;
  }

  /** objectChangeCount is the length of the pending list. */
  method ObjectChangeCount(snap: Items, objs: seq<Entry>) returns (count: nat)
    ensures count == DiffCount(snap, objs)
  {
    var changed, live := CountChanged(snap, objs);
    var gone := CountOutside(snap.Keys, live);
    count := changed + gone;
  }

  method CountChanged(snap: Items, objs: seq<Entry>) returns (count: nat, live: set<string>)
    ensures count == |LiveChanges(snap, objs)| && live == Sids(objs)
  {
    count, live := 0, {};
    for i := 0 to |objs|
      invariant live == Sids(objs[..i]) && count == |LiveChanges(snap, objs[..i])|
    {
      ScanStep(snap, objs, i);
      live := live + {objs[i].sid};
      if objs[i].sid !in snap || snap[objs[i].sid] != objs[i].version {
        count := count + 1;
      }
    }
    assert objs[..|objs|] == objs;
  }

  method CountOutside(ids: set<string>, live: set<string>) returns (n: nat)
    ensures n == |ids - live|
  {
    n := 0;
    var rest := ids;
    while rest != {}
      invariant rest <= ids && n + |rest - live| == |ids - live|
    {
      var sid :| sid in rest;
      if sid !in live {
        assert rest - live == ((rest - {sid}) - live) + {sid};
        n := n + 1;
      } else {
        assert rest - live == (rest - {sid}) - live;
      }
      rest := rest - {sid};
    }
    assert rest - live == {};
  }

  /** estimateCollection: None is Status 2, the device must Sync first. */
  method EstimateCollection(mb: Mailbox, colls: Collections, collId: string, key: string)
    returns (estimate: Option<nat>)
    ensures var c, p := CollOf(colls, collId), ParseInt(collId);
            estimate == if p.None? || c.syncKey == "" || key != c.syncKey then None
                        else Some(DiffCount(c.items, LiveOf(mb.Value(), p.value)))
  {
    var c, p := CollOf(colls, collId), ParseInt(collId);
    if collId == "" || c.syncKey == "" || key != c.syncKey || p.None? {
      return None;
    }
    if IsObjectFolder(p.value) {
      var n := ObjectChangeCount(c.items, Objects.Listing(mb.objects.rows, p.value));
      return Some(n);
    }
    var live := Mail.Listing(mb.Folder(p.value));
    var out := DiffSnapshot(c.items, live);
    DiffLength(c.items, live, out);
    return Some(|out|);
  }

  // ---------- Ping ----------

  /** Ping diffs every watched folder as mail. */
  predicate PingReports(m: Contents, colls: Collections, collId: string) {
    && collId in colls
    && var p := ParseInt(collId);
       p.Some? && DiffCount(colls[collId].items, Mail.Listing(m.Folder(p.value))) > 0
  }

  /** The watched collections that have changed, in the order they are watched. */
  function Reported(m: Contents, colls: Collections, ids: seq<string>): seq<string> {
    if ids == [] then []
    else
      var init, last := ids[..|ids| - 1], ids[|ids| - 1];
      Reported(m, colls, init) + if PingReports(m, colls, last) then [last] else []
  }

  method PingCheck(mb: Mailbox, colls: Collections, ids: seq<string>) returns (changed: seq<string>)
    ensures changed == Reported(mb.Value(), colls, ids)
  {
    changed := [];
    for i := 0 to |ids|
      invariant changed == Reported(mb.Value(), colls, ids[..i])
    {
      assert ids[..i + 1][..i] == ids[..i];
      var p := ParseInt(ids[i]);
      if ids[i] in colls && p.Some? {
        var live := Mail.Listing(mb.Folder(p.value));
        var out := DiffSnapshot(colls[ids[i]].items, live);
        DiffLength(colls[ids[i]].items, live, out);
        if |out| > 0 {
          changed := changed + [ids[i]];
        }
      }
    }
    assert ids[..|ids|] == ids;
  }

  /** Ping reports a watched collection exactly when its listing as mail differs from its snapshot. */
  lemma {:induction false} ReportedIff(m: Contents, colls: Collections, ids: seq<string>, id: string)
    ensures id in Reported(m, colls, ids) <==> id in ids && PingReports(m, colls, id)
  {
    if ids != [] {
      ReportedIff(m, colls, ids[..|ids| - 1], id);
      assert ids == ids[..|ids| - 1] + [ids[|ids| - 1]];
    }
  }

  /** It reports them in the order they are watched, each as often as it is. */
  lemma {:induction false} ReportedInOrder(m: Contents, colls: Collections, a: seq<string>, id: string, b: seq<string>)
    ensures Reported(m, colls, a + [id] + b) ==
            Reported(m, colls, a) + (if PingReports(m, colls, id) then [id] else []) + Reported(m, colls, b)
  {
    var all := a + [id] + b;
    if b == [] {
      assert all[..|all| - 1] == a;
    } else {
      assert all[..|all| - 1] == a + [id] + b[..|b| - 1] && all[|all| - 1] == b[|b| - 1];
      ReportedInOrder(m, colls, a, id, b[..|b| - 1]);
    }
  }

  /**
   For a mail folder Ping reports exactly when the next command-free Sync with the current
   key has something to send.
   */
  lemma PingAgreesOnMail(m: Contents, colls: Collections, req: CollectionRequest, out: seq<Change>)
    requires ParseInt(req.collId).Some? && !IsObjectFolder(ParseInt(req.collId).value)
    requires req.collId in colls && GateOf(colls[req.collId], req.syncKey) == Current
    requires IsDiff(colls[req.collId].items, LiveOf(m, ParseInt(req.collId).value), out)
    ensures PingReports(m, colls, req.collId) <==> out != []
    ensures PingReports(m, colls, req.collId) <==> WouldCollect(m, colls, req)
  {
    DiffLength(colls[req.collId].items, LiveOf(m, ParseInt(req.collId).value), out);
  }

  /**
   For an object folder Ping compares the snapshot with the folder's rows in the IMAP index,
   of which it has one only for an item that was recovered. So it is right exactly when
   agreement with those rows coincides with agreement with the objects: with no such row it
   never stops reporting a calendar that is in sync, and never reports the first items of one
   that is empty on the device.
   */
  lemma PingOnObjectsIff(m: Contents, colls: Collections, collId: string, out: seq<Change>)
    requires collId in colls && ParseInt(collId).Some? && IsObjectFolder(ParseInt(collId).value)
    requires ValidContents(m) && Objects.ValidRows(m.objects.rows)
    requires IsDiff(colls[collId].items, LiveOf(m, ParseInt(collId).value), out)
    ensures var items, fid := colls[collId].items, ParseInt(collId).value;
            var asMail, asObjects := AsItems(Mail.Listing(m.Folder(fid))), AsItems(LiveOf(m, fid));
            && (PingReports(m, colls, collId) <==> items != asMail)
            && ((PingReports(m, colls, collId) <==> out != []) <==> (items == asMail <==> items == asObjects))
  {
    var items, fid := colls[collId].items, ParseInt(collId).value;
    Mail.ListingDistinct(m.Folder(fid));
    Objects.ListingDistinct(m.objects.rows, fid);
    NothingPendingIffAgree(items, Mail.Listing(m.Folder(fid)));
    NothingPendingIffAgree(items, LiveOf(m, fid));
    DiffLength(items, LiveOf(m, fid), out);
  }

  /** Without index rows Ping reports an object folder exactly when the snapshot holds anything at all. */
  lemma PingWithoutIndex(m: Contents, colls: Collections, collId: string)
    requires collId in colls && ParseInt(collId).Some? && m.Folder(ParseInt(collId).value) == []
    ensures PingReports(m, colls, collId) <==> colls[collId].items != map[]
  {
    var items := colls[collId].items;
    assert Mail.Listing([]) == [] && AsItems([]) == map[];
    NothingPendingIffAgree(items, []);
  }

  // ---------- the hanging Sync ----------

  /** The collection's key is current and its folder has something pending. */
  predicate WouldCollect(m: Contents, colls: Collections, req: CollectionRequest) {
    var p := ParseInt(req.collId);
    && p.Some? && GateOf(CollOf(colls, req.collId), req.syncKey) == Current
    && DiffCount(CollOf(colls, req.collId).items, LiveOf(m, p.value)) > 0
  }

  method CollectionHasChanges(mb: Mailbox, colls: Collections, req: CollectionRequest) returns (b: bool)
    ensures b <==> WouldCollect(mb.Value(), colls, req)
  {
    if req.syncKey == "0" || req.syncKey == "" {
      return false;
    }
    var p, c := ParseInt(req.collId), CollOf(colls, req.collId);
    if p.None? || req.syncKey != c.syncKey {
      return false;
    }
    if IsObjectFolder(p.value) {
      b := ObjectsDiffer(c.items, Objects.Listing(mb.objects.rows, p.value));
    } else {
      var live := Mail.Listing(mb.Folder(p.value));
      var out := DiffSnapshot(c.items, live);
      DiffLength(c.items, live, out);
      b := |out| > 0;
    }
  }

  /** No collection of the request would collect anything. */
  predicate NoneCollects(m: Contents, colls: Collections, reqs: seq<CollectionRequest>) {
    reqs == [] || (NoneCollects(m, colls, reqs[1..]) && !WouldCollect(m, colls, reqs[0]))
  }

  ghost predicate AllIdle(m: Contents, colls: Collections, reqs: seq<CollectionRequest>) {
    forall i :: 0 <= i < |reqs| ==> Idle(m, colls, reqs[i])
  }

  lemma {:induction false} NoneCollectsIff(m: Contents, colls: Collections, reqs: seq<CollectionRequest>)
    ensures NoneCollects(m, colls, reqs) <==> AllIdle(m, colls, reqs)
  {
    if reqs != [] {
      NoneCollectsIff(m, colls, reqs[1..]);
      CollectsIffNotIdle(m, colls, reqs[0]);
    }
  }

  method SyncHasChanges(mb: Mailbox, colls: Collections, reqs: seq<CollectionRequest>) returns (b: bool)
    ensures b <==> !NoneCollects(mb.Value(), colls, reqs)
  {
    for i := 0 to |reqs|
      invariant NoneCollects(mb.Value(), colls, reqs) <==> NoneCollects(mb.Value(), colls, reqs[i..])
    {
      assert reqs[i..][1..] == reqs[i + 1..];
      b := CollectionHasChanges(mb, colls, reqs[i]);
      if b {
        return;
      }
    }
    b := false;
  }

  predicate HasCommands(reqs: seq<CollectionRequest>) {
    exists i :: 0 <= i < |reqs| && reqs[i].hasCommands
  }

  method SyncHasCommands(reqs: seq<CollectionRequest>) returns (b: bool)
    ensures b <==> HasCommands(reqs)
  {
    for i := 0 to |reqs|
      invariant forall j :: 0 <= j < i ==> !reqs[j].hasCommands
    {
      if reqs[i].hasCommands {
        return true;
      }
    }
    b := false;
  }

  /** The request is held: a heartbeat, no commands, and nothing a current-key collection would collect. */
  ghost predicate Held(m: Contents, colls: Collections, reqs: seq<CollectionRequest>, heartbeat: int) {
    heartbeat > 0 && !HasCommands(reqs) && NoneCollects(m, colls, reqs)
  }

  /**
   A collection with nothing to collect: it is a prime, its key is stale, its id is
   unreadable, or its diff is empty.
   */
  ghost predicate Idle(m: Contents, colls: Collections, req: CollectionRequest) {
    var p, c := ParseInt(req.collId), CollOf(colls, req.collId);
    p.None? || req.syncKey == "0" || req.syncKey == "" || req.syncKey != c.syncKey ||
    IsDiff(c.items, LiveOf(m, p.value), [])
  }

  lemma EmptyDiffIff(items: Items, live: seq<Entry>)
    ensures IsDiff(items, live, []) <==> DiffCount(items, live) == 0
  {
    if IsDiff(items, live, []) {
      DiffLength(items, live, []);
    }
    if DiffCount(items, live) == 0 {
      assert IsRemovalOrder(items, live, []);
      assert [] == LiveChanges(items, live) + Removals([]);
    }
  }

  /**
   When a request is held: exactly when it asks to be, and each of its collections carries
   no commands and is idle. So one made of primes and stale keys alone is held, although
   each of them has an answer ready.
   */
  lemma HeldIffNothingToCollect(m: Contents, colls: Collections, reqs: seq<CollectionRequest>, heartbeat: int)
    ensures Held(m, colls, reqs, heartbeat) <==>
            heartbeat > 0 && (forall i :: 0 <= i < |reqs| ==> !reqs[i].hasCommands) && AllIdle(m, colls, reqs)
  {
    NoneCollectsIff(m, colls, reqs);
  }

  lemma CollectsIffNotIdle(m: Contents, colls: Collections, req: CollectionRequest)
    ensures WouldCollect(m, colls, req) <==> !Idle(m, colls, req)
  {
    var p := ParseInt(req.collId);
    if p.Some? {
      EmptyDiffIff(CollOf(colls, req.collId).items, LiveOf(m, p.value));
    }
  }

  // ---------- the handler ----------

  datatype SyncOutcome = Empty | ServerError | Answered(replies: seq<Reply>, becameRead: seq<int>)

  ghost predicate DistinctIds(reqs: seq<CollectionRequest>) {
    forall i, j :: 0 <= i < j < |reqs| ==> reqs[i].collId != reqs[j].collId
  }

  /** The key discipline, from one saved state to the next. */
  ghost predicate Served(colls: Collections, req: CollectionRequest, colls': Collections) {
    ParseInt(req.collId).Some? ==> Serves(CollOf(colls, req.collId), req.syncKey, CollOf(colls', req.collId))
  }

  /** Everything a Sync can change: the mailbox's contents and the device's collections. */
  datatype Stage = Stage(contents: Contents, colls: Collections)

  /** One collection of a request was answered. */
  ghost predicate CollectionStep(s: Stage, req: CollectionRequest, render: Renderer, r: Reply, ids: seq<int>,
                                 s': Stage) {
    && !r.Failed?
    && (forall id :: id != req.collId ==> CollOf(s'.colls, id) == CollOf(s.colls, id))
    && CollectionServed(s.contents, CollOf(s.colls, req.collId), req, render, r, ids,
                        s'.contents, CollOf(s'.colls, req.collId))
  }

  /** The request's collections were answered one after the other, each from where the last one left off. */
  ghost predicate InOrder(stages: seq<Stage>, reqs: seq<CollectionRequest>, render: Renderer, replies: seq<Reply>,
                          nowRead: seq<seq<int>>) {
    && |stages| == |reqs| + 1 && |replies| == |nowRead| == |reqs|
    && forall i :: 0 <= i < |reqs| ==> StepAt(stages, reqs, render, replies, nowRead, i)
  }

  ghost predicate StepAt(stages: seq<Stage>, reqs: seq<CollectionRequest>, render: Renderer, replies: seq<Reply>,
                         nowRead: seq<seq<int>>, i: nat)
    requires i + 1 < |stages| && i < |replies| && i < |nowRead| && i < |reqs|
  {
    CollectionStep(stages[i], reqs[i], render, replies[i], nowRead[i], stages[i + 1])
  }

  lemma OneMoreInOrder(stages: seq<Stage>, reqs: seq<CollectionRequest>, render: Renderer, replies: seq<Reply>,
                       nowRead: seq<seq<int>>, req: CollectionRequest, r: Reply, ids: seq<int>, s': Stage)
    requires InOrder(stages, reqs, render, replies, nowRead)
    requires CollectionStep(stages[|reqs|], req, render, r, ids, s')
    ensures InOrder(stages + [s'], reqs + [req], render, replies + [r], nowRead + [ids])
    ensures Concat(nowRead + [ids]) == Concat(nowRead) + ids
  {
    var stages', reqs', replies', nowRead' := stages + [s'], reqs + [req], replies + [r], nowRead + [ids];
    forall i | 0 <= i < |reqs'| ensures StepAt(stages', reqs', render, replies', nowRead', i) {
      if i < |reqs| {
        assert StepAt(stages, reqs, render, replies, nowRead, i);
      }
    }
    assert nowRead'[..|nowRead|] == nowRead;
  }

  /** A complete answer: the collections in order, from the one stage to the other. */
  ghost predicate Answers(s: Stage, reqs: seq<CollectionRequest>, render: Renderer, replies: seq<Reply>,
                          becameRead: seq<int>, s': Stage) {
    exists stages, nowRead ::
      && InOrder(stages, reqs, render, replies, nowRead)
      && stages[0] == s && stages[|reqs|] == s' && becameRead == Concat(nowRead)
  }

  /** The first check of a hold that finds something to collect, or their number. */
  function FirstFound(checks: seq<Contents>, colls: Collections, reqs: seq<CollectionRequest>): (k: nat)
    ensures k <= |checks| && (k < |checks| ==> !NoneCollects(checks[k], colls, reqs))
    ensures forall i :: 0 <= i < k ==> NoneCollects(checks[i], colls, reqs)
  {
    if checks == [] then 0
    else if !NoneCollects(checks[0], colls, reqs) then 0
    else 1 + FirstFound(checks[1..], colls, reqs)
  }

  /** The mailbox as the last of some checks found it. */
  function AfterChecks(m: Contents, checks: seq<Contents>): Contents {
    if checks == [] then m else checks[|checks| - 1]
  }

  /**
   holdForSync: `checks` are the mailbox as each check of the hold finds it, changed by
   whoever else has written to it since.
   */
  method HoldForSync(mb: Mailbox, colls: Collections, reqs: seq<CollectionRequest>, checks: seq<Contents>)
    returns (found: bool)
    modifies mb
    ensures var k := FirstFound(checks, colls, reqs);
            && found == (k < |checks|)
            && mb.Value() == if found then checks[k] else AfterChecks(old(mb.Value()), checks)
  {
    for i := 0 to |checks|
      invariant mb.Value() == AfterChecks(old(mb.Value()), checks[..i])
      invariant FirstFound(checks, colls, reqs) == i + FirstFound(checks[i..], colls, reqs)
    {
      mb.mail, mb.objects := checks[i].mail, checks[i].objects;
      assert mb.Value() == checks[i] && checks[i..][1..] == checks[i + 1..];
      found := SyncHasChanges(mb, colls, reqs);
      if found {
        return;
      }
    }
    found := false;
  }

  /**
   The mailbox a request goes on with: as it stands, or as the check that ended the hold
   found it; None when none did.
   */
  ghost function GoesOnWith(m: Contents, colls: Collections, reqs: seq<CollectionRequest>, heartbeat: int,
                            checks: seq<Contents>): Option<Contents> {
    if !Held(m, colls, reqs, heartbeat) then Some(m)
    else
      var k := FirstFound(checks, colls, reqs);
      if k < |checks| then Some(checks[k]) else None
  }

  /**
   A request goes on with the mailbox as it stands unless it asks to be held, carries no
   command and finds every collection idle; then with the mailbox as the first check finds
   it at which some collection is not, and if there is no such check, not at all.
   */
  lemma GoesOnIff(m: Contents, colls: Collections, reqs: seq<CollectionRequest>, heartbeat: int,
                  checks: seq<Contents>)
    ensures var idle := (forall i :: 0 <= i < |reqs| ==> !reqs[i].hasCommands) && AllIdle(m, colls, reqs);
            var on := GoesOnWith(m, colls, reqs, heartbeat, checks);
            && (heartbeat <= 0 || !idle ==> on == Some(m))
            && (heartbeat > 0 && idle ==>
                  && (on.None? <==> forall j :: 0 <= j < |checks| ==> AllIdle(checks[j], colls, reqs))
                  && (on.Some? ==> exists k :: && 0 <= k < |checks| && on.value == checks[k]
                                               && !AllIdle(checks[k], colls, reqs)
                                               && forall j :: 0 <= j < k ==> AllIdle(checks[j], colls, reqs)))
  {
    HeldIffNothingToCollect(m, colls, reqs, heartbeat);
    forall j | 0 <= j < |checks| ensures NoneCollects(checks[j], colls, reqs) <==> AllIdle(checks[j], colls, reqs) {
      NoneCollectsIff(checks[j], colls, reqs);
    }
  }

  /** waitForSyncChanges: go on at once, or hold until a check finds a change or the hold expires. */
  method WaitForSyncChanges(mb: Mailbox, colls: Collections, reqs: seq<CollectionRequest>, heartbeat: int,
                            checks: seq<Contents>) returns (go: bool)
    modifies mb
    ensures var m := GoesOnWith(old(mb.Value()), colls, reqs, heartbeat, checks);
            && go == m.Some?
            && mb.Value() == if go then m.value else AfterChecks(old(mb.Value()), checks)
  {
    var hasCommands := SyncHasCommands(reqs);
    if heartbeat <= 0 || hasCommands {
      return true;
    }
    var changes := SyncHasChanges(mb, colls, reqs);
    if changes {
      return true;
    }
    go := HoldForSync(mb, colls, reqs, checks);
  }

  /** Serving the collection fails, after its commands have reached the mailbox. */
  ghost predicate FailsAt(s: Stage, req: CollectionRequest, render: Renderer, m': Contents) {
    exists ids, c' :: CollectionServed(s.contents, CollOf(s.colls, req.collId), req, render, Failed, ids, m', c')
  }

  /** The request failed at one of its collections; those before it had been served. */
  ghost predicate Fails(s: Stage, reqs: seq<CollectionRequest>, render: Renderer, m': Contents) {
    exists n, replies, becameRead, mid ::
      0 <= n < |reqs| && Answers(s, reqs[..n], render, replies, becameRead, mid) && FailsAt(mid, reqs[n], render, m')
  }

  /** One collection of the loaded state. */
  method SyncOne(mb: Mailbox, colls: Collections, req: CollectionRequest, unreadable: set<string>, render: Renderer)
    returns (r: Reply, colls': Collections, becameRead: seq<int>)
    requires mb.Valid()
    modifies mb
    ensures mb.Valid()
    ensures !r.Failed? ==> CollectionStep(Stage(old(mb.Value()), colls), req, render, r, becameRead,
                                          Stage(mb.Value(), colls'))
    ensures r.Failed? ==> FailsAt(Stage(old(mb.Value()), colls), req, render, mb.Value())
    ensures unreadable == {} && (forall s :: render(s) != Broken) ==> !r.Failed?
  {
    var cstate := new CollectionState(CollOf(colls, req.collId));
    r, becameRead := SyncCollection(mb, cstate, req, unreadable, render);
    colls' := colls[req.collId := Coll(cstate.syncKey, cstate.items)];
  }

  ghost predicate OthersSame(colls: Collections, colls': Collections, reqs: seq<CollectionRequest>) {
    forall id :: (forall i :: 0 <= i < |reqs| ==> reqs[i].collId != id) ==> CollOf(colls', id) == CollOf(colls, id)
  }

  ghost predicate AllServed(colls: Collections, colls': Collections, reqs: seq<CollectionRequest>) {
    DistinctIds(reqs) ==> forall i :: 0 <= i < |reqs| ==> Served(colls, reqs[i], colls')
  }

  /** What serving one request does to the collections: its own is served, no other is touched. */
  ghost predicate Serving(colls: Collections, req: CollectionRequest, colls': Collections) {
    Served(colls, req, colls') && forall id :: id != req.collId ==> CollOf(colls', id) == CollOf(colls, id)
  }

  lemma ServedOneMore(colls: Collections, mid: Collections, colls': Collections, reqs: seq<CollectionRequest>,
                      req: CollectionRequest)
    requires OthersSame(colls, mid, reqs) && AllServed(colls, mid, reqs) && Serving(mid, req, colls')
    ensures OthersSame(colls, colls', reqs + [req]) && AllServed(colls, colls', reqs + [req])
  {
    var all := reqs + [req];
    forall id | forall i :: 0 <= i < |all| ==> all[i].collId != id ensures CollOf(colls', id) == CollOf(colls, id) {
      assert all[|reqs|] == req;
      assert forall i :: 0 <= i < |reqs| ==> reqs[i] == all[i];
    }
    if DistinctIds(all) {
      assert forall i :: 0 <= i < |reqs| ==> all[i] == reqs[i];
      assert forall i :: 0 <= i < |reqs| ==> reqs[i].collId != all[|reqs|].collId;
      forall i | 0 <= i < |all| ensures Served(colls, all[i], colls') {
        if i < |reqs| {
          assert Served(colls, reqs[i], mid);
        }
      }
    }
  }

  /** The collections after each request of a sequence. */
  ghost predicate ServedInTurn(cs: seq<Collections>, reqs: seq<CollectionRequest>) {
    |cs| == |reqs| + 1 && forall i :: 0 <= i < |reqs| ==> Serving(cs[i], reqs[i], cs[i + 1])
  }

  lemma {:induction false} InTurnServes(cs: seq<Collections>, reqs: seq<CollectionRequest>, n: nat)
    requires ServedInTurn(cs, reqs) && n <= |reqs|
    ensures OthersSame(cs[0], cs[n], reqs[..n]) && AllServed(cs[0], cs[n], reqs[..n])
  {
    if n > 0 {
      InTurnServes(cs, reqs, n - 1);
      ServedOneMore(cs[0], cs[n - 1], cs[n], reqs[..n - 1], reqs[n - 1]);
      assert reqs[..n] == reqs[..n - 1] + [reqs[n - 1]];
    }
  }

  lemma StageServes(stages: seq<Stage>, reqs: seq<CollectionRequest>, render: Renderer, replies: seq<Reply>,
                    nowRead: seq<seq<int>>, i: nat)
    requires InOrder(stages, reqs, render, replies, nowRead) && i < |reqs|
    ensures Serving(stages[i].colls, reqs[i], stages[i + 1].colls)
  {
    assert StepAt(stages, reqs, render, replies, nowRead, i);
  }

  function CollsOf(stages: seq<Stage>): (cs: seq<Collections>)
    ensures |cs| == |stages|
  {
    seq(|stages|, i requires 0 <= i < |stages| => stages[i].colls)
  }

  lemma InOrderServes(stages: seq<Stage>, reqs: seq<CollectionRequest>, render: Renderer, replies: seq<Reply>,
                      nowRead: seq<seq<int>>)
    requires InOrder(stages, reqs, render, replies, nowRead)
    ensures ServedInTurn(CollsOf(stages), reqs)
  {
    forall i | 0 <= i < |reqs| ensures Serving(CollsOf(stages)[i], reqs[i], CollsOf(stages)[i + 1]) {
      StageServes(stages, reqs, render, replies, nowRead, i);
    }
  }

  /** A complete answer obeys the key discipline in every collection it names, and leaves the others alone. */
  lemma AnswerServes(s: Stage, reqs: seq<CollectionRequest>, render: Renderer, replies: seq<Reply>,
                     becameRead: seq<int>, s': Stage)
    requires Answers(s, reqs, render, replies, becameRead, s')
    ensures OthersSame(s.colls, s'.colls, reqs) && AllServed(s.colls, s'.colls, reqs)
  {
    var stages, nowRead :|
      && InOrder(stages, reqs, render, replies, nowRead)
      && stages[0] == s && stages[|reqs|] == s' && becameRead == Concat(nowRead);
    InOrderServes(stages, reqs, render, replies, nowRead);
    InTurnServes(CollsOf(stages), reqs, |reqs|);
    assert reqs[..|reqs|] == reqs;
  }

  /** syncCollections: every collection in request order; the first failure ends the request. */
  method SyncCollections(mb: Mailbox, colls: Collections, reqs: seq<CollectionRequest>, unreadable: set<string>,
                         render: Renderer)
    returns (ok: bool, colls': Collections, replies: seq<Reply>, becameRead: seq<int>)
    requires mb.Valid()
    modifies mb
    ensures mb.Valid()
    ensures ok ==> Answers(Stage(old(mb.Value()), colls), reqs, render, replies, becameRead,
                           Stage(mb.Value(), colls'))
    ensures !ok ==> Fails(Stage(old(mb.Value()), colls), reqs, render, mb.Value())
    ensures unreadable == {} && (forall s :: render(s) != Broken) ==> ok
  {
    colls', replies, becameRead := colls, [], [];
    ghost var stages, nowRead := [Stage(mb.Value(), colls)], [];
    for i := 0 to |reqs|
      invariant mb.Valid()
      invariant InOrder(stages, reqs[..i], render, replies, nowRead) && becameRead == Concat(nowRead)
      invariant stages[0] == Stage(old(mb.Value()), colls)
      invariant stages[i] == Stage(mb.Value(), colls')
    {
      var r, next, ids := SyncOne(mb, colls', reqs[i], unreadable, render);
      if r.Failed? {
        FailsHere(stages, reqs, render, replies, nowRead, i, mb.Value());
        return false, colls', replies, becameRead;
      }
      assert reqs[..i + 1] == reqs[..i] + [reqs[i]];
      OneMoreInOrder(stages, reqs[..i], render, replies, nowRead, reqs[i], r, ids, Stage(mb.Value(), next));
      stages, nowRead := stages + [Stage(mb.Value(), next)], nowRead + [ids];
      colls', replies, becameRead := next, replies + [r], becameRead + ids;
    }
    assert reqs[..|reqs|] == reqs;
    ok := true;
  }

  lemma FailsHere(stages: seq<Stage>, reqs: seq<CollectionRequest>, render: Renderer, replies: seq<Reply>,
                  nowRead: seq<seq<int>>, i: nat, m': Contents)
    requires i < |reqs| && InOrder(stages, reqs[..i], render, replies, nowRead) &&
             FailsAt(stages[i], reqs[i], render, m')
    ensures Fails(stages[0], reqs, render, m')
  {
    assert Answers(stages[0], reqs[..i], render, replies, Concat(nowRead), stages[i]);
  }

  /** A device's saved collections beside the mailbox. */
  class Device {
    var saved: Collections

    constructor (saved: Collections)
      ensures this.saved == saved
    {
      this.saved := saved;
    }

    /**
     handleSync. Only a complete answer is saved: an expired hold changes nothing of the
     device's state, and a request that fails after touching the mailbox leaves every saved
     key and snapshot as it was.
     */
    method HandleSync(mb: Mailbox, reqs: seq<CollectionRequest>, heartbeat: int, checks: seq<Contents>,
                      unreadable: set<string>, render: Renderer) returns (o: SyncOutcome)
      requires mb.Valid() && forall i :: 0 <= i < |checks| ==> ValidContents(checks[i])
      modifies this, mb
      ensures mb.Valid()
      ensures var m := old(GoesOnWith(mb.Value(), saved, reqs, heartbeat, checks));
              && (o == Empty <==> m.None?)
              && (o == Empty ==> mb.Value() == AfterChecks(old(mb.Value()), checks))
              && (!o.Answered? ==> saved == old(saved))
              && (o.Answered? ==> Answers(Stage(m.value, old(saved)), reqs, render, o.replies, o.becameRead,
                                          Stage(mb.Value(), saved)))
              && (o == ServerError ==> Fails(Stage(m.value, old(saved)), reqs, render, mb.Value()))
      ensures unreadable == {} && (forall s :: render(s) != Broken) ==> o != ServerError
    {
      var go := WaitForSyncChanges(mb, saved, reqs, heartbeat, checks);
      assert mb.Valid() by {
        assert ValidContents(mb.Value());
      }
      if !go {
        return Empty;
      }
      var ok, colls, replies, becameRead := SyncCollections(mb, saved, reqs, unreadable, render);
      if !ok {
        return ServerError;
      }
      saved := colls;
      o := Answered(replies, becameRead);
    }
  }

  // ---------- a request is a step of the protocol ----------

  /** The device after it has received the reply. */
  function Received(w: Replica.World, req: CollectionRequest, r: Reply, folder': seq<Mail.Message>,
                    c': Coll): Replica.World {
    if r.Changes? && req.syncKey == "0" then w.(coll := c', key := r.key, view := map[])
    else if r.Changes? then
      w.(folder := folder', coll := c', key := r.key,
         view := Replica.ReceiveAll(Replica.LocalAll(w.view, req.MailCmds()), r.cmds))
    else w.(key := "0")
  }

  /** What the protocol assumes of the device: it sends its own key or a prime, and edits what it holds. */
  ghost predicate ByDevice(w: Replica.World, req: CollectionRequest, fid: int) {
    && ParseInt(req.collId) == Some(fid) && !IsObjectFolder(fid)
    && (req.syncKey == w.key || req.syncKey == "0")
    && (GateOf(w.coll, req.syncKey) == Current ==> Replica.DeviceBatch(w.view, req.MailCmds()))
  }

  /**
   Serving a mail collection is a request of the replication protocol, whatever the key:
   delivered, lost on the way back, or failed before the state was saved.
   */
  lemma ServedIsRequest(w: Replica.World, req: CollectionRequest, fid: int, render: Renderer, m: Contents, r: Reply,
                        ids: seq<int>, m': Contents, c': Coll)
    requires ByDevice(w, req, fid) && w.folder == m.Folder(fid)
    requires CollectionServed(m, w.coll, req, render, r, ids, m', c')
    ensures !r.Failed? ==>
              && Replica.SyncRequest(w, Received(w, req, r, m'.Folder(fid), c'), req.syncKey, Replica.Delivered)
              && Replica.SyncRequest(w, w.(folder := m'.Folder(fid), coll := c'), req.syncKey, Replica.Lost)
    ensures Replica.SyncRequest(w, w.(folder := m'.Folder(fid)), req.syncKey, Replica.FailedBeforeSave)
  {
    if GateOf(w.coll, req.syncKey) == Current {
      RoundIsRequest(w, req, fid, m, r, ids, m', c');
    }
  }

  lemma RoundIsRequest(w: Replica.World, req: CollectionRequest, fid: int, m: Contents, r: Reply, ids: seq<int>,
                       m': Contents, c': Coll)
    requires ByDevice(w, req, fid) && w.folder == m.Folder(fid) && GateOf(w.coll, req.syncKey) == Current
    requires MailPath(m, w.coll, fid, req, r, ids, m', c')
    ensures !r.Failed? ==>
              && Replica.SyncRequest(w, Received(w, req, r, m'.Folder(fid), c'), req.syncKey, Replica.Delivered)
              && Replica.SyncRequest(w, w.(folder := m'.Folder(fid), coll := c'), req.syncKey, Replica.Lost)
    ensures Replica.SyncRequest(w, w.(folder := m'.Folder(fid)), req.syncKey, Replica.FailedBeforeSave)
  {
    var cmds, window := req.MailCmds(), ParseWindow(req.windowSize);
    assert Replica.RoundRequest(w, w.(folder := m'.Folder(fid)), cmds, window, Replica.FailedBeforeSave, [], false);
    if r.Changes? {
      AnswerIsRound(w, req, fid, m, r, ids, m', c');
    }
  }

  lemma AnswerIsRound(w: Replica.World, req: CollectionRequest, fid: int, m: Contents, r: Reply, ids: seq<int>,
                      m': Contents, c': Coll)
    requires Replica.DeviceBatch(w.view, req.MailCmds()) && req.syncKey == w.coll.syncKey != "0" && r.Changes?
    requires w.folder == m.Folder(fid) && MailPath(m, w.coll, fid, req, r, ids, m', c')
    ensures Replica.RoundRequest(w, Received(w, req, r, m'.Folder(fid), c'), req.MailCmds(),
                                 ParseWindow(req.windowSize), Replica.Delivered, r.cmds, r.more)
    ensures Replica.RoundRequest(w, w.(folder := m'.Folder(fid), coll := c'), req.MailCmds(),
                                 ParseWindow(req.windowSize), Replica.Lost, r.cmds, r.more)
  {
  }

  /** A Sync of one mail collection, answered: the protocol's request, delivered or lost. */
  lemma AnsweredIsRequest(w: Replica.World, s: Stage, req: CollectionRequest, fid: int, render: Renderer,
                          replies: seq<Reply>, becameRead: seq<int>, s': Stage)
    requires ByDevice(w, req, fid) && w.folder == s.contents.Folder(fid) && w.coll == CollOf(s.colls, req.collId)
    requires Answers(s, [req], render, replies, becameRead, s')
    ensures |replies| == 1
    ensures var folder', c' := s'.contents.Folder(fid), CollOf(s'.colls, req.collId);
            && Replica.SyncRequest(w, Received(w, req, replies[0], folder', c'), req.syncKey, Replica.Delivered)
            && Replica.SyncRequest(w, w.(folder := folder', coll := c'), req.syncKey, Replica.Lost)
  {
    var stages, nowRead :|
      && InOrder(stages, [req], render, replies, nowRead)
      && stages[0] == s && stages[1] == s' && becameRead == Concat(nowRead);
    assert StepAt(stages, [req], render, replies, nowRead, 0);
    ServedIsRequest(w, req, fid, render, s.contents, replies[0], nowRead[0], s'.contents, CollOf(s'.colls, req.collId));
  }

  /** One that fails: the protocol's failed request. */
  lemma FailedIsRequest(w: Replica.World, s: Stage, req: CollectionRequest, fid: int, render: Renderer, m': Contents)
    requires ByDevice(w, req, fid) && w.folder == s.contents.Folder(fid) && w.coll == CollOf(s.colls, req.collId)
    requires Fails(s, [req], render, m')
    ensures Replica.SyncRequest(w, w.(folder := m'.Folder(fid)), req.syncKey, Replica.FailedBeforeSave)
  {
    var n, replies, becameRead, mid :|
      0 <= n < 1 && Answers(s, [req][..n], render, replies, becameRead, mid) && FailsAt(mid, [req][n], render, m');
    assert [req][..n] == [];
    var ids, c' :| CollectionServed(s.contents, CollOf(s.colls, req.collId), req, render, Failed, ids, m', c');
    ServedIsRequest(w, req, fid, render, s.contents, Failed, ids, m', c');
  }

  // ---------- the same for object folders ----------

  /** The device after the reply; it learns the ids of its additions from the reply's responses. */
  function ObjectReceived(w: ObjectReplica.World, req: CollectionRequest, r: Reply, store': Objects.Store, c': Coll):
    ObjectReplica.World
  {
    if r.Changes? && req.syncKey == "0" then w.(coll := c', key := r.key, view := map[])
    else if r.Changes? then
      var copy := ObjectReplica.LearnAll(w.view, req.ObjectCmds(), r.responses);
      w.(store := store', coll := c', key := r.key, view := ObjectReplica.ReceiveAll(copy, r.cmds, store'.rows))
    else w.(key := "0")
  }

  /**
   The device sends its own key or a prime, edits what it holds and names each addition
   once, and the store hands out new ids; if `exact`, each Change covers what folder and device differ in.
   */
  ghost predicate ObjectsByDevice(w: ObjectReplica.World, req: CollectionRequest, fid: int, exact: bool) {
    var st := Objects.State(w.store, w.coll.items, {}, []);
    && ParseInt(req.collId) == Some(fid) && IsObjectFolder(fid)
    && (req.syncKey == w.key || req.syncKey == "0")
    && (GateOf(w.coll, req.syncKey) == Current ==>
          && Objects.ProperBatch(st, fid, req.ObjectCmds())
          && (exact ==> ObjectReplica.CoversAll(w.view, st, fid, req.ObjectCmds()))
          && ObjectReplica.DeviceBatch(w.view.Keys, req.ObjectCmds())
          && Additions.DistinctClients(req.ObjectCmds())
          && w.view.Keys !! ObjectEcho.CreatedBy(req.ObjectCmds()))
  }

  /** Serving an object collection is a request of the object protocol: delivered, lost, or failed before the save. */
  lemma ObjectServedIsRequest(w: ObjectReplica.World, req: CollectionRequest, fid: int, exact: bool, render: Renderer,
                              m: Contents, r: Reply, ids: seq<int>, m': Contents, c': Coll)
    requires ObjectsByDevice(w, req, fid, exact) && w.store == m.objects
    requires CollectionServed(m, w.coll, req, render, r, ids, m', c')
    ensures !r.Failed? ==>
              && ObjectReplica.SyncRequest(w, ObjectReceived(w, req, r, m'.objects, c'), fid, exact, req.syncKey,
                                           Replica.Delivered)
              && ObjectReplica.SyncRequest(w, w.(store := m'.objects, coll := c'), fid, exact, req.syncKey,
                                           Replica.Lost)
    ensures ObjectReplica.SyncRequest(w, w.(store := m'.objects), fid, exact, req.syncKey, Replica.FailedBeforeSave)
  {
    if GateOf(w.coll, req.syncKey) == Current {
      ObjectRoundIsRequest(w, req, fid, exact, render, m, r, m', c');
    }
  }

  lemma ObjectRoundIsRequest(w: ObjectReplica.World, req: CollectionRequest, fid: int, exact: bool, render: Renderer,
                             m: Contents, r: Reply, m': Contents, c': Coll)
    requires ObjectsByDevice(w, req, fid, exact) && w.store == m.objects && GateOf(w.coll, req.syncKey) == Current
    requires ObjectPath(m, w.coll, fid, req, render, r, m', c')
    ensures !r.Failed? ==>
              && ObjectReplica.SyncRequest(w, ObjectReceived(w, req, r, m'.objects, c'), fid, exact, req.syncKey,
                                           Replica.Delivered)
              && ObjectReplica.SyncRequest(w, w.(store := m'.objects, coll := c'), fid, exact, req.syncKey,
                                           Replica.Lost)
    ensures ObjectReplica.SyncRequest(w, w.(store := m'.objects), fid, exact, req.syncKey, Replica.FailedBeforeSave)
  {
    var cmds, window := req.ObjectCmds(), ParseWindow(req.windowSize);
    assert ObjectReplica.RoundRequest(w, w.(store := m'.objects), fid, exact, cmds, window, render,
                                      Replica.FailedBeforeSave, [], false);
    if r.Changes? {
      assert ObjectReplica.RoundRequest(w, ObjectReceived(w, req, r, m'.objects, c'), fid, exact, cmds, window, render,
                                        Replica.Delivered, r.cmds, r.more);
      assert ObjectReplica.RoundRequest(w, w.(store := m'.objects, coll := c'), fid, exact, cmds, window, render,
                                        Replica.Lost, r.cmds, r.more);
    }
  }
}
