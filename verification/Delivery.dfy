/**
 What a Sync of one collection sends, read off the mailbox itself: which folders are served
 from the object rows and which from the mail index, which change of which kind an item
 gives rise to, and what each key is answered with.
 */
module Delivery {
  import opened Strconv
  import opened Snapshot
  import opened SyncState
  import opened Rounds
  import opened Engine
  import Folders
  import Mail
  import ObjectEcho
  import Objects
  import Seed
  import Server

  // ---------- which folders hold objects ----------

  lemma SeededNames()
    ensures Seed.NameOf(15) == "Calendar" && Seed.NameOf(17) == "Notes"
    ensures Seed.NameOf(18) == "Tasks" && Seed.NameOf(19) == "Contacts"
  {
  }

  lemma SeededObjectFolder(id: int)
    requires 1 <= id < 0x21
    ensures IsObjectFolder(id) <==> Seed.NameOf(id) in ["Calendar", "Contacts", "Tasks", "Notes"]
  {
    SeededNames();
    forall k | k in {15, 17, 18, 19} && Seed.NameOf(id) == Seed.NameOf(k) ensures id == k {
      Seed.NamesApart(id, k);
    }
  }

  /**
   Whatever folders a mailbox has come to have, those served from the object rows are the
   provisioned Calendar, Contacts, Tasks and Notes; a user's folder of such a name is a mail
   folder.
   */
  lemma ServedAsObjectsIff(sts: seq<Folders.State>, es: seq<Folders.Event>, n: nat, id: int)
    requires Folders.Run(sts, es) && n <= |es| && sts[0].tree == Seed.TREE && id in sts[n].tree && id >= 1
    ensures IsObjectFolder(id) <==> id < 0x21 && sts[n].tree[id].name in ["Calendar", "Contacts", "Tasks", "Notes"]
  {
    Seed.FreshRunKeepsTree(sts, es, n);
    if id < 0x21 {
      SeededObjectFolder(id);
    }
  }

  // ---------- which change an item gives rise to ----------

  lemma {:induction false} LiveSends(items: Items, live: seq<Entry>, c: Change)
    ensures c in LiveChanges(items, live) <==>
            && c.kind != Removed && Entry(c.sid, c.version) in live
            && if c.kind == Added then c.sid !in items else c.sid in items && items[c.sid] != c.version
  {
    if live != [] {
      var init, last := live[..|live| - 1], live[|live| - 1];
      assert live == init + [last];
      LiveSends(items, init, c);
    }
  }

  /** New to the snapshot is added, known with another version is modified, no longer there is removed. */
  lemma DiffSends(items: Items, live: seq<Entry>, out: seq<Change>, c: Change)
    requires IsDiff(items, live, out)
    ensures c in out <==>
            match c.kind
            case Added => Entry(c.sid, c.version) in live && c.sid !in items
            case Modified => Entry(c.sid, c.version) in live && c.sid in items && items[c.sid] != c.version
            case Removed => c.version == 0 && c.sid in items && c.sid !in Sids(live)
  {
    var gone :| IsRemovalOrder(items, live, gone) && out == LiveChanges(items, live) + Removals(gone);
    LiveSends(items, live, c);
    RemovalsSids(gone);
    assert c.sid in Elements(gone) <==> c.sid in Vanished(items, live);
    if c.kind == Removed && c.sid in gone {
      var i :| 0 <= i < |gone| && gone[i] == c.sid;
      assert Removals(gone)[i] == Change(Removed, c.sid, 0);
    }
    if c in Removals(gone) {
      var i :| 0 <= i < |gone| && Removals(gone)[i] == c;
    }
  }

  /** The change is the one the item's state calls for, given what the device was last told. */
  ghost predicate CalledFor(items: Items, c: Change, there: bool, gone: bool) {
    match c.kind
    case Added => there && c.sid !in items
    case Modified => there && c.sid in items && items[c.sid] != c.version
    case Removed => gone && c.version == 0 && c.sid in items
  }

  // ---------- mail ----------

  /** The folder has a message of that id with those flags. */
  ghost predicate HasMessage(f: seq<Mail.Message>, s: string, flags: int) {
    exists k :: 0 <= k < |f| && FormatUint(f[k].uid) == s && f[k].flags == flags
  }

  ghost predicate NoMessage(f: seq<Mail.Message>, s: string) {
    forall k :: 0 <= k < |f| ==> FormatUint(f[k].uid) != s
  }

  lemma ListedMessages(f: seq<Mail.Message>, s: string, flags: int)
    ensures Entry(s, flags) in Mail.Listing(f) <==> HasMessage(f, s, flags)
    ensures s !in Sids(Mail.Listing(f)) <==> NoMessage(f, s)
  {
    var live := Mail.Listing(f);
    if k :| 0 <= k < |f| && FormatUint(f[k].uid) == s && f[k].flags == flags {
      assert live[k] == Entry(s, flags);
    }
    if !NoMessage(f, s) {
      var k :| 0 <= k < |f| && FormatUint(f[k].uid) == s;
      assert live[k] in live && live[k].sid == s;
    }
  }

  /** A request with the current key and no commands. */
  ghost predicate Collects(c: Coll, req: CollectionRequest, fid: int) {
    ParseInt(req.collId) == Some(fid) && req.syncKey == c.syncKey && c.syncKey !in ["", "0"] && !req.hasCommands
  }

  lemma MailRoundOf(m: Contents, c: Coll, req: CollectionRequest, fid: int, r: Reply, ids: seq<int>, m': Contents,
                    c': Coll)
    requires MailPath(m, c, fid, req, r, ids, m', c') && r.Changes? && !req.hasCommands
    ensures MailRound(c.items, Mail.Listing(m.Folder(fid)), ParseWindow(req.windowSize), c'.items, r.cmds, r.more)
  {
    assert Mail.ApplyAll(Mail.State(m.Folder(fid), c.items), []) == Mail.State(m.Folder(fid), c.items);
  }

  lemma RoundDiff(items: Items, live: seq<Entry>, w: nat, items': Items, sent: seq<Change>, more: bool)
    returns (out: seq<Change>)
    requires MailRound(items, live, w, items', sent, more)
    ensures IsDiff(items, live, out) && sent <= out && (!more ==> sent == out)
  {
    out :| IsDiff(items, live, out) && sent == out[..Taken(out, w)] && more == (|out| > w);
  }

  lemma ServedAsMail(m: Contents, c: Coll, req: CollectionRequest, fid: int, render: Renderer, r: Reply,
                     ids: seq<int>, m': Contents, c': Coll)
    requires CollectionServed(m, c, req, render, r, ids, m', c') && Collects(c, req, fid) && fid !in {15, 17, 18, 19}
    ensures MailPath(m, c, fid, req, r, ids, m', c')
  {
    assert GateOf(c, req.syncKey) == Current && !IsObjectFolder(fid);
  }

  /** The pending changes an answer was cut from. */
  lemma MailDiff(m: Contents, c: Coll, req: CollectionRequest, fid: int, render: Renderer, r: Reply, ids: seq<int>,
                 m': Contents, c': Coll) returns (out: seq<Change>)
    requires CollectionServed(m, c, req, render, r, ids, m', c') && Collects(c, req, fid) && r.Changes?
    requires fid !in {15, 17, 18, 19}
    ensures IsDiff(c.items, Mail.Listing(m.Folder(fid)), out)
    ensures r.cmds <= out && (!r.more ==> r.cmds == out)
  {
    ServedAsMail(m, c, req, fid, render, r, ids, m', c');
    MailRoundOf(m, c, req, fid, r, ids, m', c');
    out := RoundDiff(c.items, Mail.Listing(m.Folder(fid)), ParseWindow(req.windowSize), c'.items, r.cmds, r.more);
  }

  lemma MailDue(f: seq<Mail.Message>, items: Items, out: seq<Change>, ch: Change)
    requires IsDiff(items, Mail.Listing(f), out)
    ensures ch in out <==> CalledFor(items, ch, HasMessage(f, ch.sid, ch.version), NoMessage(f, ch.sid))
  {
    DiffSends(items, Mail.Listing(f), out, ch);
    ListedMessages(f, ch.sid, ch.version);
  }

  /**
   Any folder but Calendar, Notes, Tasks and Contacts is synced from its messages: the
   answer holds nothing but what their state calls for, and all of it unless it says that
   more is available.
   */
  lemma MailSent(m: Contents, c: Coll, req: CollectionRequest, fid: int, render: Renderer, r: Reply, ids: seq<int>,
                 m': Contents, c': Coll, ch: Change)
    requires CollectionServed(m, c, req, render, r, ids, m', c') && Collects(c, req, fid) && r.Changes?
    requires fid !in {15, 17, 18, 19}
    ensures var f := m.Folder(fid);
            && (ch in r.cmds ==> CalledFor(c.items, ch, HasMessage(f, ch.sid, ch.version), NoMessage(f, ch.sid)))
            && (!r.more && CalledFor(c.items, ch, HasMessage(f, ch.sid, ch.version), NoMessage(f, ch.sid)) ==>
                ch in r.cmds)
  {
    var out := MailDiff(m, c, req, fid, render, r, ids, m', c');
    MailDue(m.Folder(fid), c.items, out, ch);
  }

  // ---------- objects ----------

  /** The store has a live item of that id and change number in the folder. */
  ghost predicate HasObject(rows: seq<Objects.Row>, fid: int, s: string, cn: int) {
    exists k :: && 0 <= k < |rows| && rows[k].folder == fid && !rows[k].deleted && !rows[k].associated
                && FormatInt(rows[k].id) == s && rows[k].cn == cn
  }

  ghost predicate NoObject(rows: seq<Objects.Row>, fid: int, s: string) {
    forall cn :: !HasObject(rows, fid, s, cn)
  }

  lemma ListedObjects(rows: seq<Objects.Row>, fid: int, s: string, cn: int)
    ensures Entry(s, cn) in Objects.Listing(rows, fid) <==> HasObject(rows, fid, s, cn)
  {
    Objects.ListingMembers(rows, fid);
    if HasObject(rows, fid, s, cn) {
      var k :| && 0 <= k < |rows| && rows[k].folder == fid && !rows[k].deleted && !rows[k].associated
               && FormatInt(rows[k].id) == s && rows[k].cn == cn;
      assert Objects.Listed(rows[k], fid) && Entry(s, cn) == Entry(Objects.Sid(rows[k].id), rows[k].cn);
    }
  }

  lemma UnlistedObjects(rows: seq<Objects.Row>, fid: int, s: string)
    ensures s !in Sids(Objects.Listing(rows, fid)) <==> NoObject(rows, fid, s)
  {
    forall cn ensures Entry(s, cn) in Objects.Listing(rows, fid) <==> HasObject(rows, fid, s, cn) {
      ListedObjects(rows, fid, s, cn);
    }
    if s in Sids(Objects.Listing(rows, fid)) {
      var e :| e in Objects.Listing(rows, fid) && e.sid == s;
      assert HasObject(rows, fid, s, e.version);
    }
    if cn :| HasObject(rows, fid, s, cn) {
      assert Entry(s, cn) in Objects.Listing(rows, fid);
    }
  }

  lemma ObjectDiff(m: Contents, c: Coll, req: CollectionRequest, fid: int, render: Renderer, r: Reply, ids: seq<int>,
                   m': Contents, c': Coll) returns (out: seq<Change>, taken: seq<Change>)
    requires CollectionServed(m, c, req, render, r, ids, m', c') && Collects(c, req, fid) && r.Changes?
    requires fid in {15, 17, 18, 19}
    ensures IsDiff(c.items, Objects.Listing(m.objects.rows, fid), out)
    ensures taken <= out && r.cmds == Emitted(render, taken) && (!r.more ==> taken == out)
  {
    var w, live := ParseWindow(req.windowSize), Objects.Listing(m.objects.rows, fid);
    ObjectEcho.EmptyBatch(m.objects, c.items, fid);
    assert ObjectPath(m, c, fid, req, render, r, m', c');
    out :| IsDiff(c.items, live, out) && r.cmds == Emitted(render, out[..Taken(out, w)]) && r.more == (|out| > w);
    taken := out[..Taken(out, w)];
  }

  lemma ObjectDue(rows: seq<Objects.Row>, fid: int, items: Items, out: seq<Change>, ch: Change)
    requires IsDiff(items, Objects.Listing(rows, fid), out)
    ensures ch in out <==> CalledFor(items, ch, HasObject(rows, fid, ch.sid, ch.version), NoObject(rows, fid, ch.sid))
  {
    DiffSends(items, Objects.Listing(rows, fid), out, ch);
    ListedObjects(rows, fid, ch.sid, ch.version);
    UnlistedObjects(rows, fid, ch.sid);
  }

  /** Calendar, Notes, Tasks and Contacts are synced from the object rows, as far as their items render. */
  lemma ObjectsSent(m: Contents, c: Coll, req: CollectionRequest, fid: int, render: Renderer, r: Reply, ids: seq<int>,
                    m': Contents, c': Coll, ch: Change)
    requires CollectionServed(m, c, req, render, r, ids, m', c') && Collects(c, req, fid) && r.Changes?
    requires fid in {15, 17, 18, 19}
    ensures var rows := m.objects.rows;
            var due := CalledFor(c.items, ch, HasObject(rows, fid, ch.sid, ch.version), NoObject(rows, fid, ch.sid));
            && (ch in r.cmds ==> due && (ch.kind == Removed || render(ch.sid) == Rendered))
            && (!r.more && due && (ch.kind == Removed || render(ch.sid) == Rendered) ==> ch in r.cmds)
  {
    var rows := m.objects.rows;
    var out, taken := ObjectDiff(m, c, req, fid, render, r, ids, m', c');
    ObjectDue(rows, fid, c.items, out, ch);
    EmittedMembers(render, taken);
  }

  // ---------- estimates ----------

  lemma {:induction false} AllEmitted(render: Renderer, cs: seq<Change>)
    requires forall s :: render(s) == Rendered
    ensures Emitted(render, cs) == cs
  {
    if cs != [] {
      AllEmitted(render, cs[1..]);
    }
  }

  lemma LiveOfFolder(m: Contents, fid: int)
    ensures Server.LiveOf(m, fid) ==
            if fid in {15, 17, 18, 19} then Objects.Listing(m.objects.rows, fid) else Mail.Listing(m.Folder(fid))
  {
  }

  lemma ObjectsCounted(m: Contents, c: Coll, req: CollectionRequest, fid: int, render: Renderer, r: Reply,
                       ids: seq<int>, m': Contents, c': Coll)
    requires CollectionServed(m, c, req, render, r, ids, m', c') && Collects(c, req, fid) && r.Changes?
    requires fid in {15, 17, 18, 19} && !r.more && forall s :: render(s) == Rendered
    ensures DiffCount(c.items, Objects.Listing(m.objects.rows, fid)) == |r.cmds|
  {
    var out, taken := ObjectDiff(m, c, req, fid, render, r, ids, m', c');
    AllEmitted(render, taken);
    DiffLength(c.items, Objects.Listing(m.objects.rows, fid), out);
  }

  lemma MailCounted(m: Contents, c: Coll, req: CollectionRequest, fid: int, render: Renderer, r: Reply, ids: seq<int>,
                    m': Contents, c': Coll)
    requires CollectionServed(m, c, req, render, r, ids, m', c') && Collects(c, req, fid) && r.Changes?
    requires fid !in {15, 17, 18, 19} && !r.more
    ensures DiffCount(c.items, Mail.Listing(m.Folder(fid))) == |r.cmds|
  {
    var out := MailDiff(m, c, req, fid, render, r, ids, m', c');
    DiffLength(c.items, Mail.Listing(m.Folder(fid)), out);
  }

  /**
   The number GetItemEstimate reports, and a held request waits to see above 0, is that of
   the changes a Sync with the current key sends when its window holds them all and every
   item renders.
   */
  lemma EstimateIsSent(m: Contents, c: Coll, req: CollectionRequest, fid: int, render: Renderer, r: Reply,
                       ids: seq<int>, m': Contents, c': Coll)
    requires CollectionServed(m, c, req, render, r, ids, m', c') && Collects(c, req, fid) && r.Changes?
    requires !r.more && forall s :: render(s) == Rendered
    ensures DiffCount(c.items, Server.LiveOf(m, fid)) == |r.cmds|
  {
    LiveOfFolder(m, fid);
    if fid in {15, 17, 18, 19} {
      ObjectsCounted(m, c, req, fid, render, r, ids, m', c');
    } else {
      MailCounted(m, c, req, fid, render, r, ids, m', c');
    }
  }

  // ---------- keys ----------

  /**
   What a key is answered with: status 4 for a collection id that is no number, else key "1"
   and nothing else for "0", and status 3 for no key or one that is not current.
   */
  lemma AnswerToKey(m: Contents, c: Coll, req: CollectionRequest, render: Renderer, r: Reply, ids: seq<int>,
                    m': Contents, c': Coll)
    requires CollectionServed(m, c, req, render, r, ids, m', c')
    ensures if ParseInt(req.collId).None? then r == Status(4) && c' == c && m' == m
            else if req.syncKey == "0" then r == Changes("1", [], [], false) && c' == Coll("1", map[]) && m' == m
            else if req.syncKey == "" || req.syncKey != c.syncKey then r == Status(3) && c' == c && m' == m
            else !r.Status?
  {
  }

  lemma NotZero(n: nat)
    requires n > 0
    ensures FormatUint(n) != "0"
  {
    assert FormatUint(n)[0] != '0';
  }

  lemma IssuedIsCurrent(c: Coll, n: nat)
    requires 0 < n < TWO_64 - 1 && c.syncKey == FormatUint(n)
    ensures GateOf(c, c.syncKey) == Current && NextSyncKey(c.syncKey) == FormatUint(n + 1)
  {
    ParseFormatUint(n, TWO_64);
    NotZero(n);
  }

  /** What follows a key: the number after the one it spells, from the last one 0, and "1" after no number. */
  lemma KeyAfter(key: string)
    ensures NextSyncKey(key) ==
            if ParseUint(key, 0x1_0000_0000_0000_0000).None? then "1"
            else if ParseUint(key, 0x1_0000_0000_0000_0000).value == 0xffff_ffff_ffff_ffff then "0"
            else FormatUint(ParseUint(key, 0x1_0000_0000_0000_0000).value + 1)
  {
    assert FormatUint(0) == "0";
  }

  /** The current key is answered with the one numbered next. */
  lemma NextKeyAnswered(m: Contents, c: Coll, req: CollectionRequest, render: Renderer, r: Reply, ids: seq<int>,
                        m': Contents, c': Coll, n: nat)
    requires CollectionServed(m, c, req, render, r, ids, m', c') && ParseInt(req.collId).Some? && r.Changes?
    requires 0 < n < TWO_64 - 1 && req.syncKey == c.syncKey == FormatUint(n)
    ensures r.key == c'.syncKey == FormatUint(n + 1)
  {
    IssuedIsCurrent(c, n);
    assert GateOf(c, req.syncKey) == Current;
  }
}
