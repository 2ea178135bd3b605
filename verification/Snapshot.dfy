/**
 The snapshot diff at the heart of Sync: a device's last-synced snapshot
 (server id -> flags or change number) against the live items of a folder.

 Mail folders and object folders run the same comparison over different version
 numbers, so it is specified once, over `Entry` lists. The list of deletions is
 sorted by `LessSid`, which reads ids as numbers; two spellings of one number
 ("7" and "007") tie, and Go's sort does not fix the order of ties over a map. So
 the diff is a relation, `IsDiff`, and `DiffUnique` says when it is a function.
 */
module Snapshot {
  import opened Strconv

  type Items = map<string, int>

  /** One live item: its server id and its version (flags, or change number). */
  datatype Entry = Entry(sid: string, version: int)

  datatype Kind = Added | Modified | Removed

  /** One pending server-to-client change; a removal carries version 0. */
  datatype Change = Change(kind: Kind, sid: string, version: int)

  /** lessSID: server ids compare as numbers, an unreadable id as strconv's error value. */
  predicate LessSid(a: string, b: string) {
    SidValue(a) < SidValue(b)
  }

  function SidValue(s: string): nat {
    if s == [] || !AllDigits(s) then 0
    else if DigitsValue(s) >= TWO_64 then TWO_64 - 1
    else DigitsValue(s)
  }

  // ---------- the diff ----------

  function Sids(live: seq<Entry>): set<string> {
    set e | e in live :: e.sid
  }

  ghost predicate Distinct(live: seq<Entry>) {
    forall i, j :: 0 <= i < j < |live| ==> live[i].sid != live[j].sid
  }

  /** What one live item contributes to the diff. */
  function Pending(items: Items, e: Entry): seq<Change> {
    if e.sid !in items then [Change(Added, e.sid, e.version)]
    else if items[e.sid] != e.version then [Change(Modified, e.sid, e.version)]
    else []
  }

  /** Additions and modifications, in listing order. */
  function LiveChanges(items: Items, live: seq<Entry>): seq<Change> {
    if live == [] then []
    else LiveChanges(items, live[..|live| - 1]) + Pending(items, live[|live| - 1])
  }

  function Removals(gone: seq<string>): seq<Change> {
    if gone == [] then []
    else Removals(gone[..|gone| - 1]) + [Change(Removed, gone[|gone| - 1], 0)]
  }

  /** Ids the snapshot holds and the folder no longer does. */
  function Vanished(items: Items, live: seq<Entry>): set<string> {
    items.Keys - Sids(live)
  }

  function Elements(s: seq<string>): set<string> {
    set x | x in s
  }

  /** Without repeats, and in `LessSid` order. */
  ghost predicate Ordered(gone: seq<string>) {
    gone == [] ||
    var init, last := gone[..|gone| - 1], gone[|gone| - 1];
    Ordered(init) && last !in init && forall x :: x in init ==> !LessSid(last, x)
  }

  ghost predicate IsRemovalOrder(items: Items, live: seq<Entry>, gone: seq<string>) {
    Ordered(gone) && Elements(gone) == Vanished(items, live)
  }

  /** `out` is what the server computes as the pending changes. */
  ghost predicate IsDiff(items: Items, live: seq<Entry>, out: seq<Change>) {
    exists gone :: IsRemovalOrder(items, live, gone) && out == LiveChanges(items, live) + Removals(gone)
  }

  /** The snapshot that agrees with the folder. */
  function AsItems(live: seq<Entry>): Items {
    if live == [] then map[]
    else AsItems(live[..|live| - 1])[live[|live| - 1].sid := live[|live| - 1].version]
  }

  // ---------- recording what was sent ----------

  /** The snapshot after one change has been sent to the device. */
  function Record(items: Items, c: Change): Items {
    if c.kind == Removed then items - {c.sid} else items[c.sid := c.version]
  }

  function RecordAll(items: Items, cs: seq<Change>): Items {
    if cs == [] then items else Record(RecordAll(items, cs[..|cs| - 1]), cs[|cs| - 1])
  }

  function ChangeSids(cs: seq<Change>): set<string> {
    set c | c in cs :: c.sid
  }

  // ---------- filters ----------

  function WithoutSids(cs: seq<Change>, t: set<string>): seq<Change> {
    if cs == [] then []
    else
      var rest := WithoutSids(cs[..|cs| - 1], t);
      if cs[|cs| - 1].sid in t then rest else rest + [cs[|cs| - 1]]
  }

  function EntriesOutside(live: seq<Entry>, t: set<string>): seq<Entry> {
    if live == [] then []
    else
      var rest := EntriesOutside(live[..|live| - 1], t);
      if live[|live| - 1].sid in t then rest else rest + [live[|live| - 1]]
  }

  ghost function KeysOutside(gone: seq<string>, t: set<string>): seq<string> {
    if gone == [] then []
    else
      var rest := KeysOutside(gone[..|gone| - 1], t);
      if gone[|gone| - 1] in t then rest else rest + [gone[|gone| - 1]]
  }

  // ---------- the frame theorem ----------

  /** The snapshot and the folder agree on `s`. */
  predicate Settled(items: Items, live: seq<Entry>, s: string) {
    if s in items then Entry(s, items[s]) in live else s !in Sids(live)
  }

  ghost predicate AllSettled(items: Items, live: seq<Entry>, t: set<string>) {
    forall s :: s in t ==> Settled(items, live, s)
  }

  /** Two snapshots that may differ on the ids of `t` only. */
  ghost predicate SameOutside(items: Items, items': Items, t: set<string>) {
    forall s :: s !in t ==> (s in items <==> s in items') && (s in items ==> items[s] == items'[s])
  }

  /**
   Whatever a round does to the items of `t` alone, leaving each of them settled,
   takes exactly those items out of the diff and leaves the rest of it in order.
   */
  lemma Frame(items: Items, live: seq<Entry>, out: seq<Change>, items': Items, live': seq<Entry>, t: set<string>)
    requires IsDiff(items, live, out)
    requires Distinct(live')
    requires EntriesOutside(live, t) == EntriesOutside(live', t)
    requires SameOutside(items, items', t)
    requires AllSettled(items', live', t)
    ensures IsDiff(items', live', WithoutSids(out, t))
  {
    var gone :| IsRemovalOrder(items, live, gone) && out == LiveChanges(items, live) + Removals(gone);
    WithoutSidsConcat(LiveChanges(items, live), Removals(gone), t);
    LiveChangesOutside(items, live, t);
    RemovalsOutside(gone, t);
    SidsOutside(live, t);
    LiveChangesAgree(items, items', EntriesOutside(live, t), t);
    LiveChangesSettled(items', live', live', t);
    FrameRemovals(items, live, gone, items', live', t);
  }

  lemma FrameRemovals(items: Items, live: seq<Entry>, gone: seq<string>, items': Items, live': seq<Entry>,
                      t: set<string>)
    requires IsRemovalOrder(items, live, gone)
    requires EntriesOutside(live, t) == EntriesOutside(live', t)
    requires SameOutside(items, items', t)
    requires AllSettled(items', live', t)
    ensures IsRemovalOrder(items', live', KeysOutside(gone, t))
  {
    KeysOutsideOrder(gone, t);
    SidsOutside(live, t);
    SidsOutside(live', t);
    assert Sids(live) - t == Sids(live') - t;
    forall s ensures s in KeysOutside(gone, t) <==> s in Vanished(items', live') {
      assert s in gone <==> s in Vanished(items, live) by {
        assert s in gone <==> s in Elements(gone);
      }
      if s in t {
        SettledNotVanished(items', live', s);
      } else {
        assert s in Sids(live) - t <==> s in Sids(live') - t;
      }
    }
  }

  lemma SettledNotVanished(items: Items, live: seq<Entry>, s: string)
    requires Settled(items, live, s)
    ensures s !in Vanished(items, live)
  {
  }

  lemma {:induction false} WithoutSidsConcat(a: seq<Change>, b: seq<Change>, t: set<string>)
    ensures WithoutSids(a + b, t) == WithoutSids(a, t) + WithoutSids(b, t)
  {
    if b == [] {
      assert a + b == a;
    } else {
      assert (a + b)[..|a + b| - 1] == a + b[..|b| - 1];
      WithoutSidsConcat(a, b[..|b| - 1], t);
    }
  }

  lemma {:induction false} LiveChangesOutside(items: Items, live: seq<Entry>, t: set<string>)
    ensures WithoutSids(LiveChanges(items, live), t) == LiveChanges(items, EntriesOutside(live, t))
  {
    if live != [] {
      var init, last := live[..|live| - 1], live[|live| - 1];
      LiveChangesOutside(items, init, t);
      WithoutSidsConcat(LiveChanges(items, init), Pending(items, last), t);
      var p := Pending(items, last);
      assert WithoutSids(p, t) == if last.sid in t then [] else p by {
        if p != [] {
          assert p[..0] == [];
        }
      }
      if last.sid !in t {
        assert EntriesOutside(live, t)[..|EntriesOutside(init, t)|] == EntriesOutside(init, t);
      }
    }
  }

  lemma {:induction false} RemovalsOutside(gone: seq<string>, t: set<string>)
    ensures WithoutSids(Removals(gone), t) == Removals(KeysOutside(gone, t))
  {
    if gone != [] {
      var init := gone[..|gone| - 1];
      RemovalsOutside(init, t);
      assert Removals(gone)[..|Removals(gone)| - 1] == Removals(init);
      var kept := KeysOutside(gone, t);
      if gone[|gone| - 1] !in t {
        assert kept[..|kept| - 1] == KeysOutside(init, t);
      }
    }
  }

  lemma {:induction false} LiveChangesAgree(items: Items, items': Items, live: seq<Entry>, t: set<string>)
    requires forall e :: e in live ==> e.sid !in t
    requires SameOutside(items, items', t)
    ensures LiveChanges(items, live) == LiveChanges(items', live)
  {
    if live != [] {
      LiveChangesAgree(items, items', live[..|live| - 1], t);
      assert live[|live| - 1] in live;
    }
  }

  /** Settled items contribute nothing. */
  lemma {:induction false} LiveChangesSettled(items: Items, live: seq<Entry>, all: seq<Entry>, t: set<string>)
    requires live <= all && Distinct(all)
    requires AllSettled(items, all, t)
    ensures LiveChanges(items, live) == LiveChanges(items, EntriesOutside(live, t))
  {
    if live != [] {
      var init, last := live[..|live| - 1], live[|live| - 1];
      LiveChangesSettled(items, init, all, t);
      if last.sid in t {
        assert last == all[|live| - 1];
        assert last.sid in Sids(all);
        assert Settled(items, all, last.sid);
        var e :| e in all && e == Entry(last.sid, items[last.sid]);
        assert Pending(items, last) == [];
      } else {
        assert EntriesOutside(live, t)[..|EntriesOutside(init, t)|] == EntriesOutside(init, t);
      }
    }
  }

  lemma {:induction false} SidsOutside(live: seq<Entry>, t: set<string>)
    ensures Sids(EntriesOutside(live, t)) == Sids(live) - t
    ensures forall e :: e in EntriesOutside(live, t) <==> e in live && e.sid !in t
  {
    if live != [] {
      SidsOutside(live[..|live| - 1], t);
      assert live == live[..|live| - 1] + [live[|live| - 1]];
    }
  }

  lemma {:induction false} KeysOutsideOrder(gone: seq<string>, t: set<string>)
    requires Ordered(gone)
    ensures Ordered(KeysOutside(gone, t))
    ensures forall s :: s in KeysOutside(gone, t) <==> s in gone && s !in t
  {
    if gone != [] {
      var init, last := gone[..|gone| - 1], gone[|gone| - 1];
      KeysOutsideOrder(init, t);
      assert gone == init + [last];
      if last !in t {
        var kept := KeysOutside(gone, t);
        assert kept[..|kept| - 1] == KeysOutside(init, t);
      }
    }
  }

  lemma {:induction false} OutsideConcat(a: seq<Entry>, b: seq<Entry>, t: set<string>)
    ensures EntriesOutside(a + b, t) == EntriesOutside(a, t) + EntriesOutside(b, t)
  {
    if b == [] {
      assert a + b == a;
    } else {
      assert (a + b)[..|a + b| - 1] == a + b[..|b| - 1];
      OutsideConcat(a, b[..|b| - 1], t);
    }
  }

  lemma {:induction false} OutsideTwice(live: seq<Entry>, t: set<string>, u: set<string>)
    ensures EntriesOutside(EntriesOutside(live, t), u) == EntriesOutside(live, t + u)
  {
    if live != [] {
      var init, last := live[..|live| - 1], live[|live| - 1];
      OutsideTwice(init, t, u);
      if last.sid !in t {
        var kept := EntriesOutside(live, t);
        assert kept[..|kept| - 1] == EntriesOutside(init, t);
      }
    }
  }

  /** Ids the listing does not hold make no difference to what lies outside. */
  lemma {:induction false} OutsideSame(live: seq<Entry>, t: set<string>, u: set<string>)
    requires forall e :: e in live ==> (e.sid in t <==> e.sid in u)
    ensures EntriesOutside(live, t) == EntriesOutside(live, u)
  {
    if live != [] {
      OutsideSame(live[..|live| - 1], t, u);
      assert live[|live| - 1] in live;
    }
  }

  // ---------- what a diff contains ----------

  lemma {:induction false} LiveChangesSids(items: Items, live: seq<Entry>)
    ensures forall c :: c in LiveChanges(items, live) ==>
                          c.kind != Removed && Entry(c.sid, c.version) in live
                          && (c.sid in items ==> items[c.sid] != c.version)
  {
    if live != [] {
      LiveChangesSids(items, live[..|live| - 1]);
      assert live == live[..|live| - 1] + [live[|live| - 1]];
    }
  }

  lemma {:induction false} RemovalsSids(gone: seq<string>)
    ensures |Removals(gone)| == |gone|
    ensures forall i :: 0 <= i < |gone| ==> Removals(gone)[i] == Change(Removed, gone[i], 0)
  {
    if gone != [] {
      RemovalsSids(gone[..|gone| - 1]);
    }
  }

  lemma {:induction false} LiveChangesDistinct(items: Items, live: seq<Entry>)
    requires Distinct(live)
    ensures DistinctChanges(LiveChanges(items, live))
  {
    if live != [] {
      var init, last := live[..|live| - 1], live[|live| - 1];
      LiveChangesDistinct(items, init);
      LiveChangesSids(items, init);
      var cs := LiveChanges(items, init);
      forall i | 0 <= i < |cs| ensures cs[i].sid != last.sid {
        assert cs[i] in cs;
        var k :| 0 <= k < |init| && init[k] == Entry(cs[i].sid, cs[i].version);
        assert live[k] == init[k];
      }
      var all := LiveChanges(items, live);
      assert all == cs + Pending(items, last);
      forall i, j | 0 <= i < j < |all| ensures all[i].sid != all[j].sid {
        assert all[i] == cs[i];
        if j < |cs| {
          assert all[j] == cs[j];
        } else {
          assert all[j] == Pending(items, last)[j - |cs|];
        }
      }
    }
  }

  lemma {:induction false} OrderedDistinct(gone: seq<string>)
    requires Ordered(gone)
    ensures forall i, j :: 0 <= i < j < |gone| ==> gone[i] != gone[j]
  {
    if gone != [] {
      var init, last := gone[..|gone| - 1], gone[|gone| - 1];
      OrderedDistinct(init);
      forall i, j | 0 <= i < j < |gone| ensures gone[i] != gone[j] {
        assert gone[i] == init[i];
        if j < |init| {
          assert gone[j] == init[j];
        }
      }
    }
  }

  lemma {:induction false} OrderedCount(gone: seq<string>)
    requires Ordered(gone)
    ensures |Elements(gone)| == |gone|
  {
    if gone != [] {
      var init, last := gone[..|gone| - 1], gone[|gone| - 1];
      OrderedCount(init);
      assert gone == init + [last];
      assert Elements(gone) == Elements(init) + {last};
      assert last !in Elements(init);
    }
  }

  ghost predicate DistinctChanges(cs: seq<Change>) {
    forall i, j :: 0 <= i < j < |cs| ==> cs[i].sid != cs[j].sid
  }

  /** Each change of a diff is about an unsettled item. */
  ghost predicate Unsettled(items: Items, live: seq<Entry>, c: Change) {
    if c.kind == Removed then c.sid in items && c.sid !in Sids(live)
    else Entry(c.sid, c.version) in live && (c.sid in items ==> items[c.sid] != c.version)
  }

  lemma DiffMembers(items: Items, live: seq<Entry>, gone: seq<string>, i: nat)
    requires IsRemovalOrder(items, live, gone)
    requires i < |LiveChanges(items, live) + Removals(gone)|
    ensures Unsettled(items, live, (LiveChanges(items, live) + Removals(gone))[i])
    ensures (LiveChanges(items, live) + Removals(gone))[i].kind == Removed <==> i >= |LiveChanges(items, live)|
  {
    var cs := LiveChanges(items, live);
    RemovalsSids(gone);
    LiveChangesSids(items, live);
    if i < |cs| {
      assert cs[i] in cs;
    } else {
      var s := gone[i - |cs|];
      assert s in Elements(gone);
      assert s in Vanished(items, live);
    }
  }

  lemma DiffDistinctAt(items: Items, live: seq<Entry>, gone: seq<string>, i: nat, j: nat)
    requires Distinct(live) && IsRemovalOrder(items, live, gone)
    requires i < j < |LiveChanges(items, live) + Removals(gone)|
    ensures (LiveChanges(items, live) + Removals(gone))[i].sid != (LiveChanges(items, live) + Removals(gone))[j].sid
  {
    var cs := LiveChanges(items, live);
    DiffMembers(items, live, gone, i);
    DiffMembers(items, live, gone, j);
    if j < |cs| {
      LiveChangesDistinct(items, live);
    } else if i >= |cs| {
      RemovalsSids(gone);
      OrderedDistinct(gone);
    }
  }

  /** No item appears twice in a diff, and each change is about an unsettled item. */
  lemma DiffDistinct(items: Items, live: seq<Entry>, out: seq<Change>)
    requires Distinct(live) && IsDiff(items, live, out)
    ensures DistinctChanges(out)
    ensures forall c :: c in out ==> Unsettled(items, live, c)
  {
    var gone :| IsRemovalOrder(items, live, gone) && out == LiveChanges(items, live) + Removals(gone);
    forall c | c in out ensures Unsettled(items, live, c) {
      var i :| 0 <= i < |out| && out[i] == c;
      DiffMembers(items, live, gone, i);
    }
    forall i, j | 0 <= i < j < |out| ensures out[i].sid != out[j].sid {
      DiffDistinctAt(items, live, gone, i, j);
    }
  }

  lemma {:induction false} LiveChangesContains(items: Items, live: seq<Entry>, i: nat)
    requires i < |live|
    ensures forall c :: c in Pending(items, live[i]) ==> c in LiveChanges(items, live)
  {
    if i < |live| - 1 {
      LiveChangesContains(items, live[..|live| - 1], i);
    }
  }

  lemma DistinctEntries(live: seq<Entry>)
    requires Distinct(live)
    ensures forall a, b :: a in live && b in live && a.sid == b.sid ==> a == b
  {
  }

  lemma UnsettledIsPending(items: Items, live: seq<Entry>, out: seq<Change>, s: string)
    requires IsDiff(items, live, out) && !Settled(items, live, s)
    ensures s in ChangeSids(out)
  {
    var gone :| IsRemovalOrder(items, live, gone) && out == LiveChanges(items, live) + Removals(gone);
    if s in Sids(live) {
      var i :| 0 <= i < |live| && live[i].sid == s;
      LiveChangesContains(items, live, i);
      assert live[i] in live;
      var c := Pending(items, live[i])[0];
      assert c in Pending(items, live[i]);
      assert c in out && c.sid == s;
    } else {
      assert s in Vanished(items, live);
      assert s in Elements(gone);
      var i :| 0 <= i < |gone| && gone[i] == s;
      RemovalsSids(gone);
      assert Removals(gone)[i] in out && Removals(gone)[i].sid == s;
    }
  }

  /** An item is pending exactly when the snapshot and the folder disagree on it. */
  lemma PendingIffUnsettled(items: Items, live: seq<Entry>, out: seq<Change>, s: string)
    requires Distinct(live) && IsDiff(items, live, out)
    ensures s in ChangeSids(out) <==> !Settled(items, live, s)
  {
    if s in ChangeSids(out) {
      DiffDistinct(items, live, out);
      var c :| c in out && c.sid == s;
      assert Unsettled(items, live, c);
      DistinctEntries(live);
    } else if !Settled(items, live, s) {
      UnsettledIsPending(items, live, out, s);
    }
  }

  /** How many changes are pending; every diff of the same snapshot and folder has this length. */
  function DiffCount(items: Items, live: seq<Entry>): nat {
    |LiveChanges(items, live)| + |Vanished(items, live)|
  }

  lemma DiffLength(items: Items, live: seq<Entry>, out: seq<Change>)
    requires IsDiff(items, live, out)
    ensures |out| == DiffCount(items, live)
  {
    var gone :| IsRemovalOrder(items, live, gone) && out == LiveChanges(items, live) + Removals(gone);
    RemovalsSids(gone);
    OrderedCount(gone);
  }

  // ---------- recording a part of the diff ----------

  lemma {:induction false} RecordAllOutside(items: Items, cs: seq<Change>, s: string)
    requires forall i :: 0 <= i < |cs| ==> cs[i].sid != s
    ensures s in items <==> s in RecordAll(items, cs)
    ensures s in items ==> RecordAll(items, cs)[s] == items[s]
  {
    if cs != [] {
      RecordAllOutside(items, cs[..|cs| - 1], s);
    }
  }

  /** `c` is what the snapshot says about its item. */
  predicate Recorded(items: Items, c: Change) {
    if c.kind == Removed then c.sid !in items else c.sid in items && items[c.sid] == c.version
  }

  lemma {:induction false} RecordAllInside(items: Items, cs: seq<Change>, i: nat)
    requires DistinctChanges(cs) && i < |cs|
    ensures Recorded(RecordAll(items, cs), cs[i])
  {
    if i < |cs| - 1 {
      RecordAllInside(items, cs[..|cs| - 1], i);
      assert cs[i].sid != cs[|cs| - 1].sid;
    }
  }

  /** Recording any of the pending changes takes exactly those out of the diff. */
  lemma RecordSome(items: Items, live: seq<Entry>, out: seq<Change>, sent: seq<Change>)
    requires Distinct(live) && IsDiff(items, live, out)
    requires DistinctChanges(sent) && forall c :: c in sent ==> c in out
    ensures IsDiff(RecordAll(items, sent), live, WithoutSids(out, ChangeSids(sent)))
  {
    DiffDistinct(items, live, out);
    var items' := RecordAll(items, sent);
    forall s | s !in ChangeSids(sent)
      ensures s in items <==> s in items'
      ensures s in items ==> items[s] == items'[s]
    {
      RecordAllOutside(items, sent, s);
    }
    forall s | s in ChangeSids(sent) ensures Settled(items', live, s) {
      var i :| 0 <= i < |sent| && sent[i].sid == s;
      assert Unsettled(items, live, sent[i]);
      RecordAllInside(items, sent, i);
    }
    Frame(items, live, out, items', live, ChangeSids(sent));
  }

  lemma {:induction false} WithoutNone(cs: seq<Change>, t: set<string>)
    requires forall c :: c in cs ==> c.sid !in t
    ensures WithoutSids(cs, t) == cs
  {
    if cs != [] {
      WithoutNone(cs[..|cs| - 1], t);
      assert cs[|cs| - 1] in cs;
      assert cs == cs[..|cs| - 1] + [cs[|cs| - 1]];
    }
  }

  lemma {:induction false} WithoutAll(cs: seq<Change>, t: set<string>)
    requires forall c :: c in cs ==> c.sid in t
    ensures WithoutSids(cs, t) == []
  {
    if cs != [] {
      WithoutAll(cs[..|cs| - 1], t);
      assert cs[|cs| - 1] in cs;
    }
  }

  lemma {:induction false} WithoutTwice(cs: seq<Change>, t: set<string>, u: set<string>)
    ensures WithoutSids(WithoutSids(cs, t), u) == WithoutSids(cs, t + u)
  {
    if cs != [] {
      var init, last := cs[..|cs| - 1], cs[|cs| - 1];
      WithoutTwice(init, t, u);
      if last.sid !in t {
        var kept := WithoutSids(cs, t);
        assert kept[..|kept| - 1] == WithoutSids(init, t);
      }
    }
  }

  /**
   The residual is exactly the suffix: sending and recording the first `w` changes
   leaves, as the new diff, the old one with its first `w` entries dropped.
   */
  lemma ResidualIsSuffix(items: Items, live: seq<Entry>, out: seq<Change>, w: nat)
    requires Distinct(live) && IsDiff(items, live, out) && w <= |out|
    ensures IsDiff(RecordAll(items, out[..w]), live, out[w..])
  {
    DiffDistinct(items, live, out);
    var sent := out[..w];
    RecordSome(items, live, out, sent);
    SplitSids(out, w);
  }

  /** Dropping the ids of a prefix drops the prefix. */
  lemma SplitSids(out: seq<Change>, w: nat)
    requires DistinctChanges(out) && w <= |out|
    ensures WithoutSids(out, ChangeSids(out[..w])) == out[w..]
  {
    var sent := out[..w];
    assert out == sent + out[w..];
    WithoutSidsConcat(sent, out[w..], ChangeSids(sent));
    WithoutAll(sent, ChangeSids(sent));
    forall c | c in out[w..] ensures c.sid !in ChangeSids(sent) {
      var j :| w <= j < |out| && out[j] == c;
      forall d | d in sent ensures d.sid != c.sid {
        var i :| 0 <= i < w && out[i] == d;
      }
    }
    WithoutNone(out[w..], ChangeSids(sent));
  }

  lemma OneRemoval(sid: string)
    ensures Ordered([sid]) && Elements([sid]) == {sid} && Removals([sid]) == [Change(Removed, sid, 0)]
  {
    assert [sid][..0] == [];
  }

  // ---------- there is always a diff ----------

  lemma {:induction false} LargestSid(ids: set<string>) returns (x: string)
    requires ids != {}
    ensures x in ids && forall y :: y in ids ==> !LessSid(x, y)
  {
    x :| x in ids;
    if ids != {x} {
      var y := LargestSid(ids - {x});
      forall z | z in ids ensures z == x || !LessSid(y, z) {
      }
      if LessSid(x, y) {
        x := y;
      }
    }
  }

  lemma OrderedSnoc(rest: seq<string>, x: string)
    requires Ordered(rest) && x !in rest && forall y :: y in rest ==> !LessSid(x, y)
    ensures Ordered(rest + [x]) && Elements(rest + [x]) == Elements(rest) + {x}
  {
    assert (rest + [x])[..|rest|] == rest;
  }

  lemma {:induction false} OrderExists(ids: set<string>) returns (gone: seq<string>)
    ensures Ordered(gone) && Elements(gone) == ids
  {
    gone := [];
    if ids != {} {
      var x := LargestSid(ids);
      var rest := OrderExists(ids - {x});
      forall y | y in rest ensures y in ids && y != x {
        assert y in Elements(rest);
      }
      OrderedSnoc(rest, x);
      gone := rest + [x];
    }
  }

  lemma DiffExists(items: Items, live: seq<Entry>) returns (out: seq<Change>)
    ensures IsDiff(items, live, out)
  {
    var gone := OrderExists(Vanished(items, live));
    out := LiveChanges(items, live) + Removals(gone);
  }

  // ---------- resuming after a part of the diff ----------

  lemma {:induction false} OrderedSplit(gone: seq<string>, k: nat)
    requires Ordered(gone) && k <= |gone|
    ensures Ordered(gone[..k]) && Precedes(gone[..k], gone[k..])
  {
    if k == |gone| {
      assert gone[..k] == gone;
    } else {
      var init, last := gone[..|gone| - 1], gone[|gone| - 1];
      OrderedSplit(init, k);
      assert init[..k] == gone[..k] && gone[k..] == init[k..] + [last];
    }
  }

  lemma {:induction false} OrderedConcat(a: seq<string>, b: seq<string>)
    requires Ordered(a) && Ordered(b) && Precedes(a, b)
    ensures Ordered(a + b)
  {
    if b == [] {
      assert a + b == a;
    } else {
      var init, last := b[..|b| - 1], b[|b| - 1];
      assert last in b && forall y :: y in init ==> y in b;
      OrderedConcat(a, init);
      assert (a + b)[..|a + b| - 1] == a + init && (a + b)[|a + b| - 1] == last;
      assert last !in a + init;
    }
  }

  lemma RemovalsConcat(a: seq<string>, b: seq<string>)
    ensures Removals(a + b) == Removals(a) + Removals(b)
  {
    RemovalsSids(a);
    RemovalsSids(b);
    RemovalsSids(a + b);
  }

  lemma RemovalsInjective(a: seq<string>, b: seq<string>)
    requires Removals(a) == Removals(b)
    ensures a == b
  {
    RemovalsSids(a);
    RemovalsSids(b);
    forall i | 0 <= i < |a| ensures a[i] == b[i] {
      assert Removals(a)[i] == Removals(b)[i];
    }
  }

  ghost predicate RemovedFrom(cs: seq<Change>, n: nat) {
    n <= |cs| && forall i :: 0 <= i < |cs| ==> (cs[i].kind == Removed <==> i >= n)
  }

  lemma DiffShape(items: Items, live: seq<Entry>, gone: seq<string>)
    requires IsRemovalOrder(items, live, gone)
    ensures RemovedFrom(LiveChanges(items, live) + Removals(gone), |LiveChanges(items, live)|)
  {
    var cs := LiveChanges(items, live) + Removals(gone);
    forall i | 0 <= i < |cs| ensures cs[i].kind == Removed <==> i >= |LiveChanges(items, live)| {
      DiffMembers(items, live, gone, i);
    }
  }

  lemma ShapeUnique(cs: seq<Change>, n: nat, m: nat)
    requires RemovedFrom(cs, n) && RemovedFrom(cs, m)
    ensures n == m
  {
    if n < |cs| {
      assert cs[n].kind == Removed;
    }
    if m < |cs| {
      assert cs[m].kind == Removed;
    }
  }

  /** Where the deletions of a shortened diff begin. */
  lemma ShapeAfter(cs: seq<Change>, n: nat, w: nat, m: nat)
    requires RemovedFrom(cs, n) && w <= |cs| && RemovedFrom(cs[w..], m)
    ensures m == if w <= n then n - w else 0
  {
    ShapeUnique(cs[w..], if w <= n then n - w else 0, m);
  }

  lemma ElementsConcat(a: seq<string>, b: seq<string>)
    ensures Elements(a + b) == Elements(a) + Elements(b)
  {
  }

  /** Every id of `a` may stand before every id of `b`. */
  ghost predicate Precedes(a: seq<string>, b: seq<string>) {
    forall x, y :: x in a && y in b ==> x != y && !LessSid(y, x)
  }

  lemma TailFollows(head: seq<string>, left: seq<string>, tail: seq<string>)
    requires Elements(tail) == Elements(left) && Precedes(head, left)
    ensures Precedes(head, tail)
  {
    forall x, y | x in head && y in tail ensures x != y && !LessSid(y, x) {
      assert y in Elements(tail);
      assert y in left;
    }
  }

  lemma ReorderedElements(gone: seq<string>, k: nat, tail: seq<string>)
    requires k <= |gone| && Elements(tail) == Elements(gone[k..])
    ensures Elements(gone[..k] + tail) == Elements(gone)
  {
    ElementsConcat(gone[..k], gone[k..]);
    ElementsConcat(gone[..k], tail);
    assert gone == gone[..k] + gone[k..];
  }

  lemma ReorderedTail(items: Items, live: seq<Entry>, gone: seq<string>, k: nat, tail: seq<string>)
    requires IsRemovalOrder(items, live, gone) && k <= |gone|
    requires Ordered(tail) && Elements(tail) == Elements(gone[k..])
    ensures IsRemovalOrder(items, live, gone[..k] + tail)
  {
    OrderedSplit(gone, k);
    TailFollows(gone[..k], gone[k..], tail);
    OrderedConcat(gone[..k], tail);
    ReorderedElements(gone, k, tail);
  }

  lemma SplitAt<T>(a: seq<T>, b: seq<T>, c: seq<T>, d: seq<T>)
    requires a + b == c + d && |a| == |c|
    ensures a == c && b == d
  {
    assert a == (a + b)[..|a|] == (c + d)[..|a|] == c;
    assert b == (a + b)[|a|..] == (c + d)[|a|..] == d;
  }

  lemma CutAt<T>(a: seq<T>, b: seq<T>)
    ensures (a + b)[..|a|] == a && (a + b)[|a|..] == b
  {
  }

  /** The part sent ends among the additions and modifications. */
  lemma ResumeLive(l: seq<Change>, gone: seq<string>, w: nat, l': seq<Change>, left: seq<string>, tail: seq<string>)
    requires w <= |l| && |l'| == |l| - w && (l + Removals(gone))[w..] == l' + Removals(left)
    ensures left == gone && (l + Removals(gone))[..w] + (l' + Removals(tail)) == l + Removals(tail)
  {
    assert (l + Removals(gone))[w..] == l[w..] + Removals(gone);
    SplitAt(l[w..], Removals(gone), l', Removals(left));
    RemovalsInjective(left, gone);
    assert (l + Removals(gone))[..w] == l[..w];
    assert l[..w] + (l[w..] + Removals(tail)) == (l[..w] + l[w..]) + Removals(tail);
    assert l[..w] + l[w..] == l;
  }

  lemma RemovalsSplit(gone: seq<string>, k: nat)
    requires k <= |gone|
    ensures Removals(gone) == Removals(gone[..k]) + Removals(gone[k..]) && |Removals(gone[..k])| == k
  {
    assert gone == gone[..k] + gone[k..];
    RemovalsConcat(gone[..k], gone[k..]);
    RemovalsSids(gone[..k]);
  }

  /** The part sent ends among the deletions. */
  lemma ResumeRemovals(l: seq<Change>, gone: seq<string>, k: nat, left: seq<string>, tail: seq<string>)
    requires k <= |gone| && |l| + k <= |l + Removals(gone)| && (l + Removals(gone))[|l| + k..] == Removals(left)
    ensures left == gone[k..]
    ensures (l + Removals(gone))[..|l| + k] + Removals(tail) == l + Removals(gone[..k] + tail)
  {
    RemovalsSplit(gone, k);
    RemovalsConcat(gone[..k], tail);
    CutThree(l, Removals(gone[..k]), Removals(gone[k..]), Removals(tail));
    RemovalsInjective(left, gone[k..]);
  }

  lemma CutThree<T>(a: seq<T>, b: seq<T>, c: seq<T>, d: seq<T>)
    ensures (a + (b + c))[|a| + |b|..] == c && (a + (b + c))[..|a| + |b|] + d == a + (b + d)
  {
    assert a + (b + c) == (a + b) + c;
    CutAt(a + b, c);
    assert (a + b) + d == a + (b + d);
  }

  /**
   Resuming: what was sent of a diff, followed by any diff the server computes afterwards,
   is a diff of the snapshot as it was before.
   */
  lemma Resume(items: Items, live: seq<Entry>, out: seq<Change>, w: nat, rest: seq<Change>)
    requires Distinct(live) && IsDiff(items, live, out) && w <= |out|
    requires IsDiff(RecordAll(items, out[..w]), live, rest)
    ensures IsDiff(items, live, out[..w] + rest)
  {
    var items' := RecordAll(items, out[..w]);
    ResidualIsSuffix(items, live, out, w);
    var gone :| IsRemovalOrder(items, live, gone) && out == LiveChanges(items, live) + Removals(gone);
    var left :| IsRemovalOrder(items', live, left) && out[w..] == LiveChanges(items', live) + Removals(left);
    var tail :| IsRemovalOrder(items', live, tail) && rest == LiveChanges(items', live) + Removals(tail);
    ResumeWith(items, items', live, out, w, gone, left, tail);
  }

  lemma ResumeWith(items: Items, items': Items, live: seq<Entry>, out: seq<Change>, w: nat,
                   gone: seq<string>, left: seq<string>, tail: seq<string>)
    requires w <= |out|
    requires IsRemovalOrder(items, live, gone) && out == LiveChanges(items, live) + Removals(gone)
    requires IsRemovalOrder(items', live, left) && out[w..] == LiveChanges(items', live) + Removals(left)
    requires IsRemovalOrder(items', live, tail)
    ensures IsDiff(items, live, out[..w] + (LiveChanges(items', live) + Removals(tail)))
  {
    var l, l' := LiveChanges(items, live), LiveChanges(items', live);
    DiffShape(items, live, gone);
    DiffShape(items', live, left);
    ShapeAfter(out, |l|, w, |l'|);
    if w <= |l| {
      ResumeLive(l, gone, w, l', left, tail);
      assert IsRemovalOrder(items, live, tail);
    } else {
      RemovalsSids(gone);
      NothingBefore(l', Removals(left));
      NothingBefore(l', Removals(tail));
      ResumeRemovals(l, gone, w - |l|, left, tail);
      ResumeAmongRemovals(items, live, gone, w - |l|, tail, out[..w] + Removals(tail));
    }
  }

  lemma ResumeAmongRemovals(items: Items, live: seq<Entry>, gone: seq<string>, k: nat, tail: seq<string>,
                            text: seq<Change>)
    requires IsRemovalOrder(items, live, gone) && k <= |gone| && Ordered(tail) && Elements(tail) == Elements(gone[k..])
    requires text == LiveChanges(items, live) + Removals(gone[..k] + tail)
    ensures IsDiff(items, live, text)
  {
    ReorderedTail(items, live, gone, k, tail);
  }

  lemma NothingBefore<T>(a: seq<T>, b: seq<T>)
    requires |a| == 0
    ensures a + b == b
  {
  }

  // ---------- agreement ----------

  lemma {:induction false} AsItemsKeys(live: seq<Entry>)
    ensures forall s :: s in AsItems(live) <==> s in Sids(live)
  {
    if live != [] {
      var init, last := live[..|live| - 1], live[|live| - 1];
      AsItemsKeys(init);
      assert live == init + [last];
      assert Sids(live) == Sids(init) + {last.sid};
    }
  }

  lemma {:induction false} AsItemsAt(live: seq<Entry>, i: nat)
    requires Distinct(live) && i < |live|
    ensures live[i].sid in AsItems(live) && AsItems(live)[live[i].sid] == live[i].version
  {
    if i < |live| - 1 {
      AsItemsAt(live[..|live| - 1], i);
      assert live[i].sid != live[|live| - 1].sid;
    }
  }

  ghost predicate AllHeld(items: Items, live: seq<Entry>) {
    forall i :: 0 <= i < |live| ==> live[i].sid in items && items[live[i].sid] == live[i].version
  }

  lemma {:induction false} NoLiveChanges(items: Items, live: seq<Entry>)
    ensures LiveChanges(items, live) == [] <==> AllHeld(items, live)
  {
    if live != [] {
      var init := live[..|live| - 1];
      NoLiveChanges(items, init);
      assert AllHeld(items, live) <==> AllHeld(items, init) && Pending(items, live[|live| - 1]) == [];
    }
  }

  lemma AgreeIffHeld(items: Items, live: seq<Entry>)
    requires Distinct(live)
    ensures items == AsItems(live) <==> AllHeld(items, live) && Vanished(items, live) == {}
  {
    AsItemsKeys(live);
    if items == AsItems(live) {
      forall i | 0 <= i < |live| ensures live[i].sid in items && items[live[i].sid] == live[i].version {
        AsItemsAt(live, i);
      }
    }
    if AllHeld(items, live) && Vanished(items, live) == {} {
      forall s | s in items ensures s in AsItems(live) && items[s] == AsItems(live)[s] {
        assert s !in Vanished(items, live);
        assert s in Sids(live);
        var i :| 0 <= i < |live| && live[i].sid == s;
        AsItemsAt(live, i);
      }
      assert items.Keys == AsItems(live).Keys by {
        forall s | s in AsItems(live).Keys ensures s in items.Keys {
          var i :| 0 <= i < |live| && live[i].sid == s;
        }
      }
    }
  }

  /** Nothing is pending exactly when the snapshot is the folder. */
  lemma NothingPendingIffAgree(items: Items, live: seq<Entry>)
    requires Distinct(live)
    ensures DiffCount(items, live) == 0 <==> items == AsItems(live)
    ensures IsDiff(items, live, []) <==> items == AsItems(live)
  {
    NoLiveChanges(items, live);
    AgreeIffHeld(items, live);
    if IsDiff(items, live, []) {
      DiffLength(items, live, []);
    }
    if DiffCount(items, live) == 0 {
      assert IsRemovalOrder(items, live, []);
      assert [] == LiveChanges(items, live) + Removals([]);
    }
  }

  // ---------- when the diff is unique ----------

  lemma LastLargest(a: seq<string>, s: string)
    requires Ordered(a) && s in a
    ensures SidValue(s) <= SidValue(a[|a| - 1])
  {
    var init, last := a[..|a| - 1], a[|a| - 1];
    assert a == init + [last];
    assert s in init || s == last;
  }

  lemma LastUnique(a: seq<string>, b: seq<string>)
    requires Ordered(a) && Ordered(b) && Elements(a) == Elements(b) && a != [] && b != []
    requires forall s, t :: s in a && t in a && SidValue(s) == SidValue(t) ==> s == t
    ensures a[|a| - 1] == b[|b| - 1]
  {
    var la, lb := a[|a| - 1], b[|b| - 1];
    assert la in Elements(b) && lb in Elements(a);
    LastLargest(a, lb);
    LastLargest(b, la);
  }

  lemma WithoutLast(a: seq<string>)
    requires Ordered(a) && a != []
    ensures Ordered(a[..|a| - 1]) && Elements(a[..|a| - 1]) == Elements(a) - {a[|a| - 1]}
  {
    assert a == a[..|a| - 1] + [a[|a| - 1]];
  }

  /** Where numeric value determines spelling, the deletion order is forced. */
  lemma {:induction false} OrderUnique(a: seq<string>, b: seq<string>)
    requires Ordered(a) && Ordered(b) && Elements(a) == Elements(b)
    requires forall s, t :: s in a && t in a && SidValue(s) == SidValue(t) ==> s == t
    ensures a == b
  {
    OrderedCount(a);
    OrderedCount(b);
    if a != [] {
      var ia, ib := a[..|a| - 1], b[..|b| - 1];
      LastUnique(a, b);
      WithoutLast(a);
      WithoutLast(b);
      OrderUnique(ia, ib);
      assert a == ia + [a[|a| - 1]] && b == ib + [b[|b| - 1]];
    }
  }

  lemma DiffUnique(items: Items, live: seq<Entry>, a: seq<Change>, b: seq<Change>)
    requires IsDiff(items, live, a) && IsDiff(items, live, b)
    requires forall s, t :: s in Vanished(items, live) && t in Vanished(items, live) && SidValue(s) == SidValue(t) ==>
             s == t
    ensures a == b
  {
    var ga :| IsRemovalOrder(items, live, ga) && a == LiveChanges(items, live) + Removals(ga);
    var gb :| IsRemovalOrder(items, live, gb) && b == LiveChanges(items, live) + Removals(gb);
    forall s, t | s in ga && t in ga && SidValue(s) == SidValue(t) ensures s == t {
      assert s in Elements(ga) && t in Elements(ga);
    }
    OrderUnique(ga, gb);
  }
}
