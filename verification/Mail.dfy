/**
 A mail folder and the client commands a Sync applies to it: the read flag and
 the delete, each folded into the device snapshot so that the diff that follows
 does not echo the device's own change.
 */
module Mail {
  import opened Strconv
  import opened Snapshot

  /** One row of the IMAP index: uid, object id and the flag mask (bit 0 is Seen). */
  datatype Message = Message(uid: nat, id: int, flags: int)

  /** The listing is ordered by uid, and a uid is a 32-bit counter that is never reused. */
  ghost predicate ValidFolder(f: seq<Message>) {
    && (forall i :: 0 <= i < |f| ==> f[i].uid < TWO_32)
    && (forall i, j :: 0 <= i < j < |f| ==> f[i].uid < f[j].uid)
  }

  function Sid(uid: nat): string {
    FormatUint(uid)
  }

  function ToEntry(m: Message): Entry {
    Entry(Sid(m.uid), m.flags)
  }

  function Listing(f: seq<Message>): (r: seq<Entry>)
    ensures |r| == |f|
    ensures forall i :: 0 <= i < |f| ==> r[i] == ToEntry(f[i])
  {
    seq(|f|, i requires 0 <= i < |f| => ToEntry(f[i]))
  }

  predicate Seen(flags: int) {
    flags % 2 == 1
  }

  /** flags | FlagSeen: the other flags stay. */
  function SetSeen(flags: int): (r: int)
    ensures Seen(r) && r / 2 == flags / 2
  {
    if Seen(flags) then flags else flags + 1
  }

  /** flags &^ FlagSeen: the other flags stay. */
  function ClearSeen(flags: int): (r: int)
    ensures !Seen(r) && r / 2 == flags / 2
  {
    if Seen(flags) then flags - 1 else flags
  }

  /** The position of a uid, or the length when the folder does not hold it. */
  function Find(f: seq<Message>, uid: nat): (k: nat)
    ensures k <= |f|
    ensures k < |f| ==> f[k].uid == uid
    ensures forall i :: 0 <= i < k ==> f[i].uid != uid
  {
    if f == [] then 0 else if f[0].uid == uid then 0 else 1 + Find(f[1..], uid)
  }

  // ---------- commands ----------

  /**
   A client command as the server reads it. A Change carries its ApplicationData,
   if any, and of that only the text of the Read element ("" when absent).
   */
  datatype Command =
    | ChangeCmd(sid: string, data: Option<string>)
    | DeleteCmd(sid: string)
    | OtherCmd(sid: string)

  datatype State = State(folder: seq<Message>, items: Items)

  function ApplyRead(flags: int, text: string): int {
    if text == "1" then SetSeen(flags) else if text == "0" then ClearSeen(flags) else flags
  }

  /** The position of the message a command reaches in the store, or the length when it reaches none. */
  function Target(f: seq<Message>, cmd: Command): (k: nat)
    ensures k <= |f|
  {
    match ParseUint(cmd.sid, TWO_32)
    case None => |f|
    case Some(uid) =>
      match cmd
      case ChangeCmd(_, None) => |f|
      case OtherCmd(_) => |f|
      case _ => Find(f, uid)
  }

  /** The command changed the store. */
  predicate Succeeds(f: seq<Message>, cmd: Command) {
    Target(f, cmd) < |f|
  }

  function Without(f: seq<Message>, k: nat): seq<Message>
    requires k < |f|
  {
    f[..k] + f[k + 1..]
  }

  function Apply(st: State, cmd: Command): State {
    var k := Target(st.folder, cmd);
    if k == |st.folder| then st
    else if cmd.ChangeCmd? then
      var m := st.folder[k];
      var cur := ApplyRead(m.flags, if cmd.data.Some? then cmd.data.value else "");
      State(st.folder[k := m.(flags := cur)], st.items[cmd.sid := cur])
    else
      State(Without(st.folder, k), st.items - {cmd.sid})
  }

  function ApplyAll(st: State, cmds: seq<Command>): State {
    if cmds == [] then st else Apply(ApplyAll(st, cmds[..|cmds| - 1]), cmds[|cmds| - 1])
  }

  /** The ids some command of the batch succeeded on. */
  function Touched(st: State, cmds: seq<Command>): set<string> {
    if cmds == [] then {}
    else
      var init, last := cmds[..|cmds| - 1], cmds[|cmds| - 1];
      Touched(st, init) + if Succeeds(ApplyAll(st, init).folder, last) then {last.sid} else {}
  }

  /** A server id in the spelling the server issues, or one no uid has. */
  ghost predicate IssuedSpelling(s: string) {
    var p := ParseUint(s, TWO_32);
    p.Some? ==> s == Sid(p.value)
  }

  // ---------- basic facts ----------

  lemma ListingDistinct(f: seq<Message>)
    requires ValidFolder(f)
    ensures Distinct(Listing(f))
  {
    var r := Listing(f);
    forall i, j | 0 <= i < j < |r| ensures r[i].sid != r[j].sid {
      if r[i].sid == r[j].sid {
        FormatUintInjective(f[i].uid, f[j].uid);
      }
    }
  }

  lemma SidListed(f: seq<Message>, uid: nat)
    ensures Sid(uid) in Sids(Listing(f)) <==> Find(f, uid) < |f|
  {
    var k := Find(f, uid);
    if k < |f| {
      assert Listing(f)[k] in Listing(f);
    }
    if Sid(uid) in Sids(Listing(f)) {
      var i :| 0 <= i < |f| && Listing(f)[i].sid == Sid(uid);
      FormatUintInjective(f[i].uid, uid);
    }
  }

  /** Where the message at position `i` of the new folder was before the command. */
  function SourceIndex(f: seq<Message>, cmd: Command, i: nat): nat {
    if cmd.ChangeCmd? || i < Target(f, cmd) then i else i + 1
  }

  lemma ApplyUids(st: State, cmd: Command, i: nat)
    requires i < |Apply(st, cmd).folder|
    ensures SourceIndex(st.folder, cmd, i) < |st.folder| || !Succeeds(st.folder, cmd)
    ensures var j := if Succeeds(st.folder, cmd) then SourceIndex(st.folder, cmd, i) else i;
            Apply(st, cmd).folder[i].uid == st.folder[j].uid
  {
  }

  lemma ApplyValid(st: State, cmd: Command)
    requires ValidFolder(st.folder)
    ensures ValidFolder(Apply(st, cmd).folder)
  {
    var f' := Apply(st, cmd).folder;
    forall i | 0 <= i < |f'| ensures f'[i].uid < TWO_32 {
      ApplyUids(st, cmd, i);
    }
    forall i, j | 0 <= i < j < |f'| ensures f'[i].uid < f'[j].uid {
      ApplyUids(st, cmd, i);
      ApplyUids(st, cmd, j);
    }
  }

  function Uids(f: seq<Message>): set<nat> {
    set m | m in f :: m.uid
  }

  lemma {:induction false} ApplyAllValid(st: State, cmds: seq<Command>)
    requires ValidFolder(st.folder)
    ensures ValidFolder(ApplyAll(st, cmds).folder)
    ensures Uids(ApplyAll(st, cmds).folder) <= Uids(st.folder)
  {
    if cmds != [] {
      ApplyAllValid(st, cmds[..|cmds| - 1]);
      ApplyValid(ApplyAll(st, cmds[..|cmds| - 1]), cmds[|cmds| - 1]);
    }
  }

  // ---------- no echo, and nothing else moves ----------

  /** Rewriting or dropping the one entry of an id leaves the entries outside it. */
  lemma OutsideReplace(a: seq<Entry>, k: nat, mid: seq<Entry>, t: set<string>)
    requires k < |a| && a[k].sid in t
    requires mid == [] || (|mid| == 1 && mid[0].sid in t)
    ensures EntriesOutside(a[..k] + mid + a[k + 1..], t) == EntriesOutside(a, t)
  {
    assert a == a[..k] + [a[k]] + a[k + 1..];
    OutsideConcat(a[..k] + [a[k]], a[k + 1..], t);
    OutsideConcat(a[..k], [a[k]], t);
    OutsideConcat(a[..k] + mid, a[k + 1..], t);
    OutsideConcat(a[..k], mid, t);
    assert [a[k]][..0] == [];
    assert EntriesOutside([a[k]], t) == [];
    assert EntriesOutside(mid, t) == [] by {
      if mid != [] {
        assert mid[..0] == [];
      }
    }
  }

  lemma ChangeSettles(st: State, cmd: Command)
    requires cmd.ChangeCmd? && Succeeds(st.folder, cmd) && IssuedSpelling(cmd.sid)
    ensures var st' := Apply(st, cmd);
            && Settled(st'.items, Listing(st'.folder), cmd.sid)
            && EntriesOutside(Listing(st.folder), {cmd.sid}) == EntriesOutside(Listing(st'.folder), {cmd.sid})
  {
    var f, f', k := st.folder, Apply(st, cmd).folder, Target(st.folder, cmd);
    var l, l' := Listing(f), Listing(f');
    assert l' == l[..k] + [ToEntry(f'[k])] + l[k + 1..];
    OutsideReplace(l, k, [ToEntry(f'[k])], {cmd.sid});
    assert l'[k] in l';
  }

  lemma WithoutNotFound(f: seq<Message>, k: nat)
    requires ValidFolder(f) && k < |f|
    ensures Sid(f[k].uid) !in Sids(Listing(Without(f, k)))
  {
    var f' := Without(f, k);
    forall i | 0 <= i < |f'| ensures f'[i].uid != f[k].uid {
      assert f'[i] == f[if i < k then i else i + 1];
    }
    SidListed(f', f[k].uid);
  }

  lemma DeleteSettles(st: State, cmd: Command)
    requires ValidFolder(st.folder) && cmd.DeleteCmd? && Succeeds(st.folder, cmd) && IssuedSpelling(cmd.sid)
    ensures var st' := Apply(st, cmd);
            && Settled(st'.items, Listing(st'.folder), cmd.sid)
            && EntriesOutside(Listing(st.folder), {cmd.sid}) == EntriesOutside(Listing(st'.folder), {cmd.sid})
  {
    var f, k := st.folder, Target(st.folder, cmd);
    var l, l' := Listing(f), Listing(Without(f, k));
    assert l' == l[..k] + [] + l[k + 1..];
    OutsideReplace(l, k, [], {cmd.sid});
    WithoutNotFound(f, k);
  }

  /** One command in issued spelling takes at most its own item out of the diff. */
  lemma CommandFrame(st: State, cmd: Command, out: seq<Change>)
    requires ValidFolder(st.folder) && IssuedSpelling(cmd.sid)
    requires IsDiff(st.items, Listing(st.folder), out)
    ensures var st' := Apply(st, cmd);
            var t := if Succeeds(st.folder, cmd) then {cmd.sid} else {};
            IsDiff(st'.items, Listing(st'.folder), WithoutSids(out, t))
  {
    var st' := Apply(st, cmd);
    if Succeeds(st.folder, cmd) {
      if cmd.ChangeCmd? {
        ChangeSettles(st, cmd);
      } else {
        DeleteSettles(st, cmd);
      }
      ApplyValid(st, cmd);
      ListingDistinct(st'.folder);
      Frame(st.items, Listing(st.folder), out, st'.items, Listing(st'.folder), {cmd.sid});
    } else {
      WithoutNone(out, {});
    }
  }

  /**
   No echo plus frame: after any batch of commands in issued spelling, repeats and a
   Change after a Delete included, the pending changes are the earlier ones with
   exactly the items of the successful commands taken out, in the same order.
   */
  lemma {:induction false} NoEcho(st: State, cmds: seq<Command>, out: seq<Change>)
    requires ValidFolder(st.folder)
    requires forall c :: c in cmds ==> IssuedSpelling(c.sid)
    requires IsDiff(st.items, Listing(st.folder), out)
    ensures var st' := ApplyAll(st, cmds);
            IsDiff(st'.items, Listing(st'.folder), WithoutSids(out, Touched(st, cmds)))
  {
    if cmds == [] {
      WithoutNone(out, {});
    } else {
      var init, last := cmds[..|cmds| - 1], cmds[|cmds| - 1];
      NoEcho(st, init, out);
      ApplyAllValid(st, init);
      assert last in cmds;
      var mid := ApplyAll(st, init);
      CommandFrame(mid, last, WithoutSids(out, Touched(st, init)));
      WithoutTwice(out, Touched(st, init), if Succeeds(mid.folder, last) then {last.sid} else {});
    }
  }

  /**
   The spelling condition is exact: a successful Change leaves the id it used settled if
   and only if that is spelled as issued. "007" reaches message 7 but is recorded under
   its own spelling, which no listing holds, and comes back as a deletion.
   */
  lemma ChangeSettlesIffIssued(st: State, cmd: Command)
    requires ValidFolder(st.folder) && cmd.ChangeCmd? && Succeeds(st.folder, cmd)
    ensures var st' := Apply(st, cmd);
            && (Settled(st'.items, Listing(st'.folder), cmd.sid) <==> IssuedSpelling(cmd.sid))
            && (!IssuedSpelling(cmd.sid) ==> cmd.sid in Vanished(st'.items, Listing(st'.folder)))
  {
    var st' := Apply(st, cmd);
    var l' := Listing(st'.folder);
    if IssuedSpelling(cmd.sid) {
      ChangeSettles(st, cmd);
    } else if cmd.sid in Sids(l') {
      var i :| 0 <= i < |l'| && l'[i].sid == cmd.sid;
      ParseFormatUint(st'.folder[i].uid, TWO_32);
      ApplyValid(st, cmd);
      assert false;
    }
  }

  /** A folder lists each message once, with its flags. */
  lemma ListedAs(f: seq<Message>, k: nat, version: int)
    requires ValidFolder(f) && k < |f|
    ensures Entry(Sid(f[k].uid), version) in Listing(f) <==> version == f[k].flags
  {
    assert Listing(f)[k] in Listing(f);
    ListingDistinct(f);
    DistinctEntries(Listing(f));
  }

  /**
   The message a Change reaches, whatever the spelling: its own id is settled afterwards
   exactly when the Change named it, or the snapshot already held the new flags.
   */
  lemma ChangeReachedSettlesIff(st: State, cmd: Command)
    requires ValidFolder(st.folder) && cmd.ChangeCmd? && Succeeds(st.folder, cmd)
    ensures var m, st' := st.folder[Target(st.folder, cmd)], Apply(st, cmd);
            Settled(st'.items, Listing(st'.folder), Sid(m.uid)) <==>
            || cmd.sid == Sid(m.uid)
            || (Sid(m.uid) in st.items && st.items[Sid(m.uid)] == ApplyRead(m.flags, cmd.data.value))
  {
    var k, st' := Target(st.folder, cmd), Apply(st, cmd);
    var sid := Sid(st.folder[k].uid);
    ApplyValid(st, cmd);
    assert Listing(st'.folder)[k] in Listing(st'.folder);
    if sid in st'.items {
      ListedAs(st'.folder, k, st'.items[sid]);
    }
  }

  /**
   The message a Delete reaches: its id is settled exactly when the Delete named it, or the
   snapshot had never held it.
   */
  lemma DeleteReachedSettlesIff(st: State, cmd: Command)
    requires ValidFolder(st.folder) && cmd.DeleteCmd? && Succeeds(st.folder, cmd)
    ensures var m, st' := st.folder[Target(st.folder, cmd)], Apply(st, cmd);
            Settled(st'.items, Listing(st'.folder), Sid(m.uid)) <==> cmd.sid == Sid(m.uid) || Sid(m.uid) !in st.items
  {
    var k, st' := Target(st.folder, cmd), Apply(st, cmd);
    var sid, l' := Sid(st.folder[k].uid), Listing(st'.folder);
    WithoutNotFound(st.folder, k);
    assert sid in st'.items ==> (Entry(sid, st'.items[sid]) in l' ==> sid in Sids(l'));
  }

  const SEVEN := State([Message(7, 70, 0)], map["7" := 0])

  lemma ReadsSeven()
    ensures ParseUint("007", TWO_32) == Some(7) && Sid(7) == "7" && SidValue("7") == SidValue("007") == 7
  {
    assert "007"[..2] == "00" && "00"[..1] == "0" && "0"[..0] == "" && "7"[..0] == "";
    assert DigitsValue("0") == 0 && DigitsValue("00") == 0 && DigitsValue("007") == 7 && DigitsValue("7") == 7;
  }

  /**
   "007" reaches message 7: a Change of it is sent back together with a deletion of "007",
   a Delete as a deletion of "7".
   */
  lemma OddSpellingEchoes()
    ensures var st := Apply(SEVEN, ChangeCmd("007", Some("1")));
            && st.folder == [Message(7, 70, 1)]
            && IsDiff(st.items, Listing(st.folder), [Change(Modified, "7", 1), Change(Removed, "007", 0)])
    ensures var st := Apply(SEVEN, DeleteCmd("007"));
            st.folder == [] && IsDiff(st.items, Listing(st.folder), [Change(Removed, "7", 0)])
  {
    ReadsSeven();
    OddChangeEchoes();
    OddDeleteEchoes();
  }

  lemma OddChangeEchoes()
    requires ParseUint("007", TWO_32) == Some(7) && Sid(7) == "7"
    ensures var st := Apply(SEVEN, ChangeCmd("007", Some("1")));
            && st.folder == [Message(7, 70, 1)]
            && IsDiff(st.items, Listing(st.folder), [Change(Modified, "7", 1), Change(Removed, "007", 0)])
  {
    var st := Apply(SEVEN, ChangeCmd("007", Some("1")));
    var l := Listing(st.folder);
    assert st == State([Message(7, 70, 1)], map["7" := 0, "007" := 1]);
    assert l == [Entry("7", 1)] && l[..0] == [];
    assert LiveChanges(st.items, l) == [Change(Modified, "7", 1)];
    OneRemoval("007");
    assert Sids(l) == {"7"};
    assert Vanished(st.items, l) == {"007"};
    assert IsRemovalOrder(st.items, l, ["007"]);
  }

  lemma OddDeleteEchoes()
    requires ParseUint("007", TWO_32) == Some(7) && Sid(7) == "7"
    ensures var st := Apply(SEVEN, DeleteCmd("007"));
            st.folder == [] && IsDiff(st.items, Listing(st.folder), [Change(Removed, "7", 0)])
  {
    var st := Apply(SEVEN, DeleteCmd("007"));
    assert st.folder == [] && st.items == map["7" := 0];
    OneRemoval("7");
    assert Vanished(st.items, []) == {"7"};
    assert IsRemovalOrder(st.items, [], ["7"]);
    assert Listing([]) == [] && LiveChanges(st.items, []) == [];
  }

  // ---------- read receipts ----------

  /** The message's id, if it is unread and the folder `f'` holds it as read. */
  function ReadStep(m: Message, f': seq<Message>): seq<int> {
    var k := Find(f', m.uid);
    if k < |f'| && !Seen(m.flags) && Seen(f'[k].flags) then [m.id] else []
  }

  /** Messages unread in `f` and read in `f'`, by object id, in folder order. */
  function NewlyRead(f: seq<Message>, f': seq<Message>): seq<int> {
    if f == [] then [] else NewlyRead(f[..|f| - 1], f') + ReadStep(f[|f| - 1], f')
  }

  /** The unread-to-read transitions of a batch, read off the folder before and after each command. */
  function ReadTransitions(st: State, cmds: seq<Command>): seq<int> {
    if cmds == [] then []
    else
      var init := cmds[..|cmds| - 1];
      ReadTransitions(st, init) + NewlyRead(ApplyAll(st, init).folder, ApplyAll(st, cmds).folder)
  }

  lemma {:induction false} NewlyReadNone(f: seq<Message>, g': seq<Message>)
    requires forall i :: 0 <= i < |f| ==> ReadStep(f[i], g') == []
    ensures NewlyRead(f, g') == []
  {
    if f != [] {
      NewlyReadNone(f[..|f| - 1], g');
    }
  }

  lemma ReadStepAt(g: seq<Message>, k: nat, m': Message, i: nat)
    requires k < |g| && i < |g| && ValidFolder(g) && m'.uid == g[k].uid
    ensures ReadStep(g[i], g[k := m']) == if i == k && !Seen(g[k].flags) && Seen(m'.flags) then [g[k].id] else []
  {
    FindAt(g, g[k := m'], i);
  }

  lemma {:induction false} NewlyReadSingle(f: seq<Message>, f': seq<Message>, k: nat)
    requires k < |f|
    requires forall i :: 0 <= i < |f| && i != k ==> ReadStep(f[i], f') == []
    ensures NewlyRead(f, f') == ReadStep(f[k], f')
  {
    var init := f[..|f| - 1];
    if k == |f| - 1 {
      NewlyReadNone(init, f');
    } else {
      NewlyReadSingle(init, f', k);
    }
  }

  /** A uid-preserving rewrite of a folder is searched at the same positions. */
  lemma FindAt(g: seq<Message>, g': seq<Message>, i: nat)
    requires i < |g| == |g'| && ValidFolder(g)
    requires forall j :: 0 <= j < |g| ==> g[j].uid == g'[j].uid
    ensures Find(g', g[i].uid) == i
  {
    var k := Find(g', g[i].uid);
    assert g'[i].uid == g[i].uid;
    assert k <= i;
    assert g[k].uid == g[i].uid;
  }

  /** What applyReadFlag reports for a Change on position `k`. */
  lemma ChangeTransition(st: State, cmd: Command)
    requires ValidFolder(st.folder) && cmd.ChangeCmd? && Succeeds(st.folder, cmd)
    ensures var k := Target(st.folder, cmd);
            var f' := Apply(st, cmd).folder;
            NewlyRead(st.folder, f') ==
            if !Seen(st.folder[k].flags) && Seen(f'[k].flags) then [st.folder[k].id] else []
  {
    var k := Target(st.folder, cmd);
    var f, m' := st.folder, Apply(st, cmd).folder[k];
    forall i | 0 <= i < |f| ensures i != k ==> ReadStep(f[i], f[k := m']) == [] {
      ReadStepAt(f, k, m', i);
    }
    ReadStepAt(f, k, m', k);
    NewlyReadSingle(f, f[k := m'], k);
  }

  lemma SilentTransition(st: State, cmd: Command)
    requires ValidFolder(st.folder)
    requires !cmd.ChangeCmd? || !Succeeds(st.folder, cmd)
    ensures NewlyRead(st.folder, Apply(st, cmd).folder) == []
  {
    var f, f' := st.folder, Apply(st, cmd).folder;
    var k := Target(f, cmd);
    forall i | 0 <= i < |f| ensures ReadStep(f[i], f') == [] {
      var j := Find(f', f[i].uid);
      if j < |f'| {
        var j0 := if k == |f| || j < k then j else j + 1;
        assert f'[j] == f[j0];
        assert f[i].uid == f[j0].uid;
      }
    }
    NewlyReadNone(f, f');
  }
}
