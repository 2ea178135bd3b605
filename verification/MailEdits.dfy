/**
 What a device's batch of edits leaves of a mail folder, message by message, read off the
 commands as they were sent.
 */
module MailEdits {
  import opened Strconv
  import opened Snapshot
  import opened Mail

  /** The command names the message: its server id spells the uid, which is a 32-bit number. */
  predicate Names(cmd: Command, uid: nat) {
    ParseUint(cmd.sid, 0x1_0000_0000) == Some(uid)
  }

  predicate DeletesIt(cmd: Command, uid: nat) {
    cmd.DeleteCmd? && Names(cmd, uid)
  }

  /** A Change with Read "1" marks the message read, one with "0" unread. */
  predicate Marks(cmd: Command, uid: nat, read: bool) {
    cmd.ChangeCmd? && Names(cmd, uid) && cmd.data == Some(if read then "1" else "0")
  }

  /** The message of a uid. */
  function At(f: seq<Message>, uid: nat): Option<Message> {
    if Find(f, uid) < |f| then Some(f[Find(f, uid)]) else None
  }

  lemma FoundAt(f: seq<Message>, k: nat)
    requires ValidFolder(f) && k < |f|
    ensures At(f, f[k].uid) == Some(f[k])
  {
    var j := Find(f, f[k].uid);
    assert j == k;
  }

  lemma NotFound(f: seq<Message>, uid: nat)
    requires forall k :: 0 <= k < |f| ==> f[k].uid != uid
    ensures At(f, uid) == None
  {
  }

  /** The lowest flag set or cleared, the others as they were. */
  function WithRead(flags: int, read: bool): int {
    flags - flags % 2 + if read then 1 else 0
  }

  /** A message after a command: gone, marked, or as it was. */
  function Edited(m: Message, cmd: Command): Option<Message> {
    if DeletesIt(cmd, m.uid) then None
    else if Marks(cmd, m.uid, true) then Some(m.(flags := WithRead(m.flags, true)))
    else if Marks(cmd, m.uid, false) then Some(m.(flags := WithRead(m.flags, false)))
    else Some(m)
  }

  lemma ChangedAt(f: seq<Message>, k: nat, m': Message, uid: nat)
    requires ValidFolder(f) && k < |f| && m'.uid == f[k].uid
    ensures At(f[k := m'], uid) == if uid == f[k].uid then Some(m') else At(f, uid)
  {
    var f' := f[k := m'];
    assert ValidFolder(f');
    if At(f, uid).Some? {
      FoundAt(f', Find(f, uid));
    } else {
      NotFound(f', uid);
    }
    FoundAt(f', k);
  }

  lemma RemovedAt(f: seq<Message>, k: nat, uid: nat)
    requires ValidFolder(f) && k < |f|
    ensures At(Without(f, k), uid) == if uid == f[k].uid then None else At(f, uid)
  {
    var f' := Without(f, k);
    forall i | 0 <= i < |f'| ensures f'[i] == f[if i < k then i else i + 1] {
    }
    assert ValidFolder(f');
    if uid == f[k].uid || At(f, uid).None? {
      NotFound(f', uid);
    } else {
      var j := Find(f, uid);
      FoundAt(f', if j < k then j else j - 1);
    }
  }

  /** One command's effect on every message. */
  lemma CommandEdits(st: State, cmd: Command, uid: nat)
    requires ValidFolder(st.folder)
    ensures At(Apply(st, cmd).folder, uid) == match At(st.folder, uid) case None => None case Some(m) => Edited(m, cmd)
  {
    var f, k := st.folder, Target(st.folder, cmd);
    if k < |f| {
      FoundAt(f, k);
      if cmd.ChangeCmd? {
        ChangedAt(f, k, Apply(st, cmd).folder[k], uid);
      } else {
        RemovedAt(f, k, uid);
      }
    }
  }

  /**
   What a command records in the snapshot: a Change that reaches a message its new flags, a
   Delete that does nothing any more, both under the id as the device spelled it.
   */
  lemma CommandRecords(st: State, cmd: Command, s: string)
    requires ValidFolder(st.folder)
    ensures var items, items' := st.items, Apply(st, cmd).items;
            var m := match ParseUint(cmd.sid, 0x1_0000_0000) case None => None case Some(uid) => At(st.folder, uid);
            if s == cmd.sid && m.Some? && cmd.DeleteCmd? then s !in items'
            else if s == cmd.sid && m.Some? && cmd.ChangeCmd? && cmd.data.Some? then
              s in items' && Edited(m.value, cmd).Some? && items'[s] == Edited(m.value, cmd).value.flags
            else (s in items' <==> s in items) && (s in items ==> items'[s] == items[s])
  {
    if Target(st.folder, cmd) < |st.folder| {
      FoundAt(st.folder, Target(st.folder, cmd));
    }
  }

  // ---------- a batch ----------

  /** Command i is the last of the batch that marks the message, and marks it so. */
  ghost predicate LastMark(cmds: seq<Command>, uid: nat, i: int, read: bool) {
    && 0 <= i < |cmds| && Marks(cmds[i], uid, read)
    && forall j, b :: i < j < |cmds| ==> !Marks(cmds[j], uid, b)
  }

  /** What a batch makes of a message that was there before. */
  ghost predicate Outcome(m: Message, cmds: seq<Command>, now: Option<Message>) {
    && (now.None? <==> exists i :: 0 <= i < |cmds| && DeletesIt(cmds[i], m.uid))
    && (now.Some? ==>
          && now.value.uid == m.uid && now.value.id == m.id && now.value.flags / 2 == m.flags / 2
          && (forall i, read :: LastMark(cmds, m.uid, i, read) ==> (now.value.flags % 2 == 1 <==> read))
          && ((forall i, read :: 0 <= i < |cmds| ==> !Marks(cmds[i], m.uid, read)) ==> now.value == m))
  }

  lemma OutcomeGone(m: Message, cmds: seq<Command>, i: nat)
    requires i < |cmds| && DeletesIt(cmds[i], m.uid)
    ensures Outcome(m, cmds, None)
  {
  }

  lemma OutcomeNext(m: Message, cmds: seq<Command>, now: Message, cmd: Command)
    requires Outcome(m, cmds, Some(now)) && !DeletesIt(cmd, m.uid)
    ensures Outcome(m, cmds + [cmd], Edited(now, cmd))
  {
    var cmds', now' := cmds + [cmd], Edited(now, cmd).value;
    forall i | 0 <= i < |cmds'| ensures !DeletesIt(cmds'[i], m.uid) {
      assert i < |cmds| ==> cmds'[i] == cmds[i];
    }
    forall i, read | LastMark(cmds', m.uid, i, read) ensures now'.flags % 2 == 1 <==> read {
      if i < |cmds| {
        assert cmds'[|cmds|] == cmd;
        assert !Marks(cmd, m.uid, true) && !Marks(cmd, m.uid, false);
        assert LastMark(cmds, m.uid, i, read) by {
          forall j, b | i < j < |cmds| ensures !Marks(cmds[j], m.uid, b) {
            assert cmds'[j] == cmds[j];
          }
        }
      }
    }
    if forall i, read :: 0 <= i < |cmds'| ==> !Marks(cmds'[i], m.uid, read) {
      assert cmds'[|cmds|] == cmd;
      assert !Marks(cmd, m.uid, true) && !Marks(cmd, m.uid, false);
      forall i, read | 0 <= i < |cmds| ensures !Marks(cmds[i], m.uid, read) {
        assert cmds'[i] == cmds[i];
      }
    }
  }

  /**
   After any batch a message is in the folder exactly when it was and no command deleted it;
   its read flag is what the last command that set it said, or as it was, and nothing else
   about it has changed.
   */
  lemma {:induction false} BatchEdits(st: State, cmds: seq<Command>, uid: nat)
    requires ValidFolder(st.folder)
    ensures var before, now := At(st.folder, uid), At(ApplyAll(st, cmds).folder, uid);
            if before.None? then now.None? else Outcome(before.value, cmds, now)
  {
    if cmds != [] {
      var init, last := cmds[..|cmds| - 1], cmds[|cmds| - 1];
      var mid := ApplyAll(st, init);
      assert cmds == init + [last];
      BatchEdits(st, init, uid);
      ApplyAllValid(st, init);
      CommandEdits(mid, last, uid);
      var before, now := At(st.folder, uid), At(mid.folder, uid);
      if before.Some? {
        if now.None? {
          var i :| 0 <= i < |init| && DeletesIt(init[i], uid);
          assert cmds[i] == init[i];
          OutcomeGone(before.value, cmds, i);
        } else if DeletesIt(last, uid) {
          OutcomeGone(before.value, cmds, |init|);
        } else {
          OutcomeNext(before.value, init, now.value, last);
        }
      }
    }
  }

  // ---------- read receipts ----------

  /** The command marks an unread message with that object id read. */
  predicate ReadsIt(f: seq<Message>, cmd: Command, id: int, uid: nat) {
    Marks(cmd, uid, true) && At(f, uid).Some? && At(f, uid).value.id == id && At(f, uid).value.flags % 2 == 0
  }

  ghost predicate ReadsOne(f: seq<Message>, cmd: Command, id: int) {
    exists uid :: ReadsIt(f, cmd, id, uid)
  }

  /** Command n of the batch does, on the folder as the commands before it left it. */
  ghost predicate ReadsAt(st: State, cmds: seq<Command>, id: int, n: int) {
    0 <= n < |cmds| && ReadsOne(ApplyAll(st, cmds[..n]).folder, cmds[n], id)
  }

  lemma {:induction false} NewlyReadIff(f: seq<Message>, f': seq<Message>, id: int)
    ensures id in NewlyRead(f, f') <==> exists k :: 0 <= k < |f| && f[k].id == id && ReadStep(f[k], f') == [id]
  {
    if f != [] {
      var init, last := f[..|f| - 1], f[|f| - 1];
      NewlyReadIff(init, f', id);
      if id in ReadStep(last, f') {
        assert f[|f| - 1].id == id && ReadStep(f[|f| - 1], f') == [id];
      }
      if k :| 0 <= k < |init| && init[k].id == id && ReadStep(init[k], f') == [id] {
        assert f[k] == init[k];
      }
    }
  }

  lemma StepOf(m: Message, f': seq<Message>, cmd: Command)
    requires At(f', m.uid) == Edited(m, cmd)
    ensures ReadStep(m, f') == if Marks(cmd, m.uid, true) && m.flags % 2 == 0 then [m.id] else []
  {
  }

  lemma ReadsPlace(st: State, cmd: Command, id: int, k: nat)
    requires ValidFolder(st.folder) && k < |st.folder|
    ensures st.folder[k].id == id && ReadStep(st.folder[k], Apply(st, cmd).folder) == [id] <==>
            ReadsIt(st.folder, cmd, id, st.folder[k].uid)
  {
    var m := st.folder[k];
    FoundAt(st.folder, k);
    CommandEdits(st, cmd, m.uid);
    StepOf(m, Apply(st, cmd).folder, cmd);
  }

  lemma CommandReads(st: State, cmd: Command, id: int)
    requires ValidFolder(st.folder)
    ensures id in NewlyRead(st.folder, Apply(st, cmd).folder) <==> ReadsOne(st.folder, cmd, id)
  {
    var f, f' := st.folder, Apply(st, cmd).folder;
    NewlyReadIff(f, f', id);
    if k :| 0 <= k < |f| && f[k].id == id && ReadStep(f[k], f') == [id] {
      ReadsPlace(st, cmd, id, k);
    }
    if uid :| ReadsIt(f, cmd, id, uid) {
      ReadsPlace(st, cmd, id, Find(f, uid));
    }
  }

  lemma ReadsEarlier(st: State, cmds: seq<Command>, id: int, n: int)
    requires cmds != [] && n < |cmds| - 1
    ensures ReadsAt(st, cmds, id, n) <==> ReadsAt(st, cmds[..|cmds| - 1], id, n)
  {
    if 0 <= n {
      assert cmds[..|cmds| - 1][..n] == cmds[..n];
    }
  }

  /** The batch reports a message as read exactly when one of its commands took it from unread to read. */
  lemma {:induction false} ReadReported(st: State, cmds: seq<Command>, id: int)
    requires ValidFolder(st.folder)
    ensures id in ReadTransitions(st, cmds) <==> exists n :: ReadsAt(st, cmds, id, n)
  {
    if cmds != [] {
      var init, last := cmds[..|cmds| - 1], cmds[|cmds| - 1];
      ReadReported(st, init, id);
      ApplyAllValid(st, init);
      CommandReads(ApplyAll(st, init), last, id);
      assert ReadsAt(st, cmds, id, |init|) <==> ReadsOne(ApplyAll(st, init).folder, last, id);
      if n :| ReadsAt(st, cmds, id, n) {
        ReadsLater(st, cmds, id, n);
      }
      if n :| ReadsAt(st, init, id, n) {
        ReadsEarlier(st, cmds, id, n);
      }
    }
  }

  lemma ReadsLater(st: State, cmds: seq<Command>, id: int, n: int)
    requires ReadsAt(st, cmds, id, n)
    ensures n == |cmds| - 1 || ReadsAt(st, cmds[..|cmds| - 1], id, n)
  {
    if n < |cmds| - 1 {
      ReadsEarlier(st, cmds, id, n);
    }
  }
}
