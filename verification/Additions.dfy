/**
 The answers to a device's additions: which of its Adds are answered, with which ids, and
 what a device that goes by the answers comes to hold.
 */
module Additions {
  import opened Strconv
  import opened Snapshot
  import opened Objects
  import opened ObjectEcho

  // ---------- which Adds are answered ----------

  /** An Add that names itself, carries data the folder's parser reads, and gets an id from the store. */
  predicate Stores(cmd: Command) {
    match cmd
    case AddCmd(clientId, Parsed(_), Some(_)) => clientId != ""
    case _ => false
  }

  /** The response to an Add: its client id, and the decimal spelling of the id the store gave. */
  predicate IsAnswer(cmd: Command, r: AddResponse) {
    Stores(cmd) && r.clientId == cmd.clientId && r.sid == FormatInt(cmd.newId.value)
  }

  /** The answers of a batch, one for each Add that stores, in command order; `at` says which answers which. */
  ghost predicate AnswersInOrder(cmds: seq<Command>, responses: seq<AddResponse>, at: seq<nat>) {
    && |at| == |responses|
    && (forall k :: 0 <= k < |at| ==> at[k] < |cmds| && IsAnswer(cmds[at[k]], responses[k]))
    && (forall j, k :: 0 <= j < k < |at| ==> at[j] < at[k])
    && (forall i :: 0 <= i < |cmds| && Stores(cmds[i]) ==> i in at)
  }

  lemma InOrderNext(cmds: seq<Command>, cmd: Command, responses: seq<AddResponse>, at: seq<nat>, r: AddResponse)
    requires AnswersInOrder(cmds, responses, at)
    ensures !Stores(cmd) ==> AnswersInOrder(cmds + [cmd], responses, at)
    ensures IsAnswer(cmd, r) ==> AnswersInOrder(cmds + [cmd], responses + [r], at + [|cmds|])
  {
    var cmds' := cmds + [cmd];
    forall k | 0 <= k < |at| ensures at[k] < |cmds'| && IsAnswer(cmds'[at[k]], responses[k]) {
      assert cmds'[at[k]] == cmds[at[k]];
    }
    if IsAnswer(cmd, r) {
      var at' := at + [|cmds|];
      forall i | 0 <= i < |cmds'| && Stores(cmds'[i]) ensures i in at' {
        assert i < |cmds| ==> i in at;
        assert at'[|at|] == |cmds|;
      }
    }
  }

  lemma {:induction false} BatchAnswers(st: State, folder: int, cmds: seq<Command>) returns (at: seq<nat>)
    requires st.responses == []
    ensures AnswersInOrder(cmds, ApplyAll(st, folder, cmds).responses, at)
  {
    at := [];
    if cmds != [] {
      var init, last := cmds[..|cmds| - 1], cmds[|cmds| - 1];
      at := BatchAnswers(st, folder, init);
      assert cmds == init + [last];
      var before := ApplyAll(st, folder, init).responses;
      var r := AddResponse(if last.AddCmd? then last.clientId else "",
                           if last.AddCmd? && last.newId.Some? then Sid(last.newId.value) else "");
      InOrderNext(init, last, before, at, r);
      if Stores(last) {
        at := at + [|init|];
      }
    }
  }

  // ---------- the answered ids are listed ----------

  lemma ListedStep(st: State, folder: int, cmd: Command, s: string)
    requires ValidRows(st.store.rows) && Proper(st, cmd) && Known(st.store.rows, s) && IssuedSpelling(s)
    ensures Known(Apply(st, folder, cmd).store.rows, s)
    ensures s in Sids(Listing(Apply(st, folder, cmd).store.rows, folder)) <==>
            s in Sids(Listing(st.store.rows, folder)) && cmd != DeleteCmd(s)
  {
    KnownStep(st, folder, cmd, s);
    if Deletes(st, cmd) {
      DeletingStep(st, folder, cmd, s);
    } else {
      KeepingStep(st, folder, cmd, s);
      if CreatesSid(cmd, s) {
        ParseFormatInt(cmd.newId.value);
      }
    }
  }

  lemma CreatedListed(st: State, folder: int, cmd: Command)
    requires ValidRows(st.store.rows) && Proper(st, cmd) && Stores(cmd)
    ensures var s, rows' := FormatInt(cmd.newId.value), Apply(st, folder, cmd).store.rows;
            IssuedSpelling(s) && Known(rows', s) && s in Sids(Listing(rows', folder))
  {
    var s := Sid(cmd.newId.value);
    ParseFormatInt(cmd.newId.value);
    KnownStep(st, folder, cmd, s);
    KeepingStep(st, folder, cmd, s);
  }

  ghost predicate HeldUnless(rows: seq<Row>, folder: int, s: string, gone: bool) {
    IssuedSpelling(s) && Known(rows, s) && (s in Sids(Listing(rows, folder)) <==> !gone)
  }

  lemma LaterDelete(cmds: seq<Command>, i: nat, s: string)
    requires i < |cmds| - 1
    ensures var init, last := cmds[..|cmds| - 1], cmds[|cmds| - 1];
            DeleteCmd(s) in cmds[i + 1..] <==> DeleteCmd(s) in init[i + 1..] || last == DeleteCmd(s)
  {
    assert cmds[i + 1..] == cmds[..|cmds| - 1][i + 1..] + [cmds[|cmds| - 1]];
  }

  /** An item created at position i is listed after the batch exactly when no later Delete names it. */
  lemma {:induction false} ListedSince(st: State, folder: int, cmds: seq<Command>, i: nat)
    requires ValidRows(st.store.rows) && ProperBatch(st, folder, cmds) && i < |cmds| && Stores(cmds[i])
    ensures var s := FormatInt(cmds[i].newId.value);
            HeldUnless(ApplyAll(st, folder, cmds).store.rows, folder, s, DeleteCmd(s) in cmds[i + 1..])
  {
    var init, last := cmds[..|cmds| - 1], cmds[|cmds| - 1];
    var mid, s := ApplyAll(st, folder, init), FormatInt(cmds[i].newId.value);
    BatchKeeps(st, folder, init);
    if i == |cmds| - 1 {
      CreatedListed(mid, folder, last);
    } else {
      ListedSince(st, folder, init, i);
      ListedStep(mid, folder, last, s);
      LaterDelete(cmds, i, s);
    }
  }

  /**
   Every Add that stores is answered, in command order, with its client id and the id under
   which the folder then lists the item, unless a later Delete of the batch names that.
   */
  lemma AddsAnswered(store: Store, items: Items, folder: int, cmds: seq<Command>) returns (at: seq<nat>)
    requires ValidRows(store.rows) && ProperBatch(State(store, items, {}, []), folder, cmds)
    ensures var st' := Batch(store, items, folder, cmds);
            && AnswersInOrder(cmds, st'.responses, at)
            && forall k :: 0 <= k < |at| ==>
                 (st'.responses[k].sid in Sids(Listing(st'.store.rows, folder)) <==>
                  DeleteCmd(st'.responses[k].sid) !in cmds[at[k] + 1..])
  {
    var st, st' := State(store, items, {}, []), Batch(store, items, folder, cmds);
    at := BatchAnswers(st, folder, cmds);
    forall k | 0 <= k < |at|
      ensures st'.responses[k].sid in Sids(Listing(st'.store.rows, folder)) <==>
              DeleteCmd(st'.responses[k].sid) !in cmds[at[k] + 1..]
    {
      ListedSince(st, folder, cmds, at[k]);
    }
  }

  // ---------- a device that goes by the answers ----------

  /** A device gives each addition of a request a client id of its own. */
  predicate DistinctClients(cmds: seq<Command>) {
    forall i, j :: 0 <= i < j < |cmds| && cmds[i].AddCmd? && cmds[j].AddCmd? && cmds[i].clientId != "" ==>
                     cmds[i].clientId != cmds[j].clientId
  }

  /** The server id the answers give for a client id. */
  function Told(responses: seq<AddResponse>, clientId: string): Option<string> {
    if responses == [] then None
    else if responses[|responses| - 1].clientId == clientId then Some(responses[|responses| - 1].sid)
    else Told(responses[..|responses| - 1], clientId)
  }

  lemma {:induction false} ToldNone(responses: seq<AddResponse>, clientId: string)
    requires forall k :: 0 <= k < |responses| ==> responses[k].clientId != clientId
    ensures Told(responses, clientId) == None
  {
    if responses != [] {
      ToldNone(responses[..|responses| - 1], clientId);
    }
  }

  lemma {:induction false} ToldAt(responses: seq<AddResponse>, k: nat)
    requires k < |responses| && forall j :: k < j < |responses| ==> responses[j].clientId != responses[k].clientId
    ensures Told(responses, responses[k].clientId) == Some(responses[k].sid)
  {
    if k < |responses| - 1 {
      ToldAt(responses[..|responses| - 1], k);
    }
  }

  /** The device finds the server id of exactly those of its Adds that were stored. */
  lemma ToldIff(cmds: seq<Command>, responses: seq<AddResponse>, at: seq<nat>, i: nat)
    requires AnswersInOrder(cmds, responses, at) && DistinctClients(cmds) && i < |cmds| && cmds[i].AddCmd?
    ensures Told(responses, cmds[i].clientId) ==
            if Stores(cmds[i]) then Some(FormatInt(cmds[i].newId.value)) else None
  {
    var c := cmds[i].clientId;
    forall k | 0 <= k < |at| && at[k] != i ensures responses[k].clientId != c {
      assert IsAnswer(cmds[at[k]], responses[k]);
    }
    if Stores(cmds[i]) {
      var k :| 0 <= k < |at| && at[k] == i;
      assert IsAnswer(cmds[at[k]], responses[k]);
      ToldAt(responses, k);
    } else {
      forall k | 0 <= k < |at| ensures at[k] != i {
        assert IsAnswer(cmds[at[k]], responses[k]);
      }
      ToldNone(responses, c);
    }
  }
}
