/**
 One collecting round of a Sync (diff, cap at the window, send, record), and what
 repeated rounds on a stable folder deliver: the drain of a mail folder, and of an
 object folder whose renderer turns some items away.
 */
module Rounds {
  import opened Strconv
  import opened Snapshot

  const DEFAULT_WINDOW := 100
  const MAX_WINDOW := 512

  /** parseWindow: a missing, malformed or non-positive size is the default, a large one is capped. */
  function ParseWindow(s: string): (w: nat)
    ensures 1 <= w <= 512
    ensures var p := ParseInt(s);
            && (p.Some? && 1 <= p.value <= 512 ==> w == p.value)
            && (p.Some? && p.value > 512 ==> w == 512)
            && (p.None? || p.value < 1 ==> w == 100)
  {
    match ParseInt(s)
    case None => DEFAULT_WINDOW
    case Some(n) => if n <= 0 then DEFAULT_WINDOW else if n > MAX_WINDOW then MAX_WINDOW else n
  }

  /** How many of the pending changes a window lets through. */
  function Taken(out: seq<Change>, w: nat): (n: nat)
    ensures n <= |out|
  {
    if |out| > w then w else |out|
  }

  // ---------- mail rounds ----------

  ghost predicate MailRound(items: Items, live: seq<Entry>, w: nat, items': Items, sent: seq<Change>, more: bool) {
    exists out :: IsDiff(items, live, out) && sent == out[..Taken(out, w)]
                  && items' == RecordAll(items, sent) && more == (|out| > w)
  }

  lemma MailRoundExists(items: Items, live: seq<Entry>, w: nat) returns (items': Items, sent: seq<Change>, more: bool)
    ensures MailRound(items, live, w, items', sent, more)
  {
    var out := DiffExists(items, live);
    sent, more := out[..Taken(out, w)], |out| > w;
    items' := RecordAll(items, sent);
  }

  /** A round sends as much as the window allows, and sets MoreAvailable exactly when it leaves changes behind. */
  lemma MailRoundCounts(items: Items, live: seq<Entry>, w: nat, items': Items, sent: seq<Change>, more: bool)
    requires Distinct(live) && MailRound(items, live, w, items', sent, more)
    ensures |sent| == if DiffCount(items, live) > w then w else DiffCount(items, live)
    ensures DiffCount(items', live) == DiffCount(items, live) - |sent|
    ensures more <==> DiffCount(items', live) > 0
  {
    var out :| IsDiff(items, live, out) && sent == out[..Taken(out, w)] && items' == RecordAll(items, sent) &&
               more == (|out| > w);
    var n := Taken(out, w);
    ResidualIsSuffix(items, live, out, n);
    DiffLength(items, live, out);
    DiffLength(items', live, out[n..]);
  }

  /** Rounds of a Sync conversation: snapshots, windows, commands sent, MoreAvailable flags. */
  datatype Drain = Drain(snaps: seq<Items>, ws: seq<nat>, sent: seq<seq<Change>>, more: seq<bool>)

  ghost predicate Shaped(d: Drain) {
    && |d.snaps| == |d.ws| + 1 && |d.sent| == |d.ws| && |d.more| == |d.ws|
    && forall i :: 0 <= i < |d.ws| ==> d.ws[i] >= 1
  }

  ghost predicate MailRoundAt(d: Drain, live: seq<Entry>, i: nat)
    requires Shaped(d) && i < |d.ws|
  {
    MailRound(d.snaps[i], live, d.ws[i], d.snaps[i + 1], d.sent[i], d.more[i])
  }

  /** Current-key rounds on a stable mail folder without client commands. */
  ghost predicate MailDrain(d: Drain, live: seq<Entry>) {
    Shaped(d) && forall i :: 0 <= i < |d.ws| ==> MailRoundAt(d, live, i)
  }

  function Concat<T>(parts: seq<seq<T>>): seq<T> {
    if parts == [] then [] else Concat(parts[..|parts| - 1]) + parts[|parts| - 1]
  }

  /** The estimates a drain passes through. */
  function Estimates(d: Drain, live: seq<Entry>): (r: seq<nat>)
    ensures |r| == |d.snaps|
    ensures forall i :: 0 <= i < |r| ==> r[i] == DiffCount(d.snaps[i], live)
  {
    seq(|d.snaps|, i requires 0 <= i < |d.snaps| => DiffCount(d.snaps[i], live))
  }

  /** Each round sends the smaller of its window and what is left. */
  ghost predicate CountsDown(left: seq<nat>, ws: seq<nat>, sent: seq<seq<Change>>) {
    && |left| == |ws| + 1 && |sent| == |ws|
    && forall i :: 0 <= i < |ws| ==> ws[i] >= 1 && left[i + 1] + |sent[i]| == left[i]
                                     && |sent[i]| == if left[i] > ws[i] then ws[i] else left[i]
  }

  lemma {:induction false} CountsConserve(left: seq<nat>, ws: seq<nat>, sent: seq<seq<Change>>, n: nat)
    requires CountsDown(left, ws, sent) && n <= |ws|
    ensures |Concat(sent[..n])| + left[n] == left[0]
    ensures left[n] > 0 ==> left[n] + n <= left[0]
  {
    if n > 0 {
      CountsConserve(left, ws, sent, n - 1);
      assert sent[..n][..n - 1] == sent[..n - 1];
    }
  }

  lemma RoundCountsDown(d: Drain, live: seq<Entry>, i: nat)
    requires Distinct(live) && Shaped(d) && i < |d.ws| && MailRoundAt(d, live, i)
    ensures var left, next := DiffCount(d.snaps[i], live), DiffCount(d.snaps[i + 1], live);
            next + |d.sent[i]| == left && |d.sent[i]| == if left > d.ws[i] then d.ws[i] else left
  {
    MailRoundCounts(d.snaps[i], live, d.ws[i], d.snaps[i + 1], d.sent[i], d.more[i]);
  }

  lemma DrainCountsDown(d: Drain, live: seq<Entry>)
    requires Distinct(live) && MailDrain(d, live)
    ensures CountsDown(Estimates(d, live), d.ws, d.sent)
  {
    var left := Estimates(d, live);
    forall i | 0 <= i < |d.ws|
      ensures left[i + 1] + |d.sent[i]| == left[i] && |d.sent[i]| == if left[i] > d.ws[i] then d.ws[i] else left[i]
    {
      RoundCountsDown(d, live, i);
    }
  }

  /** Nothing is lost or sent twice: what was sent plus what is pending is the first estimate. */
  lemma DrainConserves(d: Drain, live: seq<Entry>, n: nat)
    requires Distinct(live) && MailDrain(d, live) && n <= |d.ws|
    ensures |Concat(d.sent[..n])| + DiffCount(d.snaps[n], live) == DiffCount(d.snaps[0], live)
    ensures DiffCount(d.snaps[n], live) > 0 ==> DiffCount(d.snaps[n], live) + n <= DiffCount(d.snaps[0], live)
  {
    DrainCountsDown(d, live);
    CountsConserve(Estimates(d, live), d.ws, d.sent, n);
  }

  /**
   The drain terminates in agreement: after as many rounds as the first estimate, with
   any windows, the snapshot is the folder and the commands sum up to that estimate.
   */
  lemma DrainTerminates(d: Drain, live: seq<Entry>, n: nat)
    requires Distinct(live) && MailDrain(d, live) && DiffCount(d.snaps[0], live) <= n <= |d.ws|
    ensures d.snaps[n] == AsItems(live)
    ensures |Concat(d.sent[..n])| == DiffCount(d.snaps[0], live)
    ensures forall i :: 0 <= i < |d.ws| ==> (d.more[i] <==> d.snaps[i + 1] != AsItems(live))
  {
    DrainConserves(d, live, n);
    NothingPendingIffAgree(d.snaps[n], live);
    forall i | 0 <= i < |d.ws| ensures d.more[i] <==> d.snaps[i + 1] != AsItems(live) {
      assert MailRoundAt(d, live, i);
      MailRoundCounts(d.snaps[i], live, d.ws[i], d.snaps[i + 1], d.sent[i], d.more[i]);
      NothingPendingIffAgree(d.snaps[i + 1], live);
    }
  }

  lemma ConcatTake<T>(parts: seq<seq<T>>, n: nat, rest: seq<T>)
    requires 0 < n <= |parts|
    ensures Concat(parts[..n - 1]) + (parts[n - 1] + rest) == Concat(parts[..n]) + rest
  {
    assert parts[..n][..n - 1] == parts[..n - 1];
  }

  lemma RoundResumes(items: Items, live: seq<Entry>, w: nat, items': Items, sent: seq<Change>, more: bool,
                     rest: seq<Change>)
    requires Distinct(live) && MailRound(items, live, w, items', sent, more) && IsDiff(items', live, rest)
    ensures IsDiff(items, live, sent + rest)
  {
    var out :| IsDiff(items, live, out) && sent == out[..Taken(out, w)] && items' == RecordAll(items, sent);
    Resume(items, live, out, Taken(out, w), rest);
  }

  lemma RoundAtResumes(d: Drain, live: seq<Entry>, i: nat, rest: seq<Change>)
    requires Distinct(live) && MailDrain(d, live) && i < |d.ws| && IsDiff(d.snaps[i + 1], live, rest)
    ensures IsDiff(d.snaps[i], live, d.sent[i] + rest)
  {
    assert MailRoundAt(d, live, i);
    RoundResumes(d.snaps[i], live, d.ws[i], d.snaps[i + 1], d.sent[i], d.more[i], rest);
  }

  /**
   Every pending change is delivered exactly once and in order: what n rounds sent,
   followed by whatever is pending then, is a diff of the first snapshot.
   */
  lemma {:induction false} DrainDelivers(d: Drain, live: seq<Entry>, n: nat, rest: seq<Change>)
    requires Distinct(live) && MailDrain(d, live) && n <= |d.ws| && IsDiff(d.snaps[n], live, rest)
    ensures IsDiff(d.snaps[0], live, Concat(d.sent[..n]) + rest)
  {
    if n == 0 {
      assert [] + rest == rest;
    } else {
      RoundAtResumes(d, live, n - 1, rest);
      DrainDelivers(d, live, n - 1, d.sent[n - 1] + rest);
      ConcatTake(d.sent, n, rest);
    }
  }

  // ---------- messages that cannot be read ----------

  /** The change can be sent: an addition carries the message, which must be readable. */
  predicate Readable(unreadable: set<string>, c: Change) {
    !(c.kind == Added && c.sid in unreadable)
  }

  ghost predicate AllReadable(unreadable: set<string>, cs: seq<Change>) {
    forall i :: 0 <= i < |cs| ==> Readable(unreadable, cs[i])
  }

  /** The first addition that cannot be read, or the length. */
  function FirstUnreadable(unreadable: set<string>, cs: seq<Change>): (n: nat)
    ensures n <= |cs| && (n < |cs| ==> !Readable(unreadable, cs[n]))
    ensures forall i :: 0 <= i < n ==> Readable(unreadable, cs[i])
  {
    if cs == [] || !Readable(unreadable, cs[0]) then 0 else 1 + FirstUnreadable(unreadable, cs[1..])
  }

  /** A window of w reaches an addition that cannot be read. */
  predicate Blocked(unreadable: set<string>, items: Items, live: seq<Entry>, w: nat) {
    var pending := LiveChanges(items, live);
    var n := FirstUnreadable(unreadable, pending);
    n < |pending| && n < w
  }

  lemma RemovalsReadable(unreadable: set<string>, gone: seq<string>)
    ensures AllReadable(unreadable, Removals(gone))
  {
    RemovalsSids(gone);
  }

  /**
   The additions of a diff come first, and in one order, so any prefix is readable or not
   whichever way deletions tie.
   */
  lemma PrefixReadableIff(unreadable: set<string>, items: Items, live: seq<Entry>, out: seq<Change>, n: nat)
    requires IsDiff(items, live, out) && n <= |out|
    ensures var pending := LiveChanges(items, live);
            AllReadable(unreadable, out[..n]) <==>
            FirstUnreadable(unreadable, pending) == |pending| || n <= FirstUnreadable(unreadable, pending)
  {
    var pending := LiveChanges(items, live);
    var k := FirstUnreadable(unreadable, pending);
    var gone :| IsRemovalOrder(items, live, gone) && out == pending + Removals(gone);
    RemovalsReadable(unreadable, gone);
    if k < |pending| && k < n {
      assert out[..n][k] == pending[k];
    }
  }

  /** A round fails exactly when its window reaches an addition that cannot be read. */
  lemma BlockedIff(unreadable: set<string>, items: Items, live: seq<Entry>, out: seq<Change>, w: nat)
    requires IsDiff(items, live, out)
    ensures AllReadable(unreadable, out[..Taken(out, w)]) <==> !Blocked(unreadable, items, live, w)
  {
    PrefixReadableIff(unreadable, items, live, out, Taken(out, w));
    DiffLength(items, live, out);
  }

  /** By the changes themselves: one of the first w pending adds a message that cannot be read. */
  lemma BlockedMeans(unreadable: set<string>, items: Items, live: seq<Entry>, out: seq<Change>, w: nat)
    requires IsDiff(items, live, out)
    ensures Blocked(unreadable, items, live, w) <==>
            exists i :: 0 <= i < |out| && i < w && out[i].kind == Added && out[i].sid in unreadable
  {
    BlockedIff(unreadable, items, live, out, w);
    var taken := out[..Taken(out, w)];
    if !AllReadable(unreadable, taken) {
      var i :| 0 <= i < |taken| && !Readable(unreadable, taken[i]);
      assert out[i].kind == Added && out[i].sid in unreadable;
    }
    if i :| 0 <= i < |out| && i < w && out[i].kind == Added && out[i].sid in unreadable {
      assert !Readable(unreadable, taken[i]);
    }
  }

  function Total(ws: seq<nat>): nat {
    if ws == [] then 0 else Total(ws[..|ws| - 1]) + ws[|ws| - 1]
  }

  lemma {:induction false} CountsTotal(left: seq<nat>, ws: seq<nat>, sent: seq<seq<Change>>, n: nat)
    requires CountsDown(left, ws, sent) && n <= |ws|
    ensures |Concat(sent[..n])| == if Total(ws[..n]) < left[0] then Total(ws[..n]) else left[0]
  {
    if n > 0 {
      CountsTotal(left, ws, sent, n - 1);
      CountsConserve(left, ws, sent, n - 1);
      assert sent[..n][..n - 1] == sent[..n - 1] && ws[..n][..n - 1] == ws[..n - 1];
    }
  }

  /**
   How far a mail drain gets: its first n rounds can all be answered exactly when nothing
   pending is unreadable, or their windows together stop short of the first such addition.
   The round whose window reaches it fails, saves nothing, and so fails again.
   */
  lemma DrainAnsweredIff(d: Drain, live: seq<Entry>, unreadable: set<string>, n: nat)
    requires Distinct(live) && MailDrain(d, live) && n <= |d.ws|
    ensures var pending := LiveChanges(d.snaps[0], live);
            var first := FirstUnreadable(unreadable, pending);
            AllReadable(unreadable, Concat(d.sent[..n])) <==> first == |pending| || Total(d.ws[..n]) <= first
  {
    var rest := DiffExists(d.snaps[n], live);
    var sent := Concat(d.sent[..n]);
    DrainDelivers(d, live, n, rest);
    DiffLength(d.snaps[0], live, sent + rest);
    assert (sent + rest)[..|sent|] == sent;
    PrefixReadableIff(unreadable, d.snaps[0], live, sent + rest, |sent|);
    DrainCountsDown(d, live);
    CountsTotal(Estimates(d, live), d.ws, d.sent, n);
  }

  lemma SentIsKnown(items: Items, live: seq<Entry>, out: seq<Change>, n: nat)
    requires Distinct(live) && IsDiff(items, live, out) && n <= |out|
    ensures forall c :: c in out[..n] ==> c.kind == Removed || c.sid in Sids(live)
  {
    DiffDistinct(items, live, out);
    forall c | c in out[..n] ensures c.kind == Removed || c.sid in Sids(live) {
      assert Unsettled(items, live, c);
    }
  }

  // ---------- object rounds ----------

  /** No two spellings of one number are waiting to be deleted. */
  ghost predicate Unambiguous(items: Items, live: seq<Entry>) {
    forall s, t :: s in Vanished(items, live) && t in Vanished(items, live) && SidValue(s) == SidValue(t) ==> s == t
  }

  lemma {:induction false} RecordKeepsUnambiguous(items: Items, live: seq<Entry>, cs: seq<Change>)
    requires Unambiguous(items, live)
    requires forall c :: c in cs ==> c.kind == Removed || c.sid in Sids(live)
    ensures Unambiguous(RecordAll(items, cs), live)
  {
    if cs != [] {
      RecordKeepsUnambiguous(items, live, cs[..|cs| - 1]);
      assert cs[|cs| - 1] in cs;
    }
  }

  ghost predicate HasPending(items: Items, live: seq<Entry>, out: seq<Change>) {
    IsDiff(items, live, out) && Unambiguous(items, live)
  }

  /** What an object folder's renderer makes of an item: a node, nothing, or an error. */
  datatype Rendering = Rendered | Nothing | Broken

  type Renderer = string -> Rendering

  /** A deletion needs no rendering. */
  predicate Emits(render: Renderer, c: Change) {
    c.kind == Removed || render(c.sid) == Rendered
  }

  function Emitted(render: Renderer, cs: seq<Change>): seq<Change> {
    if cs == [] then [] else (if Emits(render, cs[0]) then [cs[0]] else []) + Emitted(render, cs[1..])
  }

  function Withheld(render: Renderer, cs: seq<Change>): seq<Change> {
    if cs == [] then [] else (if Emits(render, cs[0]) then [] else [cs[0]]) + Withheld(render, cs[1..])
  }

  /** No entry makes the renderer fail, which would abort the round. */
  ghost predicate Renders(render: Renderer, cs: seq<Change>) {
    forall i :: 0 <= i < |cs| ==> Survives(render, cs[i])
  }

  predicate Survives(render: Renderer, c: Change) {
    c.kind == Removed || render(c.sid) != Broken
  }

  ghost predicate ObjectRound(render: Renderer, items: Items, live: seq<Entry>, w: nat,
                              items': Items, sent: seq<Change>, more: bool) {
    exists out :: IsDiff(items, live, out) && sent == Emitted(render, out[..Taken(out, w)])
                  && Renders(render, out[..Taken(out, w)]) && items' == RecordAll(items, sent) && more == (|out| > w)
  }

  /** The list an object round leaves pending. */
  function Residual(render: Renderer, out: seq<Change>, w: nat): seq<Change> {
    Withheld(render, out[..Taken(out, w)]) + out[Taken(out, w)..]
  }

  lemma {:induction false} EmittedMembers(render: Renderer, cs: seq<Change>)
    ensures forall c :: c in Emitted(render, cs) <==> c in cs && Emits(render, c)
  {
    if cs != [] {
      EmittedMembers(render, cs[1..]);
      assert cs == [cs[0]] + cs[1..];
    }
  }

  lemma {:induction false} EmittedDistinct(render: Renderer, cs: seq<Change>)
    requires DistinctChanges(cs)
    ensures DistinctChanges(Emitted(render, cs))
  {
    if cs != [] {
      var tail := cs[1..];
      assert DistinctChanges(tail) by {
        forall i, j | 0 <= i < j < |tail| ensures tail[i].sid != tail[j].sid {
          assert cs[i + 1].sid != cs[j + 1].sid;
        }
      }
      EmittedDistinct(render, tail);
      EmittedMembers(render, tail);
      var e := Emitted(render, tail);
      forall i | 0 <= i < |e| ensures e[i].sid != cs[0].sid {
        assert e[i] in tail;
        var k :| 0 <= k < |tail| && tail[k] == e[i];
        assert cs[k + 1] == e[i];
      }
    }
  }

  lemma WithoutSidsHead(c: Change, cs: seq<Change>, t: set<string>)
    ensures WithoutSids([c] + cs, t) == (if c.sid in t then [] else [c]) + WithoutSids(cs, t)
  {
    WithoutSidsConcat([c], cs, t);
    assert [c][..0] == [];
    assert WithoutSids([c], t) == if c.sid in t then [] else [c];
  }

  lemma {:induction false} WithoutEmitted(render: Renderer, cs: seq<Change>, t: set<string>)
    requires forall c :: c in cs ==> (c.sid in t <==> Emits(render, c))
    ensures WithoutSids(cs, t) == Withheld(render, cs)
  {
    if cs != [] {
      assert cs == [cs[0]] + cs[1..];
      WithoutSidsHead(cs[0], cs[1..], t);
      WithoutEmitted(render, cs[1..], t);
    }
  }

  lemma EmittedSidAt(render: Renderer, out: seq<Change>, n: nat, i: nat)
    requires DistinctChanges(out) && n <= |out| && i < |out|
    requires out[i].sid in ChangeSids(Emitted(render, out[..n]))
    ensures i < n && Emits(render, out[i])
  {
    EmittedMembers(render, out[..n]);
    var c :| c in Emitted(render, out[..n]) && c.sid == out[i].sid;
    var j :| 0 <= j < n && out[..n][j] == c;
    assert out[j].sid == out[i].sid;
  }

  /** `t` names exactly the emitted entries of `a`, and none of `b`. */
  ghost predicate NamesEmitted(render: Renderer, a: seq<Change>, b: seq<Change>, t: set<string>) {
    && (forall c :: c in a ==> (c.sid in t <==> Emits(render, c)))
    && (forall c :: c in b ==> c.sid !in t)
  }

  lemma EmittedSids(render: Renderer, out: seq<Change>, n: nat)
    requires DistinctChanges(out) && n <= |out|
    ensures NamesEmitted(render, out[..n], out[n..], ChangeSids(Emitted(render, out[..n])))
  {
    EmittedMembers(render, out[..n]);
    var t := ChangeSids(Emitted(render, out[..n]));
    forall i | 0 <= i < |out| && out[i].sid in t ensures i < n && Emits(render, out[i]) {
      EmittedSidAt(render, out, n, i);
    }
    forall c | c in out[n..] ensures c.sid !in t {
      var i :| n <= i < |out| && out[i] == c;
    }
    forall c | c in out[..n] ensures c.sid in t <==> Emits(render, c) {
      var i :| 0 <= i < n && out[i] == c;
    }
  }

  lemma WithoutSplit(render: Renderer, a: seq<Change>, b: seq<Change>, t: set<string>)
    requires NamesEmitted(render, a, b, t)
    ensures WithoutSids(a + b, t) == Withheld(render, a) + b
  {
    WithoutSidsConcat(a, b, t);
    WithoutEmitted(render, a, t);
    WithoutNone(b, t);
  }

  lemma EmittedRecorded(render: Renderer, items: Items, live: seq<Entry>, out: seq<Change>, n: nat)
    requires Distinct(live) && IsDiff(items, live, out) && DistinctChanges(out) && n <= |out|
    ensures var sent := Emitted(render, out[..n]);
            IsDiff(RecordAll(items, sent), live, WithoutSids(out, ChangeSids(sent)))
  {
    EmittedDistinct(render, out[..n]);
    EmittedMembers(render, out[..n]);
    RecordSome(items, live, out, Emitted(render, out[..n]));
  }

  lemma EmittedDropped(render: Renderer, out: seq<Change>, n: nat)
    requires DistinctChanges(out) && n <= |out|
    ensures WithoutSids(out, ChangeSids(Emitted(render, out[..n]))) == Withheld(render, out[..n]) + out[n..]
  {
    EmittedSids(render, out, n);
    WithoutSplit(render, out[..n], out[n..], ChangeSids(Emitted(render, out[..n])));
    TakeDrop(out, n);
  }

  lemma TakeDrop<T>(s: seq<T>, n: nat)
    requires n <= |s|
    ensures s[..n] + s[n..] == s
  {
  }

  /** One object round leaves exactly the withheld entries of the capped prefix, then the rest, in order. */
  lemma ObjectResidual(render: Renderer, items: Items, live: seq<Entry>, out: seq<Change>, w: nat)
    requires Distinct(live) && IsDiff(items, live, out)
    ensures IsDiff(RecordAll(items, Emitted(render, out[..Taken(out, w)])), live, Residual(render, out, w))
  {
    DiffDistinct(items, live, out);
    EmittedRecorded(render, items, live, out, Taken(out, w));
    EmittedDropped(render, out, Taken(out, w));
  }

  // ---------- the limit of object rounds ----------

  /**
   What no number of window-`k` rounds delivers: deliverable entries are passed over
   until `k` entries have been withheld; from there on nothing moves.
   */
  function Stuck(render: Renderer, out: seq<Change>, k: nat): seq<Change> {
    if out == [] || k == 0 then out
    else if Emits(render, out[0]) then Stuck(render, out[1..], k)
    else [out[0]] + Stuck(render, out[1..], k - 1)
  }

  lemma ResidualHead(render: Renderer, out: seq<Change>, w: nat)
    requires out != [] && w > 0
    ensures Residual(render, out, w) ==
            (if Emits(render, out[0]) then [] else [out[0]]) + Residual(render, out[1..], w - 1)
  {
    var n := Taken(out, w);
    assert out[..n][1..] == out[1..][..n - 1];
    assert out[n..] == out[1..][n - 1..];
  }

  lemma {:induction false} StuckKept(render: Renderer, out: seq<Change>, w: nat, k: nat)
    requires w <= k
    ensures Stuck(render, Residual(render, out, w), k) == Stuck(render, out, k)
    decreases out
  {
    if out == [] || w == 0 {
      assert Residual(render, out, w) == out;
    } else {
      ResidualHead(render, out, w);
      var tail := Residual(render, out[1..], w - 1);
      if Emits(render, out[0]) {
        StuckKept(render, out[1..], w - 1, k);
        assert Residual(render, out, w) == tail;
      } else {
        StuckKept(render, out[1..], w - 1, k - 1);
        assert ([out[0]] + tail)[1..] == tail;
      }
    }
  }

  /** A round either sends something or finds the list stuck. */
  lemma {:induction false} RoundProgress(render: Renderer, out: seq<Change>, w: nat)
    ensures |Residual(render, out, w)| < |out| || Residual(render, out, w) == out
    ensures Residual(render, out, w) == out <==> Stuck(render, out, w) == out
    ensures |Stuck(render, out, w)| <= |out|
    decreases out
  {
    if out == [] || w == 0 {
      assert Residual(render, out, w) == out;
    } else {
      ResidualHead(render, out, w);
      if Emits(render, out[0]) {
        RoundProgress(render, out[1..], w - 1);
        StuckShorter(render, out[1..], w);
      } else {
        RoundProgress(render, out[1..], w - 1);
        assert out == [out[0]] + out[1..];
      }
    }
  }

  lemma {:induction false} StuckShorter(render: Renderer, out: seq<Change>, k: nat)
    ensures |Stuck(render, out, k)| <= |out|
    decreases out
  {
    if out != [] && k > 0 {
      StuckShorter(render, out[1..], if Emits(render, out[0]) then k else k - 1);
    }
  }

  ghost predicate ObjectRoundAt(render: Renderer, d: Drain, live: seq<Entry>, i: nat)
    requires Shaped(d) && i < |d.ws|
  {
    ObjectRound(render, d.snaps[i], live, d.ws[i], d.snaps[i + 1], d.sent[i], d.more[i])
  }

  ghost predicate ObjectDrain(render: Renderer, d: Drain, live: seq<Entry>) {
    Shaped(d) && forall i :: 0 <= i < |d.ws| ==> ObjectRoundAt(render, d, live, i)
  }

  /** The pending list of the n-th snapshot. */
  function ListAfter(render: Renderer, out: seq<Change>, ws: seq<nat>, n: nat): seq<Change>
    requires n <= |ws|
  {
    if n == 0 then out else Residual(render, ListAfter(render, out, ws, n - 1), ws[n - 1])
  }

  lemma ObjectRoundList(render: Renderer, items: Items, live: seq<Entry>, w: nat, items': Items, sent: seq<Change>,
                        more: bool, out: seq<Change>)
    requires Distinct(live) && ObjectRound(render, items, live, w, items', sent, more)
    requires IsDiff(items, live, out) && Unambiguous(items, live)
    ensures IsDiff(items', live, Residual(render, out, w)) && Unambiguous(items', live)
  {
    var out' :| IsDiff(items, live, out') && sent == Emitted(render, out'[..Taken(out', w)]) &&
                items' == RecordAll(items, sent);
    DiffUnique(items, live, out, out');
    ObjectResidual(render, items, live, out', w);
    SentIsKnown(items, live, out', Taken(out', w));
    EmittedMembers(render, out'[..Taken(out', w)]);
    RecordKeepsUnambiguous(items, live, sent);
  }

  lemma ObjectRoundAtList(render: Renderer, d: Drain, live: seq<Entry>, i: nat, out: seq<Change>)
    requires Distinct(live) && ObjectDrain(render, d, live) && i < |d.ws| && HasPending(d.snaps[i], live, out)
    ensures HasPending(d.snaps[i + 1], live, Residual(render, out, d.ws[i]))
  {
    assert ObjectRoundAt(render, d, live, i);
    ObjectRoundList(render, d.snaps[i], live, d.ws[i], d.snaps[i + 1], d.sent[i], d.more[i], out);
  }

  lemma {:induction false} ObjectDrainLists(render: Renderer, d: Drain, live: seq<Entry>, out: seq<Change>, n: nat)
    requires Distinct(live) && ObjectDrain(render, d, live) && n <= |d.ws|
    requires HasPending(d.snaps[0], live, out)
    ensures HasPending(d.snaps[n], live, ListAfter(render, out, d.ws, n))
  {
    if n > 0 {
      ObjectDrainLists(render, d, live, out, n - 1);
      ObjectRoundAtList(render, d, live, n - 1, ListAfter(render, out, d.ws, n - 1));
    }
  }

  /** A list stuck at one window is stuck at every narrower one. */
  lemma {:induction false} StuckNarrower(render: Renderer, out: seq<Change>, w: nat, k: nat)
    requires w <= k && Stuck(render, out, k) == out
    ensures Stuck(render, out, w) == out
    decreases out
  {
    if out != [] && w > 0 {
      StuckShorter(render, out[1..], k);
      assert !Emits(render, out[0]);
      assert ([out[0]] + Stuck(render, out[1..], k - 1))[1..] == out[1..];
      StuckNarrower(render, out[1..], w - 1, k - 1);
      assert out == [out[0]] + out[1..];
    }
  }

  /** How many of the first n rounds have a window of w. */
  function RoundsOf(ws: seq<nat>, w: nat, n: nat): nat
    requires n <= |ws|
  {
    if n == 0 then 0 else RoundsOf(ws, w, n - 1) + if ws[n - 1] == w then 1 else 0
  }

  lemma {:induction false} ListsReachStuck(render: Renderer, out: seq<Change>, ws: seq<nat>, w: nat, n: nat)
    requires n <= |ws| && forall i :: 0 <= i < |ws| ==> ws[i] <= w
    ensures var l := ListAfter(render, out, ws, n);
            && Stuck(render, l, w) == Stuck(render, out, w)
            && (l == Stuck(render, out, w) || |l| + RoundsOf(ws, w, n) <= |out|)
  {
    if n > 0 {
      ListsReachStuck(render, out, ws, w, n - 1);
      var l := ListAfter(render, out, ws, n - 1);
      StuckKept(render, l, ws[n - 1], w);
      RoundProgress(render, l, ws[n - 1]);
      if l == Stuck(render, out, w) {
        StuckNarrower(render, l, ws[n - 1], w);
      }
    }
  }

  /** The widest window of a drain comes up at least as often as there are pending changes. */
  ghost predicate Recurs(ws: seq<nat>, w: nat, n: nat, out: seq<Change>) {
    n <= |ws| && |out| <= RoundsOf(ws, w, n) && forall i :: 0 <= i < |ws| ==> ws[i] <= w
  }

  /** An object drain ends with exactly the entries pending that are stuck at its widest recurring window. */
  lemma ObjectDrainLimit(render: Renderer, d: Drain, live: seq<Entry>, out: seq<Change>, w: nat, n: nat)
    requires Distinct(live) && ObjectDrain(render, d, live) && Recurs(d.ws, w, n, out)
    requires HasPending(d.snaps[0], live, out)
    ensures IsDiff(d.snaps[n], live, Stuck(render, out, w))
  {
    ObjectDrainLists(render, d, live, out, n);
    ListsReachStuck(render, out, d.ws, w, n);
  }

  /** Every deliverable entry has fewer than `k` withheld entries before it. */
  ghost predicate Reachable(render: Renderer, out: seq<Change>, k: nat) {
    forall i :: 0 <= i < |out| && Emits(render, out[i]) ==> |Withheld(render, out[..i])| < k
  }

  lemma {:induction false} StuckIsWithheld(render: Renderer, out: seq<Change>, k: nat)
    ensures Stuck(render, out, k) == Withheld(render, out) <==> Reachable(render, out, k)
    decreases out
  {
    if out == [] {
    } else if k == 0 {
      WithheldAllIff(render, out);
      if Reachable(render, out, 0) {
        assert forall i :: 0 <= i < |out| ==> !Emits(render, out[i]);
      }
    } else {
      var k' := if Emits(render, out[0]) then k else k - 1;
      StuckIsWithheld(render, out[1..], k');
      ReachableTail(render, out, k);
      if Emits(render, out[0]) {
        assert Withheld(render, out) == Withheld(render, out[1..]);
      } else {
        assert Stuck(render, out, k)[1..] == Stuck(render, out[1..], k');
        assert Withheld(render, out)[1..] == Withheld(render, out[1..]);
      }
    }
  }

  lemma {:induction false} WithheldAllIff(render: Renderer, out: seq<Change>)
    ensures |Withheld(render, out)| <= |out|
    ensures Withheld(render, out) == out <==> forall i :: 0 <= i < |out| ==> !Emits(render, out[i])
  {
    if out != [] {
      WithheldAllIff(render, out[1..]);
      assert out == [out[0]] + out[1..];
    }
  }

  lemma ReachableTail(render: Renderer, out: seq<Change>, k: nat)
    requires out != [] && k > 0
    ensures Reachable(render, out, k) <==> Reachable(render, out[1..], if Emits(render, out[0]) then k else k - 1)
  {
    var tail, k' := out[1..], if Emits(render, out[0]) then k else k - 1;
    forall i | 0 <= i < |tail|
      ensures |Withheld(render, out[..i + 1])| < k <==> |Withheld(render, tail[..i])| < k'
    {
      assert out[..i + 1][1..] == tail[..i];
    }
    if Reachable(render, tail, k') {
      forall i | 0 <= i < |out| && Emits(render, out[i]) ensures |Withheld(render, out[..i])| < k {
        if i > 0 {
          assert tail[i - 1] == out[i];
        }
      }
    }
    if Reachable(render, out, k) {
      forall i | 0 <= i < |tail| && Emits(render, tail[i]) ensures |Withheld(render, tail[..i])| < k' {
        assert out[i + 1] == tail[i];
      }
    }
  }

  /**
   When the drain reaches agreement on everything the device can be sent: if and only if
   each deliverable change has fewer withheld changes before it than the widest recurring
   window is wide. Otherwise the conversation ends stuck, with deliverable items never sent.
   */
  lemma ObjectDrainAgreesIff(render: Renderer, d: Drain, live: seq<Entry>, out: seq<Change>, w: nat, n: nat)
    requires Distinct(live) && ObjectDrain(render, d, live) && Recurs(d.ws, w, n, out)
    requires HasPending(d.snaps[0], live, out)
    ensures IsDiff(d.snaps[n], live, Withheld(render, out)) <==> Reachable(render, out, w)
  {
    ObjectDrainLimit(render, d, live, out, w, n);
    StuckIsWithheld(render, out, w);
    ObjectDrainLists(render, d, live, out, n);
    if IsDiff(d.snaps[n], live, Withheld(render, out)) {
      DiffUnique(d.snaps[n], live, Withheld(render, out), Stuck(render, out, w));
    }
  }

  /** A round wider than the number of withheld entries makes progress until only those are left. */
  lemma WideRound(render: Renderer, out: seq<Change>, w: nat)
    requires |Withheld(render, out)| < w
    ensures Withheld(render, Residual(render, out, w)) == Withheld(render, out)
    ensures |Residual(render, out, w)| < |out| || Residual(render, out, w) == out == Withheld(render, out)
    ensures out == Withheld(render, out) ==> Residual(render, out, w) == out
  {
    ResidualKeepsWithheld(render, out, w);
    RoundProgress(render, out, w);
    StuckIsWithheld(render, out, w);
    WideIsReachable(render, out, w);
  }

  lemma {:induction false} WideWindowsDrain(render: Renderer, out: seq<Change>, ws: seq<nat>, n: nat)
    requires n <= |ws| && forall i :: 0 <= i < |ws| ==> |Withheld(render, out)| < ws[i]
    ensures var l := ListAfter(render, out, ws, n);
            && Withheld(render, l) == Withheld(render, out)
            && (l == Withheld(render, out) || |l| + n <= |out|)
  {
    if n > 0 {
      WideWindowsDrain(render, out, ws, n - 1);
      WideRound(render, ListAfter(render, out, ws, n - 1), ws[n - 1]);
    }
  }

  /**
   With windows wider than the number of withheld changes, in any mix, the drain agrees
   with the folder on every item but those the renderer turns away.
   */
  lemma WideDrainAgrees(render: Renderer, d: Drain, live: seq<Entry>, out: seq<Change>, n: nat)
    requires Distinct(live) && ObjectDrain(render, d, live) && |out| <= n <= |d.ws|
    requires HasPending(d.snaps[0], live, out)
    requires forall i :: 0 <= i < |d.ws| ==> |Withheld(render, out)| < d.ws[i]
    ensures IsDiff(d.snaps[n], live, Withheld(render, out))
    ensures forall s :: s !in ChangeSids(Withheld(render, out)) ==> Settled(d.snaps[n], live, s)
  {
    ObjectDrainLists(render, d, live, out, n);
    WideWindowsDrain(render, out, d.ws, n);
    var l := ListAfter(render, out, d.ws, n);
    assert l == Withheld(render, out);
    forall s | s !in ChangeSids(l) ensures Settled(d.snaps[n], live, s) {
      PendingIffUnsettled(d.snaps[n], live, l, s);
    }
  }

  lemma WideIsReachable(render: Renderer, out: seq<Change>, k: nat)
    requires |Withheld(render, out)| < k
    ensures Reachable(render, out, k)
  {
    forall i | 0 <= i < |out| ensures |Withheld(render, out[..i])| < k {
      WithheldConcat(render, out[..i], out[i..]);
      assert out == out[..i] + out[i..];
    }
  }

  lemma {:induction false} WithheldConcat(render: Renderer, a: seq<Change>, b: seq<Change>)
    ensures Withheld(render, a + b) == Withheld(render, a) + Withheld(render, b)
  {
    if a == [] {
      assert a + b == b;
    } else {
      assert (a + b)[1..] == a[1..] + b;
      WithheldConcat(render, a[1..], b);
    }
  }

  lemma {:induction false} WithheldTwice(render: Renderer, out: seq<Change>)
    ensures Withheld(render, Withheld(render, out)) == Withheld(render, out)
  {
    if out != [] {
      WithheldTwice(render, out[1..]);
      var rest := Withheld(render, out[1..]);
      if Emits(render, out[0]) {
        assert Withheld(render, out) == rest;
      } else {
        assert Withheld(render, out) == [out[0]] + rest;
        assert ([out[0]] + rest)[1..] == rest;
      }
    }
  }

  lemma ResidualKeepsWithheld(render: Renderer, out: seq<Change>, w: nat)
    ensures Withheld(render, Residual(render, out, w)) == Withheld(render, out)
  {
    var n := Taken(out, w);
    assert out == out[..n] + out[n..];
    WithheldConcat(render, out[..n], out[n..]);
    WithheldConcat(render, Withheld(render, out[..n]), out[n..]);
    WithheldTwice(render, out[..n]);
  }
}
