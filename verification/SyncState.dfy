/**
 One collection's sync state for a device, and the key discipline every Sync
 request follows: a prime restarts the keys at "1" with an empty snapshot, a key
 that is not the one last issued is refused, the current key is spent.
 */
module SyncState {
  import opened Strconv
  import opened Snapshot

  datatype Coll = Coll(syncKey: string, items: Items)

  const NEVER_SYNCED := Coll("", map[])

  /** Unsigned 64-bit increment, which wraps to 0. */
  function Successor(n: nat): nat {
    if n == TWO_64 - 1 then 0 else n + 1
  }

  function NextSyncKey(key: string): string {
    match ParseUint(key, TWO_64)
    case None => "1"
    case Some(n) => FormatUint(Successor(n))
  }

  class CollectionState {
    var syncKey: string
    var items: Items

    constructor (c: Coll)
      ensures Value() == c
    {
      syncKey, items := c.syncKey, c.items;
    }

    ghost function Value(): Coll
      reads this
    {
      Coll(syncKey, items)
    }
  }

  datatype Gate = Primed | Refused | Current

  /** The two key cases that answer without collecting any change. */
  function GateOf(c: Coll, clientKey: string): Gate {
    if clientKey == "0" then Primed
    else if clientKey == "" || clientKey != c.syncKey then Refused
    else Current
  }

  method SyncKeyGate(clientKey: string, cstate: CollectionState) returns (g: Gate)
    modifies cstate
    ensures g == GateOf(old(cstate.Value()), clientKey)
    ensures g == Primed ==> cstate.Value() == Coll("1", map[])
    ensures g != Primed ==> cstate.Value() == old(cstate.Value())
  {
    if clientKey == "0" {
      NextSyncKeyOf(0);
      cstate.syncKey := NextSyncKey("0");
      cstate.items := map[];
      return Primed;
    }
    if clientKey == "" || clientKey != cstate.syncKey {
      return Refused;
    }
    return Current;
  }

  // ---------- keys over a run ----------

  /** What any Sync request carrying `key` does to a collection, whatever the folder's class. */
  ghost predicate Serves(c: Coll, key: string, c': Coll) {
    match GateOf(c, key)
    case Primed => c' == Coll("1", map[])
    case Refused => c' == c
    case Current => c'.syncKey == NextSyncKey(key)
  }

  /** A Sync request, or an administrator's resync, which forgets the collection. */
  datatype Event = Request(key: string) | Resync

  ghost predicate Step(c: Coll, e: Event, c': Coll) {
    match e
    case Request(key) => Serves(c, key, c')
    case Resync => c' == NEVER_SYNCED
  }

  ghost predicate Run(cs: seq<Coll>, es: seq<Event>) {
    && |cs| == |es| + 1
    && forall i :: 0 <= i < |es| ==> Step(cs[i], es[i], cs[i + 1])
  }

  /** The number an issued key counts to. */
  function KeyNumber(key: string): nat {
    match ParseUint(key, TWO_64)
    case None => 0
    case Some(n) => n
  }

  ghost predicate IssuedKey(key: string) {
    exists n: nat :: n < TWO_64 && key == FormatUint(n)
  }

  ghost predicate WellKeyed(c: Coll) {
    && (c.syncKey == "" || IssuedKey(c.syncKey))
    && (c.syncKey == "1" ==> c.items == map[])
  }

  lemma NextSyncKeyOf(n: nat)
    requires n < TWO_64
    ensures NextSyncKey(FormatUint(n)) == FormatUint(Successor(n))
    ensures KeyNumber(FormatUint(n)) == n
  {
    ParseFormatUint(n, TWO_64);
  }

  lemma NextOfIssued(key: string)
    requires IssuedKey(key)
    ensures IssuedKey(NextSyncKey(key))
    ensures KeyNumber(NextSyncKey(key)) == Successor(KeyNumber(key))
    ensures KeyNumber(key) < TWO_64
  {
    var n: nat :| n < TWO_64 && key == FormatUint(n);
    NextSyncKeyOf(n);
    NextSyncKeyOf(Successor(n));
  }

  /** A fresh key exceeds the spent one exactly while the counter has not reached its last value. */
  lemma NextKeyLargerIff(key: string)
    requires IssuedKey(key)
    ensures KeyNumber(NextSyncKey(key)) > KeyNumber(key) <==> KeyNumber(key) < TWO_64 - 1
    ensures NextSyncKey(key) != key
  {
    NextOfIssued(key);
  }

  lemma KeyOne(key: string)
    requires IssuedKey(key)
    ensures key == "1" <==> KeyNumber(key) == 1
    ensures key == "0" <==> KeyNumber(key) == 0
  {
    var n: nat :| n < TWO_64 && key == FormatUint(n);
    NextSyncKeyOf(n);
  }

  lemma StepWellKeyed(c: Coll, e: Event, c': Coll)
    requires WellKeyed(c) && Step(c, e, c')
    ensures WellKeyed(c')
  {
    assert FormatUint(1) == "1";
    if e.Request? && GateOf(c, e.key) == Current {
      NextOfIssued(c.syncKey);
      KeyOne(c.syncKey);
      KeyOne(c'.syncKey);
    }
  }

  /** Every collection a run reaches holds an issued key, and key "1" always means an empty snapshot. */
  lemma {:induction false} RunWellKeyed(cs: seq<Coll>, es: seq<Event>, i: nat)
    requires Run(cs, es) && WellKeyed(cs[0]) && i < |cs|
    ensures WellKeyed(cs[i])
  {
    if i > 0 {
      RunWellKeyed(cs, es, i - 1);
      StepWellKeyed(cs[i - 1], es[i - 1], cs[i]);
    }
  }

  predicate Accepted(c: Coll, e: Event) {
    e.Request? && GateOf(c, e.key) == Current
  }

  /** Requests accepted among events i .. j. */
  function AcceptedCount(cs: seq<Coll>, es: seq<Event>, i: nat, j: nat): nat
    requires |cs| == |es| + 1 && i <= j <= |es|
  {
    if i == j then 0 else AcceptedCount(cs, es, i, j - 1) + if Accepted(cs[j - 1], es[j - 1]) then 1 else 0
  }

  /** No prime, no resync and no exhausted counter among events i .. j. */
  ghost predicate OneEpoch(cs: seq<Coll>, es: seq<Event>, i: nat, j: nat)
    requires |cs| == |es| + 1 && i <= j <= |es|
  {
    forall k :: i <= k < j ==> es[k].Request? && es[k].key != "0" && KeyNumber(cs[k].syncKey) < TWO_64 - 1
  }

  lemma StepCounts(c: Coll, e: Event, c': Coll)
    requires WellKeyed(c) && Step(c, e, c')
    requires e.Request? && e.key != "0" && KeyNumber(c.syncKey) < TWO_64 - 1
    ensures KeyNumber(c'.syncKey) == KeyNumber(c.syncKey) + if Accepted(c, e) then 1 else 0
  {
    if Accepted(c, e) {
      NextOfIssued(c.syncKey);
    }
  }

  /** Between two primes the key counts the accepted requests, no more and no less. */
  lemma {:induction false} KeyCountsAccepted(cs: seq<Coll>, es: seq<Event>, i: nat, j: nat)
    requires Run(cs, es) && WellKeyed(cs[0]) && i <= j <= |es|
    requires OneEpoch(cs, es, i, j)
    ensures KeyNumber(cs[j].syncKey) == KeyNumber(cs[i].syncKey) + AcceptedCount(cs, es, i, j)
  {
    if i < j {
      KeyCountsAccepted(cs, es, i, j - 1);
      RunWellKeyed(cs, es, j - 1);
      StepCounts(cs[j - 1], es[j - 1], cs[j]);
    }
  }

  lemma {:induction false} AcceptedCountMonotone(cs: seq<Coll>, es: seq<Event>, i: nat, k: nat, j: nat)
    requires |cs| == |es| + 1 && i <= k <= j <= |es|
    ensures AcceptedCount(cs, es, i, k) <= AcceptedCount(cs, es, i, j)
  {
    if k < j {
      AcceptedCountMonotone(cs, es, i, k, j - 1);
    }
  }

  /** Between two primes accepted keys strictly increase, so each is accepted at most once. */
  lemma AcceptedKeysIncrease(cs: seq<Coll>, es: seq<Event>, i: nat, j: nat)
    requires Run(cs, es) && WellKeyed(cs[0]) && i < j < |es|
    requires OneEpoch(cs, es, i, j)
    requires Accepted(cs[i], es[i]) && Accepted(cs[j], es[j])
    ensures KeyNumber(es[i].key) < KeyNumber(es[j].key)
    ensures es[i].key != es[j].key
  {
    KeyCountsAccepted(cs, es, i, j);
    AcceptedCountMonotone(cs, es, i, i + 1, j);
  }
}
