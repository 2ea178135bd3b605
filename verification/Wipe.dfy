/**
 The remote-wipe lifecycle: administrator actions, device contacts and Provision
 exchanges over the mailbox's map of devices.
 */
module Wipe {
  import opened Strconv

  const UNKNOWN := 0
  const ACTIVE := 1
  const PENDING := 2
  const REQUESTED := 4
  const WIPED := 8
  const ACCOUNT_PENDING := 16
  const ACCOUNT_REQUESTED := 32
  const ACCOUNT_WIPED := 64

  datatype Kind = Full | AccountOnly

  /** What the console knows of a device; times are seconds, 0 when never. */
  datatype Meta = Meta(wipeStatus: int, firstSync: int, lastSync: int)

  const UNSEEN := Meta(UNKNOWN, 0, 0)

  type Devices = map<string, Meta>

  function MetaOf(m: Devices, id: string): Meta {
    if id in m then m[id] else UNSEEN
  }

  /** The wipe a status still owes the device: pending delivery, or delivered and not acknowledged. */
  function Owed(status: int): Option<Kind> {
    if status == PENDING || status == REQUESTED then Some(Full)
    else if status == ACCOUNT_PENDING || status == ACCOUNT_REQUESTED then Some(AccountOnly)
    else None
  }

  // ---------- events ----------

  /** `carried` is the policy key the command carries, `policy` the key of the device's policy. */
  datatype Event =
    | RequestWipe(id: string, kind: Kind)
    | CancelWipe(id: string)
    | DeleteDevice(id: string)
    | ResyncDevice(id: string)
    | Command(id: string, carried: string, policy: string, now: int)
    | Provision(id: string, acked: bool, now: int)

  /**
   What the device is answered: HTTP 449, its command's own result, or a Provision reply
   with or without a directive.
   */
  datatype Answer = Silent | Refused449 | Handled | Provisioned(directive: Option<Kind>)

  datatype Outcome = Outcome(devices: Devices, answer: Answer)

  /** recordDeviceContact: the first contact is set once, an unseen device becomes active, a queued wipe survives. */
  function Contact(m: Devices, id: string, now: int): Devices {
    if id == "" then m
    else
      var d := MetaOf(m, id);
      m[id := Meta(if d.wipeStatus == UNKNOWN then ACTIVE else d.wipeStatus,
                   if d.firstSync == 0 then now else d.firstSync, now)]
  }

  function StatusFor(kind: Kind): int {
    if kind == Full then PENDING else ACCOUNT_PENDING
  }

  /** The status after one Provision exchange that carried the directive. */
  function Advanced(kind: Kind, acked: bool): int {
    match kind
    case Full => if acked then WIPED else REQUESTED
    case AccountOnly => if acked then ACCOUNT_WIPED else ACCOUNT_REQUESTED
  }

  const NO_POLICY := "1"

  /** A mailbox without a policy requires no provisioning. */
  predicate PolicyCurrent(carried: string, policy: string) {
    policy == NO_POLICY || carried == policy
  }

  function Next(m: Devices, e: Event): Outcome {
    match e
    case RequestWipe(id, kind) => Outcome(m[id := MetaOf(m, id).(wipeStatus := StatusFor(kind))], Silent)
    case CancelWipe(id) => Outcome(m[id := MetaOf(m, id).(wipeStatus := ACTIVE)], Silent)
    case DeleteDevice(id) => Outcome(m - {id}, Silent)
    case ResyncDevice(_) => Outcome(m, Silent)
    case Command(id, carried, policy, now) =>
      var m' := Contact(m, id, now);
      var outstanding := id != "" && Owed(m'[id].wipeStatus).Some?;
      Outcome(m', if outstanding || (id != "" && !PolicyCurrent(carried, policy)) then Refused449 else Handled)
    case Provision(id, acked, now) =>
      var m' := Contact(m, id, now);
      if id == "" then Outcome(m', Provisioned(None))
      else
        var owed := Owed(m'[id].wipeStatus);
        Outcome(if owed.Some? then m'[id := m'[id].(wipeStatus := Advanced(owed.value, acked))] else m',
                Provisioned(owed))
  }

  /** The devices after a history of events on an empty mailbox. */
  function After(es: seq<Event>): Devices {
    if es == [] then map[] else Next(After(es[..|es| - 1]), es[|es| - 1]).devices
  }

  // ---------- what a history owes ----------

  /** Events after which an earlier wipe request of the device no longer counts. */
  predicate Settles(e: Event, id: string) {
    e.id == id && (e.RequestWipe? || e.CancelWipe? || e.DeleteDevice? || (e.Provision? && e.acked))
  }

  /** The device's last wipe request was of this kind and has been neither acknowledged, cancelled nor forgotten. */
  ghost predicate RequestStands(es: seq<Event>, id: string, kind: Kind, i: int) {
    && 0 <= i < |es| && es[i] == RequestWipe(id, kind)
    && forall j :: i < j < |es| ==> !Settles(es[j], id)
  }

  ghost predicate Owes(es: seq<Event>, id: string, kind: Kind) {
    exists i :: RequestStands(es, id, kind, i)
  }

  lemma OwesAfter(es: seq<Event>, e: Event, id: string, kind: Kind)
    ensures Owes(es + [e], id, kind) <==> e == RequestWipe(id, kind) || (!Settles(e, id) && Owes(es, id, kind))
  {
    var es' := es + [e];
    if i :| RequestStands(es', id, kind, i) {
      if i < |es| {
        assert es'[|es|] == e;
        assert RequestStands(es, id, kind, i) by {
          forall j | i < j < |es| ensures !Settles(es[j], id) {
            assert es'[j] == es[j];
          }
        }
      }
    }
    if e == RequestWipe(id, kind) {
      assert RequestStands(es', id, kind, |es|);
    } else if !Settles(e, id) && Owes(es, id, kind) {
      var i :| RequestStands(es, id, kind, i);
      assert RequestStands(es', id, kind, i);
    }
  }

  /** One event's effect on what a device is owed. */
  lemma StepOwed(m: Devices, e: Event, id: string)
    requires id != ""
    ensures var before, after := Owed(MetaOf(m, id).wipeStatus), Owed(MetaOf(Next(m, e).devices, id).wipeStatus);
            after == if e.RequestWipe? && e.id == id then Some(e.kind) else if Settles(e, id) then None else before
  {
  }

  /** The stored status is a faithful record of the history. */
  lemma {:induction false} StatusRecordsHistory(es: seq<Event>, id: string, kind: Kind)
    requires id != ""
    ensures Owed(MetaOf(After(es), id).wipeStatus) == Some(kind) <==> Owes(es, id, kind)
  {
    if es != [] {
      var init, e := es[..|es| - 1], es[|es| - 1];
      assert es == init + [e];
      StatusRecordsHistory(init, id, kind);
      OwesAfter(init, e, id, kind);
      StepOwed(After(init), e, id);
    }
  }

  /**
   Wipe delivery: after any history, a command from the device is refused for a wipe
   exactly while a request stands, and a Provision carries exactly the requested kind.
   */
  lemma WipeDelivered(es: seq<Event>, id: string, now: int)
    requires id != ""
    ensures var m := After(es);
            && (forall key :: Next(m, Command(id, key, key, now)).answer == Refused449 <==>
                exists kind :: Owes(es, id, kind))
            && (forall carried, policy, kind ::
                  Owes(es, id, kind) ==> Next(m, Command(id, carried, policy, now)).answer == Refused449)
            && (forall acked, kind ::
                  Next(m, Provision(id, acked, now)).answer == Provisioned(Some(kind)) <==> Owes(es, id, kind))
  {
    StatusRecordsHistory(es, id, Full);
    StatusRecordsHistory(es, id, AccountOnly);
    var m := After(es);
    assert Owed(Contact(m, id, now)[id].wipeStatus) == Owed(MetaOf(m, id).wipeStatus);
    forall acked, kind
      ensures Next(m, Provision(id, acked, now)).answer == Provisioned(Some(kind)) <==> Owes(es, id, kind)
    {
      StatusRecordsHistory(es, id, kind);
    }
    forall carried, policy
      ensures Next(m, Command(id, carried, policy, now)).answer == Refused449 <==>
              !PolicyCurrent(carried, policy) || exists kind :: Owes(es, id, kind)
    {
      RefusedIff(es, id, carried, policy, now);
    }
  }

  /**
   The gate, for every history: a command is refused exactly when the device names itself
   and a policy is configured whose key it does not carry, or a wipe request stands; without
   a device id nothing is ever refused, and a Provision carries no directive.
   */
  lemma RefusedIff(es: seq<Event>, id: string, carried: string, policy: string, now: int)
    ensures var answer := Next(After(es), Command(id, carried, policy, now)).answer;
            && (answer == Refused449 <==>
                id != "" && ((policy != "1" && carried != policy) || exists kind :: Owes(es, id, kind)))
            && (answer != Refused449 ==> answer == Handled)
    ensures id == "" ==>
              forall acked :: Next(After(es), Provision(id, acked, now)) == Outcome(After(es), Provisioned(None))
  {
    if id != "" {
      var m := After(es);
      StatusRecordsHistory(es, id, Full);
      StatusRecordsHistory(es, id, AccountOnly);
      assert Owed(Contact(m, id, now)[id].wipeStatus) == Owed(MetaOf(m, id).wipeStatus);
      if kind :| Owes(es, id, kind) {
        StatusRecordsHistory(es, id, kind);
      }
    }
  }

  lemma SettledOwesNothing(es: seq<Event>, id: string, i: nat, kind: Kind)
    requires i < |es| && Settles(es[i], id) && !es[i].RequestWipe?
    requires forall j :: i < j < |es| ==> !(es[j].RequestWipe? && es[j].id == id)
    ensures !Owes(es, id, kind)
  {
    forall k | 0 <= k < |es| && es[k] == RequestWipe(id, kind) ensures !RequestStands(es, id, kind, k) {
      assert k < i && Settles(es[i], id);
    }
  }

  lemma NothingOwed(m: Devices, id: string, now: int, acked: bool)
    requires id != "" && Owed(MetaOf(m, id).wipeStatus).None?
    ensures Next(m, Provision(id, acked, now)).answer == Provisioned(None)
    ensures forall key :: Next(m, Command(id, key, key, now)).answer == Handled
  {
    assert Owed(Contact(m, id, now)[id].wipeStatus).None?;
  }

  /** A wiped device is not wiped again: once settled, no directive and no refusal until a new request. */
  lemma NotWipedTwice(es: seq<Event>, id: string, i: nat, now: int, acked: bool)
    requires id != "" && i < |es| && Settles(es[i], id) && !es[i].RequestWipe?
    requires forall j :: i < j < |es| ==> !(es[j].RequestWipe? && es[j].id == id)
    ensures Next(After(es), Provision(id, acked, now)).answer == Provisioned(None)
    ensures forall key :: Next(After(es), Command(id, key, key, now)).answer == Handled
  {
    forall kind ensures Owed(MetaOf(After(es), id).wipeStatus) != Some(kind) {
      StatusRecordsHistory(es, id, kind);
      SettledOwesNothing(es, id, i, kind);
    }
    NothingOwed(After(es), id, now, acked);
  }

  /** The status a device's own event leaves, in the codes the device list shows. */
  lemma StatusShown(m: Devices, e: Event, id: string)
    requires id != "" && e.id == id
    ensures var s, s' := MetaOf(m, id).wipeStatus, MetaOf(Next(m, e).devices, id).wipeStatus;
            match e
            case RequestWipe(_, kind) => s' == if kind == Full then 2 else 16
            case CancelWipe(_) => s' == 1
            case DeleteDevice(_) => s' == 0
            case ResyncDevice(_) => s' == s
            case Command(_, _, _, _) => s' == if s == 0 then 1 else s
            case Provision(_, acked, _) =>
              s' == if s == 2 || s == 4 then (if acked then 8 else 4)
                    else if s == 16 || s == 32 then (if acked then 64 else 32)
                    else if s == 0 then 1 else s
  {
  }

  /** The times of a device's first and last contact. */
  lemma ContactShown(m: Devices, e: Event, id: string)
    requires id != ""
    ensures var d, d' := MetaOf(m, id), MetaOf(Next(m, e).devices, id);
            if e.id == id && (e.Command? || e.Provision?) then
              d'.lastSync == e.now && d'.firstSync == if d.firstSync == 0 then e.now else d.firstSync
            else if e == DeleteDevice(id) then d'.lastSync == d'.firstSync == 0
            else d'.lastSync == d.lastSync && d'.firstSync == d.firstSync
  {
  }

  /** An event of another device, and a resync of any, changes nothing about this one. */
  lemma OthersUnaffected(m: Devices, e: Event, id: string)
    requires e.id != id || e.ResyncDevice?
    ensures MetaOf(Next(m, e).devices, id) == MetaOf(m, id)
  {
  }

  /** The first contact is recorded once and kept until the device is deleted. */
  lemma {:induction false} FirstContactKept(es: seq<Event>, i: nat, id: string)
    requires i <= |es| && MetaOf(After(es[..i]), id).firstSync != 0
    requires forall j :: i <= j < |es| ==> es[j] != DeleteDevice(id)
    ensures MetaOf(After(es), id).firstSync == MetaOf(After(es[..i]), id).firstSync
  {
    if i == |es| {
      assert es[..i] == es;
    } else {
      var init := es[..|es| - 1];
      assert init[..i] == es[..i];
      FirstContactKept(init, i, id);
    }
  }

  // ---------- cancelling ----------

  /** What is answered to a sequence of events. */
  function AnswersFrom(m: Devices, es: seq<Event>): seq<Answer>
    decreases es
  {
    if es == [] then [] else [Next(m, es[0]).answer] + AnswersFrom(Next(m, es[0]).devices, es[1..])
  }

  ghost predicate OwesAlike(m: Devices, m': Devices) {
    forall id :: id != "" ==> Owed(MetaOf(m, id).wipeStatus) == Owed(MetaOf(m', id).wipeStatus)
  }

  lemma StepAlike(m: Devices, m': Devices, e: Event)
    requires OwesAlike(m, m')
    ensures Next(m, e).answer == Next(m', e).answer && OwesAlike(Next(m, e).devices, Next(m', e).devices)
  {
    assert e.id != "" ==> Owed(MetaOf(m, e.id).wipeStatus) == Owed(MetaOf(m', e.id).wipeStatus);
    forall id | id != ""
      ensures Owed(MetaOf(Next(m, e).devices, id).wipeStatus) == Owed(MetaOf(Next(m', e).devices, id).wipeStatus)
    {
      StepOwed(m, e, id);
      StepOwed(m', e, id);
    }
  }

  lemma {:induction false} AnswersAlike(m: Devices, m': Devices, es: seq<Event>)
    requires OwesAlike(m, m')
    ensures AnswersFrom(m, es) == AnswersFrom(m', es)
    decreases es
  {
    if es != [] {
      StepAlike(m, m', es[0]);
      AnswersAlike(Next(m, es[0]).devices, Next(m', es[0]).devices, es[1..]);
    }
  }

  lemma CancelRewritesIff(m: Devices, id: string)
    ensures Next(m, CancelWipe(id)).devices == m <==> id in m && m[id].wipeStatus == ACTIVE
  {
    var m' := Next(m, CancelWipe(id)).devices;
    assert id in m' && m'[id].wipeStatus == ACTIVE;
    assert id in m && m[id].wipeStatus == ACTIVE ==> m' == m;
  }

  /** Asking what the device is owed tells the two apart. */
  lemma CancelNoticed(m: Devices, id: string)
    requires id != "" && Owed(MetaOf(m, id).wipeStatus).Some?
    ensures var ask := [Provision(id, false, 0)];
            AnswersFrom(Next(m, CancelWipe(id)).devices, ask) != AnswersFrom(m, ask)
  {
    var ask := [Provision(id, false, 0)];
    assert AnswersFrom(Next(m, CancelWipe(id)).devices, ask)[0] == Provisioned(None);
    assert AnswersFrom(m, ask)[0] == Provisioned(Owed(MetaOf(m, id).wipeStatus));
  }

  /**
   A cancel goes unnoticed, whatever is asked afterwards, exactly when no wipe was
   outstanding. It still rewrites the record of any device that is not simply active, one
   that has acknowledged its wipe included.
   */
  lemma CancelUnnoticedIff(m: Devices, id: string)
    requires id != ""
    ensures (forall es :: AnswersFrom(Next(m, CancelWipe(id)).devices, es) == AnswersFrom(m, es)) <==>
            Owed(MetaOf(m, id).wipeStatus).None?
    ensures Next(m, CancelWipe(id)).devices == m <==> id in m && m[id].wipeStatus == ACTIVE
  {
    var m' := Next(m, CancelWipe(id)).devices;
    if Owed(MetaOf(m, id).wipeStatus).None? {
      forall es ensures AnswersFrom(m', es) == AnswersFrom(m, es) {
        AnswersAlike(m', m, es);
      }
    } else {
      CancelNoticed(m, id);
    }
    CancelRewritesIff(m, id);
  }

  // ---------- the stored registry ----------

  class Registry {
    var devices: Devices
    /** The devices with saved sync state. */
    var synced: set<string>

    constructor ()
      ensures devices == After([]) && synced == {}
    {
      devices, synced := map[], {};
    }

    /** recordDeviceContact: the status the gate acts on. */
    method RecordDeviceContact(id: string, now: int) returns (status: int)
      modifies this`devices
      ensures devices == Contact(old(devices), id, now)
      ensures status == if id == "" then UNKNOWN else devices[id].wipeStatus
    {
      if id == "" {
        return UNKNOWN;
      }
      var d := MetaOf(devices, id);
      if d.firstSync == 0 {
        d := d.(firstSync := now);
      }
      if d.wipeStatus == UNKNOWN {
        d := d.(wipeStatus := ACTIVE);
      }
      d := d.(lastSync := now);
      devices := devices[id := d];
      return d.wipeStatus;
    }

    /** forceProvision before a command other than Provision: true is HTTP 449. */
    method ForceProvision(id: string, carried: string, policy: string, now: int) returns (refused: bool)
      modifies this`devices
      ensures Outcome(devices, if refused then Refused449 else Handled) ==
              Next(old(devices), Command(id, carried, policy, now))
    {
      var status := RecordDeviceContact(id, now);
      if status == PENDING || status == REQUESTED || status == ACCOUNT_PENDING || status == ACCOUNT_REQUESTED {
        return true;
      }
      if id == "" {
        return false;
      }
      return policy != NO_POLICY && carried != policy;
    }

    /** advanceProvisionWipe: the directive to send, and the stored status moved on. */
    method AdvanceProvisionWipe(id: string, acked: bool) returns (directive: Option<Kind>)
      modifies this`devices
      ensures directive == if id in old(devices) then Owed(old(devices)[id].wipeStatus) else None
      ensures devices == if directive.Some?
                         then old(devices)[id := old(devices)[id].(wipeStatus := Advanced(directive.value, acked))]
                         else old(devices)
    {
      if id !in devices || Owed(devices[id].wipeStatus).None? {
        return None;
      }
      var d := devices[id];
      // The full-wipe codes lie below the account-only ones.
      if d.wipeStatus <= WIPED {
        directive := Some(Full);
        d := d.(wipeStatus := if acked then WIPED else REQUESTED);
      } else {
        directive := Some(AccountOnly);
        d := d.(wipeStatus := if acked then ACCOUNT_WIPED else ACCOUNT_REQUESTED);
      }
      devices := devices[id := d];
    }

    /** A Provision command: the contact is recorded, then the wipe advances. */
    method HandleProvision(id: string, acked: bool, now: int) returns (directive: Option<Kind>)
      modifies this`devices
      ensures Outcome(devices, Provisioned(directive)) == Next(old(devices), Provision(id, acked, now))
    {
      var status := RecordDeviceContact(id, now);
      if id == "" {
        return None;
      }
      directive := AdvanceProvisionWipe(id, acked);
    }

    method SetDeviceWipeStatus(id: string, status: int)
      modifies this`devices
      ensures devices == old(devices)[id := MetaOf(old(devices), id).(wipeStatus := status)]
    {
      devices := devices[id := MetaOf(devices, id).(wipeStatus := status)];
    }

    method RequestWipeOf(id: string, accountOnly: bool)
      modifies this`devices
      ensures devices == Next(old(devices), RequestWipe(id, if accountOnly then AccountOnly else Full)).devices
    {
      var status := PENDING;
      if accountOnly {
        status := ACCOUNT_PENDING;
      }
      SetDeviceWipeStatus(id, status);
    }

    method CancelWipeOf(id: string)
      modifies this`devices
      ensures devices == Next(old(devices), CancelWipe(id)).devices
    {
      SetDeviceWipeStatus(id, ACTIVE);
    }

    /** The device re-primes everything and stays recorded. */
    method ResyncDeviceRecord(id: string)
      modifies this`synced
      ensures devices == Next(old(devices), ResyncDevice(id)).devices && synced == old(synced) - {id}
    {
      if id in synced {
        synced := synced - {id};
      }
    }

    /** The sync state goes first, then the record. */
    method DeleteDeviceRecord(id: string)
      modifies this
      ensures devices == Next(old(devices), DeleteDevice(id)).devices && synced == old(synced) - {id}
    {
      if id in synced {
        synced := synced - {id};
      }
      if id in devices {
        devices := devices - {id};
      }
    }
  }
}
