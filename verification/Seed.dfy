/**
 The folder tree a fresh mailbox is seeded with satisfies the tree invariant, so every
 run of folder commands from a fresh mailbox keeps it.
 */
module Seed {
  import opened Folders

  const CONTACTS := 0x13
  const SYNC_ISSUES := 0x19

  /** The built-in parent of a built-in folder; the root has none. */
  function ParentOf(id: int): int {
    if id == ROOT then 0
    else if id <= IPM_SUBTREE || id == 0x18 then ROOT
    else if 0x14 <= id <= 0x16 then CONTACTS
    else if 0x1a <= id <= 0x1c then SYNC_ISSUES
    else IPM_SUBTREE
  }

  function NameOf(id: int): string {
    match id
    case 1 => "Root Container"
    case 2 => "Deferred Action"
    case 3 => "Spooler Queue"
    case 4 => "Shortcuts"
    case 5 => "Finder"
    case 6 => "Views"
    case 7 => "Common Views"
    case 8 => "Schedule"
    case 9 => "Top of Information Store"
    case 10 => "Sent Items"
    case 11 => "Deleted Items"
    case 12 => "Outbox"
    case 13 => "Inbox"
    case 14 => "Drafts"
    case 15 => "Calendar"
    case 16 => "Journal"
    case 17 => "Notes"
    case 18 => "Tasks"
    case 19 => "Contacts"
    case 20 => "Quick Contacts"
    case 21 => "IM Contacts List"
    case 22 => "GAL Contacts"
    case 23 => "Junk Email"
    case 24 => "Freebusy Data"
    case 25 => "Sync Issues"
    case 26 => "Conflicts"
    case 27 => "Local Failures"
    case 28 => "Server Failures"
    case 29 => "Conversation Action Settings"
    case 30 => "Archive"
    case 31 => "Conversation History"
    case _ => "Recipient Cache"
  }

  const TREE: Tree := map id | 1 <= id < UNASSIGNED_START :: Folder(ParentOf(id), NameOf(id))

  /** The folder of a seeded name, looked up by the name's length and then among the few of that length. */
  function IdOf(name: string): int {
    if |name| == 5 then
      (if name == "Views" then 6 else if name == "Inbox" then 13 else if name == "Notes" then 17 else 18)
    else if |name| == 6 then (if name == "Finder" then 5 else if name == "Outbox" then 12 else 14)
    else if |name| == 7 then (if name == "Journal" then 16 else 30)
    else if |name| == 8 then (if name == "Schedule" then 8 else if name == "Calendar" then 15 else 19)
    else if |name| == 9 then (if name == "Shortcuts" then 4 else 26)
    else if |name| == 10 then (if name == "Sent Items" then 10 else 23)
    else if |name| == 11 then 25
    else if |name| == 12 then (if name == "Common Views" then 7 else 22)
    else if |name| == 13 then (if name == "Spooler Queue" then 3 else if name == "Deleted Items" then 11 else 24)
    else if |name| == 14 then (if name == "Root Container" then 1 else if name == "Quick Contacts" then 20 else 27)
    else if |name| == 15 then (if name == "Deferred Action" then 2 else if name == "Server Failures" then 28 else 32)
    else if |name| == 16 then 21
    else if |name| == 20 then 31
    else if |name| == 24 then 9
    else if |name| == 28 then 29
    else 0
  }

  lemma StoreNamesKnown(id: int)
    requires 1 <= id <= 0x0a
    ensures IdOf(NameOf(id)) == id
  {
  }

  lemma UserNamesKnown(id: int)
    requires 0x0b <= id <= 0x15
    ensures IdOf(NameOf(id)) == id
  {
  }

  lemma OtherNamesKnown(id: int)
    requires 0x16 <= id <= 0x20
    ensures IdOf(NameOf(id)) == id
  {
  }

  /** No two seeded folders share a name. */
  lemma NamesApart(a: int, b: int)
    requires 1 <= a < UNASSIGNED_START && 1 <= b < UNASSIGNED_START && NameOf(a) == NameOf(b)
    ensures a == b
  {
    NameKnown(a);
    NameKnown(b);
  }

  lemma NameKnown(id: int)
    requires 1 <= id < UNASSIGNED_START
    ensures IdOf(NameOf(id)) == id
  {
    if id <= 0x0a {
      StoreNamesKnown(id);
    } else if id <= 0x15 {
      UserNamesKnown(id);
    } else {
      OtherNamesKnown(id);
    }
  }

  function Depth(id: int): nat {
    if id == ROOT then 0 else if id == IPM_SUBTREE then 1 else if id == CONTACTS || id == SYNC_ISSUES then 2 else 3
  }

  lemma SeededOk()
    ensures TreeOk(TREE)
  {
    assert IsRank(TREE, map id | 1 <= id < UNASSIGNED_START :: Depth(id));
    forall a, b | a in TREE && b in TREE && TREE[a] == TREE[b] ensures a == b {
      NamesApart(a, b);
    }
  }

  /** From a fresh mailbox, no run of folder commands breaks the tree or touches a built-in folder. */
  lemma FreshRunKeepsTree(sts: seq<State>, es: seq<Event>, n: nat)
    requires Run(sts, es) && n <= |es| && sts[0].tree == TREE
    ensures TreeOk(sts[n].tree)
    ensures forall id :: 1 <= id < UNASSIGNED_START ==>
            id in sts[n].tree && sts[n].tree[id] == Folder(ParentOf(id), NameOf(id))
  {
    SeededOk();
    RunKeepsTree(sts, es, n);
    forall id | 1 <= id < UNASSIGNED_START ensures id in sts[n].tree && sts[n].tree[id] == TREE[id] {
      assert id in TREE && Builtin(id);
    }
  }
}
