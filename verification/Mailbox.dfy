/** One user's in-memory mailbox: folders, messages, and how UIDs are handed out. */
module Mailbox {
  import opened Text

  datatype Role = Inbox | Sent | Drafts | Trash | Junk | Custom

  function RoleForFolderName(name: string): Role {
    if name == "INBOX" || name == "Inbox" || name == "inbox" then Inbox
    else if name == "Sent" || name == "Sent Messages" || name == "Sent Items" then Sent
    else if name == "Drafts" then Drafts
    else if name == "Trash" || name == "Deleted Messages" then Trash
    else if name == "Junk" || name == "Spam" then Junk
    else Custom
  }

  const TRASH := "Trash"

  datatype Message = Message(uid: int, folder: string, seen: bool, date: int, content: string)

  datatype Folder = Folder(role: Role, messages: seq<Message>)

  type Folders = map<string, Folder>

  /** `nextUID` is the last UID handed out, a 32-bit number. */
  datatype State = State(order: seq<string>, folders: Folders, nextUID: int)

  function NewFolder(name: string): Folder {
    Folder(RoleForFolderName(name), [])
  }

  // ---- operations ----

  function Find(messages: seq<Message>, uid: int): (r: Option<nat>)
    ensures r.Some? ==> r.value < |messages| && messages[r.value].uid == uid
  {
    if messages == [] then None
    else if messages[0].uid == uid then Some(0)
    else match Find(messages[1..], uid)
      case None => None
      case Some(i) => Some(i + 1)
  }

  function Locate(m: State, folder: string, uid: int): (r: Option<nat>)
    ensures r.Some? ==> folder in m.folders && r.value < |m.folders[folder].messages|
  {
    if folder in m.folders then Find(m.folders[folder].messages, uid) else None
  }

  function Without(messages: seq<Message>, i: nat): seq<Message>
    requires i < |messages|
  {
    messages[..i] + messages[i + 1..]
  }

  function TakeOut(m: State, folder: string, i: nat): State
    requires folder in m.folders && i < |m.folders[folder].messages|
  {
    var f := m.folders[folder];
    m.(folders := m.folders[folder := f.(messages := Without(f.messages, i))])
  }

  /** A 32-bit increment. */
  function Increment(n: int): int {
    if n == TWO_32 - 1 then 0 else n + 1
  }

  function NextUID(m: State): int {
    Increment(m.nextUID)
  }

  /** Appends a message under the next UID. */
  function PutIn(m: State, folder: string, message: Message): State
    requires folder in m.folders
  {
    var f := m.folders[folder];
    var labelled := message.(uid := NextUID(m), folder := folder);
    m.(folders := m.folders[folder := f.(messages := f.messages + [labelled])], nextUID := NextUID(m))
  }

  function WithFolder(m: State, folder: string): State {
    if folder in m.folders then m
    else m.(order := m.order + [folder], folders := m.folders[folder := NewFolder(folder)])
  }

  /** A mailbox with these folders and no message yet. */
  function Seeded(names: seq<string>): State {
    if names == [] then State([], map[], 0) else WithFolder(Seeded(names[..|names| - 1]), names[|names| - 1])
  }

  function Flag(m: State, folder: string, i: nat, seen: bool): State
    requires folder in m.folders && i < |m.folders[folder].messages|
  {
    var f := m.folders[folder];
    m.(folders := m.folders[folder := f.(messages := f.messages[i := f.messages[i].(seen := seen)])])
  }

  datatype Op =
    | Append(folder: string, message: Message)
    | Move(folder: string, uid: int, dest: string)
    | SetSeen(folder: string, uid: int, seen: bool)
    | Discard(folder: string, uid: int) // the API's delete

  function MoveIn(m: State, folder: string, uid: int, dest: string): (State, bool) {
    var i := Locate(m, folder, uid);
    if i.None? || dest !in m.folders then (m, false)
    else (PutIn(TakeOut(m, folder, i.value), dest, m.folders[folder].messages[i.value]), true)
  }

  function DeleteIn(m: State, folder: string, uid: int): (State, bool) {
    var i := Locate(m, folder, uid);
    if i.None? then (m, false) else (TakeOut(m, folder, i.value), true)
  }

  function Apply(m: State, op: Op): (State, bool) {
    match op
    case Append(folder, message) => (PutIn(WithFolder(m, folder), folder, message), true)
    case Move(folder, uid, dest) => MoveIn(m, folder, uid, dest)
    case SetSeen(folder, uid, seen) =>
      var i := Locate(m, folder, uid);
      if i.None? then (m, false) else (Flag(m, folder, i.value, seen), true)
    case Discard(folder, uid) =>
      if RoleForFolderName(folder) == Trash then DeleteIn(m, folder, uid) else MoveIn(m, folder, uid, TRASH)
  }

  function Run(m: State, ops: seq<Op>): State
    decreases |ops|
  {
    if ops == [] then m else Run(Apply(m, ops[0]).0, ops[1..])
  }

  function One(b: bool): nat {
    if b then 1 else 0
  }

  /** Messages that pass a test. */
  function Tally(messages: seq<Message>, test: Message -> bool): nat {
    if messages == [] then 0 else One(test(messages[0])) + Tally(messages[1..], test)
  }

  ghost predicate OrderOk(m: State) {
    NoDuplicates(m.order) && forall f :: f in m.order <==> f in m.folders
  }

  function Unseen(x: Message): bool {
    !x.seen
  }

  /** A line of the folder list, with 32-bit counts. */
  datatype Info = Info(name: string, role: Role, total: int, unseen: int)

  function Describe(name: string, f: Folder): Info {
    Info(name, f.role, |f.messages| % TWO_32, Tally(f.messages, Unseen) % TWO_32)
  }

  class Mock {
    var order: seq<string>
    var folders: Folders
    var nextUID: int

    function Value(): State
      reads this
    {
      State(order, folders, nextUID)
    }

    constructor (names: seq<string>)
      requires NoDuplicates(names)
      ensures Value() == Seeded(names)
    {
      order, folders, nextUID := [], map[], 0;
      new;
      for k := 0 to |names|
        invariant Value() == Seeded(names[..k]) && order == names[..k]
        invariant forall f :: f in folders ==> f in names[..k]
      {
        assert names[k] !in names[..k];
        ghost var more := names[..k + 1];
        assert more[..|more| - 1] == names[..k] && more[|more| - 1] == names[k];
        folders := folders[names[k] := Folder(RoleForFolderName(names[k]), [])];
        order := order + [names[k]];
      }
      assert names[..|names|] == names;
    }

    method FindLocked(folder: string, uid: int) returns (r: Option<nat>)
      ensures r == Locate(Value(), folder, uid)
    {
      if folder !in folders {
        return None;
      }
      var messages := folders[folder].messages;
      var i := 0;
      while i < |messages|
        invariant 0 <= i <= |messages|
        invariant Find(messages, uid) == match Find(messages[i..], uid) { case None => None case Some(j) => Some(i + j) }
      {
        if messages[i].uid == uid {
          return Some(i);
        }
        assert messages[i..][1..] == messages[i + 1..];
        i := i + 1;
      }
      return None;
    }

    method ListFolders() returns (out: seq<Info>)
      requires OrderOk(Value())
      ensures |out| == |order| && forall k :: 0 <= k < |out| ==> out[k] == Describe(order[k], folders[order[k]])
    {
      out := [];
      for k := 0 to |order|
        invariant |out| == k && forall j :: 0 <= j < k ==> out[j] == Describe(order[j], folders[order[j]])
      {
        var messages := folders[order[k]].messages;
        var unseen := 0;
        for i := 0 to |messages|
          invariant unseen == Tally(messages[..i], Unseen)
        {
          assert messages[..i + 1] == messages[..i] + [messages[i]];
          TallyMore(messages[..i], messages[i], Unseen);
          if !messages[i].seen {
            unseen := unseen + 1;
          }
        }
        assert messages[..|messages|] == messages;
        out := out + [Info(order[k], folders[order[k]].role, |messages| % TWO_32, unseen % TWO_32)];
      }
    }

    method Add(folder: string, message: Message)
      modifies this
      ensures Value() == Apply(old(Value()), Append(folder, message)).0
    {
      if folder !in folders {
        folders := folders[folder := Folder(RoleForFolderName(folder), [])];
        order := order + [folder];
      }
      nextUID := Increment(nextUID);
      var labelled := message.(uid := nextUID, folder := folder);
      folders := folders[folder := folders[folder].(messages := folders[folder].messages + [labelled])];
    }

    method MoveMessage(folder: string, uid: int, dest: string) returns (ok: bool)
      modifies this
      ensures (Value(), ok) == MoveIn(old(Value()), folder, uid, dest)
    {
      var i := FindLocked(folder, uid);
      if i.None? {
        return false;
      }
      if dest !in folders {
        return false;
      }
      var f := folders[folder];
      var message := f.messages[i.value];
      folders := folders[folder := f.(messages := f.messages[..i.value] + f.messages[i.value + 1..])];
      nextUID := Increment(nextUID);
      message := message.(uid := nextUID);
      message := message.(folder := dest);
      folders := folders[dest := folders[dest].(messages := folders[dest].messages + [message])];
      return true;
    }

    method Delete(folder: string, uid: int) returns (ok: bool)
      modifies this
      ensures (Value(), ok) == DeleteIn(old(Value()), folder, uid)
    {
      var i := FindLocked(folder, uid);
      if i.None? {
        return false;
      }
      var f := folders[folder];
      folders := folders[folder := f.(messages := f.messages[..i.value] + f.messages[i.value + 1..])];
      return true;
    }

    method MarkSeen(folder: string, uid: int, seen: bool) returns (ok: bool)
      modifies this
      ensures (Value(), ok) == Apply(old(Value()), SetSeen(folder, uid, seen))
    {
      var i := FindLocked(folder, uid);
      if i.None? {
        return false;
      }
      var f := folders[folder];
      folders := folders[folder := f.(messages := f.messages[i.value := f.messages[i.value].(seen := seen)])];
      return true;
    }

    /** The API's delete: to Trash, or for good when already there. */
    method DeleteOrTrash(folder: string, uid: int) returns (ok: bool)
      modifies this
      ensures (Value(), ok) == Apply(old(Value()), Discard(folder, uid))
    {
      if RoleForFolderName(folder) == Trash {
        ok := Delete(folder, uid);
      } else {
        ok := MoveMessage(folder, uid, TRASH);
      }
    }
  }

  // ---- the invariant ----

  /** A place in the mailbox. */
  datatype Slot = Slot(folder: string, index: nat)

  predicate Has(m: State, s: Slot) {
    s.folder in m.folders && s.index < |m.folders[s.folder].messages|
  }

  function At(m: State, s: Slot): Message
    requires Has(m, s)
  {
    m.folders[s.folder].messages[s.index]
  }

  predicate Labelled(m: State, s: Slot) {
    Has(m, s) ==> At(m, s).folder == s.folder && 0 < At(m, s).uid <= m.nextUID
  }

  predicate Apart(m: State, s: Slot, t: Slot) {
    Has(m, s) && Has(m, t) && At(m, s).uid == At(m, t).uid ==> s == t
  }

  ghost predicate RolesOk(m: State) {
    forall f :: f in m.folders ==> m.folders[f].role == RoleForFolderName(f)
  }

  /** Messages know their folder, and no UID is used twice, within a folder or across folders. */
  ghost predicate UidsOk(m: State) {
    && 0 <= m.nextUID < TWO_32
    && (forall s :: Labelled(m, s))
    && (forall s, t :: Apart(m, s, t))
  }

  ghost predicate Inv(m: State) {
    OrderOk(m) && RolesOk(m) && UidsOk(m)
  }

  lemma WithFolderOrder(m: State, folder: string)
    requires OrderOk(m) && RolesOk(m)
    ensures OrderOk(WithFolder(m, folder)) && RolesOk(WithFolder(m, folder))
  {
  }

  lemma WithFolderUids(m: State, folder: string)
    requires UidsOk(m)
    ensures UidsOk(WithFolder(m, folder))
  {
    var m' := WithFolder(m, folder);
    forall s
      ensures Labelled(m', s)
    {
      assert Labelled(m, s);
    }
    forall s, t
      ensures Apart(m', s, t)
    {
      assert Apart(m, s, t);
    }
  }

  lemma {:induction false} SeededInv(names: seq<string>)
    ensures Inv(Seeded(names)) && Seeded(names).nextUID == 0
    ensures NoDuplicates(names) ==> Seeded(names).order == names
    ensures forall f :: f in Seeded(names).folders <==> f in names
    ensures forall f :: f in names ==> Seeded(names).folders[f].messages == []
  {
    if names != [] {
      assert names == names[..|names| - 1] + [names[|names| - 1]];
      SeededInv(names[..|names| - 1]);
      WithFolderOrder(Seeded(names[..|names| - 1]), names[|names| - 1]);
      WithFolderUids(Seeded(names[..|names| - 1]), names[|names| - 1]);
    }
  }

  /** Where a message was before the one at `k` was taken out. */
  function Before(k: Slot, s: Slot): Slot {
    if s.folder == k.folder && s.index >= k.index then s.(index := s.index + 1) else s
  }

  lemma BeforeIs(m: State, k: Slot, s: Slot)
    requires Has(m, k)
    ensures var m' := TakeOut(m, k.folder, k.index);
            Has(m', s) ==> Has(m, Before(k, s)) && At(m, Before(k, s)) == At(m', s)
  {
  }

  lemma TakeOutInv(m: State, k: Slot)
    requires Inv(m) && Has(m, k)
    ensures Inv(TakeOut(m, k.folder, k.index))
  {
    var m' := TakeOut(m, k.folder, k.index);
    forall s
      ensures Labelled(m', s)
    {
      BeforeIs(m, k, s);
      assert Labelled(m, Before(k, s));
    }
    forall s, t
      ensures Apart(m', s, t)
    {
      BeforeIs(m, k, s);
      BeforeIs(m, k, t);
      assert Apart(m, Before(k, s), Before(k, t));
    }
  }

  lemma PutInIs(m: State, folder: string, message: Message, s: Slot)
    requires folder in m.folders
    ensures var m' := PutIn(m, folder, message);
            Has(m', s) ==>
              || (Has(m, s) && At(m, s) == At(m', s))
              || (s == Slot(folder, |m.folders[folder].messages|) && At(m', s) == message.(uid := NextUID(m), folder := folder))
  {
  }

  lemma PutInApart(m: State, folder: string, message: Message, s: Slot, t: Slot)
    requires folder in m.folders && 0 <= m.nextUID < TWO_32 - 1
    requires Labelled(m, s) && Labelled(m, t) && Apart(m, s, t)
    ensures Apart(PutIn(m, folder, message), s, t)
  {
    PutInIs(m, folder, message, s);
    PutInIs(m, folder, message, t);
    assert NextUID(m) == m.nextUID + 1;
  }

  lemma PutInInv(m: State, folder: string, message: Message)
    requires Inv(m) && folder in m.folders && m.nextUID < TWO_32 - 1
    ensures Inv(PutIn(m, folder, message))
  {
    var m' := PutIn(m, folder, message);
    forall s
      ensures Labelled(m', s)
    {
      PutInIs(m, folder, message, s);
      assert Labelled(m, s);
    }
    forall s, t
      ensures Apart(m', s, t)
    {
      PutInApart(m, folder, message, s, t);
    }
  }

  lemma FlagIs(m: State, k: Slot, seen: bool, s: Slot)
    requires Has(m, k)
    ensures var m' := Flag(m, k.folder, k.index, seen);
            Has(m', s) == Has(m, s) && (Has(m, s) ==> At(m', s).uid == At(m, s).uid && At(m', s).folder == At(m, s).folder)
  {
  }

  lemma FlagInv(m: State, k: Slot, seen: bool)
    requires Inv(m) && Has(m, k)
    ensures Inv(Flag(m, k.folder, k.index, seen))
  {
    var m' := Flag(m, k.folder, k.index, seen);
    forall s
      ensures Labelled(m', s)
    {
      FlagIs(m, k, seen, s);
      assert Labelled(m, s);
    }
    forall s, t
      ensures Apart(m', s, t)
    {
      FlagIs(m, k, seen, s);
      FlagIs(m, k, seen, t);
      assert Apart(m, s, t);
    }
  }

  lemma MoveInv(m: State, folder: string, uid: int, dest: string)
    requires Inv(m) && m.nextUID < TWO_32 - 1
    ensures Inv(MoveIn(m, folder, uid, dest).0)
  {
    var i := Locate(m, folder, uid);
    if i.Some? && dest in m.folders {
      TakeOutInv(m, Slot(folder, i.value));
      PutInInv(TakeOut(m, folder, i.value), dest, m.folders[folder].messages[i.value]);
    }
  }

  lemma DeleteInv(m: State, folder: string, uid: int)
    requires Inv(m)
    ensures Inv(DeleteIn(m, folder, uid).0)
  {
    var i := Locate(m, folder, uid);
    if i.Some? {
      TakeOutInv(m, Slot(folder, i.value));
    }
  }

  lemma ApplyInv(m: State, op: Op)
    requires Inv(m) && m.nextUID < TWO_32 - 1
    ensures Inv(Apply(m, op).0)
  {
    match op
    case Append(folder, message) =>
      WithFolderOrder(m, folder);
      WithFolderUids(m, folder);
      PutInInv(WithFolder(m, folder), folder, message);
    case Move(folder, uid, dest) => MoveInv(m, folder, uid, dest);
    case SetSeen(folder, uid, seen) =>
      if Locate(m, folder, uid).Some? {
        FlagInv(m, Slot(folder, Locate(m, folder, uid).value), seen);
      }
    case Discard(folder, uid) =>
      MoveInv(m, folder, uid, TRASH);
      DeleteInv(m, folder, uid);
  }

  // ---- UIDs over runs ----

  predicate Allocates(m: State, op: Op) {
    match op
    case Append(_, _) => true
    case SetSeen(_, _, _) => false
    case Move(_, _, _) => Apply(m, op).1
    case Discard(folder, _) => Apply(m, op).1 && RoleForFolderName(folder) != Trash
  }

  /** The UIDs a run hands out, in order. */
  function Allocated(m: State, ops: seq<Op>): seq<int>
    decreases |ops|
  {
    if ops == [] then []
    else
      var m' := Apply(m, ops[0]).0;
      (if Allocates(m, ops[0]) then [m'.nextUID] else []) + Allocated(m', ops[1..])
  }

  lemma Counted(m: State, op: Op)
    requires 0 <= m.nextUID < TWO_32
    ensures Apply(m, op).0.nextUID == if Allocates(m, op) then Increment(m.nextUID) else m.nextUID
  {
  }

  /** The n numbers after `last`, in 32 bits. */
  function Counting(last: int, n: nat): (s: seq<int>)
    ensures |s| == n
    decreases n
  {
    if n == 0 then [] else [Increment(last)] + Counting(Increment(last), n - 1)
  }

  lemma {:induction false} AllocatedCounts(m: State, ops: seq<Op>)
    requires 0 <= m.nextUID < TWO_32
    ensures Allocated(m, ops) == Counting(m.nextUID, |Allocated(m, ops)|)
    decreases |ops|
  {
    if ops != [] {
      Counted(m, ops[0]);
      AllocatedCounts(Apply(m, ops[0]).0, ops[1..]);
    }
  }

  lemma {:induction false} CountingAt(last: int, n: nat, i: nat)
    requires i < n && last + 1 + i <= TWO_32
    ensures Counting(last, n)[i] == if last + 1 + i == TWO_32 then 0 else last + 1 + i
    decreases n
  {
    if i > 0 {
      CountingAt(Increment(last), n - 1, i - 1);
    }
  }

  /** Up to the wrap and at it. */
  lemma AllocatedAt(m: State, ops: seq<Op>, i: nat)
    requires 0 <= m.nextUID < TWO_32 && i < |Allocated(m, ops)| && m.nextUID + 1 + i <= TWO_32
    ensures Allocated(m, ops)[i] == if m.nextUID + 1 + i == TWO_32 then 0 else m.nextUID + 1 + i
  {
    AllocatedCounts(m, ops);
    CountingAt(m.nextUID, |Allocated(m, ops)|, i);
  }

  predicate Larger(m: State, uids: seq<int>, i: nat)
    requires i < |uids|
  {
    uids[i] > if i == 0 then m.nextUID else uids[i - 1]
  }

  /** Every UID a run hands out is larger than the one before it, and the first than any in use,
      exactly while the 32-bit counter has not wrapped. */
  lemma UidsIncreaseExactly(m: State, ops: seq<Op>)
    requires 0 <= m.nextUID < TWO_32
    ensures var uids := Allocated(m, ops);
            m.nextUID + |uids| < TWO_32 <==>
            forall i :: 0 <= i < |uids| ==> Larger(m, uids, i)
  {
    var uids := Allocated(m, ops);
    if m.nextUID + |uids| < TWO_32 {
      forall i | 0 <= i < |uids|
        ensures Larger(m, uids, i)
      {
        AllocatedAt(m, ops, i);
        if i > 0 {
          AllocatedAt(m, ops, i - 1);
        }
      }
    } else {
      var i := TWO_32 - 1 - m.nextUID;
      AllocatedAt(m, ops, i);
      assert uids[i] == 0;
      if i > 0 {
        AllocatedAt(m, ops, i - 1);
      }
      assert !Larger(m, uids, i);
    }
  }

  /** One delivery after the largest UID there is gets UID 0. */
  lemma UidsWrap(m: State, folder: string, message: Message)
    requires m.nextUID == TWO_32 - 1
    ensures Allocated(m, [Append(folder, message)]) == [0]
    ensures !Larger(m, [0], 0)
  {
    var ops := [Append(folder, message)];
    assert ops[1..] == [];
  }

  lemma ApplyInvAnyway(m: State, op: Op)
    requires Inv(m) && (Allocates(m, op) ==> m.nextUID < TWO_32 - 1)
    ensures Inv(Apply(m, op).0)
  {
    if m.nextUID < TWO_32 - 1 {
      ApplyInv(m, op);
    } else {
      match op
      case Append(_, _) =>
      case Move(_, _, _) =>
      case SetSeen(folder, uid, seen) =>
        if Locate(m, folder, uid).Some? {
          FlagInv(m, Slot(folder, Locate(m, folder, uid).value), seen);
        }
      case Discard(folder, uid) => DeleteInv(m, folder, uid);
    }
  }

  lemma {:induction false} RunInvFrom(m: State, ops: seq<Op>)
    requires Inv(m) && m.nextUID + |Allocated(m, ops)| < TWO_32
    ensures Inv(Run(m, ops))
    decreases |ops|
  {
    if ops != [] {
      Counted(m, ops[0]);
      ApplyInvAnyway(m, ops[0]);
      RunInvFrom(Apply(m, ops[0]).0, ops[1..]);
    }
  }

  /** In every run that hands out fewer than 2^32 UIDs, however long: UIDs are unique across all
      folders and at most `nextUID`, and `order` lists each folder once. */
  lemma RunInv(names: seq<string>, ops: seq<Op>)
    requires |Allocated(Seeded(names), ops)| < TWO_32
    ensures Inv(Run(Seeded(names), ops))
  {
    SeededInv(names);
    RunInvFrom(Seeded(names), ops);
  }

  // ---- conservation ----

  lemma {:induction false} TallyConcat(a: seq<Message>, b: seq<Message>, test: Message -> bool)
    ensures Tally(a + b, test) == Tally(a, test) + Tally(b, test)
  {
    if a == [] {
      assert a + b == b;
    } else {
      assert (a + b)[1..] == a[1..] + b;
      TallyConcat(a[1..], b, test);
    }
  }

  lemma TallyCons(x: Message, b: seq<Message>, test: Message -> bool)
    ensures Tally([x] + b, test) == One(test(x)) + Tally(b, test)
  {
    assert ([x] + b)[1..] == b;
  }

  lemma TallyMore(a: seq<Message>, x: Message, test: Message -> bool)
    ensures Tally(a + [x], test) == Tally(a, test) + One(test(x))
  {
    TallyConcat(a, [x], test);
    TallyCons(x, [], test);
    assert [x] + [] == [x];
  }

  lemma TallyMiddle(front: seq<Message>, x: Message, back: seq<Message>, test: Message -> bool)
    ensures Tally(front + ([x] + back), test) == Tally(front + back, test) + One(test(x))
  {
    TallyConcat(front, [x] + back, test);
    TallyCons(x, back, test);
    TallyConcat(front, back, test);
  }

  lemma Around<T>(a: seq<T>, i: nat)
    requires i < |a|
    ensures a == a[..i] + ([a[i]] + a[i + 1..])
  {
  }

  lemma TallyWithout(a: seq<Message>, i: nat, test: Message -> bool)
    requires i < |a|
    ensures Tally(a, test) == Tally(Without(a, i), test) + One(test(a[i]))
  {
    TallyMiddle(a[..i], a[i], a[i + 1..], test);
    Around(a, i);
  }

  ghost function Sum(order: seq<string>, folders: Folders, test: Message -> bool): nat
    requires forall f :: f in order ==> f in folders
    decreases |order|
  {
    if order == [] then 0 else Tally(folders[order[0]].messages, test) + Sum(order[1..], folders, test)
  }

  /** Messages of the whole mailbox that pass a test. */
  ghost function Number(m: State, test: Message -> bool): nat
    requires OrderOk(m)
  {
    Sum(m.order, m.folders, test)
  }

  lemma {:induction false} SumUpdate(order: seq<string>, folders: Folders, f: string, x: Folder, test: Message -> bool)
    requires NoDuplicates(order) && f in folders && forall g :: g in order ==> g in folders
    ensures Sum(order, folders[f := x], test) ==
            Sum(order, folders, test) + if f in order then Tally(x.messages, test) - Tally(folders[f].messages, test) else 0
    decreases |order|
  {
    if order != [] {
      assert NoDuplicates(order[1..]);
      assert order[0] !in order[1..];
      SumUpdate(order[1..], folders, f, x, test);
    }
  }

  lemma {:induction false} SumMore(order: seq<string>, folders: Folders, f: string, x: Folder, test: Message -> bool)
    requires forall g :: g in order ==> g in folders
    requires f !in order && f !in folders
    ensures Sum(order + [f], folders[f := x], test) == Sum(order, folders, test) + Tally(x.messages, test)
    decreases |order|
  {
    if order == [] {
      assert ([] + [f])[1..] == [];
    } else {
      assert (order + [f])[1..] == order[1..] + [f];
      SumMore(order[1..], folders, f, x, test);
    }
  }

  lemma TakeOutConserves(m: State, k: Slot, test: Message -> bool)
    requires OrderOk(m) && Has(m, k)
    ensures OrderOk(TakeOut(m, k.folder, k.index))
    ensures Number(TakeOut(m, k.folder, k.index), test) + One(test(At(m, k))) == Number(m, test)
  {
    var f := m.folders[k.folder];
    SumUpdate(m.order, m.folders, k.folder, f.(messages := Without(f.messages, k.index)), test);
    TallyWithout(f.messages, k.index, test);
  }

  lemma PutInConserves(m: State, folder: string, message: Message, test: Message -> bool)
    requires OrderOk(m) && folder in m.folders
    ensures OrderOk(PutIn(m, folder, message))
    ensures Number(PutIn(m, folder, message), test) == Number(m, test) + One(test(message.(uid := NextUID(m), folder := folder)))
  {
    var f := m.folders[folder];
    var x := message.(uid := NextUID(m), folder := folder);
    SumUpdate(m.order, m.folders, folder, f.(messages := f.messages + [x]), test);
    TallyMore(f.messages, x, test);
  }

  lemma WithFolderConserves(m: State, folder: string, test: Message -> bool)
    requires OrderOk(m)
    ensures OrderOk(WithFolder(m, folder)) && Number(WithFolder(m, folder), test) == Number(m, test)
  {
    if folder !in m.folders {
      SumMore(m.order, m.folders, folder, NewFolder(folder), test);
    }
  }

  lemma FlagConserves(m: State, k: Slot, seen: bool, test: Message -> bool)
    requires OrderOk(m) && Has(m, k)
    ensures OrderOk(Flag(m, k.folder, k.index, seen))
    ensures Number(Flag(m, k.folder, k.index, seen), test) + One(test(At(m, k))) ==
            Number(m, test) + One(test(At(m, k).(seen := seen)))
  {
    var f := m.folders[k.folder];
    var g := f.messages[k.index := At(m, k).(seen := seen)];
    SumUpdate(m.order, m.folders, k.folder, f.(messages := g), test);
    TallyWithout(f.messages, k.index, test);
    TallyWithout(g, k.index, test);
    assert Without(g, k.index) == Without(f.messages, k.index);
  }

  /** Moving a message relabels it and does nothing else to any message, even within one folder:
      whatever one counts, one message has become another. */
  lemma MoveConserves(m: State, folder: string, uid: int, dest: string, test: Message -> bool)
    requires OrderOk(m)
    ensures var (m', ok) := MoveIn(m, folder, uid, dest);
            && OrderOk(m')
            && (ok <==> Locate(m, folder, uid).Some? && dest in m.folders)
            && (!ok ==> m' == m)
            && (ok ==> var x := At(m, Slot(folder, Locate(m, folder, uid).value));
                       && x.uid == uid
                       && Number(m', test) + One(test(x)) == Number(m, test) + One(test(x.(uid := NextUID(m), folder := dest))))
  {
    var i := Locate(m, folder, uid);
    if i.Some? && dest in m.folders {
      TakeOutConserves(m, Slot(folder, i.value), test);
      PutInConserves(TakeOut(m, folder, i.value), dest, m.folders[folder].messages[i.value], test);
    }
  }

  function HasContent(content: string): Message -> bool {
    (x: Message) => x.content == content
  }

  /** How many messages with this content a step brings in, and how many it destroys. */
  function Arrived(op: Op, content: string): nat {
    One(op.Append? && op.message.content == content)
  }

  function Destroyed(m: State, op: Op, content: string): nat {
    if op.Discard? && RoleForFolderName(op.folder) == Trash && Locate(m, op.folder, op.uid).Some?
    then One(At(m, Slot(op.folder, Locate(m, op.folder, op.uid).value)).content == content)
    else 0
  }

  lemma StepConserves(m: State, op: Op, c: string)
    requires OrderOk(m)
    ensures OrderOk(Apply(m, op).0)
    ensures Number(Apply(m, op).0, HasContent(c)) + Destroyed(m, op, c) == Number(m, HasContent(c)) + Arrived(op, c)
  {
    match op
    case Append(folder, message) =>
      WithFolderConserves(m, folder, HasContent(c));
      PutInConserves(WithFolder(m, folder), folder, message, HasContent(c));
    case Move(folder, uid, dest) => MoveConserves(m, folder, uid, dest, HasContent(c));
    case SetSeen(folder, uid, seen) =>
      if Locate(m, folder, uid).Some? {
        FlagConserves(m, Slot(folder, Locate(m, folder, uid).value), seen, HasContent(c));
      }
    case Discard(folder, uid) =>
      if RoleForFolderName(folder) == Trash {
        if Locate(m, folder, uid).Some? {
          TakeOutConserves(m, Slot(folder, Locate(m, folder, uid).value), HasContent(c));
        }
      } else {
        MoveConserves(m, folder, uid, TRASH, HasContent(c));
      }
  }

  function AllArrived(ops: seq<Op>, content: string): nat {
    if ops == [] then 0 else Arrived(ops[0], content) + AllArrived(ops[1..], content)
  }

  function AllDestroyed(m: State, ops: seq<Op>, content: string): nat
    decreases |ops|
  {
    if ops == [] then 0 else Destroyed(m, ops[0], content) + AllDestroyed(Apply(m, ops[0]).0, ops[1..], content)
  }

  /** Over any run of API calls a mailbox holds, content by content, what it held and what
      arrived, less what was deleted in a folder of the Trash role. */
  lemma {:induction false} RunConserves(m: State, ops: seq<Op>, c: string)
    requires OrderOk(m)
    ensures OrderOk(Run(m, ops))
    ensures Number(Run(m, ops), HasContent(c)) + AllDestroyed(m, ops, c) == Number(m, HasContent(c)) + AllArrived(ops, c)
    decreases |ops|
  {
    if ops != [] {
      StepConserves(m, ops[0], c);
      RunConserves(Apply(m, ops[0]).0, ops[1..], c);
    }
  }

  // ---- what one call does, message by message ----

  lemma {:induction false} FoundExactly(messages: seq<Message>, uid: int)
    ensures match Find(messages, uid)
            case None => forall i :: 0 <= i < |messages| ==> messages[i].uid != uid
            case Some(k) => messages[k].uid == uid && forall i :: 0 <= i < k ==> messages[i].uid != uid
  {
    if messages != [] && messages[0].uid != uid {
      FoundExactly(messages[1..], uid);
      assert forall i :: 1 <= i < |messages| ==> messages[i] == messages[1..][i - 1];
    }
  }

  /** A message is located exactly if it is in the folder, and then the first with its UID. */
  lemma LocatedExactly(m: State, folder: string, uid: int)
    ensures match Locate(m, folder, uid)
            case None => forall s: Slot :: Has(m, s) && s.folder == folder ==> At(m, s).uid != uid
            case Some(k) =>
              && At(m, Slot(folder, k)).uid == uid
              && forall s: Slot :: Has(m, s) && s.folder == folder && s.index < k ==> At(m, s).uid != uid
  {
    if folder in m.folders {
      FoundExactly(m.folders[folder].messages, uid);
    }
  }

  /** A message that arrives is the last of its folder, under the next UID; no other moves. */
  lemma AppendedLast(m: State, folder: string, message: Message, s: Slot)
    ensures var (m', ok) := Apply(m, Append(folder, message));
            var last := Slot(folder, if folder in m.folders then |m.folders[folder].messages| else 0);
            && ok && Has(m', last) && At(m', last) == message.(uid := m'.nextUID, folder := folder)
            && (Has(m', s) <==> Has(m, s) || s == last)
            && (Has(m, s) ==> At(m', s) == At(m, s))
            && m'.order == (if folder in m.folders then m.order else m.order + [folder])
  {
  }

  /** Marking a message sets its flag and nothing else; it fails exactly if it is not there. */
  lemma MarkedExactly(m: State, folder: string, uid: int, seen: bool, s: Slot)
    ensures var (m', ok) := Apply(m, SetSeen(folder, uid, seen));
            var i := Locate(m, folder, uid);
            && (ok <==> i.Some?) && (!ok ==> m' == m)
            && (Has(m', s) <==> Has(m, s)) && m'.nextUID == m.nextUID
            && (ok && s == Slot(folder, i.value) ==> At(m', s) == At(m, s).(seen := seen))
            && (ok && Has(m, s) && s != Slot(folder, i.value) ==> At(m', s) == At(m, s))
  {
  }

  /** A message that goes leaves the others in their order. */
  lemma DeletedExactly(m: State, folder: string, uid: int, s: Slot)
    ensures var (m', ok) := DeleteIn(m, folder, uid);
            var i := Locate(m, folder, uid);
            && (ok <==> i.Some?) && (!ok ==> m' == m)
            && (ok ==> (Has(m', s) <==> Has(m, Before(Slot(folder, i.value), s))))
            && (ok && Has(m', s) ==> At(m', s) == At(m, Before(Slot(folder, i.value), s)))
  {
  }

  /** A message that moves becomes the last of the other folder, under the next UID; the others stay
      in their order. */
  lemma MovedLast(m: State, folder: string, uid: int, dest: string, s: Slot)
    requires Locate(m, folder, uid).Some? && dest in m.folders
    ensures var m' := MoveIn(m, folder, uid, dest).0;
            var from := Slot(folder, Locate(m, folder, uid).value);
            var last := Slot(dest, |m.folders[dest].messages| - (if dest == folder then 1 else 0));
            && Has(m', last) && At(m', last) == At(m, from).(uid := m'.nextUID, folder := dest)
            && (s != last ==> (Has(m', s) <==> Has(m, Before(from, s))))
            && (s != last && Has(m', s) ==> At(m', s) == At(m, Before(from, s)))
  {
    var k := Locate(m, folder, uid).value;
    DeletedExactly(m, folder, uid, s);
    PutInIs(TakeOut(m, folder, k), dest, m.folders[folder].messages[k], s);
  }

  /** The API's delete destroys in the folders named Trash and Deleted Messages, and elsewhere moves to Trash. */
  lemma DiscardedExactly(m: State, folder: string, uid: int)
    ensures Apply(m, Discard(folder, uid)) ==
            if folder == "Trash" || folder == "Deleted Messages" then DeleteIn(m, folder, uid) else MoveIn(m, folder, uid, "Trash")
  {
    assert "Trash"[0] != "Deleted Messages"[0];
  }

  lemma {:induction false} SeenOrUnseen(messages: seq<Message>, seen: Message -> bool)
    requires forall x :: seen(x) <==> x.seen
    ensures Tally(messages, seen) + Tally(messages, Unseen) == |messages|
  {
    if messages != [] {
      SeenOrUnseen(messages[1..], seen);
    }
  }

  /** A folder of fewer than 2^32 messages is shown with all of them, and as unseen those not seen. */
  lemma DescribedExactly(name: string, f: Folder, seen: Message -> bool)
    requires |f.messages| < 0x1_0000_0000 && forall x :: seen(x) <==> x.seen
    ensures var info := Describe(name, f);
            && info.name == name && info.role == f.role && info.total == |f.messages|
            && info.unseen == info.total - Tally(f.messages, seen)
  {
    SeenOrUnseen(f.messages, seen);
  }
}
