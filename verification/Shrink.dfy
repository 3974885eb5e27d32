/** The online shrink of userdata: the device worker as a transition system over the F2FS size and the two copies of the
    partition table, with torn writes, crashes and restarts (tools/f2fs-online/mu300-f2fs-online.c:138-235). */
module Shrink {
  import opened Bytes
  import opened GptEdit

  /** What the worker is started with: the table's images before and after, the F2FS sizes in 4096-byte blocks. */
  datatype Job = Job(oldHead: Bytes, oldTail: Bytes, newHead: Bytes, newTail: Bytes,
                     expected: nat, target: nat, uuid: Bytes)

  /** The device: the table's two copies and the superblock's geometry. */
  datatype Disk = Disk(head: Bytes, tail: Bytes, blocks: nat, section: nat, uuid: Bytes)

  /** The worker's checks of its images and sizes ("worker-values", "worker-gpt-inputs", part of "worker-identity"). */
  predicate Consistent(j: Job, section: nat) {
    && |j.oldHead| == |j.newHead| && |j.oldTail| == |j.newTail|
    && 0 < j.target < j.expected && section > 0 && j.target % section == 0
  }

  /** Whether a worker goes ahead on this disk; `space` is the outcome of validate_target on the space in use. */
  predicate Accepts(j: Job, d: Disk, space: bool) {
    && Consistent(j, d.section)
    && d.uuid == j.uuid && (d.blocks == j.expected || d.blocks == j.target)
    && (d.head == j.oldHead || d.head == j.newHead) && (d.tail == j.oldTail || d.tail == j.newTail)
    && (d.blocks == j.expected ==> d.head == j.oldHead && d.tail == j.oldTail && space)
  }

  /** Where a running worker is. */
  datatype Pc = Idle | Resizing | WritingBackup | WritingPrimary

  datatype System = System(disk: Disk, pc: Pc)

  /** What can happen next. A write of an image may be cut short at any byte (`m` is what is on the disk then). */
  datatype Action =
    | Start(space: bool)
    | Resize(blocks: nat)          // the kernel's resize, whatever it leaves; the size is read back
    | WriteBackup(m: Bytes)
    | BackupVerified               // pwrite, fsync and the comparison all succeeded
    | WritePrimary(m: Bytes)
    | PrimaryVerified
    | Stop                         // a failure the worker reports, or a crash

  /** The state after an action; None when it cannot happen. */
  ghost function Next(j: Job, s: System, a: Action): Option<System> {
    var d := s.disk;
    match a
    case Start(space) =>
      if s.pc.Idle? && Accepts(j, d, space)
      then Some(s.(pc := if d.blocks == j.expected then Resizing else WritingBackup)) else None
    case Resize(b) =>
      // a shrink never leaves the filesystem larger; another size than the target ends the worker
      if s.pc.Resizing? && b <= j.expected
      then Some(System(d.(blocks := b), if b == j.target then WritingBackup else Idle)) else None
    case WriteBackup(m) =>
      if s.pc.WritingBackup? && Mix(d.tail, j.newTail, m) then Some(s.(disk := d.(tail := m))) else None
    case BackupVerified =>
      if s.pc.WritingBackup? && d.tail == j.newTail then Some(s.(pc := WritingPrimary)) else None
    case WritePrimary(m) =>
      if s.pc.WritingPrimary? && Mix(d.head, j.newHead, m) then Some(s.(disk := d.(head := m))) else None
    case PrimaryVerified =>
      if s.pc.WritingPrimary? && d.head == j.newHead then Some(s.(pc := Idle)) else None
    case Stop => Some(s.(pc := Idle))
  }

  /** Any number of runs, crashes and restarts: the state after `actions`. */
  ghost function Run(j: Job, s: System, actions: seq<Action>): Option<System>
    decreases |actions|
  {
    if actions == [] then Some(s)
    else
      var s' := Next(j, s, actions[0]);
      if s'.None? then None else Run(j, s'.value, actions[1..])
  }

  /** The device as the host left it: nothing happened yet. */
  ghost predicate Untouched(j: Job, s: System) {
    && Consistent(j, s.disk.section) && s.pc.Idle?
    && s.disk == Disk(j.oldHead, j.oldTail, j.expected, s.disk.section, j.uuid)
  }

  ghost predicate Reachable(j: Job, s: System) {
    exists s0, actions :: Untouched(j, s0) && Run(j, s0, actions) == Some(s)
  }

  // ---- the invariant

  ghost predicate Inv(j: Job, s: System) {
    var d := s.disk;
    && Consistent(j, d.section) && d.uuid == j.uuid && d.blocks <= j.expected
    && Mix(j.oldHead, j.newHead, d.head) && Mix(j.oldTail, j.newTail, d.tail)
    && (d.blocks != j.target ==> d.head == j.oldHead && d.tail == j.oldTail)
    && (d.head == j.oldHead || d.tail == j.newTail)
    && (s.pc.Resizing? ==> d.blocks == j.expected)
    && (s.pc.WritingBackup? || s.pc.WritingPrimary? ==> d.blocks == j.target)
    && (s.pc.WritingPrimary? ==> d.tail == j.newTail)
  }

  lemma InvNext(j: Job, s: System, a: Action)
    requires Inv(j, s) && Next(j, s, a).Some?
    ensures Inv(j, Next(j, s, a).value)
  {
    var d := s.disk;
    match a {
      case WriteBackup(m) =>
        if d.tail == j.newTail {
          assert m == d.tail;
        }
      case WritePrimary(m) =>
      case _ =>
    }
  }

  lemma {:induction false} InvRun(j: Job, s: System, actions: seq<Action>)
    requires Inv(j, s) && Run(j, s, actions).Some?
    ensures Inv(j, Run(j, s, actions).value)
    decreases |actions|
  {
    if actions != [] {
      InvNext(j, s, actions[0]);
      InvRun(j, Next(j, s, actions[0]).value, actions[1..]);
    }
  }

  lemma ReachableInv(j: Job, s: System)
    requires Reachable(j, s)
    ensures Inv(j, s)
  {
    var s0, actions :| Untouched(j, s0) && Run(j, s0, actions) == Some(s);
    InvRun(j, s0, actions);
  }

  // ---- crash safety

  predicate WholeHead(j: Job, d: Disk) { d.head == j.oldHead || d.head == j.newHead }

  predicate WholeTail(j: Job, d: Disk) { d.tail == j.oldTail || d.tail == j.newTail }

  /** In every reachable state one copy of the table is whole, and while the F2FS is not at its target size both are the
      old table, byte for byte. */
  lemma OneCopyIntact(j: Job, s: System)
    requires Reachable(j, s)
    ensures WholeHead(j, s.disk) || WholeTail(j, s.disk)
    ensures s.disk.blocks != j.target ==> s.disk.head == j.oldHead && s.disk.tail == j.oldTail
  {
    ReachableInv(j, s);
  }

  // ---- restart

  /** A worker started again is accepted exactly when both copies are whole and the size is one of the two known ones
      (the space check aside); so a state it refuses is a torn copy or a resize that stopped half way. */
  lemma RestartAccepted(j: Job, s: System)
    requires Reachable(j, s)
    ensures Accepts(j, s.disk, true) <==>
              && WholeHead(j, s.disk) && WholeTail(j, s.disk)
              && (s.disk.blocks == j.expected || s.disk.blocks == j.target)
  {
    ReachableInv(j, s);
  }
}
