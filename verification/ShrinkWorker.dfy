/** The worker itself (tools/f2fs-online/mu300-f2fs-online.c:56-108, 138-158, 189-235), shown to do nothing the
    transition system does not allow, and to report what it left. */
module ShrinkWorker {
  import opened Bytes
  import opened GptEdit
  import opened Shrink
  import Gpt

  // ---- the superblock

  datatype Geometry = Geometry(blocks: nat, section: nat, uuid: Bytes)

  const F2FS_MAGIC: nat := 0xf2f5_2010
  const SB_BYTES: nat := 3072

  /** `decode`: both superblocks, equal, of 4096-byte blocks in 512-block segments. */
  function Decode(raw: Bytes): (g: Option<Geometry>)
    requires |raw| == 8192
    ensures g.Some? ==> && 0 < g.value.section <= 512 * 65536 && 0 < g.value.blocks < TWO64
                        && g.value.blocks % g.value.section == 0
  {
    var a, b := raw[1024..1024 + SB_BYTES], raw[5120..5120 + SB_BYTES];
    if Gpt.Field(a, 0, 4) != F2FS_MAGIC || Gpt.Field(b, 0, 4) != F2FS_MAGIC || a != b || Gpt.Field(a, 16, 4) != 12 || Gpt.Field(a, 20, 4) != 9
       || Gpt.Field(a, 24, 4) == 0 || Gpt.Field(a, 24, 4) > 65536 then None
    else
      Gpt.LEBound(a[36..44]);
      Gpt.Widths();
      var g := Geometry(Gpt.Field(a, 36, 8), 512 * Gpt.Field(a, 24, 4), a[108..124]);
      if g.blocks == 0 || g.blocks % g.section != 0 then None else Some(g)
  }

  /** `validate_target`, in 64-bit arithmetic: no sum or product in it wraps. */
  function ValidateTarget(g: Geometry, expected: nat, target: nat, used: nat): bool
    requires g.section > 0
  {
    && expected == g.blocks && target != 0 && target < expected && target % g.section == 0
    && target <= (TWO64 - 1) / 4096 && used <= TWO64 - 1 - 0x4000_0000
    && (target * 4096) % TWO64 > (used + 0x4000_0000) % TWO64
  }

  /** Nothing in the test wraps: it is the one over the integers. */
  lemma ValidateTargetExact(g: Geometry, expected: nat, target: nat, used: nat)
    requires g.section > 0
    ensures ValidateTarget(g, expected, target, used) <==>
              && expected == g.blocks && 0 < target < expected && target % g.section == 0
              && target * 4096 < TWO64 && used + 0x4000_0000 < TWO64 && used + 0x4000_0000 < target * 4096
  {
    assert target <= (TWO64 - 1) / 4096 <==> target * 4096 < TWO64;
  }

  // ---- the program

  /** How the system calls turn out: the size the resize leaves and whether it failed, the bytes each write leaves and
      whether pwrite and fsync succeeded. */
  datatype Env = Env(sync: bool, resized: nat, resizeFails: bool, sync2: bool,
                     backup: Bytes, backupOk: bool, primary: Bytes, primaryOk: bool)

  datatype Phase = Refused | Failed | Unchanged | Recovery | Complete

  lemma {:induction false} RunExtend(j: Job, s0: System, trace: seq<Action>, a: Action)
    requires Run(j, s0, trace).Some? && Next(j, Run(j, s0, trace).value, a).Some?
    ensures Run(j, s0, trace + [a]) == Next(j, Run(j, s0, trace).value, a)
    decreases |trace|
  {
    if trace == [] {
      assert ([] + [a])[1..] == [];
    } else {
      RunExtend(j, Next(j, s0, trace[0]).value, trace[1..], a);
      assert (trace + [a])[1..] == trace[1..] + [a];
    }
  }

  class Device {
    var head: Bytes
    var tail: Bytes
    var blocks: nat
    const section: nat
    const uuid: Bytes

    function State(): Disk
      reads this
    {
      Disk(head, tail, blocks, section, uuid)
    }

    constructor (d: Disk)
      ensures State() == d
    {
      head, tail, blocks, section, uuid := d.head, d.tail, d.blocks, d.section, d.uuid;
    }

    /** worker_command. `trace` is what happened, as actions of the transition system. */
    method Worker(j: Job, space: bool, env: Env) returns (phase: Phase, ghost trace: seq<Action>)
      requires env.resized <= j.expected
      requires |tail| == |j.newTail| ==> Mix(tail, j.newTail, env.backup)
      requires |head| == |j.newHead| ==> Mix(head, j.newHead, env.primary)
      modifies this
      ensures phase.Refused? <==> !Accepts(j, old(State()), space)
      ensures phase.Refused? || phase.Failed? ==> State() == old(State())
      ensures phase.Unchanged? ==> State() == old(State()) && blocks == j.expected
      ensures phase.Complete? ==> State() == old(State()).(head := j.newHead, tail := j.newTail, blocks := j.target)
      ensures Run(j, System(old(State()), Idle), trace) == Some(System(State(), Idle))
    {
      ghost var s0 := System(State(), Idle);
      trace := [];
      if !Accepts(j, State(), space) {
        return Refused, [];
      }
      trace := [Start(space)];
      RunExtend(j, s0, [], Start(space));
      assert [] + [Start(space)] == trace;
      ghost var s := Next(j, s0, Start(space)).value;
      if blocks == j.expected {
        if !env.sync {
          trace := Stopped(j, s0, trace);
          return Failed, trace;
        }
        // the kernel's resize; some errors come after it changed something, so the size is read back
        blocks := env.resized;
        RunExtend(j, s0, trace, Resize(env.resized));
        trace := trace + [Resize(env.resized)];
        if blocks == j.expected && env.resizeFails {
          return Unchanged, trace;
        }
        if blocks != j.target {
          return Recovery, trace;
        }
      }
      assert Run(j, s0, trace) == Some(System(State(), WritingBackup));
      phase, trace := Commit(j, env, s0, trace);
    }

    /** The backup, then the primary; each is read back before anything else happens. */
    method Commit(j: Job, env: Env, ghost s0: System, ghost t0: seq<Action>) returns (phase: Phase, ghost trace: seq<Action>)
      requires Run(j, s0, t0) == Some(System(State(), WritingBackup))
      requires Mix(tail, j.newTail, env.backup) && Mix(head, j.newHead, env.primary)
      modifies this`head, this`tail
      ensures phase.Recovery? || phase.Complete?
      ensures phase.Complete? ==> head == j.newHead && tail == j.newTail
      ensures Run(j, s0, trace) == Some(System(State(), Idle))
    {
      trace := t0;
      if !env.sync2 {
        trace := Stopped(j, s0, trace);
        return Recovery, trace;
      }
      tail := env.backup;
      RunExtend(j, s0, trace, WriteBackup(env.backup));
      trace := trace + [WriteBackup(env.backup)];
      if !env.backupOk || tail != j.newTail {
        trace := Stopped(j, s0, trace);
        return Recovery, trace;
      }
      RunExtend(j, s0, trace, BackupVerified);
      trace := trace + [BackupVerified];
      head := env.primary;
      RunExtend(j, s0, trace, WritePrimary(env.primary));
      trace := trace + [WritePrimary(env.primary)];
      if !env.primaryOk || head != j.newHead {
        trace := Stopped(j, s0, trace);
        return Recovery, trace;
      }
      RunExtend(j, s0, trace, PrimaryVerified);
      trace := trace + [PrimaryVerified];
      phase := Complete;
    }
  }

  ghost function Stopped(j: Job, s0: System, trace: seq<Action>): (r: seq<Action>)
    requires Run(j, s0, trace).Some?
    ensures Run(j, s0, r) == Some(Run(j, s0, trace).value.(pc := Idle))
  {
    RunExtend(j, s0, trace, Stop);
    trace + [Stop]
  }
}
