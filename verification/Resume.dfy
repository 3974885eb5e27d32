/** The host's decisions about an online shrink (tools/resume.py:191-265): how large the F2FS may be, how far a shrink got,
    and whether an installation may go on. */
module Resume {
  import opened Bytes
  import opened GptEdit
  import opened Shrink
  import opened ShrinkWorker
  import Gpt

  // ---- the target

  const ONLINE_MARGIN: nat := 0x8000_0000    // 2 GiB

  /** `online_target`: None where it raises. */
  function OnlineTarget(newSize: int, section: int, used: int, blocks: int): Option<nat> {
    if section <= 0 || blocks <= 0 || newSize <= 0 || used < 0 then None
    else
      var target := newSize * 512 / 4096 / section * section;
      if target >= blocks || target * 4096 <= used + ONLINE_MARGIN then None else Some(target)
  }

  /** `n / m * m` is the largest multiple of `m` up to `n`. */
  lemma SectionsFit(n: nat, m: nat, u: nat)
    requires m > 0
    ensures n / m * m % m == 0 && n / m * m <= n
    ensures u % m == 0 && u <= n ==> u <= n / m * m
  {
    MultipleMod(n / m, m);
    DivFacts(n, m);
    DivFacts(u, m);
    LargestMultiple(n, m, n / m, n % m, u / m);
  }

  lemma DivFacts(n: nat, m: nat)
    requires m > 0
    ensures n == n / m * m + n % m && 0 <= n % m < m
  {
  }

  lemma LargestMultiple(n: nat, m: nat, q: nat, r: nat, p: nat)
    requires n == q * m + r && r < m
    ensures p * m <= n ==> p * m <= q * m
  {
    if p > q {
      Gpt.MulMono(q + 1, p, m);
      assert (q + 1) * m == q * m + m;
    } else {
      Gpt.MulMono(p, q, m);
    }
  }

  lemma MultipleMod(q: nat, m: nat)
    requires m > 0
    ensures q * m % m == 0
  {
    var d, r := q * m / m, q * m % m;
    assert q * m == d * m + r;
    assert (q - d) * m == r;
    if q > d {
      Gpt.MulMono(1, q - d, m);
    } else {
      Gpt.MulMono(0, d - q, m);
    }
  }

  /** The device accepts a target above the host's margin: its own is 1 GiB, the host's 2 GiB, and nothing wraps. */
  lemma MarginsFit(g: Geometry, target: nat, used: nat)
    requires 0 < g.section && g.blocks * 4096 < TWO64 && target < g.blocks && target % g.section == 0
    requires target * 4096 > used + ONLINE_MARGIN
    ensures ValidateTarget(g, g.blocks, target, used)
  {
  }

  /** The host's target is a whole number of sections, lies in the new partition, is the largest such, and the device
      accepts it for the same geometry and usage. */
  lemma TargetFitsDevice(newSize: int, used: int, g: Geometry, t: nat, u: nat)
    requires OnlineTarget(newSize, g.section, used, g.blocks) == Some(t) && g.blocks * 4096 < TWO64
    ensures t % g.section == 0 && t * 4096 <= newSize * 512
    ensures u % g.section == 0 && u * 4096 <= newSize * 512 ==> u <= t
    ensures ValidateTarget(g, g.blocks, t, used)
  {
    SectionsFit(newSize * 512 / 4096, g.section, u);
    MarginsFit(g, t, used);
  }

  // ---- how far it got

  datatype Progress = Unchanged | Shrunk | Committed | Unknown

  /** `online_state` for the transaction of a job: the images in its backup against the disk's. */
  function OnlineState(j: Job, d: Disk): Progress {
    if d.uuid != j.uuid then Progress.Unknown
    else if d.head == j.oldHead && d.tail == j.oldTail && d.blocks == j.expected then Progress.Unchanged
    else if d.head == j.oldHead && d.tail == j.oldTail && d.blocks == j.target then Shrunk
    else if d.head == j.newHead && d.tail == j.newTail && d.blocks == j.target then Committed
    else Progress.Unknown
  }

  /** Over the protocol, the host's answer is exact; and the only state it gives up on that a worker would still finish
      is the one between the two table writes. */
  lemma HostJudgement(j: Job, s: System)
    requires Reachable(j, s) && j.oldHead != j.newHead && j.oldTail != j.newTail
    ensures var d := s.disk;
            && (OnlineState(j, d).Unchanged? <==> d.blocks == j.expected)
            && (OnlineState(j, d).Shrunk? <==> d.blocks == j.target && d.head == j.oldHead && d.tail == j.oldTail)
            && (OnlineState(j, d).Committed? <==> d.head == j.newHead)
            && (Accepts(j, d, true) && OnlineState(j, d).Unknown? <==>
                  d.blocks == j.target && d.head == j.oldHead && d.tail == j.newTail)
  {
    ReachableInv(j, s);
  }

  /** That state is reached: the worker stopped after the backup. */
  lemma BetweenTheWrites(j: Job, s0: System) returns (s: System)
    requires Untouched(j, s0) && j.oldHead != j.newHead && j.oldTail != j.newTail
    ensures Reachable(j, s) && s.pc.Idle? && OnlineState(j, s.disk).Unknown? && Accepts(j, s.disk, true)
  {
    var trace := [Start(true), Resize(j.target), WriteBackup(j.newTail), Stop];
    var d := s0.disk.(blocks := j.target);
    var s3 := System(d.(tail := j.newTail), WritingBackup);
    s := s3.(pc := Idle);
    assert trace[1..][1..][1..] == [Stop];
    assert Run(j, s3, [Stop]) == Some(s);
    assert Run(j, System(d, WritingBackup), trace[1..][1..]) == Some(s);
    assert Run(j, System(s0.disk, Resizing), trace[1..]) == Some(s);
    assert Run(j, s0, trace) == Some(s);
  }
}
