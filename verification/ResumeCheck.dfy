/** `check` of tools/resume.py:191-232: every refusal in its order, and what passing means for an online shrink. */
module ResumeCheck {
  import opened Bytes
  import opened Gpt
  import opened GptEdit
  import opened GptResize
  import opened GptParts
  import opened Shrink
  import opened Resume
  import opened ShrinkTable

  datatype TxnState = PreparedRequest | Prepared | Installed | OtherState

  /** Which device and slot: serial, slot, cid, node. */
  datatype Identity = Identity(serial: Bytes, slot: Bytes, cid: Bytes, node: Bytes)

  datatype Txn = Txn(state: TxnState, device: Identity, start: int, size: int, disk: int, target: int, need: int,
                     usableEnd: int, regionStart: int, regionEnd: int, token: Bytes, payload: Bytes,
                     online: bool, fsUuid: Bytes, fsTarget: int)

  /** The facts as read from the device; a missing number is -1. */
  datatype Facts = Facts(bcb: Option<Bytes>, device: Option<Identity>, start: Option<int>, disk: Option<int>, size: int,
                         fsBlocks: Option<int>, fsUuid: Option<Bytes>, gptFirst: int, gptEnd: int, usableEnd: int,
                         regionStart: int, regionEnd: int, marker: Bytes, payload: Option<Bytes>)

  datatype Verdict = Ok | NotToResume | Unfinished | ResetPending | OtherDevice | NotRestarted | OtherUuid | OtherSize
                   | OtherGeometry | DoesNotAddUp | OtherToken | OtherPayload

  const BCB_COMMAND: Bytes := [98, 111, 111, 116, 45, 114, 101, 99, 111, 118, 101, 114, 121]    // "boot-recovery"
  const BCB_RECOVERY: Bytes :=    // "recovery\n--wipe_data\n--reason=mu300-make-room\n"
    [114, 101, 99, 111, 118, 101, 114, 121, 10, 45, 45, 119, 105, 112, 101, 95, 100, 97, 116, 97, 10, 45, 45, 114, 101, 97,
     115, 111, 110, 61, 109, 117, 51, 48, 48, 45, 109, 97, 107, 101, 45, 114, 111, 111, 109, 10]
  const MARKER: Bytes :=          // "MU300-PREPARED-V1 "
    [77, 85, 51, 48, 48, 45, 80, 82, 69, 80, 65, 82, 69, 68, 45, 86, 49, 32]

  function Slice(b: Bytes, lo: nat, hi: nat): Bytes
    requires lo <= hi
  {
    if hi <= |b| then b[lo..hi] else if lo <= |b| then b[lo..] else []
  }

  predicate Contains(b: Bytes, pat: Bytes) {
    |b| >= |pat| && (b[..|pat|] == pat || (b != [] && Contains(b[1..], pat)))
  }

  /** `bcb_pending`. */
  predicate BcbPending(b: Bytes) {
    Slice(b, 0, |BCB_COMMAND| + 1) == BCB_COMMAND + [NUL] && Contains(Slice(b, 64, 64 + 768), BCB_RECOVERY)
  }

  predicate IsToken(t: Bytes) {
    |t| == 32 && forall i :: 0 <= i < |t| ==> 48 <= t[i] <= 57 || 97 <= t[i] <= 102
  }

  /** `marker`: the block at the start of the prepared region. */
  function Marker(t: Bytes): (r: Bytes)
    requires IsToken(t)
    ensures |r| == 4096
  {
    MARKER + t + [NEWLINE] + Zeros(4096 - |MARKER| - |t| - 1)
  }

  function Check(r: Txn, f: Facts): Verdict {
    if r.state.OtherState? then NotToResume
    else if r.state.PreparedRequest? then Unfinished
    else if f.bcb.Some? && BcbPending(f.bcb.value) then ResetPending
    else if f.device != Some(r.device) || f.start != Some(r.start) || f.disk != Some(r.disk) then OtherDevice
    else if r.online && !r.state.Installed? && f.size == r.size && r.size != r.target then NotRestarted
    else if r.online && !r.state.Installed? && f.fsBlocks.Some? && f.fsUuid != Some(r.fsUuid) then OtherUuid
    else if r.online && !r.state.Installed? && f.fsBlocks.Some? && f.fsBlocks.value != r.fsTarget then OtherSize
    else if f.size != r.target then OtherGeometry
    else if f.gptFirst != r.start || f.gptEnd != r.start + r.target - 1 || f.usableEnd != r.usableEnd
            || f.regionStart != r.regionStart || f.regionEnd != r.regionEnd then OtherGeometry
    else if r.regionEnd - r.regionStart != r.need then DoesNotAddUp
    else if !r.state.Installed? && (!IsToken(r.token) || Slice(f.marker, 0, 4096) != Marker(r.token)) then OtherToken
    else if f.payload != Some(r.payload) then OtherPayload
    else Ok
  }

  /** The marker tells tokens apart. */
  lemma MarkerInjective(t: Bytes, u: Bytes)
    requires IsToken(t) && IsToken(u) && Marker(t) == Marker(u)
    ensures t == u
  {
    assert t == Marker(t)[|MARKER|..|MARKER| + 32] && u == Marker(u)[|MARKER|..|MARKER| + 32];
  }

  /** The facts about the table and the filesystem are those of the disk: both copies of the table
      parse, to `l'`, and the tool shows its last partition, the `shown`th. */
  ghost predicate ReadFrom(f: Facts, d: Disk, z: Resizing, l': Layout, shown: nat) {
    && f.fsBlocks == Some(d.blocks) && f.fsUuid == Some(d.uuid)
    && BlockSize(z.lbs) && Parse(z.crc, d.head, d.tail, z.sectors, z.lbs) == Some(l') && Listable(d.head, l')
    && IsLast(PartsOf(d.head, l', z.lbs), shown)
    && f.gptFirst == PartsOf(d.head, l', z.lbs)[shown].first && f.gptEnd == PartsOf(d.head, l', z.lbs)[shown].last
  }

  /** The transaction of a job: userdata starts where it did and ends at the new sector. */
  ghost predicate Records(r: Txn, j: Job, z: Resizing)
    requires MadeFrom(j, z) && z.at < |OldParts(j, z)|
  {
    && r.online && r.fsUuid == j.uuid && r.fsTarget == j.target
    && r.start == OldParts(j, z)[z.at].first && r.start + r.target - 1 == z.newLast
  }

  /** What a passed check of an online transaction that is not installed compared. */
  lemma CheckShows(r: Txn, f: Facts)
    requires Check(r, f).Ok? && r.online && !r.state.Installed? && f.fsBlocks.Some?
    ensures f.fsUuid == Some(r.fsUuid) && f.fsBlocks.value == r.fsTarget
    ensures f.gptFirst == r.start && f.gptEnd == r.start + r.target - 1
  {
  }

  /** Over any number of runs and crashes, `check` passes a transaction that is not yet installed only when the shrink was
      committed: the new table in both places, byte for byte, and the F2FS at its target. */
  lemma CheckOnlyCommitted(j: Job, s: System, z: Resizing, lo: int, hi: int, r: Txn, f: Facts, l': Layout, shown: nat)
    requires Reachable(j, s)
    requires MadeFrom(j, z) && ResizesLast(j, z, lo, hi) && Records(r, j, z) && !r.state.Installed?
    requires ReadFrom(f, s.disk, z, l', shown)
    ensures Check(r, f).Ok? ==> OnlineState(j, s.disk).Committed?
  {
    if Check(r, f).Ok? {
      CheckShows(r, f);
      ReachableInv(j, s);
      TableHead(z.crc, s.disk.head, s.disk.tail, z.sectors, z.lbs, l');
      ShownIsNew(j, z, lo, hi, s.disk.head, l', shown);
    }
  }

  /** In the committed state the tool shows exactly what `check` wants: userdata is still the last partition. */
  lemma CommittedShows(j: Job, d: Disk, z: Resizing, lo: int, hi: int, l': Layout)
    requires MadeFrom(j, z) && ResizesLast(j, z, lo, hi) && IsLast(OldParts(j, z), z.at) && DistinctIndices(OldParts(j, z))
    requires OldParts(j, z)[z.at].first < z.newLast
    requires d.head == j.newHead && Parse(z.crc, d.head, d.tail, z.sectors, z.lbs) == Some(l')
    ensures Listable(d.head, l')
    ensures var es := PartsOf(d.head, l', z.lbs);
            IsLast(es, z.at) && es[z.at].first == OldParts(j, z)[z.at].first && es[z.at].last == z.newLast
  {
    TableHead(z.crc, d.head, d.tail, z.sectors, z.lbs, l');
    NewParts(j, z, d.head, l');
    LastShown(OldParts(j, z), z.at, z.newLast, lo, hi, PartsOf(d.head, l', z.lbs));
  }

  lemma NewParts(j: Job, z: Resizing, head: Bytes, l': Layout)
    requires MadeFrom(j, z) && head == j.newHead && HeadTable(z.crc, head, z.lbs, l')
    ensures Listable(head, l') && PartsOf(head, l', z.lbs) == Moved(OldParts(j, z), z.index, z.newLast)
  {
    MixLayout(j, z, head, l');
    EndLbaExact(z.newLast, z.lbs);
    MixParts(j, z, head, l', EndLba(z.newLast, z.lbs), z.newLast);
  }

  lemma LastShown(es: seq<Part>, at: nat, newLast: int, lo: int, hi: int, shown: seq<Part>)
    requires Disjoint(es, lo, hi) && IsLast(es, at) && DistinctIndices(es) && es[at].first < newLast
    requires shown == Moved(es, es[at].index, newLast)
    ensures IsLast(shown, at) && shown[at].first == es[at].first && shown[at].last == newLast
  {
    StillLast(es, at, newLast, lo, hi);
  }

  lemma StillLast(es: seq<Part>, at: nat, newLast: int, lo: int, hi: int)
    requires Disjoint(es, lo, hi) && IsLast(es, at) && DistinctIndices(es) && es[at].first < newLast
    ensures IsLast(Moved(es, es[at].index, newLast), at)
  {
    forall i | 0 <= i < |es| && i != at
      ensures Before(es[i], es[at])
    {
      assert Before(es[i], es[at]) || Before(es[at], es[i]);
    }
  }

  // ---- where the filesystem lies

  /** How the sizes of a job came about. The device found its F2FS inside the mapped userdata of `mapped` bytes; the host
      asked for the target that belongs to userdata's new size; the entry that is edited is userdata's. */
  ghost predicate Sized(j: Job, z: Resizing, mapped: nat, section: int, used: int)
    requires MadeFrom(j, z)
  {
    && z.at < |OldParts(j, z)| && OldParts(j, z)[z.at].index == z.index
    && mapped <= SizeOf(OldParts(j, z)[z.at]) && !(j.expected > mapped / 4096)
    && OnlineTarget(z.newLast - OldParts(j, z)[z.at].first + 1, section, used, j.expected) == Some(j.target)
  }

  /** In bytes. */
  function SizeOf(p: Part): int { (p.last - p.first + 1) * 512 }

  /** The `at`th partition of `es` is entry `index`, starts where it did, and holds `blocks` blocks of F2FS. */
  predicate Holds(es: seq<Part>, at: nat, index: nat, first: int, blocks: nat) {
    at < |es| && es[at].index == index && es[at].first == first && blocks * 4096 <= SizeOf(es[at])
  }

  /** The F2FS fits userdata: at its old size by the old table, at its target by the new one. */
  lemma BothFit(j: Job, z: Resizing, mapped: nat, section: int, used: int, blocks: nat)
    requires MadeFrom(j, z) && Sized(j, z, mapped, section, used)
    ensures var es := OldParts(j, z);
            && (blocks <= j.expected ==> Holds(es, z.at, z.index, es[z.at].first, blocks))
            && Holds(Moved(es, z.index, z.newLast), z.at, z.index, es[z.at].first, j.target)
  {
    SectionsFit((z.newLast - OldParts(j, z)[z.at].first + 1) * 512 / 4096, section, 0);
  }

  /** So it is by the partitions that the copy lists. */
  ghost predicate InsideOf(copy: Bytes, l: Layout, z: Resizing, first: int, blocks: nat)
    requires BlockSize(z.lbs)
  {
    Listable(copy, l) && Holds(PartsOf(copy, l, z.lbs), z.at, z.index, first, blocks)
  }

  /** In every reachable state, after any runs and crashes, the F2FS lies inside userdata as every whole copy of the table
      lists it. */
  lemma FilesystemInside(j: Job, s: System, z: Resizing, mapped: nat, section: int, used: int)
    requires Reachable(j, s) && MadeBoth(j, z) && Sized(j, z, mapped, section, used)
    ensures WholeHead(j, s.disk) ==> InsideOf(s.disk.head, z.l, z, OldParts(j, z)[z.at].first, s.disk.blocks)
    ensures WholeTail(j, s.disk) ==> InsideOf(s.disk.tail, InTail(z.l), z, OldParts(j, z)[z.at].first, s.disk.blocks)
  {
    ReachableInv(j, s);
    NewCopies(j, z);
    BothFit(j, z, mapped, section, used, s.disk.blocks);
  }
}
