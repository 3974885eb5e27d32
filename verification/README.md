# mu300-linux: verified models

Dafny models of the parts of mu300-linux whose correctness an installed device depends on, and proofs about them. Each
program is a method (or a class with methods, where the original edits buffers, tables or a filesystem in place) proved
against a specification function, and the promises are lemmas about the specification.

- **The delta unpack** (`TarFormat`, `TarFilter`, `TarFilterRun`, `DeltaStream`, `DeltaWorld`, `DeltaTree`, `DeltaUnpack`,
  `TarLog`, `DeltaRun`, `Paths`): `mu300-carry tarfilter` from the bytes of a tar stream to the filtered stream and its
  log, `tarlink` from the log's text to the tree. Filter, untar and tarlink leave the tree of untar
  alone: same paths, same contents, hard links as the archive has them.
- **Under it** (`ProbeTable`, `Sha256`, `BigEndian`, `Copy`, `CopySteps`, `CopyRun`): the two open-addressing tables are maps, the
  buffered SHA-256 does not depend on how the message is cut up, and `copy` keeps which files are one file.
- **The partition table** (`Gpt`, `GptEdit`, `GptResize`, `GptParts`, `GptEditor`): two copies of a GUID partition table edited in
  place. CRC32 is any function.
- **The online shrink** (`Shrink`, `ShrinkWorker`, `Resume`, `ShrinkTable`, `ResumeCheck`): a transition system with crashes and torn
  writes, the worker as a program whose every run is a run of that system, and the host's decisions over all reachable
  states.
- **Ed25519** (`Ed25519`, `DoubleAndAdd`, `Ed25519Group`, `Ed25519Points`, `Ed25519Numbers`): the addition formula is closed and
  complete on the curve, double-and-add is the s-fold sum, a point is decoded from exactly its encoding, and the
  verification is proved from the bytes of key, message and signature, for the program's own numbers.
- **Manifests and diffs** (`Text`, `SortBy`, `Manifest`, `ManifestUnion`, `ManifestRun`, `ManifestTools`, `ImageEntries`, `ImageDiff`,
  `ImageDiffProof`, `ImageDiffTheorems`, `ImageDiffRun`): union and extract undo each other on the text; `make` and `check` agree.
- **File formats** (`Lmo`, `LmoCompile`, `PoText`, `Cpio`, `CpioRead`, `Lz4Legacy`, `Ramdisk`, `RamdiskInit`, `RamdiskBuild`): the LuCI
  catalog supports lookup; the ramdisk's archives and frames round-trip, and the last init in it is the one built.

`dafny verify dfyconfig.toml` checks the whole project.

## Where the code does less than its description

Nine promises hold only under a condition. Each has a lemma with an input that breaks it and one that says when it holds:
exactly, but for names that come again, where the condition is sufficient, and for ramdisk segments cut inside a record,
which have a lemma of their own.

- A hard link to a hard link. The stream that tarfilter writes unpacks into a fresh tree if and only if no hard link
  names a hard link that was left out (`DeltaUnpack.UnpacksExactlyWhenUnbroken`, `DeltaUnpack.LinkToALinkIsLost`). Archives whose
  hard links name regular members directly always meet it (`DeltaTree.DirectIsUnbroken`). Into a NEW that is not fresh it
  may unpack all the same, to another tree (`DeltaUnpack.StaleFileIsLinked`); the caller removes NEW first.
- A hard link whose name has an empty, "." or ".." part. A file with such a name is never left out, but a hard link to a
  file left out is, whatever its own name, and tarlink then refuses the log. The run finishes if and only if every path left
  out is plain as well (`DeltaRun.DeltaUnpackEndToEnd`, `DeltaRun.LogWritable`, `DeltaRun.DottedLinkIsLost`). Archives whose hard
  links have plain names always meet it (`DeltaRun.LinksDecide`).
- A name that comes again. tarlink runs after all of tar, so OLD's file replaces a later member of the name of a file left
  out (`DeltaUnpack.NamedAgainIsLost`). The results ask that no member has the name of one left out before it
  (`DeltaTree.Settled`), which archives of distinct names always meet (`DeltaTree.DistinctIsSettled`).
- A file in a directory that is no member. tar makes missing directories, tarlink does not: if such a file is left out and
  nothing else brings its directory, tarlink dies where untar of the whole archive would succeed. It finishes if and only
  if every path left out has its directory in NEW, as a member that stays, or above one (`DeltaUnpack.RelinkedIsUntar`,
  `DeltaUnpack.UntarDirs`, `DeltaUnpack.LoneFileIsLost`). Archives that list their directories always meet it
  (`DeltaUnpack.ListedIsHoused`).
- The state between the two table writes. `online_state` says unknown for the old primary, the new backup and the target
  size, though a restarted worker accepts that state and finishes (`Resume.HostJudgement`, `Resume.BetweenTheWrites`).
- An image with a file named `.mu300-diff`. `check` accepts what `make` wrote if and only if no such member stays in the
  diff (`ImageDiffTheorems.MakeThenCheck`, `ImageDiffTheorems.OwnHeadIsRefused`).
- `dev/console`. `cpio_archive` adds the parents of the given entries but not of the console it appends itself, so the
  console is unpacked if and only if some entry names `dev` or something below it (`Ramdisk.ConsoleUnpacked`, `RamdiskInit.ConsoleMissing`).
- The appended ramdisk segment. Its magic number is all that is checked. Where its data does not end inside a record, the
  init behind it is the one that is left if and only if the data can be read as archives to its end
  (`RamdiskInit.InitIsLast`, `RamdiskInit.UnreadableStops`). Where it is cut inside a record, that record takes what stands
  behind it for its own data: the reading succeeds and the segment's older init is left (`RamdiskInit.CutTakesInit`).
- The encoding of y = P - 1 with the sign bit set. `x2` is compared with 0 before it is reduced modulo P, so these 32 bytes
  decode to x = P, where section 5.1.3 of RFC 8032 has decoding fail. Every other string is decoded exactly as encoded
  (`Ed25519Points.DecompressExact`, `Ed25519Points.NegativeZeroDecodes`).

Two more differences are part of the statements. A file that was left out has OLD's owner and mode, which tarfilter does
not compare, and two names may share an inode that they did not share in the archive where OLD had them as one file
(`DeltaUnpack.SameTree`, `DeltaUnpack.NoMoreSharing`).

## What is taken as given

- CRC32, the SHA-256 compression, the image digest, the string hash of LuCI, gzip and LZ4 block compression are function
  parameters. Of LZ4 the framing needs that a block is decompressed again and that its length is never the magic number;
  of the digest, that it is written without blanks.
- P has no zero divisors, D is not a square modulo P, Fermat's little theorem holds for P, and addition on the curve is
  associative (`Ed25519Numbers.PrimeFacts`, `Ed25519Group.Associative`). SHA-512 is a parameter. The arithmetic is proved for
  every modulus, d and square root of -1 with these properties; `Ed25519.ED25519` are the numbers of the program, and what
  else is needed of them is proved.
- OLD and SRC do not change during a run. System calls that can turn out either way are parameters: whether a link can be
  made, what a torn write leaves, what the resize leaves, what the link count of a file is at each moment.
- The header of a partition table is 92 bytes up to a block, an entry at least 128 bytes, and the arrays do not overlap the
  headers (`Gpt.WellFormed`).
- tar, as it unpacks: members in order, missing directories made on the way, a later member in the place of an earlier
  one. NEW is a tree: every path in it has its directory, and a directory one name. The kernel, as it reads and unpacks a
  ramdisk: records in order up to the end of the data, zeros between archives skipped, and an entry whose directory is
  missing not made.
- The arrays of the two copies of a partition table are the same where the tail's partitions are spoken of, and the mapped
  userdata is no larger than its partition (`ShrinkTable.MadeBoth`, `ResumeCheck.Sized`).

## Model

| member | source | states |
|---|---|---|
| Paths.EscapeRoundTrip | tools/carry/mu300-carry.c:187-242 | an escaped path on a line, whatever follows it, is read back as the path |
| Paths.EscapeIsOneLine | tools/carry/mu300-carry.c:187-215 | an escaped path holds no newline, so it is one line of a list or a log |
| Paths.EscapeInjective | tools/carry/mu300-carry.c:187-242 | two paths that escape alike are one path |
| TarFormat.StepLocal | tools/carry/mu300-carry.c:1073-1161 | the next record of a stream, its name, target and size depend on its own bytes only: any other bytes may follow it |
| TarFilterRun.Replay | tools/carry/mu300-carry.c:1205-1212 | the bytes read again from OLD are exactly those that passed |
| TarFilterRun.PassThrough | tools/carry/mu300-carry.c:1132-1139 | a record that is not compared passes byte for byte |
| TarFilterRun.CompareBlock | tools/carry/mu300-carry.c:1193-1217 | one 64 KiB block against OLD: still the same, or the headers and everything that passed go out |
| TarFilterRun.Compare | tools/carry/mu300-carry.c:1191-1219 | a candidate is the same exactly when its content is OLD's; at a late difference the output is the pending headers, the header and all data, byte for byte, however many blocks matched first |
| TarFilterRun.PassCandidate | tools/carry/mu300-carry.c:1173-1252 | a candidate is left out exactly when it is OLD's (and in `*` mode holds a NUL); otherwise it is written, a text file in `*` mode with zeros for its padding |
| TarFilterRun.FilterMember | tools/carry/mu300-carry.c:1142-1277 | one member decided, logged, counted and written or left out, with its pending headers |
| TarFilterRun.Run | tools/carry/mu300-carry.c:1046-1282 | the loop over the stream is the filter of the specification, on every stream, cut short or not |
| DeltaStream.KeptEntry | tools/carry/mu300-carry.c:1173-1267 | a member that tarfilter writes is read back as the entry it was |
| DeltaStream.FilterDecodes | tools/carry/mu300-carry.c:1046-1282 | the output is read as exactly the members that are kept, entry for entry, and the log is that of the others and the two totals |
| DeltaWorld.MakesDirs | rootfs/overlay/opt/mu300/bin/mu300-update:1926-1930 | the directories tar makes on the way to a member: exactly those that are missing, and nothing else changes |
| DeltaTree.SimDirs | rootfs/overlay/opt/mu300/bin/mu300-update:1926-1930 | those directories are made alike in the whole tree and the filtered one |
| DeltaTree.SimKeep | tools/carry/mu300-carry.c:1253-1267 | a member that stays is unpacked alike from the whole and from the filtered archive |
| DeltaTree.SimDrop | tools/carry/mu300-carry.c:1165-1172 | a member left out is missing from the filtered tree, and nothing else is |
| DeltaTree.SimAll | tools/carry/mu300-carry.c:1046-1282 | the filtered archive unpacks to the whole one's tree but for the paths left out and the directories that tar would make for them alone |
| DeltaTree.DirectIsUnbroken | tools/carry/mu300-carry.c:1162-1172 | hard links that name no earlier hard link never break |
| DeltaTree.DistinctIsSettled | tools/carry/mu300-carry.c:1142-1277 | an archive without two members of one name never names again what was left out |
| DeltaTree.BrokenIsRefused | tools/carry/mu300-carry.c:1162-1172 | a hard link to a hard link that was left out cannot be unpacked from the filtered archive |
| DeltaUnpack.RelinkFile | tools/carry/mu300-carry.c:1391-1411 | a D line makes the path OLD's inode, or one copy of it |
| DeltaUnpack.RelinkLink | tools/carry/mu300-carry.c:1378-1390 | an H line and its T line make the path share the inode its target got from an earlier D line |
| DeltaUnpack.RelinkAll | tools/carry/mu300-carry.c:1302-1431 | tarlink runs through the whole log and relinks every path left out, and no other |
| DeltaUnpack.UntarAdds | tools/carry/mu300-carry.c:1284-1287 | unpacking only adds inodes, none of them OLD's |
| DeltaUnpack.SameSharing | tools/carry/mu300-carry.c:1378-1411 | two names share an inode afterwards exactly when they do in the archive, or when OLD had them as one file |
| DeltaUnpack.UntarDirs | rootfs/overlay/opt/mu300/bin/mu300-update:1926-1930 | a directory is there after an unpack exactly when NEW had it, a member is it, or a member lies below it |
| DeltaUnpack.RelinkStops | tools/carry/mu300-carry.c:1391-1401 | tarlink dies when a path left out has no directory |
| DeltaUnpack.RelinkedIsUntar | tools/carry/mu300-carry.c:1046-1431 | over members: filter and untar succeed; tarlink finishes if and only if every path left out has its directory from NEW or from the members that stay, and then leaves the tree of untar alone |
| DeltaUnpack.ListedIsHoused | tools/carry/mu300-carry.c:1162-1174 | no directory is ever left out, so every path left out of an archive that lists its directories has its directory |
| DeltaUnpack.LoneFileIsLost | tools/carry/mu300-carry.c:1398-1400 | a concrete archive of one file in a directory that is no member: it unpacks whole, and tarlink dies on it |
| DeltaUnpack.UnpacksExactlyWhenUnbroken | tools/carry/mu300-carry.c:1162-1172 | into a fresh NEW the filtered archive unpacks if and only if no hard link names a hard link that was left out |
| DeltaUnpack.LinkToALinkIsLost | tools/carry/mu300-carry.c:1162-1172 | a concrete archive of three names of one file that unpacks whole and does not unpack filtered |
| DeltaUnpack.StaleFileIsLinked | rootfs/overlay/opt/mu300/bin/mu300-update:1923-1924 | the same archive into a NEW with an old file in the way: everything finishes, with another tree; the caller removes NEW first |
| DeltaUnpack.NamedAgainIsLost | tools/carry/mu300-carry.c:1391-1411 | a concrete archive with two members of one name, the first left out: tarlink puts OLD's file in the place of the second |
| DeltaUnpack.DeltaUnpackIsUntar | tools/carry/mu300-carry.c:1046-1431 | from the stream: tarlink finishes exactly when every path left out has its directory, and then filter, untar and tarlink give the same paths, contents and hard links as untar alone |
| TarLog.RunTarLink | tools/carry/mu300-carry.c:1302-1431 | the loop over the log's text does what its lines say, or stops where the program dies |
| TarLog.LineRoundTrip | tools/carry/mu300-carry.c:1167-1171 | a line of the log, whatever follows it, is read back as that line, or refused exactly when its path is not plain |
| TarLog.LinkTextOf | tools/carry/mu300-carry.c:1319-1416 | tarlink over the text of a log is tarlink over its lines, and needs the E line |
| TarLog.LinkTextStops | tools/carry/mu300-carry.c:217-242 | a line with a path that is not plain ends tarlink |
| DeltaRun.LogWritable | tools/carry/mu300-carry.c:1162-1247 | every line tarfilter writes is one that tarlink accepts if and only if every path left out is plain |
| DeltaRun.LinksDecide | tools/carry/mu300-carry.c:1163-1164 | a file that is left out has a plain name; only the names of hard links can be others |
| DeltaRun.DottedLinkIsLost | tools/carry/mu300-carry.c:1162-1172 | a concrete archive of a file and a hard link a/./b to it: it unpacks whole, and tarlink refuses its log |
| DeltaRun.LogTargets | tools/carry/mu300-carry.c:1165-1171 | every T line follows its H line, and its target was left out by an earlier D line |
| DeltaRun.CountsAddUp | tools/carry/mu300-carry.c:1248-1278 | the two numbers of the E line add up to the KiB of all regular members |
| DeltaRun.DeltaUnpackEndToEnd | tools/carry/mu300-carry.c:1046-1431 | tarfilter over the bytes, tar over its output, tarlink over its log's text: they finish exactly when every path left out has its directory and is plain, with the tree of the whole archive |
| DeltaRun.DeltaUnpackProgram | rootfs/overlay/opt/mu300/bin/mu300-update:1921-1934 | the three programs run one after the other: into a fresh NEW, for an archive of distinct names, they succeed if and only if no hard link names one that was left out and every path left out has its directory and is plain, and then with that tree |
| ProbeTable.SomeEmpty | tools/carry/mu300-carry.c:786-793 | with more slots than keys a slot is empty, so every probe ends |
| ProbeTable.AfterWraps | tools/carry/mu300-carry.c:790-791 | the step to the next slot is the one modulo the capacity |
| ProbeTable.EndsAbsent | tools/carry/mu300-carry.c:559-566 | a probe that ends at an empty slot ends there because the key was never added |
| ProbeTable.Inserted | tools/carry/mu300-carry.c:824-831 | a new key put where its probe ended keeps every key findable |
| ProbeTable.Changed | tools/carry/mu300-carry.c:1243-1244 | setting a flag in place keeps every key and every other flag |
| ProbeTable.Slot | tools/carry/mu300-carry.c:786-793 | the probe ends, at the key's slot if it is stored and at an empty slot if not |
| ProbeTable.Rehash | tools/carry/mu300-carry.c:799-822 | the larger table holds exactly the bindings of the old one: no key, flag or first path is lost |
| ProbeTable.Probe.constructor | tools/carry/mu300-carry.c:771-772 | a new table is empty, without slots |
| ProbeTable.Probe.Find | tools/carry/mu300-carry.c:823-832 | a key is found exactly when it was added, with its value |
| ProbeTable.Probe.Change | tools/carry/mu300-carry.c:1243-1244 | the found key's value is set, nothing else changes |
| ProbeTable.Probe.Grow | tools/carry/mu300-carry.c:573-585 | the capacity stays a power of two from 1024 on and at most half used, with the same bindings |
| ProbeTable.Probe.Add | tools/carry/mu300-carry.c:573-596 | a new key is added with its value; a key that is there keeps its first value |
| BigEndian.BERoundTrip | tools/po2lmo.py:172-172 | a number in k bytes, most significant first, is read back |
| BigEndian.ToBERoundTrip | tools/po2lmo.py:172-172 | bytes read as a number are written again as they were |
| Sha256.PaddingIsStandard | tools/carry/mu300-carry.c:138-148 | the byte 0x80 and the zero bytes are the bit 1 and the least number of zero bits of section 5.1.1 of FIPS 180-4 |
| Sha256.PaddedInjective | tools/carry/mu300-carry.c:138-148 | two messages below 2^64 bits are padded to different blocks |
| Sha256.BlocksAppend | tools/carry/mu300-carry.c:121-136 | compressing whole blocks and then more is compressing them together |
| Sha256.LengthField | tools/carry/mu300-carry.c:145-146 | the eight shifted bytes are the length in bits, most significant first |
| Sha256.Sha.constructor | tools/carry/mu300-carry.c:111-119 | nothing taken, the initial state |
| Sha256.Sha.Fill | tools/carry/mu300-carry.c:129-129 | a piece copied behind what the buffer holds, never past its 64 bytes |
| Sha256.Sha.Absorb | tools/carry/mu300-carry.c:124-135 | one turn of the update: state and buffer stand for the message and the piece |
| Sha256.Sha.Update | tools/carry/mu300-carry.c:121-136 | for a chunk of any size, state, buffer and length stand for the message grown by it |
| Sha256.Sha.Finish | tools/carry/mu300-carry.c:138-151 | for every way to cut a message into updates the state is the compression folded over the padded message; the 72 bytes of padding suffice |
| CopySteps.Makes | tools/carry/mu300-carry.c:609-643 | a directory of SRC that DST lacks is made, and everything done before stays |
| CopySteps.Places | tools/carry/mu300-carry.c:690-738 | a path given its inode keeps every earlier copy, and the sharing among the copies |
| CopySteps.NewApart | tools/carry/mu300-carry.c:705-725 | a new inode is right for a file whose inode the table does not know: no earlier file is another name of it |
| CopySteps.LinkApart | tools/carry/mu300-carry.c:712-713 | so is SRC's own inode |
| CopySteps.NameApart | tools/carry/mu300-carry.c:706-710 | the inode of the first copied name is right for every further name |
| CopySteps.Retouches | tools/carry/mu300-carry.c:745-761 | setting a directory's attributes at the end changes no copy |
| CopyRun.Copier.constructor | tools/carry/mu300-carry.c:645-663 | an empty table and no directories to finish |
| CopyRun.Copier.CopyMeta | tools/carry/mu300-carry.c:435-491 | owner mapped, mode, attributes; set-id bits and the capability go when the owner changed, and it says so exactly when there was one |
| CopyRun.Copier.CopyAttrs | tools/carry/mu300-carry.c:462-483 | every attribute goes along but the capability of a moved file, and a label the kernel refuses |
| CopyRun.Copier.MakeParents | tools/carry/mu300-carry.c:609-643 | the missing directories above a path are made; a part that is no directory ends the run |
| CopyRun.Copier.Create | tools/carry/mu300-carry.c:713-725 | a new inode with SRC's content and mapped attributes |
| CopyRun.Copier.Link | tools/carry/mu300-carry.c:706-713 | a further name of an inode that is there |
| CopyRun.Copier.PlaceRegular | tools/carry/mu300-carry.c:700-731 | a regular file: another name of one copied before, a link to SRC's, or a copy |
| CopyRun.Copier.Place | tools/carry/mu300-carry.c:680-738 | one path of any kind; a directory in the way ends the run |
| CopyRun.Copier.Line | tools/carry/mu300-carry.c:664-742 | one line of the list |
| CopyRun.Copier.EndDirs | tools/carry/mu300-carry.c:743-761 | every directory made or listed gets SRC's mapped owner, mode and attributes |
| CopyRun.Copier.Run | tools/carry/mu300-carry.c:645-764 | after a successful run every listed path is its copy, without set-id bits and capability when its owner got another number; two listed regular files share an inode in DST exactly when they do in SRC; whatever else changed in DST is a directory above a listed path, made with SRC's mapped attributes; SRC is unchanged after every run |
| GptEdit.EditCopyHolds | tools/resize-last-partition.py:120-137 | one copy after the edit: the field, the two CRC fields of its header, and no other byte; and it is sealed again |
| GptEdit.MixIsWhole | tools/resize-last-partition.py:69-96 | a byte mix of a table and its edited form that is sealed and shows the new value is the edited form, whatever the CRC function is |
| GptResize.SetEndValidAndLocal | tools/resize-last-partition.py:59-137 | after `set_end` the table is accepted again with the same layout, and only the entry's last LBA and the CRC fields differ |
| GptResize.SetEndSucceeds | tools/resize-last-partition.py:120-132 | on equal arrays `set_end` exits only for a sector that ends no block |
| GptParts.EntriesAfter | tools/resize-last-partition.py:98-109 | `entries` after the edit: the old list with one end moved |
| GptParts.ResizeKeepsDisjoint | tools/resize-last-partition.py:185-191 | partitions apart and inside the usable area stay so when the last one shrinks or fills |
| GptParts.SetEndReadsBack | tools/resize-last-partition.py:98-137 | for 512- and 4096-byte blocks the 512-byte sector that was set is read back, and every other entry as it was |
| GptParts.SamePartitions | tools/resize-last-partition.py:98-109 | copies with the same array list the same partitions |
| GptEditor.PackInto | tools/resize-last-partition.py:125-125 | bytes written into a buffer, no other byte touched |
| GptEditor.ReadEntries | tools/resize-last-partition.py:98-109 | the loop lists the used entries in order |
| GptEditor.LastOf | tools/resize-last-partition.py:111-115 | the first of the entries with the greatest end |
| GptEditor.Editor.constructor | tools/resize-last-partition.py:41-51 | an editor for a table `_parse` accepts |
| GptEditor.Editor.ListEntries | tools/resize-last-partition.py:98-109 | the partitions of the table |
| GptEditor.Editor.FindLast | tools/resize-last-partition.py:111-115 | the last partition, none for an empty table |
| GptEditor.Editor.Reseal | tools/resize-last-partition.py:133-137 | the array's CRC in the header and the header's own after it |
| GptEditor.Editor.SetEnd | tools/resize-last-partition.py:120-137 | the edit in place of both buffers |
| GptEditor.Editor.Resize | tools/resize-last-partition.py:166-200 | a resize that succeeds leaves a valid table whose partitions are the old ones with the named last one's end moved, apart and inside; another name or an end out of range is refused with both buffers as they were; on equal arrays the rest is refused only for a sector that ends no block |
| Shrink.InvNext | tools/f2fs-online/mu300-f2fs-online.c:199-233 | every action of a worker, crash and torn write keeps the invariant of the protocol |
| Shrink.InvRun | tools/f2fs-online/mu300-f2fs-online.c:160-234 | so does every run of actions |
| Shrink.OneCopyIntact | tools/f2fs-online/mu300-f2fs-online.c:199-233 | in every reachable state one copy is whole, and no byte of the new table is on disk unless the F2FS has its target size |
| Shrink.RestartAccepted | tools/f2fs-online/mu300-f2fs-online.c:199-209 | a restarted worker is accepted exactly when both copies are whole and the size is known, the space check aside |
| ShrinkWorker.Decode | tools/f2fs-online/mu300-f2fs-online.c:56-73 | a decoded geometry is a nonzero whole number of sections below 2^64 |
| ShrinkWorker.ValidateTargetExact | tools/f2fs-online/mu300-f2fs-online.c:98-108 | with 64-bit arithmetic the test is exactly the one over the integers |
| ShrinkWorker.Device.constructor | tools/f2fs-online/mu300-f2fs-online.c:180-197 | the device as it is found |
| ShrinkWorker.Device.Worker | tools/f2fs-online/mu300-f2fs-online.c:160-234 | a worker's run is a run of the protocol; a refusal writes nothing; success leaves new backup, new primary and target size |
| ShrinkWorker.Device.Commit | tools/f2fs-online/mu300-f2fs-online.c:231-232 | backup before primary, each read back before anything else |
| Resume.TargetFitsDevice | tools/resume.py:235-246 | the host's target is whole sections, fits the new partition, is the largest such, and passes the device's test without overflow |
| Resume.MarginsFit | tools/f2fs-online/mu300-f2fs-online.c:98-108 | the host's margin implies the device's |
| Resume.HostJudgement | tools/resume.py:249-265 | over every reachable state the host says unchanged, shrunk and committed exactly for those three states, unknown otherwise |
| Resume.BetweenTheWrites | tools/resume.py:249-265 | the state between the two table writes is reachable: the host gives it up although a restarted worker would finish |
| ShrinkTable.MadeByEdit | tools/resize-last-partition.py:120-137 | the images the host makes with `set_end` are what the protocol assumes of them, head and tail |
| ShrinkTable.NewCopies | tools/resize-last-partition.py:98-137 | each copy of the new table lists the old partitions with userdata's end moved; the old tail lists those of the old head |
| ShrinkTable.MixLayout | tools/resize-last-partition.py:69-96 | a table parsed from a torn head places its entries as the old one does |
| ShrinkTable.MixParts | tools/resize-last-partition.py:98-109 | the partitions of a torn head are the old ones, the resized one with the end its field says |
| ShrinkTable.ShownIsNew | tools/resize-last-partition.py:69-115 | a head that may be torn but is accepted and shows the new end is the new head, byte for byte |
| ResumeCheck.MarkerInjective | tools/resume.py:81-87 | the marker tells tokens apart |
| ResumeCheck.CheckOnlyCommitted | tools/resume.py:191-232 | over any number of runs and crashes `check` passes a transaction not yet installed only in the committed state |
| ResumeCheck.CommittedShows | tools/resume.py:220-226 | in the committed state the table shows what `check` wants |
| ResumeCheck.BothFit | tools/resume.py:235-246 | the F2FS at its old size fits userdata by the old table, and at the host's target by the new one |
| ResumeCheck.FilesystemInside | tools/f2fs-online/mu300-f2fs-online.c:187-233 | in every reachable state the F2FS lies inside userdata's partition as every whole copy of the table, head or tail, lists it |
| Ed25519.Constants | tools/usign-verify.py:20-21 | D is -121665/121666 and SQRT_M1 a square root of -1, modulo P |
| Ed25519.StandardFacts | tools/usign-verify.py:18-21 | of Ed25519's numbers two facts are taken as given, the third is proved |
| Ed25519.AddIsProduct | tools/usign-verify.py:24-31 | `_add` gives the products of the addition formula, modulo P |
| Ed25519.ProductSatisfies | tools/usign-verify.py:24-31 | the sum satisfies XY = ZT and the curve's equation |
| Ed25519.Complete | tools/usign-verify.py:24-31 | the denominators of a sum are invertible: the formula has no exceptional case |
| Ed25519.AddOnCurve | tools/usign-verify.py:24-31 | `_add` maps points of the curve to points of the curve |
| Ed25519Group.EqualTrans | tools/usign-verify.py:44-45 | `_equal` is transitive on points of the curve |
| Ed25519Group.AddRespects | tools/usign-verify.py:24-45 | `_add` gives equal points for equal points |
| Ed25519Group.AddCommutes | tools/usign-verify.py:24-31 | `_add` is commutative |
| Ed25519Group.NeutralAdds | tools/usign-verify.py:34-35 | adding (0, 1, 1, 0) changes nothing |
| DoubleAndAdd.FoldDoubles | tools/usign-verify.py:34-41 | n times 2a is 2n times a |
| DoubleAndAdd.Continues | tools/usign-verify.py:36-40 | a turn of the loop keeps the sum asked for |
| DoubleAndAdd.ComparesSums | tools/usign-verify.py:92-92 | equal points can stand for each other in the comparison |
| Ed25519Group.CurveLaw | tools/usign-verify.py:24-45 | the laws double-and-add needs, from what was proved and associativity |
| Ed25519Group.Mul | tools/usign-verify.py:34-41 | the loop gives the s-fold sum, up to `_equal` |
| Ed25519Group.EqualTest | tools/usign-verify.py:44-45 | the test holds exactly for points that are equal as fractions |
| Ed25519Group.VerifyEquation | tools/usign-verify.py:92-92 | the last line holds exactly when s times the base point is R plus h times the key |
| Ed25519Points.DenominatorIsUnit | tools/usign-verify.py:51-51 | D y^2 + 1 has an inverse for every y |
| Ed25519Points.OnCurveIsRoot | tools/usign-verify.py:51-51 | the points of the curve at y are the square roots of `x2` |
| Ed25519Points.FourthPower | tools/usign-verify.py:54-54 | for a square `x2` the fourth power of the first attempt is `x2` squared |
| Ed25519Points.SqrtFinds | tools/usign-verify.py:54-58 | one of the two attempts is a root whenever there is one |
| Ed25519Points.RecoverSound | tools/usign-verify.py:48-61 | what `_recover_x` gives is on the curve, and is the x of that sign below P but for y = P - 1 with sign 1 |
| Ed25519Points.RecoverComplete | tools/usign-verify.py:48-61 | the x of a point of the curve is recovered from its y and sign |
| Ed25519Points.DecompressExact | tools/usign-verify.py:64-73 | `_decompress` gives the point whose encoding the bytes are and None where there is none, but for one string of 32 bytes |
| Ed25519Points.NegativeZeroDecodes | tools/usign-verify.py:48-61 | that string is decoded although it encodes no point |
| Ed25519Points.Verify | tools/usign-verify.py:80-92 | from the bytes, for any such numbers: valid exactly when the lengths, the two points, s and the equation of section 5.1.7 of RFC 8032 are right |
| Ed25519Numbers.NumbersDecode | tools/usign-verify.py:18-21 | P is 5 modulo 8 and below 2^255, so that decoding works for the program's numbers |
| Ed25519Numbers.BaseDecodes | tools/usign-verify.py:76-77 | `_G` is the base point of section 5.1 of RFC 8032, and decodes |
| Ed25519Numbers.VerifySignature | tools/usign-verify.py:80-92 | the verification with the program's own numbers, given only that P is prime, D no square and addition associative |
| Text.SplitJoin | tools/image-manifest.py:145-151 | splitting undoes joining when no part holds the separator |
| Text.ShowRoundTrip | tools/image-manifest.py:122-163 | a number written in decimal is read back |
| SortBy.SortSorts | tools/image-manifest.py:135-144 | sorting is a rearrangement in the order of the keys |
| Manifest.RunsExact | tools/image-manifest.py:117-125 | a number is in exactly one range if it is in the list, in none if not |
| Manifest.RunsSeparate | tools/image-manifest.py:117-125 | no two ranges could be one |
| Manifest.RangesReadBack | tools/image-manifest.py:117-164 | the written ranges are met by exactly the numbers of the list, once each |
| Manifest.OrderedUnique | tools/image-manifest.py:144-144 | two ordered lists of the same lines are the same list |
| ManifestUnion.LinesBack | tools/image-manifest.py:149-165 | the lines of a release taken from the union are its manifest's, in its order |
| ManifestUnion.UnionThenExtract | tools/image-manifest.py:128-165 | extracting any release gives its manifest, byte for byte |
| ManifestUnion.NoSuchTag | tools/image-manifest.py:153-154 | a tag no manifest has is refused |
| ManifestRun.Ranges | tools/image-manifest.py:117-125 | the loop writes the runs of the list |
| ManifestRun.ParseBack | tools/image-manifest.py:131-143 | a manifest's text is read as the manifest |
| ManifestRun.Gather | tools/image-manifest.py:139-143 | the dictionary holds every line with the places of the manifests that have it |
| ManifestTools.Union | tools/image-manifest.py:128-146 | it succeeds exactly for manifests of one image with different tags and complete lines, and writes their union sorted by tag and path |
| ManifestTools.ExtractRun | tools/image-manifest.py:149-165 | the loop is the extraction |
| ManifestTools.RoundTrip | tools/image-manifest.py:128-165 | union of texts, then extract: the text that went in |
| ImageEntries.EntriesRun | tools/image-manifest.py:55-84 | the loop over the members is the scan of the specification |
| ImageEntries.EscapeTells | tools/image-manifest.py:43-44 | two names that escape alike are one name |
| ImageEntries.LineSays | tools/image-manifest.py:83-83 | a member's line is one line, gives back its path and begins with its type |
| ImageDiff.ReadKeyed | tools/image-diff.py:56-67 | what is read of a manifest: each line under its own path |
| ImageDiffProof.DiffScan | tools/image-diff.py:99-118 | the entries of the diff are those of the image without the files left out, hard links included |
| ImageDiffProof.LeftPaths | tools/image-diff.py:94-99 | a path is left out exactly when a member of that path may be |
| ImageDiffProof.PutBackIs | tools/image-diff.py:138-145 | the lines left out go back exactly when each of them may, giving both together |
| ImageDiffTheorems.MakeThenCheck | tools/image-diff.py:81-152 | for an image whose manifest is its own, `check` accepts what `make` writes if and only if no member named .mu300-diff stays in it |
| ImageDiffTheorems.MakePassesCheck | tools/image-diff.py:94-149 | the same, given the two manifests |
| ImageDiffTheorems.OwnHeadIsRefused | tools/image-diff.py:81-152 | an image of a new file named .mu300-diff and its manifest: `make` writes a diff and `check` refuses it |
| ImageDiffTheorems.LinksStay | tools/image-diff.py:76-99 | no hard link and no file a hard link names is ever left out |
| ImageDiffTheorems.CheckSound | tools/image-diff.py:121-149 | of an accepted diff, every line of the new manifest is an entry's or that of a base file left out, not both, and nothing else is in it |
| ImageDiffTheorems.CarriedAlong | tools/image-diff.py:70-73 | the diff carries the image's own manifest |
| ImageDiffRun.MakeRun | tools/image-diff.py:81-118 | the loops of `make` come to its specification |
| ImageDiffRun.CheckRun | tools/image-diff.py:121-152 | the loops of `check` come to its specification |
| Lmo.DecodeBack | tools/po2lmo.py:172-172 | a catalog file, read by the documented format, gives the values and the index back |
| Lmo.Find | tools/po2lmo.py:6-11 | the search of the sorted index finds a key exactly when it is there |
| Lmo.Lookup | tools/po2lmo.py:6-11 | the value of a key, none when the index lacks it |
| LmoCompile.Compile | tools/po2lmo.py:142-172 | the loop over the entries comes to the catalog of the specification |
| LmoCompile.StepsInv | tools/po2lmo.py:142-166 | after every entry the index holds exactly the kept entries under their keys, each with its own bytes |
| LmoCompile.CatalogLaidOut | tools/po2lmo.py:142-172 | values on multiples of four, inside the file and apart; the index sorted, no key but 0 twice |
| LmoCompile.KeptIsFound | tools/po2lmo.py:149-172 | a kept entry's nonzero key is in the index and every record of it holds its msgstr |
| LmoCompile.FoundIsKept | tools/po2lmo.py:149-172 | a nonzero key in the index is a kept entry's |
| LmoCompile.KeptIsNonEmpty | tools/po2lmo.py:168-169 | a kept entry is never lost to an empty catalog |
| PoText.StringRun | tools/po2lmo.py:64-87 | the loop over a quoted string is its reading |
| PoText.QuotedBack | tools/po2lmo.py:64-87 | any string, quoted, is read back |
| PoText.ReadPoRun | tools/po2lmo.py:106-140 | the loop over the lines is the reading of the file |
| PoText.MoreBack | tools/po2lmo.py:134-137 | continued lines make the string that is being read longer, piece by piece |
| PoText.PoRoundTrip | tools/po2lmo.py:106-140 | however their strings are broken into lines, entries are read back whole |
| PoText.CompilePo | tools/po2lmo.py:106-172 | from the text to the catalog, or a refusal |
| PoText.Translate | tools/po2lmo.py:106-172 | compile a text and look a string up: exactly what a kept entry of the text says, nothing where none does |
| Cpio.HexBack | boot/build-boot-image.py:45-45 | a number in eight hexadecimal digits is read back |
| Cpio.NamesBack | boot/build-boot-image.py:42-109 | `cpio_names` of records and a trailer is the set of their names |
| Cpio.NamesRun | boot/build-boot-image.py:97-109 | the loop over the archive is its specification |
| CpioRead.OneBack | boot/build-boot-image.py:42-50 | a record, whatever follows it, is read back with every field, its name and its data |
| CpioRead.ArchiveBack | boot/build-boot-image.py:112-131 | an archive is read back record by record, and the reading goes on behind its trailer, over zeros |
| CpioRead.ReadExact | boot/build-boot-image.py:338-345 | what stands behind a stream that does not end inside a record is read if and only if the stream can be read by itself |
| CpioRead.TailExact | boot/build-boot-image.py:338-345 | the same for a stream behind a trailer, which may begin with zeros |
| CpioRead.HeaderDecides | boot/build-boot-image.py:97-109 | a stream with a whole header ends inside a record exactly when the header can be read and asks for more |
| Lz4Legacy.SegmentsBack | boot/build-boot-image.py:53-94 | any number of frames one after another decode to their data one after another |
| Lz4Legacy.EncodeRun | boot/build-boot-image.py:64-69 | the loop over blocks of 8 MiB is the frame |
| Lz4Legacy.DecodeRun | boot/build-boot-image.py:84-94 | the loops over frames and blocks are the decoding |
| Ramdisk.ArchiveNames | boot/build-boot-image.py:97-131 | the names of an archive are the directories closed under parents, the files and dev/console |
| Ramdisk.ParentEarlier | boot/build-boot-image.py:116-121 | every directory comes after the one it is in |
| Ramdisk.ArchiveUnpacked | boot/build-boot-image.py:112-131 | unpacked in order, over anything, every directory and file of the archive is there |
| Ramdisk.ConsoleUnpacked | boot/build-boot-image.py:126-127 | dev/console is unpacked if and only if some entry names the directory dev or one below it |
| RamdiskInit.ConsoleMissing | boot/build-boot-image.py:126-127 | the archive of init alone, unpacked into nothing, leaves no dev/console |
| RamdiskBuild.ArchiveRun | boot/build-boot-image.py:112-131 | the loops come to the archive, its directories in order of depth and name |
| RamdiskBuild.Build | boot/build-boot-image.py:332-349 | the ramdisk decompresses to its archives in order; read and unpacked from its bytes it leaves the init built here, always without an appended segment, and with one that does not end inside a record exactly when that can be read |
| RamdiskInit.InitUnpacked | boot/build-boot-image.py:332-332 | an archive with an init leaves it, whatever was unpacked before |
| RamdiskInit.GuardUnpacked | boot/build-boot-image.py:346-349 | the trial guard is unpacked: its archive brings its directory |
| RamdiskInit.InitIsLast | boot/build-boot-image.py:332-349 | over the bytes, with or without the guard: the init that is left is the one built here, for an appended segment that does not end inside a record if and only if it can be read to its end |
| RamdiskInit.UnreadableStops | boot/build-boot-image.py:334-337 | an appended segment passes by its magic number alone; data in it that is no archive ends the reading before the init behind it |
| RamdiskInit.CutTakesInit | boot/build-boot-image.py:334-345 | a segment cut inside a record: everything is read, the cut record takes the init behind it for its data, and the segment's own init is left |

## Left out

- TarFilterRun.Run: the two KiB counters are unbounded, the 64-bit wrap-around of the program is not modelled, because no
  archive comes near it.
- TarFilterRun.Run: a pax record whose length begins with a blank or a sign, which strtoul takes, ends the parsing here.
- DeltaUnpack.DeltaUnpackIsUntar: asks that extended headers stand directly before their member; an `x` header followed by
  a `g` header is written out before the next member is decided, so that a member left out after it would lend its name
  to the one that follows.
- DeltaUnpack.DeltaUnpackIsUntar: the directory times that tarlink restores are not modelled.
- DeltaUnpack.DeltaUnpackIsUntar: a member below a symbolic link that NEW or the archive has in a directory's place is refused
  here, where tar may follow it; names are compared as they are written, so `a//b` is not `a/b`.
- DeltaUnpack.DeltaUnpackIsUntar: speaks of the lines of the log; that tarlink refuses a path that is not plain is part of
  DeltaRun.DeltaUnpackEndToEnd.
- DeltaUnpack.RelinkedIsUntar: likewise, for names and for the lines of the log.
- DeltaRun.DeltaUnpackEndToEnd: likewise.
- DeltaRun.DeltaUnpackProgram: likewise; the second attempt with the image's busybox is a run of the same kind.
- DeltaTree.SimAll: likewise.
- TarLog.RunTarLink: the times of directories, which the program notes and restores, are not modelled.
- CopyRun.Copier.Run: times, holes in files and runs without root are not modelled; a system call that fails without a
  choice in the program ends the run.
- CopyRun.Copier.CopyMeta: access and modification times are not modelled.
- CopyRun.Copier.Create: holes are not modelled, nor a file that vanishes while it is copied; SRC does not change.
- CopyRun.Copier.EndDirs: times are not modelled; a directory that was in DST already keeps attributes SRC does not have.
- ProbeTable.Slot: the mask with the capacity less one is the remainder by the capacity, which is a power of two.
- Sha256.Sha.Finish: the compression of a block and the hexadecimal digits are not modelled.
- GptEditor.Editor.Resize: a name is the raw field of an entry; the program decodes it from UTF-16 and strips the NULs.
- ShrinkWorker.Device.Worker: whether userdata is mounted and writable, and the sizes of the image files and of the disk, are
  tests before the protocol begins and are not modelled; a refusal there writes nothing either.
- Ed25519Points.Verify: SHA-512 is a parameter; that the base point decodes, required here, is proved for the program's
  numbers in Ed25519Numbers.BaseDecodes.
- Ed25519Numbers.VerifySignature: SHA-512 is a parameter; the base64 and comment lines of the two files are not modelled.
- ManifestTools.ExtractRun: a number in a range is decimal digits; the other spellings Python's int() takes are refused here.
- ManifestTools.Union: text is bytes; where Python sorts by characters the order is the one of the bytes.
- ImageEntries.EntriesRun: member names are relative to the root already; sparse members and a manifest carried as a link are
  not modelled.
- LmoCompile.Compile: the string hash is a parameter. A msgid whose hash is 0 shares its key with the header, so only
  nonzero keys are looked up.
- Cpio.NamesRun: a number in a header is hexadecimal digits; names are bytes.
- Ramdisk.ArchiveNames: the directories above a name are cut at every slash as it is written; PurePosixPath takes `a//b` and
  `a/./b` as `a/b` first.
- Ramdisk.ArchiveUnpacked: a later record takes the place of an earlier one of its name; the kernel does not put a file in the
  place of a directory that is not empty.
- RamdiskBuild.Build: the appended segment is any number of well-formed frames. For data that ends inside a record nothing is
  promised: what is read then depends on the bytes behind it (RamdiskInit.CutTakesInit is one outcome). The lz4 command is
  taken to do what the framing does.
- RamdiskInit.InitIsLast: likewise for data that ends inside a record.
- ResumeCheck.CheckOnlyCommitted: serial, slot, cid and node are read together or not at all.
- `scan`, `manifest`, `sum` and `same` of mu300-carry: they walk a tree and print or compare what they find. tarfilter,
  tarlink and copy do not call them; their lists are inputs here, and any list is allowed.
- `find`, `new`, `save` of tools/resume.py, encryption and identity: record keeping.
- image_of, tag_of, gz and the commands of tools/image-manifest.py: names and files.
- The boot image's pages, the bootloader control block and the rest of boot/build-boot-image.py.
- fork, signals, locks and logs of the worker: only the order of its effects on the disk matters.
- The window, the installers' shell, the kernel port, the website: input and output, or text substitution.
