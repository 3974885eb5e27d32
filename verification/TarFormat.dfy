/** The tar records tarfilter tells apart, decoded as it decodes them (tools/carry/mu300-carry.c:941-1037, 1073-1161).

    A stream is read record by record: `Step` says what stands at its front, given the extended headers
    (`Ext`) collected since the last member. */
module TarFormat {
  import opened Bytes
  import opened Paths

  /** What the extended headers before a member say about it. */
  datatype Ext = Ext(paxPath: Option<Bytes>, paxLink: Option<Bytes>,
                     gnuName: Option<Bytes>, gnuLink: Option<Bytes>, paxSize: int, paxXattr: bool)

  const NO_EXT := Ext(None, None, None, None, -1, false)

  /** A member as its header and extended headers describe it. */
  datatype Info = Info(typ: byte, name: Path, target: Bytes, size: nat, xattr: bool) {
    /** The path a hard link names. */
    function Link(): Path { Norm(target) }
  }

  /** The record at the front of a stream; `len` counts its header and data blocks. */
  datatype Record =
    | Bad                              // the archive ends in the middle, or an extended header is absurdly large
    | End                              // a zero block: the end of the archive
    | ExtHeader(len: nat, ext: Ext)    // L, K or x: belongs to the next member
    | Global(len: nat)                 // g
    | Member(len: nat, info: Info)

  const TYPE_LINK: byte := 49       // '1'
  const TYPE_SYMLINK: byte := 50    // '2'
  const TYPE_DIR: byte := 53        // '5'

  predicate IsRegular(typ: byte) {
    typ == 48 || typ == 0 || typ == 55    // '0', NUL, '7'
  }

  predicate IsExtended(typ: byte) {
    typ == 76 || typ == 75 || typ == 120  // 'L', 'K', 'x'
  }

  // ---- numbers

  function Base256(p: Bytes, v: nat): nat {
    if p == [] then v else Base256(p[1..], (v * 256 + p[0]) % TWO64)
  }

  function SkipBlank(p: Bytes): Bytes {
    if p != [] && (p[0] == SPACE || p[0] == NUL) then SkipBlank(p[1..]) else p
  }

  function Octal(p: Bytes, v: nat): nat {
    if p != [] && 48 <= p[0] <= 55 then Octal(p[1..], v * 8 + (p[0] - 48)) else v
  }

  /** `tar_num`: octal between blanks, or base-256 when the first byte has its high bit. */
  function TarNum(p: Bytes): nat
    requires p != []
  {
    if p[0] >= 0x80 then Base256(p[1..], p[0] % 64) else Octal(SkipBlank(p), 0)
  }

  /** The data blocks of a member of `size` bytes, in 64-bit arithmetic. */
  function Blocks(size: nat): nat {
    ((size + 511) % TWO64) / 512
  }

  // ---- names

  function StripFront(p: Path): Path {
    if |p| >= 2 && p[0] == DOT && p[1] == SLASH then StripFront(p[2..])
    else if p != [] && p[0] == SLASH then StripFront(p[1..])
    else p
  }

  function StripBack(p: Path): Path {
    if p != [] && p[|p| - 1] == SLASH then StripBack(p[..|p| - 1]) else p
  }

  /** `tar_norm`: no leading ./ or /, no trailing /. */
  function Norm(p: Path): Path {
    var q := StripBack(StripFront(p));
    if q == [DOT] then [] else q
  }

  // ---- pax records

  function DigitsEnd(d: Bytes, k: nat): (r: nat)
    requires k <= |d|
    ensures k <= r <= |d|
    decreases |d| - k
  {
    if k < |d| && 48 <= d[k] <= 57 then DigitsEnd(d, k + 1) else k
  }

  function Digit(c: byte): nat {
    if 48 <= c <= 57 then c - 48 else 0
  }

  function Decimal(d: Bytes): nat {
    if d == [] then 0 else Decimal(d[..|d| - 1]) * 10 + Digit(d[|d| - 1])
  }

  function IndexOf(d: Bytes, c: byte, from: nat): (r: nat)
    requires from <= |d|
    ensures from <= r <= |d|
    ensures r < |d| ==> d[r] == c
    decreases |d| - from
  {
    if from < |d| && d[from] != c then IndexOf(d, c, from + 1) else from
  }

  /** `strtoll` of a pax size: the leading decimal digits, saturated; a minus sign makes it negative. */
  function PaxNumber(v: Bytes): int {
    var neg := v != [] && v[0] == 45;
    var d := if neg then v[1..] else v;
    var n := Decimal(d[..DigitsEnd(d, 0)]);
    if neg then -(if n > TWO63 then TWO63 else n) else if n >= TWO63 then TWO63 - 1 else n
  }

  const KEY_PATH: Bytes := [112, 97, 116, 104]
  const KEY_LINKPATH: Bytes := [108, 105, 110, 107, 112, 97, 116, 104]
  const KEY_SIZE: Bytes := [115, 105, 122, 101]
  const KEY_SCHILY: Bytes := [83, 67, 72, 73, 76, 89, 46, 120, 97, 116, 116, 114, 46]
  const KEY_LIBARCHIVE: Bytes := [76, 73, 66, 65, 82, 67, 72, 73, 86, 69, 46, 120, 97, 116, 116, 114, 46]

  function PaxField(e: Ext, key: Bytes, val: Bytes): Ext {
    if key == KEY_PATH then e.(paxPath := Some(val))
    else if key == KEY_LINKPATH then e.(paxLink := Some(val))
    else if key == KEY_SIZE then e.(paxSize := PaxNumber(val))
    else if (|key| > 13 && key[..13] == KEY_SCHILY) || (|key| > 17 && key[..17] == KEY_LIBARCHIVE)
    then e.(paxXattr := true)
    else e
  }

  /** `pax_parse`: records "LENGTH KEY=VALUE\n", up to the first malformed one. */
  function PaxParse(d: Bytes, off: nat, e: Ext): Ext
    requires off <= |d|
    decreases |d| - off
  {
    var k := DigitsEnd(d, off);
    var rl := Decimal(d[off..k]);
    if k == off || k == |d| || d[k] != SPACE || rl == 0 || off + rl > |d| then e
    else
      var stop := off + rl - 1;
      var e' := if k + 1 > stop then e else
                  var eq := IndexOf(d[..stop], 61, k + 1);
                  if eq < stop then PaxField(e, d[k + 1..eq], d[eq + 1..stop]) else e;
      PaxParse(d, off + rl, e')
  }

  /** An extended header of type `typ` whose `size` data bytes stand at the front of `d`. */
  function Absorb(typ: byte, d: Bytes, size: nat, e: Ext): Ext {
    var data := if size <= |d| then d[..size] else d;
    if typ == 76 then e.(gnuName := Some(CString(data)))
    else if typ == 75 then e.(gnuLink := Some(CString(data)))
    else PaxParse(data, 0, e)
  }

  // ---- headers

  const USTAR: Bytes := [117, 115, 116, 97, 114, 0]

  function NameOf(hdr: Bytes, e: Ext): Path
    requires |hdr| == 512
  {
    Norm(if e.paxPath.Some? then CString(e.paxPath.value)
         else if e.gnuName.Some? then CString(e.gnuName.value)
         else if hdr[257..263] == USTAR && hdr[345] != 0
         then CString(hdr[345..500]) + [SLASH] + CString(hdr[..100])
         else CString(hdr[..100]))
  }

  function TargetOf(hdr: Bytes, e: Ext): Bytes
    requires |hdr| == 512
  {
    if e.paxLink.Some? then CString(e.paxLink.value)
    else if e.gnuLink.Some? then CString(e.gnuLink.value)
    else CString(hdr[157..257])
  }

  function InfoOf(hdr: Bytes, e: Ext): Info
    requires |hdr| == 512
  {
    var typ := hdr[156];
    var size := if 49 <= typ <= 54 then 0        // '1' .. '6' carry no data
                else if e.paxSize >= 0 then e.paxSize
                else TarNum(hdr[124..136]);
    Info(typ, NameOf(hdr, e), TargetOf(hdr, e), size, e.paxXattr)
  }

  predicate IsZero(hdr: Bytes) {
    forall i :: 0 <= i < |hdr| ==> hdr[i] == 0
  }

  const EXT_LIMIT: nat := 0x400_0000    // 64 MiB

  function Step(s: Bytes, e: Ext): (r: Record)
    ensures r.ExtHeader? || r.Global? || r.Member? ==> 512 <= r.len <= |s|
    ensures r.Member? ==> r.len == 512 + Blocks(r.info.size) * 512
    ensures r.End? ==> |s| >= 512
  {
    if |s| < 512 then Bad
    else
      var hdr := s[..512];
      var size := TarNum(hdr[124..136]);
      var len := 512 + Blocks(size) * 512;
      if IsZero(hdr) then End
      else if IsExtended(hdr[156]) then
        if size > EXT_LIMIT || |s| < len then Bad else ExtHeader(len, Absorb(hdr[156], s[512..len], size, e))
      else if hdr[156] == 103 then
        if |s| < len then Bad else Global(len)
      else
        var info := InfoOf(hdr, e);
        var mlen := 512 + Blocks(info.size) * 512;
        if |s| < mlen then Bad else Member(mlen, info)
  }

  /** A record depends only on its own bytes: what follows it, and for a member its data, may change freely. */
  lemma StepLocal(s: Bytes, t: Bytes, e: Ext)
    requires var r := Step(s, e);
             && (r.ExtHeader? || r.Global? || r.Member?)
             && |t| >= r.len && t[..512] == s[..512]
             && (r.ExtHeader? ==> t[..r.len] == s[..r.len])
    ensures Step(t, e) == Step(s, e)
  {
    var r := Step(s, e);
    if r.ExtHeader? {
      assert t[512..r.len] == t[..r.len][512..] == s[..r.len][512..] == s[512..r.len];
    }
  }
}
