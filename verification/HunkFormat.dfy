// Hunk files: big-endian words, the load file a linker writes, and the parser and
// relocation a loader applies to it.

module HunkFormat {
  import opened Guest

  type u16 = x: int | 0 <= x < 0x1_0000

  const HUNK_HEADER: u32 := 0x3F3
  const HUNK_CODE: u32 := 0x3E9
  const HUNK_DATA: u32 := 0x3EA
  const HUNK_RELOC32: u32 := 0x3EC
  const HUNK_END: u32 := 0x3F2

  function U32(v: int): (b: Bytes)
    ensures |b| == 4
  {
    [v / 0x100_0000 % 0x100, v / 0x1_0000 % 0x100, v / 0x100 % 0x100, v % 0x100]
  }

  function U16(w: u16): (b: Bytes)
    ensures |b| == 2
  {
    [w / 0x100, w % 0x100]
  }

  function WordBytes(words: seq<u16>): (b: Bytes)
    ensures |b| == 2 * |words|
  {
    if words == [] then [] else WordBytes(words[..|words| - 1]) + U16(words[|words| - 1])
  }

  function Longs(vs: seq<nat>): (b: Bytes)
    ensures |b| == 4 * |vs|
  {
    if vs == [] then [] else U32(vs[0]) + Longs(vs[1..])
  }

  // --- The parser ---

  datatype Reloc = Reloc(offset: nat, target: nat)

  datatype Hunk = Hunk(isCode: bool, data: Bytes, relocs: seq<Reloc>)

  function BigEndian(a: byte, b: byte, c: byte, d: byte): u32 {
    a as int * 0x100_0000 + b as int * 0x1_0000 + c as int * 0x100 + d as int
  }

  /** A longword off the front of what is left of a file. */
  datatype Got = Got(value: u32, rest: Bytes) | Eof

  function Get32(s: Bytes): (g: Got)
    ensures g.Got? ==> |g.rest| == |s| - 4
  {
    if |s| < 4 then Eof
    else Got(BigEndian(s[0], s[1], s[2], s[3]), s[4..])
  }

  datatype Parsed<T> = Parsed(value: T, rest: Bytes) | Bad

  /** The resident-library names, skipped. */
  function SkipNames(s: Bytes): (p: Parsed<()>)
    ensures p.Parsed? ==> |p.rest| < |s|
    decreases |s|
  {
    var n := Get32(s);
    if n.Eof? then Bad
    else if n.value == 0 then Parsed((), n.rest)
    else if 4 * n.value > |n.rest| then Bad
    else SkipNames(n.rest[4 * n.value..])
  }

  /** n longwords. */
  function GetLongs(s: Bytes, n: nat): (p: Parsed<seq<nat>>)
    ensures p.Parsed? ==> |p.value| == n && |p.rest| == |s| - 4 * n
    decreases n
  {
    if n == 0 then Parsed([], s)
    else
      var v := Get32(s);
      if v.Eof? then Bad
      else match GetLongs(v.rest, n - 1)
        case Bad => Bad
        case Parsed(more, rest) => Parsed([v.value as nat] + more, rest)
  }

  function RelocsTo(target: nat, offsets: seq<nat>): (r: seq<Reloc>)
    ensures |r| == |offsets|
    ensures forall i :: 0 <= i < |r| ==> r[i] == Reloc(offsets[i], target)
  {
    seq(|offsets|, i requires 0 <= i < |offsets| => Reloc(offsets[i], target))
  }

  /** The groups of one HUNK_RELOC32 block, up to the zero count. */
  function ParseGroups(s: Bytes): (p: Parsed<seq<Reloc>>)
    ensures p.Parsed? ==> |p.rest| < |s|
    decreases |s|
  {
    var count := Get32(s);
    if count.Eof? then Bad
    else if count.value == 0 then Parsed([], count.rest)
    else
      var target := Get32(count.rest);
      if target.Eof? then Bad
      else match GetLongs(target.rest, count.value)
        case Bad => Bad
        case Parsed(offsets, rest) =>
          match ParseGroups(rest)
          case Bad => Bad
          case Parsed(more, rest') => Parsed(RelocsTo(target.value, offsets) + more, rest')
  }

  /** The memory-flag bits of a size or type longword. */
  const SIZE_FLAGS := 0x4000_0000

  /** Relocation blocks up to HUNK_END. */
  function ParseBlocks(s: Bytes): (p: Parsed<seq<Reloc>>)
    ensures p.Parsed? ==> |p.rest| < |s|
    decreases |s|
  {
    var kind := Get32(s);
    if kind.Eof? then Bad
    else if kind.value % SIZE_FLAGS == HUNK_END then Parsed([], kind.rest)
    else if kind.value % SIZE_FLAGS != HUNK_RELOC32 then Bad
    else match ParseGroups(kind.rest)
      case Bad => Bad
      case Parsed(relocs, rest) =>
        match ParseBlocks(rest)
        case Bad => Bad
        case Parsed(more, rest') => Parsed(relocs + more, rest')
  }

  /** One hunk whose header entry reserves `reserved` bytes. */
  function ParseHunk(s: Bytes, reserved: nat): Parsed<Hunk> {
    var kind := Get32(s);
    if kind.Eof? || (kind.value % SIZE_FLAGS != HUNK_CODE && kind.value % SIZE_FLAGS != HUNK_DATA) then Bad
    else
      var skip := if kind.value / SIZE_FLAGS == 3 then Get32(kind.rest) else kind;
      if skip.Eof? then Bad
      else
        var n := Get32(skip.rest);
        if n.Eof? || 4 * n.value > |n.rest| || 4 * n.value > reserved then Bad
        else match ParseBlocks(n.rest[4 * n.value..])
          case Bad => Bad
          case Parsed(relocs, rest) =>
            Parsed(Hunk(kind.value % SIZE_FLAGS == HUNK_CODE, n.rest[..4 * n.value], relocs), rest)
  }

  function ParseHunks(s: Bytes, sizes: seq<nat>): Parsed<seq<Hunk>>
    decreases |sizes|
  {
    if sizes == [] then Parsed([], s)
    else match ParseHunk(s, 4 * (sizes[0] % SIZE_FLAGS))
      case Bad => Bad
      case Parsed(hunk, rest) =>
        match ParseHunks(rest, sizes[1..])
        case Bad => Bad
        case Parsed(more, rest') => Parsed([hunk] + more, rest')
  }

  /** The hunks of a load file, or of one node of an overlaid one. */
  function ParseFile(file: Bytes): Parsed<seq<Hunk>> {
    var magic := Get32(file);
    if magic.Eof? || magic.value != HUNK_HEADER then Bad
    else match SkipNames(magic.rest)
      case Bad => Bad
      case Parsed(_, s) =>
        match GetLongs(s, 3)
        case Bad => Bad
        case Parsed(table, s) =>
          if table[0] == 0 || table[1] > table[2] || table[2] >= table[0] then Bad
          else match GetLongs(s, table[2] - table[1] + 1)
            case Bad => Bad
            case Parsed(sizes, s) => ParseHunks(s, sizes)
  }

  // --- The loader ---

  function Long(data: Bytes, at: nat): u32
    requires at + 4 <= |data|
  {
    BigEndian(data[at], data[at + 1], data[at + 2], data[at + 3])
  }

  function PutLong(data: Bytes, at: nat, v: int): (r: Bytes)
    requires at + 4 <= |data|
    ensures |r| == |data|
  {
    data[..at] + U32(v) + data[at + 4..]
  }

  /** Adds the target hunk's address to each longword a relocation names; a relocation
      outside the hunk or to no hunk is refused. */
  function Relocate(data: Bytes, relocs: seq<Reloc>, bases: seq<u32>): (r: Option<Bytes>)
    ensures r.Some? ==> |r.value| == |data|
    decreases |relocs|
  {
    if relocs == [] then Some(data)
    else if relocs[0].offset + 4 > |data| || relocs[0].target >= |bases| then None
    else
      var at := relocs[0].offset;
      Relocate(PutLong(data, at, Long(data, at) + bases[relocs[0].target]), relocs[1..], bases)
  }

  // --- Reading back what was written ---

  lemma BytesOf(v: nat)
    requires v < 0x1_0000_0000
    ensures var b := U32(v);
            b[0] as int * 0x100_0000 + b[1] as int * 0x1_0000 + b[2] as int * 0x100 + b[3] as int == v
  {
    FourBytes(v);
  }

  lemma Get32Reads(v: nat, rest: Bytes)
    requires v < 0x1_0000_0000
    ensures Get32(U32(v) + rest) == Got(v, rest)
  {
    hide U32;
    var s := U32(v) + rest;
    BytesOf(v);
    assert s[4..] == rest;
    assert s[0] == U32(v)[0] && s[1] == U32(v)[1] && s[2] == U32(v)[2] && s[3] == U32(v)[3];
  }

  lemma {:induction false} GetLongsReads(vs: seq<nat>, rest: Bytes)
    requires forall i :: 0 <= i < |vs| ==> vs[i] < 0x1_0000_0000
    ensures GetLongs(Longs(vs) + rest, |vs|) == Parsed(vs, rest)
  {
    hide Get32, U32;
    if vs == [] {
      assert Longs(vs) + rest == rest;
    } else {
      Get32Reads(vs[0], Longs(vs[1..]) + rest);
      assert Longs(vs) + rest == U32(vs[0]) + (Longs(vs[1..]) + rest);
      GetLongsReads(vs[1..], rest);
      assert [vs[0]] + vs[1..] == vs;
    }
  }
}
