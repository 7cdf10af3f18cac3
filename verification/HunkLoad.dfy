// The emitted load files, parsed and loaded.

module HunkLoad {
  import opened Guest
  import opened HunkFormat
  import opened HunkResolve

  // --- The files ---

  function Offsets(fixups: seq<Fixup>): (r: seq<nat>)
    ensures |r| == |fixups| && forall k :: 0 <= k < |r| ==> r[k] == 2 * fixups[k].at
  {
    seq(|fixups|, k requires 0 <= k < |fixups| => 2 * fixups[k].at)
  }

  function EmitGroup(target: nat, offsets: seq<nat>): Bytes {
    if offsets == [] then [] else U32(|offsets|) + U32(target) + Longs(offsets)
  }

  /** The relocations of a code hunk, grouped by target hunk in ascending order. */
  function EmitRelocs(zero: seq<nat>, one: seq<nat>): Bytes {
    if zero == [] && one == [] then []
    else U32(HUNK_RELOC32) + EmitGroup(0, zero) + EmitGroup(1, one) + U32(0)
  }

  function EmitBody(kind: u32, data: Bytes): Bytes {
    U32(kind) + U32(|data| / 4) + data
  }

  /** The two-hunk executable: header, CODE with its relocations, DATA. */
  function EmitTwo(code: Bytes, data: Bytes, zero: seq<nat>, one: seq<nat>): Bytes {
    Longs([HUNK_HEADER, 0, 2, 0, 1, |code| / 4, |data| / 4])
    + EmitBody(HUNK_CODE, code) + EmitRelocs(zero, one) + U32(HUNK_END)
    + EmitBody(HUNK_DATA, data) + U32(HUNK_END)
  }

  /** The single-hunk executable. */
  function EmitOne(code: Bytes, zero: seq<nat>): Bytes {
    Longs([HUNK_HEADER, 0, 1, 0, 0, |code| / 4]) + EmitBody(HUNK_CODE, code) + EmitRelocs(zero, []) + U32(HUNK_END)
  }

  // --- Their bytes ---

  lemma Numbers()
    ensures U32(HUNK_HEADER) == [0, 0, 3, 0xF3] && U32(HUNK_CODE) == [0, 0, 3, 0xE9]
    ensures U32(HUNK_DATA) == [0, 0, 3, 0xEA] && U32(HUNK_RELOC32) == [0, 0, 3, 0xEC]
    ensures U32(HUNK_END) == [0, 0, 3, 0xF2]
    ensures U32(0) == [0, 0, 0, 0] && U32(1) == [0, 0, 0, 1] && U32(2) == [0, 0, 0, 2]
  {
  }

  lemma LongsOfOne(v: nat)
    ensures Longs([v]) == U32(v)
  {
    assert [v][1..] == [];
    assert Longs([]) == [];
  }

  /** A relocation block: its number, the pointers into the code hunk, those into the data
      hunk, each with their count and their hunk in front, and a zero. */
  function RelocBytes(zero: seq<nat>, one: seq<nat>): Bytes {
    if zero == [] && one == [] then []
    else
      [0, 0, 3, 0xEC]
      + (if zero == [] then [] else U32(|zero|) + [0, 0, 0, 0] + Longs(zero))
      + (if one == [] then [] else U32(|one|) + [0, 0, 0, 1] + Longs(one))
      + [0, 0, 0, 0]
  }

  /** Byte for byte, lengths in longwords and offsets aside. */
  lemma TwoHunkBytes(code: Bytes, data: Bytes, zero: seq<nat>, one: seq<nat>)
    ensures EmitTwo(code, data, zero, one)
         == [0, 0, 3, 0xF3, 0, 0, 0, 0, 0, 0, 0, 2, 0, 0, 0, 0, 0, 0, 0, 1] + U32(|code| / 4) + U32(|data| / 4)
            + [0, 0, 3, 0xE9] + U32(|code| / 4) + code + RelocBytes(zero, one) + [0, 0, 3, 0xF2]
            + [0, 0, 3, 0xEA] + U32(|data| / 4) + data + [0, 0, 3, 0xF2]
  {
    hide U32, Longs, RelocBytes, EmitRelocs;
    Numbers();
    RelocsAsBytes(zero, one);
    TwoHeader(|code| / 4, |data| / 4);
  }

  lemma TwoHeader(code: nat, data: nat)
    ensures Longs([HUNK_HEADER, 0, 2, 0, 1, code, data])
         == [0, 0, 3, 0xF3, 0, 0, 0, 0, 0, 0, 0, 2, 0, 0, 0, 0, 0, 0, 0, 1] + U32(code) + U32(data)
  {
    hide U32, Longs;
    Numbers();
    var five: seq<nat> := [HUNK_HEADER, 0, 2, 0, 1];
    HeaderLongs(five, code);
    HeaderLongs(five + [code], data);
    HeaderFive(2, 1);
    assert five + [code] + [data] == [HUNK_HEADER, 0, 2, 0, 1, code, data];
    assert [0, 0, 3, 0xF3] + [0, 0, 0, 0] + [0, 0, 0, 2] + [0, 0, 0, 0] + [0, 0, 0, 1]
        == [0, 0, 3, 0xF3, 0, 0, 0, 0, 0, 0, 0, 2, 0, 0, 0, 0, 0, 0, 0, 1];
  }

  lemma RelocsAsBytes(zero: seq<nat>, one: seq<nat>)
    ensures EmitRelocs(zero, one) == RelocBytes(zero, one)
  {
    hide U32, Longs;
    Numbers();
  }

  lemma {:induction false} HeaderLongs(vs: seq<nat>, v: nat)
    ensures Longs(vs + [v]) == Longs(vs) + U32(v)
  {
    LongsAppend(vs, [v]);
    LongsOfOne(v);
  }

  lemma HeaderFive(hunks: nat, last: nat)
    ensures Longs([HUNK_HEADER, 0, hunks, 0, last]) == U32(HUNK_HEADER) + U32(0) + U32(hunks) + U32(0) + U32(last)
  {
    hide U32, Longs;
    var one: seq<nat> := [HUNK_HEADER];
    LongsOfOne(HUNK_HEADER);
    HeaderLongs(one, 0);
    HeaderLongs(one + [0], hunks);
    HeaderLongs(one + [0] + [hunks], 0);
    HeaderLongs(one + [0] + [hunks] + [0], last);
    assert one + [0] + [hunks] + [0] + [last] == [HUNK_HEADER, 0, hunks, 0, last];
  }

  lemma OneHunkBytes(code: Bytes, zero: seq<nat>)
    ensures EmitOne(code, zero)
         == [0, 0, 3, 0xF3, 0, 0, 0, 0, 0, 0, 0, 1, 0, 0, 0, 0, 0, 0, 0, 0] + U32(|code| / 4)
            + [0, 0, 3, 0xE9] + U32(|code| / 4) + code + RelocBytes(zero, []) + [0, 0, 3, 0xF2]
  {
    hide U32, Longs;
    Numbers();
    RelocsAsBytes(zero, []);
    var five: seq<nat> := [HUNK_HEADER, 0, 1, 0, 0];
    HeaderLongs(five, |code| / 4);
    HeaderFive(1, 0);
    assert five + [|code| / 4] == [HUNK_HEADER, 0, 1, 0, 0, |code| / 4];
    assert [0, 0, 3, 0xF3] + [0, 0, 0, 0] + [0, 0, 0, 1] + [0, 0, 0, 0] + [0, 0, 0, 0]
        == [0, 0, 3, 0xF3, 0, 0, 0, 0, 0, 0, 0, 1, 0, 0, 0, 0, 0, 0, 0, 0];
  }

  /** The most significant byte comes first. */
  lemma BytesOfLong(v: u32)
    ensures var b := U32(v);
            b[0] as int * 0x100_0000 + b[1] as int * 0x1_0000 + b[2] as int * 0x100 + b[3] as int == v
  {
    FourBytes(v);
  }

  // --- Parsing them ---

  ghost predicate Writable(offsets: seq<nat>) {
    |offsets| < 0x1_0000_0000 && forall i :: 0 <= i < |offsets| ==> offsets[i] < 0x1_0000_0000
  }

  lemma {:induction false} GroupParses(target: nat, offsets: seq<nat>, rest: Bytes)
    requires target < 0x1_0000_0000 && Writable(offsets) && offsets != []
    ensures var p := ParseGroups(rest);
            ParseGroups(EmitGroup(target, offsets) + rest) ==
            if p.Bad? then Bad else Parsed(RelocsTo(target, offsets) + p.value, p.rest)
  {
    hide U32, Get32, GetLongs, RelocsTo, Longs;
    var s := EmitGroup(target, offsets) + rest;
    assert s == U32(|offsets|) + (U32(target) + (Longs(offsets) + rest));
    Get32Reads(|offsets|, U32(target) + (Longs(offsets) + rest));
    Get32Reads(target, Longs(offsets) + rest);
    GetLongsReads(offsets, rest);
  }

  lemma {:induction false} GroupsEnd(rest: Bytes)
    ensures ParseGroups(U32(0) + rest) == Parsed([], rest)
  {
    hide U32, Get32;
    Get32Reads(0, rest);
  }

  lemma {:induction false} GroupsParse(zero: seq<nat>, one: seq<nat>, rest: Bytes)
    requires Writable(zero) && Writable(one)
    ensures ParseGroups(EmitGroup(0, zero) + EmitGroup(1, one) + U32(0) + rest)
         == Parsed(RelocsTo(0, zero) + RelocsTo(1, one), rest)
  {
    hide ParseGroups, U32, RelocsTo, Longs;
    GroupsEnd(rest);
    var tail := U32(0) + rest;
    if one != [] {
      GroupParses(1, one, tail);
      assert RelocsTo(1, one) + [] == RelocsTo(1, one);
    } else {
      assert EmitGroup(1, one) + tail == tail;
    }
    assert EmitGroup(0, zero) + EmitGroup(1, one) + U32(0) + rest == EmitGroup(0, zero) + (EmitGroup(1, one) + tail);
    if zero != [] {
      GroupParses(0, zero, EmitGroup(1, one) + tail);
    } else {
      assert EmitGroup(0, zero) + (EmitGroup(1, one) + tail) == EmitGroup(1, one) + tail;
      assert RelocsTo(0, zero) + RelocsTo(1, one) == RelocsTo(1, one);
    }
  }

  lemma {:induction false} EndParses(rest: Bytes)
    ensures ParseBlocks(U32(HUNK_END) + rest) == Parsed([], rest)
  {
    hide U32, Get32, ParseGroups;
    Get32Reads(HUNK_END, rest);
  }

  lemma {:induction false} BlocksParse(zero: seq<nat>, one: seq<nat>, rest: Bytes)
    requires Writable(zero) && Writable(one)
    ensures ParseBlocks(EmitRelocs(zero, one) + U32(HUNK_END) + rest)
         == Parsed(RelocsTo(0, zero) + RelocsTo(1, one), rest)
  {
    hide U32, Get32, ParseGroups, RelocsTo, EmitGroup;
    EndParses(rest);
    var end := U32(HUNK_END) + rest;
    var relocs := RelocsTo(0, zero) + RelocsTo(1, one);
    if zero == [] && one == [] {
      assert EmitRelocs(zero, one) + U32(HUNK_END) + rest == end;
      assert relocs == [];
    } else {
      var groups := EmitGroup(0, zero) + EmitGroup(1, one) + U32(0) + end;
      assert EmitRelocs(zero, one) + U32(HUNK_END) + rest == U32(HUNK_RELOC32) + groups;
      Get32Reads(HUNK_RELOC32, groups);
      GroupsParse(zero, one, end);
      assert relocs + [] == relocs;
    }
  }

  lemma HunkParses(kind: u32, data: Bytes, zero: seq<nat>, one: seq<nat>, rest: Bytes)
    requires kind == HUNK_CODE || kind == HUNK_DATA
    requires |data| % 4 == 0 && |data| / 4 < SIZE_FLAGS && Writable(zero) && Writable(one)
    ensures ParseHunk(EmitBody(kind, data) + EmitRelocs(zero, one) + U32(HUNK_END) + rest, |data|)
         == Parsed(Hunk(kind == HUNK_CODE, data, RelocsTo(0, zero) + RelocsTo(1, one)), rest)
  {
    hide U32, Get32, ParseBlocks, RelocsTo, EmitRelocs;
    var blocks := EmitRelocs(zero, one) + U32(HUNK_END) + rest;
    BlocksParse(zero, one, rest);
    var s := EmitBody(kind, data) + EmitRelocs(zero, one) + U32(HUNK_END) + rest;
    assert s == U32(kind) + (U32(|data| / 4) + (data + blocks));
    Get32Reads(kind, U32(|data| / 4) + (data + blocks));
    Get32Reads(|data| / 4, data + blocks);
    assert (data + blocks)[..|data|] == data && (data + blocks)[|data|..] == blocks;
  }

  lemma {:induction false} HeaderParses(table: seq<nat>, sizes: seq<nat>, rest: Bytes)
    requires |table| == 3 && table[0] == |sizes| && table[1] == 0 && table[2] + 1 == |sizes|
    requires forall i :: 0 <= i < |sizes| ==> sizes[i] < 0x1_0000_0000
    requires |sizes| < 0x1_0000_0000
    ensures ParseFile(Longs([HUNK_HEADER, 0] + table + sizes) + rest) == ParseHunks(rest, sizes)
  {
    hide U32, Get32, GetLongs, ParseHunks, Longs;
    LongsAppend([HUNK_HEADER, 0], table + sizes);
    LongsAppend(table, sizes);
    LongsPair(HUNK_HEADER, 0);
    assert [HUNK_HEADER, 0] + table + sizes == [HUNK_HEADER, 0] + (table + sizes);
    var s2 := Longs(sizes) + rest;
    var s1 := Longs(table) + s2;
    var file := Longs([HUNK_HEADER, 0] + table + sizes) + rest;
    assert file == U32(HUNK_HEADER) + (U32(0) + s1);
    Get32Reads(HUNK_HEADER, U32(0) + s1);
    Get32Reads(0, s1);
    GetLongsReads(table, s2);
    GetLongsReads(sizes, rest);
  }

  lemma {:induction false} LongsAppend(a: seq<nat>, b: seq<nat>)
    ensures Longs(a + b) == Longs(a) + Longs(b)
    decreases |a|
  {
    hide U32;
    if a == [] {
      assert a + b == b;
    } else {
      LongsAppend(a[1..], b);
      assert (a + b)[1..] == a[1..] + b;
      assert U32(a[0]) + (Longs(a[1..]) + Longs(b)) == U32(a[0]) + Longs(a[1..]) + Longs(b);
    }
  }

  lemma LongsPair(v: nat, w: nat)
    ensures Longs([v, w]) == U32(v) + U32(w)
  {
    assert Longs([v, w][1..]) == U32(w) + Longs([]);
  }

  /** The parser gets out of the two-hunk file what went into it: both bodies, and one
      relocation for each offset under its target hunk. */
  lemma TwoParses(code: Bytes, data: Bytes, zero: seq<nat>, one: seq<nat>)
    requires |code| % 4 == 0 && |code| / 4 < SIZE_FLAGS && |data| % 4 == 0 && |data| / 4 < SIZE_FLAGS
    requires Writable(zero) && Writable(one)
    ensures ParseFile(EmitTwo(code, data, zero, one)) ==
            Parsed([Hunk(true, code, RelocsTo(0, zero) + RelocsTo(1, one)), Hunk(false, data, [])], [])
  {
    hide U32, ParseFile, ParseHunk, ParseHunks, RelocsTo, EmitRelocs, EmitBody, Longs;
    var sizes := [|code| / 4, |data| / 4];
    var second := EmitBody(HUNK_DATA, data) + U32(HUNK_END);
    var first := EmitBody(HUNK_CODE, code) + EmitRelocs(zero, one) + U32(HUNK_END);
    var header := [HUNK_HEADER, 0] + [2, 0, 1] + sizes;
    assert header == [HUNK_HEADER, 0, 2, 0, 1, |code| / 4, |data| / 4];
    assert EmitTwo(code, data, zero, one) == Longs(header) + (first + second);
    HeaderParses([2, 0, 1], sizes, first + second);
    HunkParses(HUNK_CODE, code, zero, one, second);
    DataParses(data);
    HunksTwo(first + second, second, sizes,
             Hunk(true, code, RelocsTo(0, zero) + RelocsTo(1, one)), Hunk(false, data, []));
  }

  lemma DataParses(data: Bytes)
    requires |data| % 4 == 0 && |data| / 4 < SIZE_FLAGS
    ensures ParseHunk(EmitBody(HUNK_DATA, data) + U32(HUNK_END), |data|) == Parsed(Hunk(false, data, []), [])
  {
    hide U32, ParseHunk, EmitBody;
    HunkParses(HUNK_DATA, data, [], [], []);
    assert EmitBody(HUNK_DATA, data) + EmitRelocs([], []) + U32(HUNK_END) + []
           == EmitBody(HUNK_DATA, data) + U32(HUNK_END);
    assert RelocsTo(0, []) + RelocsTo(1, []) == [];
  }

  lemma {:induction false} HunksOne(s: Bytes, size: nat, a: Hunk)
    requires ParseHunk(s, 4 * (size % SIZE_FLAGS)) == Parsed(a, [])
    ensures ParseHunks(s, [size]) == Parsed([a], [])
  {
    hide ParseHunk;
    assert [size][1..] == [];
    assert ParseHunks([], [size][1..]) == Parsed([], []);
    var none: seq<Hunk> := [];
    assert [a] + none == [a];
  }

  lemma {:induction false} HunksTwo(s: Bytes, s': Bytes, sizes: seq<nat>, a: Hunk, b: Hunk)
    requires |sizes| == 2
    requires ParseHunk(s, 4 * (sizes[0] % SIZE_FLAGS)) == Parsed(a, s')
    requires ParseHunk(s', 4 * (sizes[1] % SIZE_FLAGS)) == Parsed(b, [])
    ensures ParseHunks(s, sizes) == Parsed([a, b], [])
  {
    hide ParseHunk;
    assert sizes[1..] == [sizes[1]];
    HunksOne(s', sizes[1], b);
    assert [a] + [b] == [a, b];
  }

  lemma OneParses(code: Bytes, zero: seq<nat>)
    requires |code| % 4 == 0 && |code| / 4 < SIZE_FLAGS && Writable(zero)
    ensures ParseFile(EmitOne(code, zero)) == Parsed([Hunk(true, code, RelocsTo(0, zero))], [])
  {
    hide U32, ParseFile, ParseHunk, ParseHunks, RelocsTo, EmitRelocs, EmitBody, Longs;
    var sizes := [|code| / 4];
    var body := EmitBody(HUNK_CODE, code) + EmitRelocs(zero, []) + U32(HUNK_END);
    var header := [HUNK_HEADER, 0] + [1, 0, 0] + sizes;
    assert header == [HUNK_HEADER, 0, 1, 0, 0, |code| / 4];
    assert EmitOne(code, zero) == Longs(header) + body;
    HeaderParses([1, 0, 0], sizes, body);
    HunkParses(HUNK_CODE, code, zero, [], []);
    assert body + [] == body;
    assert RelocsTo(0, zero) + RelocsTo(1, []) == RelocsTo(0, zero);
    HunksOne(body, sizes[0], Hunk(true, code, RelocsTo(0, zero)));
  }
}
