// Load files written by others: what the loader passes over, and what it refuses.

module HunkForms {
  import opened Guest
  import opened HunkFormat
  import opened HunkLoad

  // --- What a loader passes over ---

  /** Names of resident libraries: a length in longwords and as many longwords, each. */
  function NameBytes(names: seq<Bytes>): Bytes {
    if names == [] then [] else U32(|names[0]| / 4) + names[0] + NameBytes(names[1..])
  }

  lemma {:induction false} NamesSkipped(names: seq<Bytes>, rest: Bytes)
    requires forall n <- names :: |n| % 4 == 0 && 0 < |n| < 0x1_0000_0000
    ensures SkipNames(NameBytes(names) + (U32(0) + rest)) == Parsed((), rest)
  {
    hide U32, Get32, SkipNames;
    if names == [] {
      assert NameBytes(names) + (U32(0) + rest) == U32(0) + rest;
      NamesEnd(rest);
    } else {
      var more := NameBytes(names[1..]) + (U32(0) + rest);
      assert names[0] in names && forall n <- names[1..] :: n in names;
      assert NameBytes(names) + (U32(0) + rest) == U32(|names[0]| / 4) + (names[0] + more);
      OneNameSkipped(names[0], more);
      NamesSkipped(names[1..], rest);
    }
  }

  lemma {:induction false} NamesEnd(rest: Bytes)
    ensures SkipNames(U32(0) + rest) == Parsed((), rest)
  {
    hide U32, Get32;
    Get32Reads(0, rest);
  }

  lemma {:induction false} OneNameSkipped(name: Bytes, more: Bytes)
    requires |name| % 4 == 0 && 0 < |name| < 0x1_0000_0000
    ensures SkipNames(U32(|name| / 4) + (name + more)) == SkipNames(more)
  {
    hide U32, Get32;
    Get32Reads(|name| / 4, name + more);
    assert (name + more)[|name|..] == more;
  }

  /** A load file means the same with names of resident libraries as without. */
  lemma {:induction false} NamesAside(names: seq<Bytes>, rest: Bytes)
    requires forall n <- names :: |n| % 4 == 0 && 0 < |n| < 0x1_0000_0000
    ensures ParseFile(U32(HUNK_HEADER) + (NameBytes(names) + (U32(0) + rest)))
         == ParseFile(U32(HUNK_HEADER) + (U32(0) + rest))
  {
    hide U32, Get32, SkipNames, GetLongs, ParseHunks;
    NamesSkipped(names, rest);
    NamesSkipped([], rest);
    assert NameBytes([]) + (U32(0) + rest) == U32(0) + rest;
    Get32Reads(HUNK_HEADER, NameBytes(names) + (U32(0) + rest));
    Get32Reads(HUNK_HEADER, U32(0) + rest);
  }

  // --- Memory flags ---

  /** The two flag bits of a type or size longword. */
  lemma FlagBits(v: u32, flags: nat)
    requires v < 0x4000_0000 && flags < 4
    ensures (v + flags * 0x4000_0000) % SIZE_FLAGS == v && (v + flags * 0x4000_0000) / SIZE_FLAGS == flags
    ensures v + flags * 0x4000_0000 < 0x1_0000_0000
  {
  }

  /** A hunk's type may carry one memory flag, or both and a longword of attributes after it;
      the hunk is the same. */
  lemma TypeFlags(kind: u32, flags: nat, attributes: u32, s: Bytes, reserved: nat)
    requires kind == HUNK_CODE || kind == HUNK_DATA
    requires flags < 4
    ensures ParseHunk(U32(kind + flags * 0x4000_0000) + (if flags == 3 then U32(attributes) + s else s), reserved)
         == ParseHunk(U32(kind) + s, reserved)
  {
    hide U32, Get32, ParseBlocks;
    FlagBits(kind, flags);
    FlagBits(kind, 0);
    Get32Reads(kind + flags * 0x4000_0000, if flags == 3 then U32(attributes) + s else s);
    Get32Reads(kind, s);
    Get32Reads(attributes, s);
  }

  /** Likewise a block's type. */
  lemma {:induction false} BlockFlags(kind: u32, flags: nat, s: Bytes)
    requires kind < 0x4000_0000 && flags < 4
    ensures ParseBlocks(U32(kind + flags * 0x4000_0000) + s) == ParseBlocks(U32(kind) + s)
  {
    hide U32, Get32, ParseGroups;
    FlagBits(kind, flags);
    FlagBits(kind, 0);
    Get32Reads(kind + flags * 0x4000_0000, s);
    Get32Reads(kind, s);
  }

  /** And each size in the header. */
  lemma {:induction false} SizeFlags(s: Bytes, sizes: seq<nat>, plain: seq<nat>)
    requires |sizes| == |plain|
    requires forall i :: 0 <= i < |sizes| ==>
               plain[i] < 0x4000_0000 && exists f: nat :: sizes[i] == plain[i] + f * 0x4000_0000
    ensures ParseHunks(s, sizes) == ParseHunks(s, plain)
    decreases |sizes|
  {
    hide ParseHunk;
    if sizes != [] {
      var f: nat :| sizes[0] == plain[0] + f * 0x4000_0000;
      SizeBits(plain[0], f);
      assert forall i :: 0 <= i < |sizes| - 1 ==> sizes[1..][i] == sizes[i + 1] && plain[1..][i] == plain[i + 1];
      match ParseHunk(s, 4 * plain[0])
      case Bad =>
      case Parsed(hunk, rest) => SizeFlags(rest, sizes[1..], plain[1..]);
    }
  }

  lemma SizeBits(v: nat, f: nat)
    requires v < 0x4000_0000
    ensures (v + f * 0x4000_0000) % SIZE_FLAGS == v && v % SIZE_FLAGS == v
  {
  }

  // --- What is refused ---

  /** A body longer than the header has room for. */
  lemma BodyTooLong(kind: u32, data: Bytes, rest: Bytes, reserved: nat)
    requires |data| % 4 == 0 && |data| < 0x1_0000_0000 && |data| > reserved && (kind == HUNK_CODE || kind == HUNK_DATA)
    ensures ParseHunk(EmitBody(kind, data) + rest, reserved) == Bad
  {
    hide U32, Get32, ParseBlocks;
    FlagBits(kind, 0);
    assert EmitBody(kind, data) + rest == U32(kind) + (U32(|data| / 4) + (data + rest));
    Get32Reads(kind, U32(|data| / 4) + (data + rest));
    Get32Reads(|data| / 4, data + rest);
  }

  /** A table of no hunks, and a range of hunks that is empty or goes past the table. */
  lemma BadTable(table: u32, first: u32, last: u32, rest: Bytes)
    requires table == 0 || first > last || last >= table
    ensures ParseFile(U32(HUNK_HEADER) + (U32(0) + (U32(table) + (U32(first) + (U32(last) + rest))))) == Bad
  {
    hide U32, Get32, ParseHunks;
    var three := U32(table) + (U32(first) + (U32(last) + rest));
    Get32Reads(HUNK_HEADER, U32(0) + three);
    Get32Reads(0, three);
    assert SkipNames(U32(0) + three) == Parsed((), three);
    ThreeLongs(table, first, last, rest);
  }

  lemma {:induction false} ThreeLongs(a: u32, b: u32, c: u32, rest: Bytes)
    ensures GetLongs(U32(a) + (U32(b) + (U32(c) + rest)), 3) == Parsed([a, b, c], rest)
  {
    hide U32, GetLongs;
    var vs: seq<nat> := [a, b, c];
    GetLongsReads(vs, rest);
    LongsThree(a, b, c);
    assert U32(a) + (U32(b) + (U32(c) + rest)) == U32(a) + U32(b) + U32(c) + rest;
  }

  lemma LongsThree(a: nat, b: nat, c: nat)
    ensures Longs([a, b, c]) == U32(a) + U32(b) + U32(c)
  {
    hide U32, Longs;
    LongsOfOne(a);
    HeaderLongs([a], b);
    HeaderLongs([a] + [b], c);
    assert [a] + [b] + [c] == [a, b, c];
  }

  /** A file that does not begin with the header's number. */
  lemma BadMagic(magic: u32, rest: Bytes)
    requires magic != 0x3F3
    ensures ParseFile(U32(magic) + rest) == Bad
  {
    hide U32, Get32;
    Get32Reads(magic, rest);
  }
}
