// What a builder program means once its file is loaded anywhere.

module HunkTheorem {
  import opened Guest
  import opened HunkFormat
  import opened HunkResolve
  import opened HunkLoad

  /** Relocation, on words. */
  function RelocateWords(words: seq<u16>, fixups: seq<Fixup>, base: u32): (r: seq<u16>)
    requires forall k :: 0 <= k < |fixups| ==> fixups[k].at + 1 < |words|
    ensures |r| == |words|
    decreases |fixups|
  {
    if fixups == [] then words
    else
      var at := fixups[0].at;
      RelocateWords(PatchPair(words, at, Pair(words, at) + base), fixups[1..], base)
  }

  ghost predicate InWords(fixups: seq<Fixup>, n: nat) {
    forall k :: 0 <= k < |fixups| ==> fixups[k].at + 1 < n
  }

  lemma {:induction false} RelocatedWords(words: seq<u16>, fixups: seq<Fixup>, base: u32)
    requires InWords(fixups, |words|) && Spaced(fixups)
    ensures var r := RelocateWords(words, fixups, base);
            && (forall k :: 0 <= k < |fixups| ==> Pair(r, fixups[k].at) == Mod32(Pair(words, fixups[k].at) + base))
            && (forall i :: 0 <= i < |words| && !Touched(fixups, |fixups|, i) ==> r[i] == words[i])
    decreases |fixups|
  {
    hide Mod32, Pair;
    if fixups != [] {
      var f := fixups[0];
      var rest := fixups[1..];
      var next := PatchPair(words, f.at, Pair(words, f.at) + base);
      RelocatedWords(next, rest, base);
      var r := RelocateWords(words, fixups, base);
      assert !Touched(rest, |rest|, f.at) && !Touched(rest, |rest|, f.at + 1);
      PairSame(next, r, f.at);
      forall k | 0 < k < |fixups| ensures Pair(r, fixups[k].at) == Mod32(Pair(words, fixups[k].at) + base) {
        assert fixups[k] == rest[k - 1];
        PairSame(words, next, fixups[k].at);
      }
      forall i | 0 <= i < |words| && !Touched(fixups, |fixups|, i) ensures r[i] == words[i] {
        TouchedTail(fixups, i);
      }
    }
  }

  lemma PairSame(words: seq<u16>, words': seq<u16>, at: nat)
    requires at + 1 < |words| == |words'| && words'[at] == words[at] && words'[at + 1] == words[at + 1]
    ensures Pair(words', at) == Pair(words, at)
  {
  }

  lemma TouchedTail(fixups: seq<Fixup>, i: nat)
    requires fixups != [] && !Touched(fixups, |fixups|, i)
    ensures !Touched(fixups[1..], |fixups[1..]|, i) && i != fixups[0].at && i != fixups[0].at + 1
  {
    var rest := fixups[1..];
    assert forall k :: 0 <= k < |rest| ==> rest[k] == fixups[k + 1];
  }

  /** Relocating the bytes is relocating the words. */
  lemma {:induction false} RelocateIsWords(words: seq<u16>, fixups: seq<Fixup>, target: nat, more: seq<Reloc>,
                                           bases: seq<u32>)
    requires InWords(fixups, |words|) && target < |bases|
    ensures Relocate(WordBytes(words), RelocsTo(target, Offsets(fixups)) + more, bases)
         == Relocate(WordBytes(RelocateWords(words, fixups, bases[target])), more, bases)
    decreases |fixups|
  {
    hide WordBytes, PutLong, Long, Pair, PatchPair;
    var relocs := RelocsTo(target, Offsets(fixups));
    if fixups == [] {
      assert relocs + more == more;
    } else {
      var at := fixups[0].at;
      assert (relocs + more)[1..] == RelocsTo(target, Offsets(fixups[1..])) + more;
      assert (relocs + more)[0] == Reloc(2 * at, target);
      LongIsPair(words, at);
      PutLongIsPatch(words, at, Pair(words, at) + bases[target]);
      RelocateIsWords(PatchPair(words, at, Pair(words, at) + bases[target]), fixups[1..], target, more, bases);
    }
  }

  lemma OwnedInWords(fixups: seq<Fixup>, list: List, owner: seq<Owner>)
    requires PointersOwned(fixups, list, owner)
    ensures InWords(fixups, |owner|)
  {
    forall k | 0 <= k < |fixups| ensures fixups[k].at + 1 < |owner| {
      assert PointerOwned(fixups, list, owner, k);
    }
  }

  lemma {:induction false} SpacedCount(fixups: seq<Fixup>, n: nat)
    requires Spaced(fixups) && InWords(fixups, n)
    ensures 2 * |fixups| <= n
    decreases |fixups|
  {
    if |fixups| == 1 {
      assert fixups[0].at + 1 < n;
    } else if |fixups| > 1 {
      var last := fixups[|fixups| - 1];
      var init := fixups[..|fixups| - 1];
      assert InWords(init, last.at);
      SpacedCount(init, last.at);
      assert last.at + 1 < n;
    }
  }

  lemma OffsetsWritable(fixups: seq<Fixup>, n: nat)
    requires Spaced(fixups) && InWords(fixups, n) && n < 0x8000_0000
    ensures Writable(Offsets(fixups))
  {
    SpacedCount(fixups, n);
  }

  // --- The second pass ---

  /** Data pointers, then pointers to this hunk, then branches. */
  function ResolveTwo(c: Code, data: map<string, int>): (r: Option<seq<u16>>)
    requires InWords(c.abs, |c.words|) && InWords(c.codeAbs, |c.words|)
    requires forall k :: 0 <= k < |c.branches| ==> c.branches[k].at < |c.words|
    ensures r.Some? ==> |r.value| == |c.words|
  {
    var first := PatchPointers(c.words, c.abs, data, |c.abs|);
    if first.None? then None
    else
      var second := PatchPointers(first.value, c.codeAbs, c.Addresses(), |c.codeAbs|);
      if second.None? then None else PatchBranches(second.value, c.branches, c.Addresses(), |c.branches|)
  }

  function ResolveOne(c: Code): (r: Option<seq<u16>>)
    requires InWords(c.selfAbs, |c.words|)
    requires forall k :: 0 <= k < |c.branches| ==> c.branches[k].at < |c.words|
    ensures r.Some? ==> |r.value| == |c.words|
  {
    var first := PatchPointers(c.words, c.selfAbs, c.Addresses(), |c.selfAbs|);
    if first.None? then None else PatchBranches(first.value, c.branches, c.Addresses(), |c.branches|)
  }

  /** The two words hold the label's place in memory plus the addend. */
  ghost predicate PointsAt(words: seq<u16>, f: Fixup, addresses: map<string, int>, base: u32) {
    f.at + 1 < |words| && f.name in addresses && Pair(words, f.at) == Mod32(base + addresses[f.name] + f.addend)
  }

  ghost predicate AllPoint(words: seq<u16>, fixups: seq<Fixup>, addresses: map<string, int>, base: u32) {
    forall k :: 0 <= k < |fixups| ==> PointsAt(words, fixups[k], addresses, base)
  }

  ghost predicate AllLand(words: seq<u16>, fixups: seq<Fixup>, addresses: map<string, int>) {
    forall k :: 0 <= k < |fixups| ==> Lands(words, fixups[k], addresses)
  }

  lemma ModOnce(base: u32, v: int)
    ensures Mod32(Mod32(v) + base) == Mod32(base + v)
  {
  }

  lemma AllPointRelocated(words: seq<u16>, words': seq<u16>, fixups: seq<Fixup>, addresses: map<string, int>, base: u32)
    requires |words'| == |words| && InWords(fixups, |words|)
    requires forall k :: 0 <= k < |fixups| ==> Points(words, fixups[k], addresses)
    requires forall k :: 0 <= k < |fixups| ==> Pair(words', fixups[k].at) == Mod32(Pair(words, fixups[k].at) + base)
    ensures AllPoint(words', fixups, addresses, base)
  {
    hide Mod32, Pair;
    forall k | 0 <= k < |fixups| ensures PointsAt(words', fixups[k], addresses, base) {
      assert Points(words, fixups[k], addresses);
      ModOnce(base, addresses[fixups[k].name] + fixups[k].addend);
    }
  }

  /** No word of one list's pointers is touched by another list's. */
  lemma OtherListUntouched(f1: seq<Fixup>, l1: List, f2: seq<Fixup>, l2: List, owner: seq<Owner>, k: nat)
    requires PointersOwned(f1, l1, owner) && PointersOwned(f2, l2, owner) && l1 != l2 && k < |f1|
    ensures f1[k].at + 1 < |owner| && !Touched(f2, |f2|, f1[k].at) && !Touched(f2, |f2|, f1[k].at + 1)
  {
    assert PointerOwned(f1, l1, owner, k);
    if Touched(f2, |f2|, f1[k].at) {
      TouchedOwner(f2, l2, owner, |f2|, f1[k].at);
    } else if Touched(f2, |f2|, f1[k].at + 1) {
      TouchedOwner(f2, l2, owner, |f2|, f1[k].at + 1);
    }
  }

  lemma BranchUntouched(branches: seq<Fixup>, f: seq<Fixup>, l: List, owner: seq<Owner>, k: nat)
    requires BranchesOwned(branches, owner) && PointersOwned(f, l, owner) && k < |branches|
    ensures branches[k].at < |owner| && !Touched(f, |f|, branches[k].at)
  {
    if Touched(f, |f|, branches[k].at) {
      TouchedOwner(f, l, owner, |f|, branches[k].at);
    }
  }

  lemma PointerNoBranch(f: seq<Fixup>, l: List, branches: seq<Fixup>, owner: seq<Owner>, k: nat)
    requires BranchesOwned(branches, owner) && PointersOwned(f, l, owner) && k < |f|
    ensures f[k].at + 1 < |owner| && !BranchAt(branches, |branches|, f[k].at)
            && !BranchAt(branches, |branches|, f[k].at + 1)
  {
    assert PointerOwned(f, l, owner, k);
  }

  ghost predicate SamePair(words: seq<u16>, words': seq<u16>, at: nat)
    requires at + 1 < |words| == |words'|
  {
    words'[at] == words[at] && words'[at + 1] == words[at + 1]
  }

  /** Pointers stay put when none of their words changes. */
  lemma PointsKept(words: seq<u16>, words': seq<u16>, fixups: seq<Fixup>, addresses: map<string, int>)
    requires |words'| == |words| && InWords(fixups, |words|)
    requires forall k :: 0 <= k < |fixups| ==> Points(words, fixups[k], addresses)
    requires forall k :: 0 <= k < |fixups| ==> SamePair(words, words', fixups[k].at)
    ensures forall k :: 0 <= k < |fixups| ==> Points(words', fixups[k], addresses)
  {
    forall k | 0 <= k < |fixups| ensures Points(words', fixups[k], addresses) {
      assert Points(words, fixups[k], addresses);
      PointKept(words, words', fixups[k], addresses);
    }
  }

  /** Nothing the second pass patches. */
  ghost predicate Emitted(c: Code, i: nat) {
    && !Touched(c.abs, |c.abs|, i) && !Touched(c.codeAbs, |c.codeAbs|, i) && !BranchAt(c.branches, |c.branches|, i)
  }

  lemma OwnedParts(c: Code, owner: seq<Owner>)
    requires Owned(c, owner)
    ensures InWords(c.abs, |c.words|) && InWords(c.codeAbs, |c.words|) && InWords(c.selfAbs, |c.words|)
    ensures forall k :: 0 <= k < |c.branches| ==> c.branches[k].at < |c.words|
  {
    OwnedInWords(c.abs, Abs, owner);
    OwnedInWords(c.codeAbs, CodeAbs, owner);
    OwnedInWords(c.selfAbs, SelfAbs, owner);
  }

  lemma ResolvedTwo(c: Code, owner: seq<Owner>, data: map<string, int>)
    requires Owned(c, owner)
    ensures InWords(c.abs, |c.words|) && InWords(c.codeAbs, |c.words|)
    ensures forall k :: 0 <= k < |c.branches| ==> c.branches[k].at < |c.words|
    ensures var r := ResolveTwo(c, data);
            r.Some? ==>
              && (forall k :: 0 <= k < |c.abs| ==> Points(r.value, c.abs[k], data))
              && (forall k :: 0 <= k < |c.codeAbs| ==> Points(r.value, c.codeAbs[k], c.Addresses()))
              && AllLand(r.value, c.branches, c.Addresses())
              && (forall i :: 0 <= i < |c.words| && Emitted(c, i) ==> r.value[i] == c.words[i])
  {
    hide Points, Lands, PatchPointers, PatchBranches, Touched, BranchAt, PointersOwned, BranchesOwned;
    OwnedParts(c, owner);
    var r := ResolveTwo(c, data);
    if r.Some? {
      PointersPatched(c.words, c.abs, Abs, owner, data, |c.abs|);
      var first := PatchPointers(c.words, c.abs, data, |c.abs|).value;
      PointersPatched(first, c.codeAbs, CodeAbs, owner, c.Addresses(), |c.codeAbs|);
      var second := PatchPointers(first, c.codeAbs, c.Addresses(), |c.codeAbs|).value;
      BranchesPatched(second, c.branches, owner, c.Addresses(), |c.branches|);
      forall k | 0 <= k < |c.abs|
        ensures r.value[c.abs[k].at] == first[c.abs[k].at] && r.value[c.abs[k].at + 1] == first[c.abs[k].at + 1]
      {
        OtherListUntouched(c.abs, Abs, c.codeAbs, CodeAbs, owner, k);
        PointerNoBranch(c.abs, Abs, c.branches, owner, k);
      }
      PointsKept(first, r.value, c.abs, data);
      forall k | 0 <= k < |c.codeAbs|
        ensures r.value[c.codeAbs[k].at] == second[c.codeAbs[k].at]
                && r.value[c.codeAbs[k].at + 1] == second[c.codeAbs[k].at + 1]
      {
        PointerNoBranch(c.codeAbs, CodeAbs, c.branches, owner, k);
      }
      PointsKept(second, r.value, c.codeAbs, c.Addresses());
    }
  }

  // --- Loaded ---

  /** The words of the code hunk as loaded. */
  function LoadedTwo(words: seq<u16>, c: Code, codeBase: u32, dataBase: u32): (r: seq<u16>)
    requires InWords(c.abs, |words|) && InWords(c.codeAbs, |words|)
    ensures |r| == |words|
  {
    RelocateWords(RelocateWords(words, c.codeAbs, codeBase), c.abs, dataBase)
  }

  lemma LandKept(words: seq<u16>, words': seq<u16>, branches: seq<Fixup>, addresses: map<string, int>)
    requires |words| == |words'| && AllLand(words, branches, addresses)
    requires forall k :: 0 <= k < |branches| ==>
               branches[k].at < |words| && words'[branches[k].at] == words[branches[k].at]
    ensures AllLand(words', branches, addresses)
  {
    forall k | 0 <= k < |branches| ensures Lands(words', branches[k], addresses) {
      assert Lands(words, branches[k], addresses);
    }
  }

  /** Relocating the code pointers leaves the data pointers' words alone, and the other
      way round; neither touches a branch. */
  lemma LoadedData(c: Code, owner: seq<Owner>, data: map<string, int>, words: seq<u16>, codeBase: u32, dataBase: u32)
    requires Owned(c, owner) && InWords(c.abs, |c.words|) && InWords(c.codeAbs, |c.words|) && |words| == |c.words|
    requires forall k :: 0 <= k < |c.abs| ==> Points(words, c.abs[k], data)
    ensures AllPoint(LoadedTwo(words, c, codeBase, dataBase), c.abs, data, dataBase)
  {
    hide Points, PointsAt, Touched, PointersOwned, BranchesOwned, Pair, Mod32;
    var mid := RelocateWords(words, c.codeAbs, codeBase);
    RelocatedWords(words, c.codeAbs, codeBase);
    RelocatedWords(mid, c.abs, dataBase);
    forall k | 0 <= k < |c.abs| ensures SamePair(words, mid, c.abs[k].at) {
      OtherListUntouched(c.abs, Abs, c.codeAbs, CodeAbs, owner, k);
    }
    PointsKept(words, mid, c.abs, data);
    AllPointRelocated(mid, LoadedTwo(words, c, codeBase, dataBase), c.abs, data, dataBase);
  }

  lemma LoadedCode(c: Code, owner: seq<Owner>, words: seq<u16>, codeBase: u32, dataBase: u32)
    requires Owned(c, owner) && InWords(c.abs, |c.words|) && InWords(c.codeAbs, |c.words|) && |words| == |c.words|
    requires forall k :: 0 <= k < |c.codeAbs| ==> Points(words, c.codeAbs[k], c.Addresses())
    ensures AllPoint(LoadedTwo(words, c, codeBase, dataBase), c.codeAbs, c.Addresses(), codeBase)
  {
    hide Points, PointsAt, Touched, PointersOwned, BranchesOwned, Pair, Mod32;
    var mid := RelocateWords(words, c.codeAbs, codeBase);
    RelocatedWords(words, c.codeAbs, codeBase);
    AllPointRelocated(words, mid, c.codeAbs, c.Addresses(), codeBase);
    RelocatedWords(mid, c.abs, dataBase);
    var r := LoadedTwo(words, c, codeBase, dataBase);
    forall k | 0 <= k < |c.codeAbs| ensures PointsAt(r, c.codeAbs[k], c.Addresses(), codeBase) {
      OtherListUntouched(c.codeAbs, CodeAbs, c.abs, Abs, owner, k);
      PointAtKept(mid, r, c.codeAbs[k], c.Addresses(), codeBase);
    }
  }

  lemma LoadedBranches(c: Code, owner: seq<Owner>, words: seq<u16>, codeBase: u32, dataBase: u32)
    requires Owned(c, owner) && InWords(c.abs, |c.words|) && InWords(c.codeAbs, |c.words|) && |words| == |c.words|
    requires AllLand(words, c.branches, c.Addresses())
    ensures AllLand(LoadedTwo(words, c, codeBase, dataBase), c.branches, c.Addresses())
    ensures forall i :: 0 <= i < |c.words| && Emitted(c, i) ==> LoadedTwo(words, c, codeBase, dataBase)[i] == words[i]
  {
    hide Lands, Touched, BranchAt, PointersOwned, BranchesOwned, Pair, Mod32;
    var mid := RelocateWords(words, c.codeAbs, codeBase);
    RelocatedWords(words, c.codeAbs, codeBase);
    RelocatedWords(mid, c.abs, dataBase);
    var r := LoadedTwo(words, c, codeBase, dataBase);
    forall k | 0 <= k < |c.branches|
      ensures c.branches[k].at < |words| && r[c.branches[k].at] == words[c.branches[k].at]
    {
      BranchUntouched(c.branches, c.codeAbs, CodeAbs, owner, k);
      BranchUntouched(c.branches, c.abs, Abs, owner, k);
    }
    LandKept(words, r, c.branches, c.Addresses());
  }

  lemma LoadedTwoPoints(c: Code, owner: seq<Owner>, data: map<string, int>, words: seq<u16>, codeBase: u32,
                        dataBase: u32)
    requires Owned(c, owner) && InWords(c.abs, |c.words|) && InWords(c.codeAbs, |c.words|) && |words| == |c.words|
    requires forall k :: 0 <= k < |c.abs| ==> Points(words, c.abs[k], data)
    requires forall k :: 0 <= k < |c.codeAbs| ==> Points(words, c.codeAbs[k], c.Addresses())
    requires AllLand(words, c.branches, c.Addresses())
    requires forall i :: 0 <= i < |c.words| && Emitted(c, i) ==> words[i] == c.words[i]
    ensures var r := LoadedTwo(words, c, codeBase, dataBase);
            && AllPoint(r, c.abs, data, dataBase) && AllPoint(r, c.codeAbs, c.Addresses(), codeBase)
            && AllLand(r, c.branches, c.Addresses())
            && (forall i :: 0 <= i < |c.words| && Emitted(c, i) ==> r[i] == c.words[i])
  {
    hide Owned, Points, AllPoint, AllLand, Emitted, LoadedTwo, InWords;
    LoadedData(c, owner, data, words, codeBase, dataBase);
    LoadedCode(c, owner, words, codeBase, dataBase);
    LoadedBranches(c, owner, words, codeBase, dataBase);
  }

  lemma PointAtKept(words: seq<u16>, words': seq<u16>, f: Fixup, addresses: map<string, int>, base: u32)
    requires PointsAt(words, f, addresses, base) && |words'| == |words|
    requires f.at + 1 < |words| ==> words'[f.at] == words[f.at] && words'[f.at + 1] == words[f.at + 1]
    ensures PointsAt(words', f, addresses, base)
  {
  }

  /** Two-hunk build, loaded at any two addresses.  The file parses into the two bodies and
      one relocation for each pointer under its hunk; relocated, every pointer to data
      holds the data hunk's address plus label plus addend, every pointer to code the code
      hunk's, every branch lands on its label, and every other word is as emitted. */
  lemma TwoHunkFileLoads(c: Code, owner: seq<Owner>, data: map<string, int>, dataBytes: Bytes, codeBase: u32,
                         dataBase: u32)
    requires Owned(c, owner) && InWords(c.abs, |c.words|) && InWords(c.codeAbs, |c.words|)
    requires forall k :: 0 <= k < |c.branches| ==> c.branches[k].at < |c.words|
    requires ResolveTwo(c, data).Some?
    requires |c.words| % 2 == 0 && |c.words| / 2 < SIZE_FLAGS
    requires |dataBytes| % 4 == 0 && |dataBytes| / 4 < SIZE_FLAGS
    ensures var code := WordBytes(ResolveTwo(c, data).value);
            var relocs := RelocsTo(0, Offsets(c.codeAbs)) + RelocsTo(1, Offsets(c.abs));
            var loaded := LoadedTwo(ResolveTwo(c, data).value, c, codeBase, dataBase);
            && ParseFile(EmitTwo(code, dataBytes, Offsets(c.codeAbs), Offsets(c.abs)))
               == Parsed([Hunk(true, code, relocs), Hunk(false, dataBytes, [])], [])
            && Relocate(code, relocs, [codeBase, dataBase]) == Some(WordBytes(loaded))
            && AllPoint(loaded, c.abs, data, dataBase) && AllPoint(loaded, c.codeAbs, c.Addresses(), codeBase)
            && AllLand(loaded, c.branches, c.Addresses())
            && (forall i :: 0 <= i < |c.words| && Emitted(c, i) ==> loaded[i] == c.words[i])
  {
    hide ResolveTwo, EmitTwo, ParseFile, Emitted, WordBytes, RelocateWords, PointersOwned, BranchesOwned;
    var words := ResolveTwo(c, data).value;
    OffsetsWritable(c.abs, |c.words|);
    OffsetsWritable(c.codeAbs, |c.words|);
    TwoParses(WordBytes(words), dataBytes, Offsets(c.codeAbs), Offsets(c.abs));
    ResolvedTwo(c, owner, data);
    LoadedTwoPoints(c, owner, data, words, codeBase, dataBase);
    var bases := [codeBase, dataBase];
    RelocateIsWords(words, c.codeAbs, 0, RelocsTo(1, Offsets(c.abs)), bases);
    RelocateIsWords(RelocateWords(words, c.codeAbs, codeBase), c.abs, 1, [], bases);
    assert RelocsTo(1, Offsets(c.abs)) + [] == RelocsTo(1, Offsets(c.abs));
  }

  lemma SelfPointersStay(c: Code, owner: seq<Owner>, k: nat)
    requires Owned(c, owner) && k < |c.selfAbs|
    ensures Emitted(c, c.selfAbs[k].at) && Emitted(c, c.selfAbs[k].at + 1)
  {
    OtherListUntouched(c.selfAbs, SelfAbs, c.abs, Abs, owner, k);
    OtherListUntouched(c.selfAbs, SelfAbs, c.codeAbs, CodeAbs, owner, k);
    PointerNoBranch(c.selfAbs, SelfAbs, c.branches, owner, k);
  }

  /** The two-hunk build ignores dc_l_selfptr: all of a program's pointers are right at
      every pair of load addresses if and only if it has no self pointer. */
  lemma TwoHunkAllRight(c: Code, owner: seq<Owner>, data: map<string, int>)
    requires Owned(c, owner) && InWords(c.abs, |c.words|) && InWords(c.codeAbs, |c.words|)
    requires forall k :: 0 <= k < |c.branches| ==> c.branches[k].at < |c.words|
    requires ResolveTwo(c, data).Some?
    ensures (forall codeBase: u32, dataBase: u32 ::
               var loaded := LoadedTwo(ResolveTwo(c, data).value, c, codeBase, dataBase);
               && AllPoint(loaded, c.abs, data, dataBase) && AllPoint(loaded, c.codeAbs, c.Addresses(), codeBase)
               && AllPoint(loaded, c.selfAbs, c.Addresses(), codeBase))
            <==> c.selfAbs == []
  {
    hide ResolveTwo, RelocateWords, Emitted, PointersOwned, BranchesOwned, LoadedTwo;
    var words := ResolveTwo(c, data).value;
    ResolvedTwo(c, owner, data);
    forall codeBase: u32, dataBase: u32
      ensures var loaded := LoadedTwo(words, c, codeBase, dataBase);
              AllPoint(loaded, c.abs, data, dataBase) && AllPoint(loaded, c.codeAbs, c.Addresses(), codeBase)
    {
      LoadedTwoPoints(c, owner, data, words, codeBase, dataBase);
    }
    if c.selfAbs != [] {
      var f := c.selfAbs[0];
      OwnedParts(c, owner);
      var codeBase := WrongBase(f, c.Addresses(), Pair(c.words, f.at));
      LoadedTwoPoints(c, owner, data, words, codeBase, 0);
      SelfPointersStay(c, owner, 0);
      var loaded := LoadedTwo(words, c, codeBase, 0);
      PairSame(c.words, loaded, f.at);
      assert !PointsAt(loaded, f, c.Addresses(), codeBase);
    }
  }

  /** An address at which a pointer that nobody relocates is wrong. */
  function WrongBase(f: Fixup, addresses: map<string, int>, stays: u32): (base: u32)
    ensures f.name in addresses ==> Mod32(base + addresses[f.name] + f.addend) != stays
  {
    if f.name in addresses && Mod32(addresses[f.name] + f.addend) == stays then 4 else 0
  }

  // --- The single-hunk build ---

  ghost predicate EmittedOne(c: Code, i: nat) {
    !Touched(c.selfAbs, |c.selfAbs|, i) && !BranchAt(c.branches, |c.branches|, i)
  }

  function LoadedOne(words: seq<u16>, c: Code, base: u32): (r: seq<u16>)
    requires InWords(c.selfAbs, |words|)
    ensures |r| == |words|
  {
    RelocateWords(words, c.selfAbs, base)
  }

  lemma LoadedOnePoints(c: Code, owner: seq<Owner>, base: u32)
    requires Owned(c, owner) && InWords(c.selfAbs, |c.words|)
    requires forall k :: 0 <= k < |c.branches| ==> c.branches[k].at < |c.words|
    requires ResolveOne(c).Some?
    ensures var r := LoadedOne(ResolveOne(c).value, c, base);
            && AllPoint(r, c.selfAbs, c.Addresses(), base) && AllLand(r, c.branches, c.Addresses())
            && (forall i :: 0 <= i < |c.words| && EmittedOne(c, i) ==> r[i] == c.words[i])
  {
    hide Points, PointsAt, Lands, PatchPointers, PatchBranches, Touched, BranchAt, PointersOwned, BranchesOwned;
    PointersPatched(c.words, c.selfAbs, SelfAbs, owner, c.Addresses(), |c.selfAbs|);
    var first := PatchPointers(c.words, c.selfAbs, c.Addresses(), |c.selfAbs|).value;
    BranchesPatched(first, c.branches, owner, c.Addresses(), |c.branches|);
    var words := ResolveOne(c).value;
    forall k | 0 <= k < |c.selfAbs| ensures SamePair(first, words, c.selfAbs[k].at) {
      PointerNoBranch(c.selfAbs, SelfAbs, c.branches, owner, k);
    }
    PointsKept(first, words, c.selfAbs, c.Addresses());
    RelocatedWords(words, c.selfAbs, base);
    var r := LoadedOne(words, c, base);
    AllPointRelocated(words, r, c.selfAbs, c.Addresses(), base);
    forall k | 0 <= k < |c.branches|
      ensures c.branches[k].at < |words| && r[c.branches[k].at] == words[c.branches[k].at]
    {
      BranchUntouched(c.branches, c.selfAbs, SelfAbs, owner, k);
    }
    LandKept(words, r, c.branches, c.Addresses());
  }

  /** Single-hunk build, loaded at any address: every self pointer holds that address plus
      label plus addend, every branch lands, every other word is as emitted, and the file
      lists each self pointer once. */
  lemma SingleHunkFileLoads(c: Code, owner: seq<Owner>, base: u32)
    requires Owned(c, owner) && InWords(c.selfAbs, |c.words|)
    requires forall k :: 0 <= k < |c.branches| ==> c.branches[k].at < |c.words|
    requires ResolveOne(c).Some?
    requires |c.words| % 2 == 0 && |c.words| / 2 < SIZE_FLAGS
    ensures var code := WordBytes(ResolveOne(c).value);
            var relocs := RelocsTo(0, Offsets(c.selfAbs));
            var loaded := LoadedOne(ResolveOne(c).value, c, base);
            && ParseFile(EmitOne(code, Offsets(c.selfAbs))) == Parsed([Hunk(true, code, relocs)], [])
            && Relocate(code, relocs, [base]) == Some(WordBytes(loaded))
            && AllPoint(loaded, c.selfAbs, c.Addresses(), base) && AllLand(loaded, c.branches, c.Addresses())
            && (forall i :: 0 <= i < |c.words| && EmittedOne(c, i) ==> loaded[i] == c.words[i])
  {
    hide ResolveOne, EmitOne, ParseFile, EmittedOne, WordBytes, RelocateWords, PointersOwned, BranchesOwned;
    var words := ResolveOne(c).value;
    OwnedParts(c, owner);
    OwnedSpaced(c, owner);
    OffsetsWritable(c.selfAbs, |c.words|);
    OneParses(WordBytes(words), Offsets(c.selfAbs));
    LoadedOnePoints(c, owner, base);
    RelocateIsWords(words, c.selfAbs, 0, [], [base]);
    assert RelocsTo(0, Offsets(c.selfAbs)) + [] == RelocsTo(0, Offsets(c.selfAbs));
  }

  lemma OwnedSpaced(c: Code, owner: seq<Owner>)
    requires Owned(c, owner)
    ensures Spaced(c.selfAbs)
  {
  }

  /** The single-hunk build ignores the code pointers of the two-hunk build: all of a
      program's pointers to its own code are right at every load address if and only if
      each of them is a self pointer. */
  lemma SingleHunkAllRight(c: Code, owner: seq<Owner>)
    requires Owned(c, owner) && InWords(c.selfAbs, |c.words|)
    requires forall k :: 0 <= k < |c.branches| ==> c.branches[k].at < |c.words|
    requires ResolveOne(c).Some?
    ensures (forall base: u32 ::
               var loaded := LoadedOne(ResolveOne(c).value, c, base);
               AllPoint(loaded, c.selfAbs, c.Addresses(), base) && AllPoint(loaded, c.codeAbs, c.Addresses(), base))
            <==> c.codeAbs == []
  {
    hide ResolveOne, RelocateWords, EmittedOne, PointersOwned, BranchesOwned, LoadedOne;
    var words := ResolveOne(c).value;
    forall base: u32 ensures AllPoint(LoadedOne(words, c, base), c.selfAbs, c.Addresses(), base) {
      LoadedOnePoints(c, owner, base);
    }
    if c.codeAbs != [] {
      var f := c.codeAbs[0];
      OwnedParts(c, owner);
      var base := WrongBase(f, c.Addresses(), Pair(c.words, f.at));
      LoadedOnePoints(c, owner, base);
      CodePointersStay(c, owner, 0);
      var loaded := LoadedOne(words, c, base);
      PairSame(c.words, loaded, f.at);
      assert !PointsAt(loaded, f, c.Addresses(), base);
    }
  }

  lemma CodePointersStay(c: Code, owner: seq<Owner>, k: nat)
    requires Owned(c, owner) && k < |c.codeAbs|
    ensures EmittedOne(c, c.codeAbs[k].at) && EmittedOne(c, c.codeAbs[k].at + 1)
  {
    OtherListUntouched(c.codeAbs, CodeAbs, c.selfAbs, SelfAbs, owner, k);
    PointerNoBranch(c.codeAbs, CodeAbs, c.branches, owner, k);
  }
}
