// The assembler's second pass on values: patching pointers and branches, and what
// relocating the result at load time makes of them.

module HunkResolve {
  import opened Guest
  import opened HunkFormat

  /** A placeholder at word `at` for label + addend. */
  datatype Fixup = Fixup(at: nat, name: string, addend: int)

  datatype Code = Code(
    words: seq<u16>, labels: map<string, nat>,
    abs: seq<Fixup>, codeAbs: seq<Fixup>, selfAbs: seq<Fixup>, branches: seq<Fixup>)
  {
    /** Labels as byte offsets. */
    function Addresses(): map<string, int> {
      map l | l in labels :: labels[l] * 2
    }
  }

  // --- Who put each word there ---

  datatype List = Abs | CodeAbs | SelfAbs
  datatype Owner = Plain | High(list: List, k: nat) | Low(list: List, k: nat) | Disp(k: nat)

  /** Each pointer fixup owns its own two words. */
  ghost predicate PointersOwned(fixups: seq<Fixup>, list: List, owner: seq<Owner>) {
    forall k :: 0 <= k < |fixups| ==> PointerOwned(fixups, list, owner, k)
  }

  ghost predicate PointerOwned(fixups: seq<Fixup>, list: List, owner: seq<Owner>, k: nat)
    requires k < |fixups|
  {
    && fixups[k].at + 1 < |owner|
    && owner[fixups[k].at] == High(list, k) && owner[fixups[k].at + 1] == Low(list, k)
  }

  /** The sites of one list come in order and do not overlap. */
  ghost predicate Spaced(fixups: seq<Fixup>) {
    forall j, k :: 0 <= j < k < |fixups| ==> fixups[j].at + 1 < fixups[k].at
  }

  ghost predicate BranchesOwned(fixups: seq<Fixup>, owner: seq<Owner>) {
    forall k :: 0 <= k < |fixups| ==> fixups[k].at < |owner| && owner[fixups[k].at] == Disp(k)
  }

  ghost predicate Owned(c: Code, owner: seq<Owner>) {
    && |owner| == |c.words|
    && PointersOwned(c.abs, Abs, owner) && PointersOwned(c.codeAbs, CodeAbs, owner)
    && PointersOwned(c.selfAbs, SelfAbs, owner) && BranchesOwned(c.branches, owner)
    && Spaced(c.abs) && Spaced(c.codeAbs) && Spaced(c.selfAbs)
    && forall l <- c.labels :: c.labels[l] <= |c.words|
  }

  // --- Patching ---

  function Pair(words: seq<u16>, at: nat): u32
    requires at + 1 < |words|
  {
    words[at] as int * 0x1_0000 + words[at + 1] as int
  }

  function PatchPair(words: seq<u16>, at: nat, v: int): (r: seq<u16>)
    requires at + 1 < |words|
    ensures |r| == |words| && Pair(r, at) == Mod32(v)
    ensures forall i :: 0 <= i < |words| && i != at && i != at + 1 ==> r[i] == words[i]
  {
    words[at := v / 0x1_0000 % 0x1_0000][at + 1 := v % 0x1_0000]
  }

  /** The words after the first n pointer fixups; None for an unknown label. */
  function PatchPointers(words: seq<u16>, fixups: seq<Fixup>, addresses: map<string, int>, n: nat)
    : (r: Option<seq<u16>>)
    requires n <= |fixups| && forall k :: 0 <= k < |fixups| ==> fixups[k].at + 1 < |words|
    ensures r.Some? ==> |r.value| == |words|
  {
    if n == 0 then Some(words)
    else
      var before := PatchPointers(words, fixups, addresses, n - 1);
      var f := fixups[n - 1];
      if before.None? || f.name !in addresses then None
      else Some(PatchPair(before.value, f.at, addresses[f.name] + f.addend))
  }

  /** A word branch's displacement counts from its displacement word. */
  function PatchBranches(words: seq<u16>, fixups: seq<Fixup>, addresses: map<string, int>, n: nat)
    : (r: Option<seq<u16>>)
    requires n <= |fixups| && forall k :: 0 <= k < |fixups| ==> fixups[k].at < |words|
    ensures r.Some? ==> |r.value| == |words|
  {
    if n == 0 then Some(words)
    else
      var before := PatchBranches(words, fixups, addresses, n - 1);
      var f := fixups[n - 1];
      if before.None? || f.name !in addresses then None
      else
        var disp := addresses[f.name] - f.at * 2;
        if !(-32768 <= disp <= 32767) then None else Some(before.value[f.at := disp % 0x1_0000])
  }

  function Signed16(w: u16): int { if w < 0x8000 then w else w - 0x1_0000 }

  /** Word i belongs to one of the first n pointers. */
  ghost predicate Touched(fixups: seq<Fixup>, n: nat, i: nat)
    requires n <= |fixups|
  {
    exists k :: 0 <= k < n && (i == fixups[k].at || i == fixups[k].at + 1)
  }

  ghost predicate BranchAt(fixups: seq<Fixup>, n: nat, i: nat)
    requires n <= |fixups|
  {
    exists k :: 0 <= k < n && i == fixups[k].at
  }

  lemma TouchedOwner(fixups: seq<Fixup>, list: List, owner: seq<Owner>, n: nat, i: nat)
    requires PointersOwned(fixups, list, owner) && n <= |fixups| && Touched(fixups, n, i)
    ensures i < |owner| && (owner[i].High? || owner[i].Low?) && owner[i].list == list && owner[i].k < n
  {
    var k :| 0 <= k < n && (i == fixups[k].at || i == fixups[k].at + 1);
    assert PointerOwned(fixups, list, owner, k);
  }

  /** The two words of a pointer hold its label's address plus its addend. */
  ghost predicate Points(words: seq<u16>, f: Fixup, addresses: map<string, int>) {
    f.at + 1 < |words| && f.name in addresses && Pair(words, f.at) == Mod32(addresses[f.name] + f.addend)
  }

  /** The displacement word of a branch lands it on its label. */
  ghost predicate Lands(words: seq<u16>, f: Fixup, addresses: map<string, int>) {
    f.at < |words| && f.name in addresses && f.at * 2 + Signed16(words[f.at]) == addresses[f.name]
  }

  lemma {:induction false} PointersPatched(words: seq<u16>, fixups: seq<Fixup>, list: List, owner: seq<Owner>,
                                           addresses: map<string, int>, n: nat)
    requires |owner| == |words| && PointersOwned(fixups, list, owner) && n <= |fixups|
    ensures forall k :: 0 <= k < |fixups| ==> fixups[k].at + 1 < |words|
    ensures var r := PatchPointers(words, fixups, addresses, n);
            r.Some? ==>
              && (forall k :: 0 <= k < n ==> Points(r.value, fixups[k], addresses))
              && (forall i :: 0 <= i < |words| && !Touched(fixups, n, i) ==> r.value[i] == words[i])
  {
    hide PatchPair, Mod32, Pair, Touched;
    forall k | 0 <= k < |fixups| ensures fixups[k].at + 1 < |words| {
      assert PointerOwned(fixups, list, owner, k);
    }
    var r := PatchPointers(words, fixups, addresses, n);
    if n > 0 && r.Some? {
      PointersPatched(words, fixups, list, owner, addresses, n - 1);
      var before := PatchPointers(words, fixups, addresses, n - 1).value;
      var f := fixups[n - 1];
      forall k | 0 <= k < n ensures Points(r.value, fixups[k], addresses) {
        if k < n - 1 {
          assert PointerOwned(fixups, list, owner, k) && PointerOwned(fixups, list, owner, n - 1);
          PointKept(before, r.value, fixups[k], addresses);
        }
      }
      forall i | 0 <= i < |words| && !Touched(fixups, n, i) ensures r.value[i] == words[i] {
        TouchedMore(fixups, n, i);
      }
    }
  }

  lemma PointKept(words: seq<u16>, words': seq<u16>, f: Fixup, addresses: map<string, int>)
    requires Points(words, f, addresses) && |words'| == |words|
    requires words'[f.at] == words[f.at] && words'[f.at + 1] == words[f.at + 1]
    ensures Points(words', f, addresses)
  {
  }

  lemma TouchedMore(fixups: seq<Fixup>, n: nat, i: nat)
    requires 0 < n <= |fixups| && !Touched(fixups, n, i)
    ensures !Touched(fixups, n - 1, i) && i != fixups[n - 1].at && i != fixups[n - 1].at + 1
  {
  }

  lemma {:induction false} BranchesPatched(words: seq<u16>, fixups: seq<Fixup>, owner: seq<Owner>,
                                           addresses: map<string, int>, n: nat)
    requires |owner| == |words| && BranchesOwned(fixups, owner) && n <= |fixups|
    ensures var r := PatchBranches(words, fixups, addresses, n);
            r.Some? ==>
              && (forall k :: 0 <= k < n ==> Lands(r.value, fixups[k], addresses))
              && (forall i :: 0 <= i < |words| && !BranchAt(fixups, n, i) ==> r.value[i] == words[i])
  {
    var r := PatchBranches(words, fixups, addresses, n);
    if n > 0 && r.Some? {
      BranchesPatched(words, fixups, owner, addresses, n - 1);
      var before := PatchBranches(words, fixups, addresses, n - 1).value;
      forall i | 0 <= i < |words| && !BranchAt(fixups, n, i) ensures r.value[i] == words[i] {
        BranchMore(fixups, n, i);
      }
    }
  }

  lemma BranchMore(fixups: seq<Fixup>, n: nat, i: nat)
    requires 0 < n <= |fixups| && !BranchAt(fixups, n, i)
    ensures !BranchAt(fixups, n - 1, i) && i != fixups[n - 1].at
  {
  }

  // --- Bytes of words ---

  /** The two bytes of word i. */
  ghost predicate Spelled(b: Bytes, i: nat, w: u16) {
    2 * i + 1 < |b| && b[2 * i] == U16(w)[0] && b[2 * i + 1] == U16(w)[1]
  }

  lemma {:induction false} WordBytesAt(words: seq<u16>, i: nat)
    requires i < |words|
    ensures Spelled(WordBytes(words), i, words[i])
    decreases |words|
  {
    if i < |words| - 1 { WordBytesAt(words[..|words| - 1], i); }
  }

  lemma {:induction false} LongIsPair(words: seq<u16>, at: nat)
    requires at + 1 < |words|
    ensures Long(WordBytes(words), 2 * at) == Pair(words, at)
  {
    hide U16, WordBytes;
    WordBytesAt(words, at);
    WordBytesAt(words, at + 1);
    Halves(words[at]);
    Halves(words[at + 1]);
  }

  lemma Halves(w: u16)
    ensures U16(w)[0] as int * 0x100 + U16(w)[1] as int == w
  {
  }

  lemma {:induction false} BytesDetermineWords(b: Bytes, words: seq<u16>)
    requires |b| == 2 * |words|
    requires forall i :: 0 <= i < |words| ==> Spelled(b, i, words[i])
    ensures b == WordBytes(words)
  {
    forall j | 0 <= j < |b| ensures b[j] == WordBytes(words)[j] {
      WordBytesAt(words, j / 2);
      assert Spelled(b, j / 2, words[j / 2]);
      assert j == 2 * (j / 2) || j == 2 * (j / 2) + 1;
    }
  }

  lemma {:induction false} PutLongIsPatch(words: seq<u16>, at: nat, v: int)
    requires at + 1 < |words|
    ensures PutLong(WordBytes(words), 2 * at, v) == WordBytes(PatchPair(words, at, v))
  {
    hide U32, WordBytes, PutLong, PatchPair, Spelled;
    var patched := PatchPair(words, at, v);
    var b := PutLong(WordBytes(words), 2 * at, v);
    forall i | 0 <= i < |words| ensures Spelled(b, i, patched[i]) {
      PutByte(words, at, v, i);
    }
    BytesDetermineWords(b, patched);
  }

  lemma {:induction false} PutByte(words: seq<u16>, at: nat, v: int, i: nat)
    requires at + 1 < |words| && i < |words|
    ensures Spelled(PutLong(WordBytes(words), 2 * at, v), i, PatchPair(words, at, v)[i])
  {
    hide U32, U16, WordBytes, Pair, Mod32, PutLong, PatchPair;
    var b := PutLong(WordBytes(words), 2 * at, v);
    PutLongBytes(WordBytes(words), 2 * at, v);
    if i == at || i == at + 1 {
      PatchedWordBytes(words, at, v);
      assert 2 * (at + 1) == 2 * at + 2;
    } else {
      WordBytesAt(words, i);
      assert b[2 * i] == WordBytes(words)[2 * i] && b[2 * i + 1] == WordBytes(words)[2 * i + 1];
    }
  }

  lemma PatchedWordBytes(words: seq<u16>, at: nat, v: int)
    requires at + 1 < |words|
    ensures var patched := PatchPair(words, at, v);
            && U32(v)[0] == U16(patched[at])[0] && U32(v)[1] == U16(patched[at])[1]
            && U32(v)[2] == U16(patched[at + 1])[0] && U32(v)[3] == U16(patched[at + 1])[1]
  {
    hide U32, Pair, Mod32;
    PatchedBytes(v);
  }

  lemma PutLongBytes(data: Bytes, at: nat, v: int)
    requires at + 4 <= |data|
    ensures var b := PutLong(data, at, v);
            && b[at] == U32(v)[0] && b[at + 1] == U32(v)[1] && b[at + 2] == U32(v)[2] && b[at + 3] == U32(v)[3]
            && forall i :: 0 <= i < |data| && (i < at || at + 4 <= i) ==> b[i] == data[i]
  {
    hide U32;
  }

  lemma NestedDivision(h: int)
    ensures h % 0x1_0000 / 0x100 == h / 0x100 % 0x100
  {
  }

  lemma NestedRemainder(h: int)
    ensures h % 0x1_0000 % 0x100 == h % 0x100
  {
  }

  lemma DivisionTwice(v: int)
    ensures v / 0x100_0000 == v / 0x1_0000 / 0x100
  {
  }

  lemma PatchedBytes(v: int)
    ensures U32(v)[0] == v / 0x1_0000 % 0x1_0000 / 0x100 && U32(v)[1] == v / 0x1_0000 % 0x1_0000 % 0x100
    ensures U32(v)[2] == v % 0x1_0000 / 0x100 && U32(v)[3] == v % 0x1_0000 % 0x100
  {
    var h := v / 0x1_0000;
    NestedDivision(h);
    NestedRemainder(h);
    DivisionTwice(v);
    NestedDivision(v);
    NestedRemainder(v);
  }
}
