// The two builders as they run, and the two executables they write.

module HunkBuilder {
  import opened Guest
  import opened HunkFormat
  import opened HunkResolve
  import opened HunkLoad
  import opened HunkTheorem

  const NOP: u16 := 0x4E71

  class DataBuilder {
    var bytes: Bytes
    var labels: map<string, int>

    ghost predicate Valid()
      reads this
    {
      forall l <- labels :: 0 <= labels[l] <= |bytes|
    }

    constructor ()
      ensures Valid() && bytes == [] && labels == map[]
    {
      bytes, labels := [], map[];
    }

    /** A label for the next byte; false (an exception) when the name is taken. */
    method Label(name: string) returns (ok: bool)
      requires Valid()
      modifies this`labels
      ensures Valid() && ok == (name !in old(labels))
      ensures labels == if ok then old(labels)[name := |bytes|] else old(labels)
    {
      ok := name !in labels;
      if ok {
        labels := labels[name := |bytes|];
      }
    }

    method CStr(name: string, text: Bytes) returns (ok: bool)
      requires Valid()
      modifies this
      ensures Valid() && ok == (name !in old(labels))
      ensures ok ==> labels == old(labels)[name := |old(bytes)|] && bytes == old(bytes) + text + [0]
    {
      ok := Label(name);
      if ok {
        bytes := bytes + text + [0];
      }
    }

    method U32s(name: string, values: seq<int>) returns (ok: bool)
      requires Valid()
      modifies this
      ensures Valid() && ok == (name !in old(labels))
      ensures ok ==> labels == old(labels)[name := |old(bytes)|] && |bytes| == |old(bytes)| + 4 * |values|
      ensures ok ==> bytes[..|old(bytes)|] == old(bytes)
      ensures ok ==> forall i :: 0 <= i < |values| ==>
                bytes[|old(bytes)| + 4 * i..|old(bytes)| + 4 * i + 4] == U32(values[i])
    {
      hide U32;
      ok := Label(name);
      if ok {
        var i := 0;
        while i < |values|
          invariant 0 <= i <= |values| && |bytes| == |old(bytes)| + 4 * i && Valid()
          invariant labels == old(labels)[name := |old(bytes)|]
          invariant bytes[..|old(bytes)|] == old(bytes)
          invariant forall k :: 0 <= k < i ==>
                      bytes[|old(bytes)| + 4 * k..|old(bytes)| + 4 * k + 4] == U32(values[k])
        {
          ghost var before := bytes;
          bytes := bytes + U32(values[i]);
          assert forall k :: 0 <= k < i ==>
            bytes[|old(bytes)| + 4 * k..|old(bytes)| + 4 * k + 4]
              == before[|old(bytes)| + 4 * k..|old(bytes)| + 4 * k + 4];
          i := i + 1;
        }
      }
    }

    /** Pads with zeros to a whole number of longwords. */
    method Align4()
      requires Valid()
      modifies this`bytes
      ensures Valid() && |bytes| % 4 == 0 && old(bytes) <= bytes && |bytes| < |old(bytes)| + 4
      ensures forall i :: |old(bytes)| <= i < |bytes| ==> bytes[i] == 0
    {
      ghost var was := bytes;
      while |bytes| % 4 != 0
        invariant Valid() && was <= bytes
        invariant forall i :: |was| <= i < |bytes| ==> bytes[i] == 0
        invariant (|bytes| + 3) / 4 == (|was| + 3) / 4
        decreases (4 - |bytes| % 4) % 4
      {
        OnePadded(|bytes|);
        bytes := bytes + [0];
      }
    }
  }

  lemma OnePadded(n: nat)
    requires n % 4 != 0
    ensures (n + 1 + 3) / 4 == (n + 3) / 4
    ensures (4 - (n + 1) % 4) % 4 < (4 - n % 4) % 4
  {
  }

  class CodeBuilder {
    var words: seq<u16>
    var labels: map<string, nat>
    var abs32Fixups: seq<Fixup>
    var codeAbs32Fixups: seq<Fixup>
    var selfAbs32Fixups: seq<Fixup>
    var branchFixups: seq<Fixup>
    /** Who put each word there. */
    ghost var owner: seq<Owner>

    function View(): Code
      reads this
    {
      Code(words, labels, abs32Fixups, codeAbs32Fixups, selfAbs32Fixups, branchFixups)
    }

    ghost predicate Valid()
      reads this
    {
      Owned(View(), owner)
    }

    constructor ()
      ensures Valid() && View() == Code([], map[], [], [], [], [])
    {
      words, labels := [], map[];
      abs32Fixups, codeAbs32Fixups, selfAbs32Fixups, branchFixups := [], [], [], [];
      owner := [];
    }

    /** One plain word: an opcode, an immediate, raw data. */
    method Word(value: int) returns (idx: nat)
      requires Valid()
      modifies this
      ensures Valid() && idx == |old(words)|
      ensures View() == old(View()).(words := old(words) + [value % 0x1_0000])
    {
      AppendKeeps(View(), owner, value % 0x1_0000, Plain);
      words := words + [value % 0x1_0000];
      owner := owner + [Plain];
      idx := |words| - 1;
    }

    method Label(name: string) returns (ok: bool)
      requires Valid()
      modifies this
      ensures Valid() && ok == (name !in old(labels))
      ensures View() == if ok then old(View()).(labels := old(labels)[name := |old(words)|]) else old(View())
    {
      ok := name !in labels;
      if ok {
        labels := labels[name := |words|];
      }
    }

    /** move.l #label,Dn and its kin: an opcode and a pointer into the data hunk. */
    method MoveLLabel(opcode: u16, name: string, addend: int)
      requires Valid()
      modifies this
      ensures Valid()
      ensures View() == old(View()).(
                words := old(words) + [opcode, 0, 0],
                abs := old(abs32Fixups) + [Fixup(|old(words)| + 1, name, addend)])
    {
      var idx := Word(opcode);
      var f := Fixup(idx + 1, name, addend);
      PointerKeeps(View(), owner, Abs, f);
      words, owner := words + [0, 0], owner + [High(Abs, |abs32Fixups|), Low(Abs, |abs32Fixups|)];
      abs32Fixups := abs32Fixups + [f];
      assert old(words) + [opcode] + [0, 0] == old(words) + [opcode, 0, 0];
    }

    /** move.l #label,(An) and -(An): an opcode and a pointer into this hunk. */
    method MoveLCodeLabel(opcode: u16, name: string, addend: int)
      requires Valid()
      modifies this
      ensures Valid()
      ensures View() == old(View()).(
                words := old(words) + [opcode, 0, 0],
                codeAbs := old(codeAbs32Fixups) + [Fixup(|old(words)| + 1, name, addend)])
    {
      var idx := Word(opcode);
      var f := Fixup(idx + 1, name, addend);
      PointerKeeps(View(), owner, CodeAbs, f);
      words, owner := words + [0, 0], owner + [High(CodeAbs, |codeAbs32Fixups|), Low(CodeAbs, |codeAbs32Fixups|)];
      codeAbs32Fixups := codeAbs32Fixups + [f];
      assert old(words) + [opcode] + [0, 0] == old(words) + [opcode, 0, 0];
    }

    /** dc.l label: a bare pointer into this hunk, for the single-hunk build. */
    method DcLSelfPtr(name: string, addend: int)
      requires Valid()
      modifies this
      ensures Valid()
      ensures View() == old(View()).(
                words := old(words) + [0, 0],
                selfAbs := old(selfAbs32Fixups) + [Fixup(|old(words)|, name, addend)])
    {
      var f := Fixup(|words|, name, addend);
      PointerKeeps(View(), owner, SelfAbs, f);
      words, owner := words + [0, 0], owner + [High(SelfAbs, |selfAbs32Fixups|), Low(SelfAbs, |selfAbs32Fixups|)];
      selfAbs32Fixups := selfAbs32Fixups + [f];
    }

    /** bra, bsr, beq, bne and dbra: an opcode and a displacement word. */
    method Branch(opcode: u16, name: string)
      requires Valid()
      modifies this
      ensures Valid()
      ensures View() == old(View()).(
                words := old(words) + [opcode, 0],
                branches := old(branchFixups) + [Fixup(|old(words)| + 1, name, 0)])
    {
      var idx := Word(opcode);
      BranchKeeps(View(), owner, Fixup(idx + 1, name, 0));
      words, owner := words + [0], owner + [Disp(|branchFixups|)];
      branchFixups := branchFixups + [Fixup(idx + 1, name, 0)];
      assert old(words) + [opcode] + [0] == old(words) + [opcode, 0];
    }

    /** Fills the pointers of one list in place and lists each with its target hunk; false
        (an exception) on an unknown label. */
    method FillPointers(fixups: seq<Fixup>, addresses: map<string, int>, target: nat)
      returns (ok: bool, relocs: seq<Reloc>)
      requires forall k :: 0 <= k < |fixups| ==> fixups[k].at + 1 < |words|
      modifies this`words
      ensures |words| == |old(words)|
      ensures ok == PatchPointers(old(words), fixups, addresses, |fixups|).Some?
      ensures ok ==> words == PatchPointers(old(words), fixups, addresses, |fixups|).value
      ensures ok ==> relocs == RelocsTo(target, Offsets(fixups))
    {
      relocs := [];
      var k := 0;
      while k < |fixups|
        invariant 0 <= k <= |fixups| && |words| == |old(words)|
        invariant PatchPointers(old(words), fixups, addresses, k) == Some(words)
        invariant |relocs| == k && forall i :: 0 <= i < k ==> relocs[i] == Reloc(2 * fixups[i].at, target)
      {
        hide PatchPointers;
        PatchNext(old(words), fixups, addresses, k);
        var f := fixups[k];
        if f.name !in addresses {
          FailureLasts(old(words), fixups, addresses, k + 1, |fixups|);
          return false, [];
        }
        var address := addresses[f.name] + f.addend;
        words := words[f.at := address / 0x1_0000 % 0x1_0000];
        words := words[f.at + 1 := address % 0x1_0000];
        relocs := relocs + [Reloc(f.at * 2, target)];
        k := k + 1;
      }
      ok := true;
    }

    /** The same for the pointers of a single-hunk build, which are listed by offset. */
    method FillSelfPointers(fixups: seq<Fixup>, addresses: map<string, int>) returns (ok: bool, relocs: seq<nat>)
      requires forall k :: 0 <= k < |fixups| ==> fixups[k].at + 1 < |words|
      modifies this`words
      ensures |words| == |old(words)|
      ensures ok == PatchPointers(old(words), fixups, addresses, |fixups|).Some?
      ensures ok ==> words == PatchPointers(old(words), fixups, addresses, |fixups|).value
      ensures ok ==> relocs == Offsets(fixups)
    {
      relocs := [];
      var k := 0;
      while k < |fixups|
        invariant 0 <= k <= |fixups| && |words| == |old(words)|
        invariant PatchPointers(old(words), fixups, addresses, k) == Some(words)
        invariant |relocs| == k && forall i :: 0 <= i < k ==> relocs[i] == 2 * fixups[i].at
      {
        hide PatchPointers;
        PatchNext(old(words), fixups, addresses, k);
        var f := fixups[k];
        if f.name !in addresses {
          FailureLasts(old(words), fixups, addresses, k + 1, |fixups|);
          return false, [];
        }
        var address := addresses[f.name] + f.addend;
        words := words[f.at := address / 0x1_0000 % 0x1_0000];
        words := words[f.at + 1 := address % 0x1_0000];
        relocs := relocs + [f.at * 2];
        k := k + 1;
      }
      ok := true;
    }

    /** Fills the displacements in place; false (an exception) on an unknown label or a
        displacement that does not fit a word. */
    method FillBranches(fixups: seq<Fixup>, addresses: map<string, int>) returns (ok: bool)
      requires forall k :: 0 <= k < |fixups| ==> fixups[k].at < |words|
      modifies this`words
      ensures |words| == |old(words)|
      ensures ok == PatchBranches(old(words), fixups, addresses, |fixups|).Some?
      ensures ok ==> words == PatchBranches(old(words), fixups, addresses, |fixups|).value
    {
      var k := 0;
      while k < |fixups|
        invariant 0 <= k <= |fixups| && |words| == |old(words)|
        invariant PatchBranches(old(words), fixups, addresses, k) == Some(words)
      {
        var f := fixups[k];
        if f.name !in addresses || !(-32768 <= addresses[f.name] - f.at * 2 <= 32767) {
          BranchFailureLasts(old(words), fixups, addresses, k + 1, |fixups|);
          return false;
        }
        words := words[f.at := (addresses[f.name] - f.at * 2) % 0x1_0000];
        k := k + 1;
      }
      ok := true;
    }

    /** The second pass of the two-hunk build: the words are patched in place, and each
        pointer is listed with its target hunk. */
    method Resolve(data: DataBuilder) returns (ok: bool, relocs: seq<Reloc>)
      requires Valid()
      modifies this`words
      ensures InWords(old(abs32Fixups), |old(words)|) && InWords(old(codeAbs32Fixups), |old(words)|)
      ensures forall k :: 0 <= k < |branchFixups| ==> branchFixups[k].at < |old(words)|
      ensures ok == ResolveTwo(old(View()), data.labels).Some?
      ensures ok ==> words == ResolveTwo(old(View()), data.labels).value
      ensures ok ==> relocs == RelocsTo(1, Offsets(abs32Fixups)) + RelocsTo(0, Offsets(codeAbs32Fixups))
    {
      hide PatchPointers, PatchBranches, PointersOwned, BranchesOwned;
      OwnedParts(View(), owner);
      ok, relocs := FillPointers(abs32Fixups, data.labels, 1);
      if !ok {
        return;
      }
      var more;
      ok, more := FillPointers(codeAbs32Fixups, View().Addresses(), 0);
      relocs := relocs + more;
      if !ok {
        return;
      }
      ok := FillBranches(branchFixups, View().Addresses());
    }

    /** The second pass of the single-hunk build. */
    method ResolveSelf() returns (ok: bool, relocs: seq<nat>)
      requires Valid()
      modifies this`words
      ensures InWords(old(selfAbs32Fixups), |old(words)|)
      ensures forall k :: 0 <= k < |branchFixups| ==> branchFixups[k].at < |old(words)|
      ensures ok == ResolveOne(old(View())).Some?
      ensures ok ==> words == ResolveOne(old(View())).value && relocs == Offsets(selfAbs32Fixups)
    {
      hide PatchPointers, PatchBranches, PointersOwned, BranchesOwned;
      OwnedParts(View(), owner);
      ok, relocs := FillSelfPointers(selfAbs32Fixups, View().Addresses());
      if !ok {
        return;
      }
      ok := FillBranches(branchFixups, View().Addresses());
    }

    method ToBytes() returns (out: Bytes)
      ensures out == WordBytes(words)
    {
      out := [];
      var i := 0;
      while i < |words|
        invariant 0 <= i <= |words| && out == WordBytes(words[..i])
      {
        assert words[..i + 1][..i] == words[..i];
        out := out + U16(words[i]);
        i := i + 1;
      }
      assert words[..i] == words;
    }
  }

  // --- Appending keeps every word's owner ---

  lemma AppendKeeps(c: Code, owner: seq<Owner>, w: u16, who: Owner)
    requires Owned(c, owner)
    ensures Owned(c.(words := c.words + [w]), owner + [who])
  {
    var owner' := owner + [who];
    ListKept(c.abs, Abs, owner, owner');
    ListKept(c.codeAbs, CodeAbs, owner, owner');
    ListKept(c.selfAbs, SelfAbs, owner, owner');
  }

  lemma ListKept(fixups: seq<Fixup>, list: List, owner: seq<Owner>, owner': seq<Owner>)
    requires PointersOwned(fixups, list, owner) && owner <= owner'
    ensures PointersOwned(fixups, list, owner')
  {
    forall k | 0 <= k < |fixups| ensures PointerOwned(fixups, list, owner', k) {
      assert PointerOwned(fixups, list, owner, k);
    }
  }

  lemma ListGrows(fixups: seq<Fixup>, list: List, owner: seq<Owner>, f: Fixup)
    requires PointersOwned(fixups, list, owner) && Spaced(fixups) && f.at == |owner|
    ensures PointersOwned(fixups + [f], list, owner + [High(list, |fixups|), Low(list, |fixups|)])
    ensures Spaced(fixups + [f])
  {
    var owner' := owner + [High(list, |fixups|), Low(list, |fixups|)];
    forall k | 0 <= k < |fixups| + 1 ensures PointerOwned(fixups + [f], list, owner', k) {
      if k < |fixups| { assert PointerOwned(fixups, list, owner, k); }
    }
    forall j, k | 0 <= j < k < |fixups| + 1 ensures (fixups + [f])[j].at + 1 < (fixups + [f])[k].at {
      assert PointerOwned(fixups, list, owner, j);
    }
  }

  function AddPointer(c: Code, list: List, f: Fixup): Code {
    match list
    case Abs => c.(words := c.words + [0, 0], abs := c.abs + [f])
    case CodeAbs => c.(words := c.words + [0, 0], codeAbs := c.codeAbs + [f])
    case SelfAbs => c.(words := c.words + [0, 0], selfAbs := c.selfAbs + [f])
  }

  function Pointers(c: Code, list: List): seq<Fixup> {
    match list case Abs => c.abs case CodeAbs => c.codeAbs case SelfAbs => c.selfAbs
  }

  lemma PointerKeeps(c: Code, owner: seq<Owner>, list: List, f: Fixup)
    requires Owned(c, owner) && f.at == |c.words|
    ensures Owned(AddPointer(c, list, f), owner + [High(list, |Pointers(c, list)|), Low(list, |Pointers(c, list)|)])
  {
    hide PointersOwned, Spaced;
    var owner' := owner + [High(list, |Pointers(c, list)|), Low(list, |Pointers(c, list)|)];
    ListKept(c.abs, Abs, owner, owner');
    ListKept(c.codeAbs, CodeAbs, owner, owner');
    ListKept(c.selfAbs, SelfAbs, owner, owner');
    ListGrows(Pointers(c, list), list, owner, f);
  }

  lemma BranchKeeps(c: Code, owner: seq<Owner>, f: Fixup)
    requires Owned(c, owner) && f.at == |c.words|
    ensures Owned(c.(words := c.words + [0], branches := c.branches + [f]), owner + [Disp(|c.branches|)])
  {
    AppendKeeps(c, owner, 0, Disp(|c.branches|));
  }

  lemma PatchNext(words: seq<u16>, fixups: seq<Fixup>, addresses: map<string, int>, k: nat)
    requires k < |fixups| && forall i :: 0 <= i < |fixups| ==> fixups[i].at + 1 < |words|
    ensures PatchPointers(words, fixups, addresses, 0) == Some(words)
    ensures var now := PatchPointers(words, fixups, addresses, k);
            PatchPointers(words, fixups, addresses, k + 1) ==
            if now.None? || fixups[k].name !in addresses then None
            else Some(PatchPair(now.value, fixups[k].at, addresses[fixups[k].name] + fixups[k].addend))
  {
    hide PatchPair;
  }

  lemma {:induction false} FailureLasts(words: seq<u16>, fixups: seq<Fixup>, addresses: map<string, int>, k: nat,
                                        n: nat)
    requires k <= n <= |fixups| && forall i :: 0 <= i < |fixups| ==> fixups[i].at + 1 < |words|
    requires PatchPointers(words, fixups, addresses, k).None?
    ensures PatchPointers(words, fixups, addresses, n).None?
    decreases n
  {
    if k < n { FailureLasts(words, fixups, addresses, k, n - 1); }
  }

  lemma {:induction false} BranchFailureLasts(words: seq<u16>, fixups: seq<Fixup>, addresses: map<string, int>,
                                              k: nat, n: nat)
    requires k <= n <= |fixups| && forall i :: 0 <= i < |fixups| ==> fixups[i].at < |words|
    requires PatchBranches(words, fixups, addresses, k).None?
    ensures PatchBranches(words, fixups, addresses, n).None?
    decreases n
  {
    if k < n { BranchFailureLasts(words, fixups, addresses, k, n - 1); }
  }

  // --- When the second pass goes through ---

  ghost predicate Known(fixups: seq<Fixup>, addresses: map<string, int>) {
    forall k :: 0 <= k < |fixups| ==> fixups[k].name in addresses
  }

  /** Every branch names a label within a word displacement. */
  ghost predicate InReach(branches: seq<Fixup>, addresses: map<string, int>) {
    forall k :: 0 <= k < |branches| ==>
      branches[k].name in addresses && -32768 <= addresses[branches[k].name] - branches[k].at * 2 <= 32767
  }

  ghost predicate TwoResolves(c: Code, data: map<string, int>) {
    Known(c.abs, data) && Known(c.codeAbs, c.Addresses()) && InReach(c.branches, c.Addresses())
  }

  ghost predicate OneResolves(c: Code) {
    Known(c.selfAbs, c.Addresses()) && InReach(c.branches, c.Addresses())
  }

  lemma {:induction false} PatchedIff(words: seq<u16>, fixups: seq<Fixup>, addresses: map<string, int>, n: nat)
    requires n <= |fixups| && forall k :: 0 <= k < |fixups| ==> fixups[k].at + 1 < |words|
    ensures PatchPointers(words, fixups, addresses, n).Some? <==> Known(fixups[..n], addresses)
  {
    hide PatchPair;
    if n > 0 {
      PatchedIff(words, fixups, addresses, n - 1);
      assert fixups[..n] == fixups[..n - 1] + [fixups[n - 1]];
    }
  }

  lemma {:induction false} BranchedIff(words: seq<u16>, branches: seq<Fixup>, addresses: map<string, int>, n: nat)
    requires n <= |branches| && forall k :: 0 <= k < |branches| ==> branches[k].at < |words|
    ensures PatchBranches(words, branches, addresses, n).Some? <==> InReach(branches[..n], addresses)
  {
    if n > 0 {
      BranchedIff(words, branches, addresses, n - 1);
      assert branches[..n] == branches[..n - 1] + [branches[n - 1]];
    }
  }

  lemma TwoResolvesIff(c: Code, data: map<string, int>)
    requires InWords(c.abs, |c.words|) && InWords(c.codeAbs, |c.words|)
    requires forall k :: 0 <= k < |c.branches| ==> c.branches[k].at < |c.words|
    ensures ResolveTwo(c, data).Some? <==> TwoResolves(c, data)
  {
    hide PatchPointers, PatchBranches, Known, InReach;
    PatchedIff(c.words, c.abs, data, |c.abs|);
    assert c.abs[..|c.abs|] == c.abs && c.codeAbs[..|c.codeAbs|] == c.codeAbs
           && c.branches[..|c.branches|] == c.branches;
    var first := PatchPointers(c.words, c.abs, data, |c.abs|);
    if first.Some? {
      PatchedIff(first.value, c.codeAbs, c.Addresses(), |c.codeAbs|);
      var second := PatchPointers(first.value, c.codeAbs, c.Addresses(), |c.codeAbs|);
      if second.Some? {
        BranchedIff(second.value, c.branches, c.Addresses(), |c.branches|);
      }
    }
  }

  lemma OneResolvesIff(c: Code)
    requires InWords(c.selfAbs, |c.words|)
    requires forall k :: 0 <= k < |c.branches| ==> c.branches[k].at < |c.words|
    ensures ResolveOne(c).Some? <==> OneResolves(c)
  {
    hide PatchPointers, PatchBranches, Known, InReach;
    PatchedIff(c.words, c.selfAbs, c.Addresses(), |c.selfAbs|);
    assert c.selfAbs[..|c.selfAbs|] == c.selfAbs && c.branches[..|c.branches|] == c.branches;
    var first := PatchPointers(c.words, c.selfAbs, c.Addresses(), |c.selfAbs|);
    if first.Some? {
      BranchedIff(first.value, c.branches, c.Addresses(), |c.branches|);
    }
  }

  // --- The executables ---

  /** Groups offsets by target hunk, keeping their order. */
  method GroupByHunk(relocs: seq<Reloc>) returns (byHunk: map<nat, seq<nat>>)
    ensures forall t :: t in byHunk <==> exists r <- relocs :: r.target == t
    ensures forall t <- byHunk :: byHunk[t] == OffsetsTo(relocs, t) && byHunk[t] != []
  {
    byHunk := map[];
    var i := 0;
    while i < |relocs|
      invariant 0 <= i <= |relocs|
      invariant forall t :: t in byHunk <==> OffsetsTo(relocs[..i], t) != []
      invariant forall t <- byHunk :: byHunk[t] == OffsetsTo(relocs[..i], t)
    {
      var r := relocs[i];
      assert relocs[..i + 1][..i] == relocs[..i];
      byHunk := byHunk[r.target := (if r.target in byHunk then byHunk[r.target] else []) + [r.offset]];
      i := i + 1;
    }
    assert relocs[..i] == relocs;
    forall t ensures OffsetsTo(relocs, t) != [] <==> exists r <- relocs :: r.target == t {
      OffsetsToSome(relocs, t);
    }
  }

  function OffsetsTo(relocs: seq<Reloc>, target: nat): seq<nat> {
    if relocs == [] then []
    else
      var last := relocs[|relocs| - 1];
      OffsetsTo(relocs[..|relocs| - 1], target) + if last.target == target then [last.offset] else []
  }

  lemma {:induction false} OffsetsToSome(relocs: seq<Reloc>, t: nat)
    ensures OffsetsTo(relocs, t) != [] <==> exists r <- relocs :: r.target == t
  {
    if relocs != [] {
      var init, last := relocs[..|relocs| - 1], relocs[|relocs| - 1];
      assert relocs == init + [last];
      OffsetsToSome(init, t);
    }
  }

  lemma {:induction false} OffsetsToOne(offsets: seq<nat>, target: nat, t: nat)
    ensures OffsetsTo(RelocsTo(target, offsets), t) == if t == target then offsets else []
    decreases |offsets|
  {
    if offsets != [] {
      var n := |offsets| - 1;
      OffsetsToOne(offsets[..n], target, t);
      assert RelocsTo(target, offsets)[..n] == RelocsTo(target, offsets[..n]);
      assert offsets == offsets[..n] + [offsets[n]];
    }
  }

  lemma {:induction false} OffsetsToJoin(relocs: seq<Reloc>, more: seq<Reloc>, t: nat)
    ensures OffsetsTo(relocs + more, t) == OffsetsTo(relocs, t) + OffsetsTo(more, t)
    decreases |more|
  {
    if more == [] {
      assert relocs + more == relocs;
    } else {
      var n := |more| - 1;
      OffsetsToJoin(relocs, more[..n], t);
      assert (relocs + more)[..|relocs + more| - 1] == relocs + more[..n];
    }
  }

  /** The program with the NOP that makes its length even. */
  function Padded(c: Code): (r: Code)
    ensures |r.words| % 2 == 0
  {
    if |c.words| % 2 != 0 then c.(words := c.words + [NOP]) else c
  }

  /** Nothing, or one word 0x4E71, is added. */
  lemma PaddedIs(c: Code)
    ensures Padded(c) == if |c.words| % 2 == 0 then c else c.(words := c.words + [0x4E71])
  {
  }

  /** A two-hunk file means its program: it parses into a code hunk that lists each
      pointer once under its target and the data hunk, and, relocated to the two
      addresses, its pointers, branches and other words are as the program has them. */
  ghost predicate TwoHunkMeans(file: Bytes, c: Code, data: map<string, int>, dataBytes: Bytes, codeBase: u32,
                               dataBase: u32) {
    var p := ParseFile(file);
    && p.Parsed? && p.rest == [] && |p.value| == 2
    && p.value[0].isCode && p.value[0].relocs == RelocsTo(0, Offsets(c.codeAbs)) + RelocsTo(1, Offsets(c.abs))
    && p.value[1] == Hunk(false, dataBytes, [])
    && exists loaded: seq<u16> ::
         Relocate(p.value[0].data, p.value[0].relocs, [codeBase, dataBase]) == Some(WordBytes(loaded))
         && TwoHunkLoaded(loaded, c, data, codeBase, dataBase)
  }

  ghost predicate TwoHunkLoaded(loaded: seq<u16>, c: Code, data: map<string, int>, codeBase: u32, dataBase: u32) {
    && |loaded| == |c.words|
    && AllPoint(loaded, c.abs, data, dataBase) && AllPoint(loaded, c.codeAbs, c.Addresses(), codeBase)
    && AllLand(loaded, c.branches, c.Addresses())
    && forall i :: 0 <= i < |c.words| && Emitted(c, i) ==> loaded[i] == c.words[i]
  }

  ghost predicate SingleHunkMeans(file: Bytes, c: Code, base: u32) {
    var p := ParseFile(file);
    && p.Parsed? && p.rest == [] && |p.value| == 1
    && p.value[0].isCode && p.value[0].relocs == RelocsTo(0, Offsets(c.selfAbs))
    && exists loaded: seq<u16> ::
         Relocate(p.value[0].data, p.value[0].relocs, [base]) == Some(WordBytes(loaded))
         && SingleHunkLoaded(loaded, c, base)
  }

  ghost predicate SingleHunkLoaded(loaded: seq<u16>, c: Code, base: u32) {
    && |loaded| == |c.words|
    && AllPoint(loaded, c.selfAbs, c.Addresses(), base) && AllLand(loaded, c.branches, c.Addresses())
    && forall i :: 0 <= i < |c.words| && EmittedOne(c, i) ==> loaded[i] == c.words[i]
  }

  /** Makes the code a whole number of longwords. */
  method Pad(code: CodeBuilder)
    requires code.Valid()
    modifies code
    ensures code.Valid() && code.View() == Padded(old(code.View()))
  {
    if |code.words| % 2 != 0 {
      var _ := code.Word(NOP);
    }
  }

  /** A HUNK_RELOC32 block, its groups in ascending order of target; only hunks 0 and 1 exist. */
  method WriteRelocs(relocs: seq<Reloc>) returns (out: Bytes)
    requires forall r <- relocs :: r.target < 2
    ensures out == EmitRelocs(OffsetsTo(relocs, 0), OffsetsTo(relocs, 1))
  {
    hide U32, Longs;
    if relocs == [] {
      return [];
    }
    var byHunk := GroupByHunk(relocs);
    forall t: nat | t !in byHunk ensures OffsetsTo(relocs, t) == [] {
      OffsetsToSome(relocs, t);
    }
    assert relocs[0] in relocs;
    out := U32(HUNK_RELOC32);
    if 0 in byHunk {
      out := out + (U32(|byHunk[0]|) + U32(0) + Longs(byHunk[0]));
    }
    if 1 in byHunk {
      out := out + (U32(|byHunk[1]|) + U32(1) + Longs(byHunk[1]));
    }
    out := out + U32(0);
  }

  /** The two-hunk executable; None where the original raises an exception. */
  method BuildHunkExecutable(code: CodeBuilder, data: DataBuilder) returns (file: Option<Bytes>)
    requires code.Valid() && data.Valid()
    requires |code.words| / 2 + 1 < SIZE_FLAGS && |data.bytes| / 4 + 1 < SIZE_FLAGS
    modifies code, data
    ensures old(data.bytes) <= data.bytes && data.labels == old(data.labels)
    ensures file.Some? <==> TwoResolves(Padded(old(code.View())), data.labels)
    ensures file.Some? ==> PointersInData(code.abs32Fixups, data.labels, |data.bytes|)
    ensures file.Some? ==> forall codeBase: u32, dataBase: u32 ::
              TwoHunkMeans(file.value, Padded(old(code.View())), data.labels, data.bytes, codeBase, dataBase)
  {
    hide EmitRelocs, EmitBody, EmitTwo, EmitOne, ResolveTwo, ResolveOne, ParseFile, Owned, Padded, TwoHunkMeans,
         SingleHunkMeans;
    hide Longs, U32, WordBytes, TwoResolves, OneResolves, Offsets, RelocsTo, OffsetsTo, InWords;
    Pad(code);
    ghost var c, owner := code.View(), code.owner;
    PaddedSize(old(code.View()));
    var ok, relocs := code.Resolve(data);
    TwoResolvesIff(c, data.labels);
    if !ok {
      return None;
    }
    var codeBytes := code.ToBytes();
    data.Align4();
    LabelsInData(c, data);
    ResolvedOffsets(c);
    var block := WriteRelocs(relocs);
    EmittedTwoIs(codeBytes, data.bytes, Offsets(c.codeAbs), Offsets(c.abs), block);
    file := Some(
      Longs([HUNK_HEADER, 0, 2, 0, 1, |codeBytes| / 4, |data.bytes| / 4])
      + EmitBody(HUNK_CODE, codeBytes) + block + U32(HUNK_END)
      + EmitBody(HUNK_DATA, data.bytes) + U32(HUNK_END));
    forall codeBase: u32, dataBase: u32
      ensures TwoHunkMeans(file.value, c, data.labels, data.bytes, codeBase, dataBase)
    {
      TwoHunkMeaning(c, owner, data.labels, data.bytes, codeBase, dataBase);
    }
  }

  /** Without its addend a data pointer leads into the data hunk or to its end. */
  ghost predicate PointersInData(fixups: seq<Fixup>, labels: map<string, int>, size: nat) {
    forall k :: 0 <= k < |fixups| ==> fixups[k].name in labels && 0 <= labels[fixups[k].name] <= size
  }

  lemma LabelsInData(c: Code, data: DataBuilder)
    requires data.Valid() && TwoResolves(c, data.labels)
    ensures PointersInData(c.abs, data.labels, |data.bytes|)
  {
  }

  lemma PaddedSize(c: Code)
    requires |c.words| / 2 + 1 < SIZE_FLAGS
    ensures |Padded(c).words| / 2 < SIZE_FLAGS
  {
  }

  lemma ResolvedOffsets(c: Code)
    ensures var relocs := RelocsTo(1, Offsets(c.abs)) + RelocsTo(0, Offsets(c.codeAbs));
            && (forall r <- relocs :: r.target < 2)
            && OffsetsTo(relocs, 0) == Offsets(c.codeAbs) && OffsetsTo(relocs, 1) == Offsets(c.abs)
  {
    hide OffsetsTo;
    var ones, zeros := RelocsTo(1, Offsets(c.abs)), RelocsTo(0, Offsets(c.codeAbs));
    forall t | t == 0 || t == 1
      ensures OffsetsTo(ones + zeros, t) == if t == 0 then Offsets(c.codeAbs) else Offsets(c.abs)
    {
      OffsetsToOne(Offsets(c.abs), 1, t);
      OffsetsToOne(Offsets(c.codeAbs), 0, t);
      OffsetsToJoin(ones, zeros, t);
    }
  }

  lemma TwoHunkMeaning(c: Code, owner: seq<Owner>, data: map<string, int>, dataBytes: Bytes, codeBase: u32,
                       dataBase: u32)
    requires Owned(c, owner) && InWords(c.abs, |c.words|) && InWords(c.codeAbs, |c.words|)
    requires forall k :: 0 <= k < |c.branches| ==> c.branches[k].at < |c.words|
    requires ResolveTwo(c, data).Some?
    requires |c.words| % 2 == 0 && |c.words| / 2 < SIZE_FLAGS
    requires |dataBytes| % 4 == 0 && |dataBytes| / 4 < SIZE_FLAGS
    ensures TwoHunkMeans(EmitTwo(WordBytes(ResolveTwo(c, data).value), dataBytes, Offsets(c.codeAbs), Offsets(c.abs)),
                         c, data, dataBytes, codeBase, dataBase)
  {
    hide EmitTwo, ParseFile, Owned, Emitted, WordBytes, ResolveTwo, Relocate;
    TwoHunkFileLoads(c, owner, data, dataBytes, codeBase, dataBase);
    var loaded := LoadedTwo(ResolveTwo(c, data).value, c, codeBase, dataBase);
    assert TwoHunkLoaded(loaded, c, data, codeBase, dataBase);
  }

  /** The single-hunk executable; None where the original raises an exception. */
  method BuildSingleHunkExecutable(code: CodeBuilder) returns (file: Option<Bytes>)
    requires code.Valid() && |code.words| / 2 + 1 < SIZE_FLAGS
    modifies code
    ensures file.Some? <==> OneResolves(Padded(old(code.View())))
    ensures file.Some? ==> forall base: u32 :: SingleHunkMeans(file.value, Padded(old(code.View())), base)
  {
    hide EmitRelocs, EmitBody, EmitTwo, EmitOne, ResolveTwo, ResolveOne, ParseFile, Owned, Padded, TwoHunkMeans,
         SingleHunkMeans;
    hide Longs, U32, WordBytes, TwoResolves, OneResolves, Offsets, RelocsTo, OffsetsTo, InWords;
    Pad(code);
    ghost var c, owner := code.View(), code.owner;
    PaddedSize(old(code.View()));
    var ok, relocs := code.ResolveSelf();
    OneResolvesIff(c);
    var codeBytes := code.ToBytes();
    if !ok {
      return None;
    }
    var block := [];
    if relocs != [] {
      block := U32(HUNK_RELOC32) + (U32(|relocs|) + U32(0) + Longs(relocs)) + U32(0);
    }
    SingleRelocs(relocs);
    EmittedOneIs(codeBytes, relocs, block);
    file := Some(
      Longs([HUNK_HEADER, 0, 1, 0, 0, |codeBytes| / 4]) + EmitBody(HUNK_CODE, codeBytes) + block + U32(HUNK_END));
    forall base: u32 ensures SingleHunkMeans(file.value, c, base) {
      SingleHunkMeaning(c, owner, base);
    }
  }

  lemma {:induction false} SingleRelocs(zero: seq<nat>)
    ensures EmitRelocs(zero, []) ==
            if zero == [] then [] else U32(HUNK_RELOC32) + (U32(|zero|) + U32(0) + Longs(zero)) + U32(0)
  {
    hide U32, Longs;
    assert U32(HUNK_RELOC32) + EmitGroup(0, zero) + [] == U32(HUNK_RELOC32) + EmitGroup(0, zero);
  }

  lemma EmittedOneIs(code: Bytes, zero: seq<nat>, block: Bytes)
    requires block == EmitRelocs(zero, [])
    ensures EmitOne(code, zero) ==
            Longs([HUNK_HEADER, 0, 1, 0, 0, |code| / 4]) + EmitBody(HUNK_CODE, code) + block + U32(HUNK_END)
  {
    hide U32, Longs, EmitBody, EmitRelocs;
  }

  lemma EmittedTwoIs(code: Bytes, data: Bytes, zero: seq<nat>, one: seq<nat>, block: Bytes)
    requires block == EmitRelocs(zero, one)
    ensures EmitTwo(code, data, zero, one) ==
            Longs([HUNK_HEADER, 0, 2, 0, 1, |code| / 4, |data| / 4])
            + EmitBody(HUNK_CODE, code) + block + U32(HUNK_END)
            + EmitBody(HUNK_DATA, data) + U32(HUNK_END)
  {
    hide U32, Longs, EmitBody, EmitRelocs;
  }

  lemma SingleHunkMeaning(c: Code, owner: seq<Owner>, base: u32)
    requires Owned(c, owner) && InWords(c.selfAbs, |c.words|)
    requires forall k :: 0 <= k < |c.branches| ==> c.branches[k].at < |c.words|
    requires ResolveOne(c).Some?
    requires |c.words| % 2 == 0 && |c.words| / 2 < SIZE_FLAGS
    ensures SingleHunkMeans(EmitOne(WordBytes(ResolveOne(c).value), Offsets(c.selfAbs)), c, base)
  {
    hide EmitOne, ParseFile, Owned, EmittedOne, WordBytes, ResolveOne, Relocate;
    SingleHunkFileLoads(c, owner, base);
    var loaded := LoadedOne(ResolveOne(c).value, c, base);
    assert SingleHunkLoaded(loaded, c, base);
  }

  // --- A program the two-hunk build gets wrong ---

  /** One label and one dc_l_selfptr to it: the build reports no error, and loaded
      anywhere the pointer is zero, although the label is at the code hunk's address. */
  method LostSelfPointer() returns (file: Option<Bytes>)
    ensures file.Some? && ParseFile(file.value).Parsed? && |ParseFile(file.value).value| == 2
    ensures forall codeBase: u32, dataBase: u32 ::
              Relocate(ParseFile(file.value).value[0].data, ParseFile(file.value).value[0].relocs, [codeBase, dataBase])
              == Some([0, 0, 0, 0])
  {
    hide ParseFile, TwoHunkMeans, EmitTwo;
    var code := new CodeBuilder();
    var data := new DataBuilder();
    var _ := code.Label("here");
    code.DcLSelfPtr("here", 0);
    ghost var c := code.View();
    assert c == Code([0, 0], map["here" := 0], [], [], [Fixup(0, "here", 0)], []);
    assert Padded(c) == c;
    file := BuildHunkExecutable(code, data);
    forall codeBase: u32, dataBase: u32
      ensures ParseFile(file.value).Parsed? && |ParseFile(file.value).value| == 2
      ensures Relocate(ParseFile(file.value).value[0].data, ParseFile(file.value).value[0].relocs, [codeBase, dataBase])
              == Some([0, 0, 0, 0])
    {
      LostPointer(file.value, c, data.labels, data.bytes, codeBase, dataBase);
    }
  }

  lemma LostPointer(file: Bytes, c: Code, data: map<string, int>, dataBytes: Bytes, codeBase: u32, dataBase: u32)
    requires TwoHunkMeans(file, c, data, dataBytes, codeBase, dataBase)
    requires c == Code([0, 0], map["here" := 0], [], [], [Fixup(0, "here", 0)], [])
    ensures ParseFile(file).Parsed? && |ParseFile(file).value| == 2
    ensures Relocate(ParseFile(file).value[0].data, ParseFile(file).value[0].relocs, [codeBase, dataBase])
            == Some([0, 0, 0, 0])
  {
    hide ParseFile, Relocate, TwoHunkLoaded, WordBytes;
    var hunk := ParseFile(file).value[0];
    var loaded: seq<u16> :|
      && Relocate(hunk.data, hunk.relocs, [codeBase, dataBase]) == Some(WordBytes(loaded))
      && TwoHunkLoaded(loaded, c, data, codeBase, dataBase);
    LostWords(loaded, c, data, codeBase, dataBase);
    TwoZeroWords();
  }

  lemma LostWords(loaded: seq<u16>, c: Code, data: map<string, int>, codeBase: u32, dataBase: u32)
    requires TwoHunkLoaded(loaded, c, data, codeBase, dataBase)
    requires c == Code([0, 0], map["here" := 0], [], [], [Fixup(0, "here", 0)], [])
    ensures loaded == [0, 0]
  {
    assert Emitted(c, 0) && Emitted(c, 1);
  }

  lemma TwoZeroWords()
    ensures WordBytes([0, 0]) == [0, 0, 0, 0]
  {
    assert WordBytes([]) == [] && [0, 0][..1] == [0] && [0][..0] == [];
    assert WordBytes([0]) == [0, 0];
  }
}
