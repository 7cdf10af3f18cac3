// Turning matched slots into guest memory, and giving it all back.

module ArgHeap {
  import opened Guest
  import opened GuestMemory
  import opened ArgMatch

  // --- What the guest can read out of a result array ---

  /** A C string: the bytes and a terminator. */
  ghost predicate CString(mem: Mem, a: nat, text: Bytes) {
    (forall i :: 0 <= i < |text| ==> Read8(mem, a + i) == text[i]) && Read8(mem, a + |text|) == 0
  }

  predicate ZeroFree(text: Bytes) { forall i :: 0 <= i < |text| ==> text[i] != 0 }

  /** A text without zero bytes is the only such text that can be read at its address. */
  lemma CStringUnique(mem: Mem, a: nat, text: Bytes, text': Bytes)
    requires CString(mem, a, text) && CString(mem, a, text') && ZeroFree(text) && ZeroFree(text')
    ensures text == text'
  {
    if |text| < |text'| {
      LongerHasZero(mem, a, text, text');
    } else if |text'| < |text| {
      LongerHasZero(mem, a, text', text);
    }
  }

  lemma LongerHasZero(mem: Mem, a: nat, text: Bytes, text': Bytes)
    requires CString(mem, a, text) && CString(mem, a, text') && |text| < |text'|
    ensures !ZeroFree(text')
  {
    assert text'[|text|] == Read8(mem, a + |text|);
  }

  /** The pointer table of a /M slot, closed by a zero. */
  ghost predicate Table(mem: Mem, p: nat, texts: seq<Bytes>) {
    && (forall j :: 0 <= j < |texts| ==> Entry(mem, p, texts, j))
    && Read32(mem, p + 4 * |texts|) == 0
  }

  ghost predicate Entry(mem: Mem, p: nat, texts: seq<Bytes>, j: nat)
    requires j < |texts|
  {
    Read32(mem, p + 4 * j) != 0 && CString(mem, Read32(mem, p + 4 * j), texts[j])
  }

  /** The longword at `a` leads to exactly what the slot holds. */
  ghost predicate Recovers(mem: Mem, a: nat, kind: ArgKind, slot: Slot) {
    var p := Read32(mem, a);
    match kind
    case Switch => p == if slot.flag then 1 else 0
    case Toggle => p == if slot.flag then 1 else 0
    case Number => if slot.num.None? then p == 0 else p != 0 && Read32(mem, p) == Mod32(slot.num.value)
    case Multi => if slot.multi == [] then p == 0 else p != 0 && Table(mem, p, slot.multi)
    case _ => if slot.str.None? then p == 0 else p != 0 && CString(mem, p, slot.str.value)
  }

  // --- Blocks taken since a starting point ---

  /** `live` is `before` and the blocks of `taken`, each of them new and taken once. */
  ghost predicate Took(before: Blocks, live: Blocks, taken: seq<nat>) {
    && (forall a :: a in before ==> a in live && live[a] == before[a])
    && (forall a :: a in live <==> a in before || a in taken)
    && (forall a <- taken :: a !in before)
    && (forall i, j :: 0 <= i < j < |taken| ==> taken[i] != taken[j])
  }

  lemma TookOne(before: Blocks, live: Blocks, taken: seq<nat>, a: nat, n: nat)
    requires Took(before, live, taken) && a !in live
    ensures Took(before, live[a := n], taken + [a])
  {
  }

  lemma TookBack(before: Blocks, live: Blocks, taken: seq<nat>)
    requires Took(before, live, taken)
    ensures live - (set a <- taken) == before
  {
  }

  /** The memory of every block taken since `before` is as it was. */
  ghost predicate TakenKept(before: Blocks, live: Blocks, mem: Mem, mem': Mem) {
    forall b :: b in live && b !in before ==> SameBytes(mem, mem', b, b + live[b])
  }

  /** The text lies in a block taken since `before`. */
  ghost predicate HeldString(before: Blocks, live: Blocks, mem: Mem, p: nat, text: Bytes) {
    p in live && p !in before && |text| + 1 <= live[p] && CString(mem, p, text)
  }

  ghost predicate HeldEntry(before: Blocks, live: Blocks, mem: Mem, p: nat, texts: seq<Bytes>, j: nat)
    requires j < |texts|
  {
    Read32(mem, p + 4 * j) != 0 && HeldString(before, live, mem, Read32(mem, p + 4 * j), texts[j])
  }

  ghost predicate HeldTable(before: Blocks, live: Blocks, mem: Mem, p: nat, texts: seq<Bytes>) {
    && p in live && p !in before && 4 * |texts| + 4 <= live[p]
    && (forall j :: 0 <= j < |texts| ==> HeldEntry(before, live, mem, p, texts, j))
    && Read32(mem, p + 4 * |texts|) == 0
  }

  /** The value for a slot, everything it points at lying in blocks taken since `before`. */
  ghost predicate Held(before: Blocks, live: Blocks, mem: Mem, p: nat, kind: ArgKind, slot: Slot) {
    match kind
    case Switch => p == if slot.flag then 1 else 0
    case Toggle => p == if slot.flag then 1 else 0
    case Number => if slot.num.None? then p == 0
                   else p != 0 && p in live && p !in before && live[p] >= 4 && Read32(mem, p) == Mod32(slot.num.value)
    case Multi => if slot.multi == [] then p == 0 else p != 0 && HeldTable(before, live, mem, p, slot.multi)
    case _ => if slot.str.None? then p == 0 else p != 0 && HeldString(before, live, mem, p, slot.str.value)
  }

  lemma HeldRecovers(before: Blocks, live: Blocks, mem: Mem, a: nat, kind: ArgKind, slot: Slot)
    requires Held(before, live, mem, Read32(mem, a), kind, slot)
    ensures Recovers(mem, a, kind, slot)
  {
    if kind == Multi && slot.multi != [] {
      var p := Read32(mem, a);
      forall j | 0 <= j < |slot.multi| ensures Entry(mem, p, slot.multi, j) {
        assert HeldEntry(before, live, mem, p, slot.multi, j);
      }
    }
  }

  ghost predicate Grows(live: Blocks, live': Blocks) {
    forall b :: b in live ==> b in live' && live'[b] == live[b]
  }

  lemma StringKept(before: Blocks, live: Blocks, live': Blocks, mem: Mem, mem': Mem, p: nat, text: Bytes)
    requires HeldString(before, live, mem, p, text) && Grows(live, live') && TakenKept(before, live, mem, mem')
    ensures HeldString(before, live', mem', p, text)
  {
    assert SameBytes(mem, mem', p, p + live[p]);
  }

  lemma EntryKept(before: Blocks, live: Blocks, live': Blocks, mem: Mem, mem': Mem, p: nat, texts: seq<Bytes>, j: nat)
    requires j < |texts| && HeldEntry(before, live, mem, p, texts, j) && Grows(live, live')
    requires TakenKept(before, live, mem, mem') && SameBytes(mem, mem', p + 4 * j, p + 4 * j + 4)
    ensures HeldEntry(before, live', mem', p, texts, j)
  {
    SameRead32(mem, mem', p + 4 * j);
    StringKept(before, live, live', mem, mem', Read32(mem, p + 4 * j), texts[j]);
  }

  /** What a slot's value leads to stays, as long as the taken blocks are left alone. */
  lemma HeldKept(before: Blocks, live: Blocks, live': Blocks, mem: Mem, mem': Mem, p: nat, kind: ArgKind, slot: Slot)
    requires Held(before, live, mem, p, kind, slot) && Grows(live, live') && TakenKept(before, live, mem, mem')
    ensures Held(before, live', mem', p, kind, slot)
  {
    hide HeldString, HeldEntry;
    match kind {
      case Number =>
        if slot.num.Some? { SameRead32(mem, mem', p); }
      case Multi =>
        if slot.multi != [] { TableKept(before, live, live', mem, mem', p, slot.multi); }
      case Str =>
        if slot.str.Some? { StringKept(before, live, live', mem, mem', p, slot.str.value); }
      case RestOfLine =>
        if slot.str.Some? { StringKept(before, live, live', mem, mem', p, slot.str.value); }
      case _ =>
    }
  }

  lemma TableKept(before: Blocks, live: Blocks, live': Blocks, mem: Mem, mem': Mem, p: nat, texts: seq<Bytes>)
    requires HeldTable(before, live, mem, p, texts) && Grows(live, live') && TakenKept(before, live, mem, mem')
    ensures HeldTable(before, live', mem', p, texts)
  {
    hide HeldEntry;
    assert SameBytes(mem, mem', p, p + live[p]);
    forall j | 0 <= j < |texts| ensures HeldEntry(before, live', mem', p, texts, j) {
      EntryKept(before, live, live', mem, mem', p, texts, j);
    }
    SameRead32(mem, mem', p + 4 * |texts|);
  }

  // --- Placing values ---

  /** The byte at x is outside the heap or in a live block. */
  ghost predicate InUse(live: Blocks, start: nat, end: nat, x: nat) {
    x < start || end <= x || exists b :: b in live && b <= x < b + live[b]
  }

  ghost predicate Spoken(live: Blocks, start: nat, end: nat, lo: nat, hi: nat) {
    forall x: nat :: lo <= x < hi ==> InUse(live, start, end, x)
  }

  /** No block taken since `before` reaches into lo..hi-1. */
  ghost predicate ClearOf(before: Blocks, live: Blocks, lo: nat, hi: nat) {
    lo < hi ==> forall b :: b in live && b !in before ==> b + live[b] <= lo || hi <= b
  }

  lemma FreshIsClear(before: Blocks, live: Blocks, start: nat, end: nat, lo: nat, hi: nat, a: nat, n: nat)
    requires Spoken(before, start, end, lo, hi) && Grows(before, live) && Fits(live, start, end, a, n) && n > 0
    requires ClearOf(before, live, lo, hi) && a !in live
    ensures ClearOf(before, live[a := n], lo, hi)
  {
    if lo < hi {
      var x := if lo < a then a else lo;
      if x < hi {
        FreshMissesUsed(before, live, start, end, a, n, x);
      }
    }
  }

  lemma FreshMissesUsed(before: Blocks, live: Blocks, start: nat, end: nat, a: nat, n: nat, x: nat)
    requires InUse(before, start, end, x) && Grows(before, live) && Fits(live, start, end, a, n)
    ensures x < a || a + n <= x
  {
    if start <= x < end {
      var b :| b in before && b <= x < b + before[b];
      assert Apart(a, n, b, live[b]);
    }
  }

  /** Writing into a block apart from every block taken so far leaves those as they were. */
  lemma FreshWriteKeeps(before: Blocks, live: Blocks, mem: Mem, mem': Mem, start: nat, end: nat, a: nat, n: nat)
    requires Fits(live, start, end, a, n) && OnlyChanges(mem, mem', a, a + n)
    ensures TakenKept(before, live, mem, mem')
  {
    forall b | b in live && b !in before ensures SameBytes(mem, mem', b, b + live[b]) {
      assert Apart(a, n, b, live[b]);
    }
  }

  /** What placing one value promises about the heap, the memory and the list of blocks. */
  twostate predicate Placed(m: Memory, before: Blocks, taken: seq<nat>, lo: nat, hi: nat)
    reads m
  {
    && m.Valid() && Took(before, m.live, taken) && Grows(old(m.live), m.live) && ClearOf(before, m.live, lo, hi)
    && TakenKept(before, old(m.live), old(m.mem), m.mem) && SameBytes(old(m.mem), m.mem, lo, hi)
  }

  /** Allocates the text and its terminator and writes them. */
  method AllocCString(m: Memory, ghost before: Blocks, allocations: seq<nat>, text: Bytes, ghost lo: nat, ghost hi: nat)
    returns (p: Option<nat>, taken: seq<nat>)
    requires m.Valid() && Took(before, m.live, allocations) && ClearOf(before, m.live, lo, hi)
    requires Spoken(before, m.start, m.end, lo, hi)
    modifies m
    ensures Placed(m, before, taken, lo, hi)
    ensures p.Some? ==> 0 < p.value < 0x1_0000_0000 && HeldString(before, m.live, m.mem, p.value, text)
  {
    hide Laid;
    taken := allocations;
    ghost var live0, mem0 := m.live, m.mem;
    p := m.Alloc(|text| + 1);
    if p.None? {
      return;
    }
    var a, n := p.value, AlignUp(|text| + 1);
    TookOne(before, live0, taken, a, n);
    FreshIsClear(before, live0, m.start, m.end, lo, hi, a, n);
    taken := taken + [a];
    WriteCString(m, a, text);
    FreshWriteKeeps(before, live0, mem0, m.mem, m.start, m.end, a, n);
  }

  method WriteCString(m: Memory, a: nat, text: Bytes)
    modifies m`mem
    ensures CString(m.mem, a, text) && OnlyChanges(old(m.mem), m.mem, a, a + |text| + 1)
  {
    var i := 0;
    while i < |text|
      invariant 0 <= i <= |text|
      invariant forall j :: 0 <= j < i ==> Read8(m.mem, a + j) == text[j]
      invariant OnlyChanges(old(m.mem), m.mem, a, a + |text|)
    {
      m.mem := m.mem[a + i := text[i]];
      i := i + 1;
    }
    m.mem := m.mem[a + |text| := 0];
  }

  method PlaceNumber(m: Memory, ghost before: Blocks, allocations: seq<nat>, n: int, ghost lo: nat, ghost hi: nat)
    returns (p: Option<nat>, taken: seq<nat>)
    requires m.Valid() && Took(before, m.live, allocations) && ClearOf(before, m.live, lo, hi)
    requires Spoken(before, m.start, m.end, lo, hi)
    modifies m
    ensures Placed(m, before, taken, lo, hi)
    ensures p.Some? ==>
              && 0 < p.value < 0x1_0000_0000 && p.value in m.live && p.value !in before && m.live[p.value] >= 4
              && Read32(m.mem, p.value) == Mod32(n)
  {
    hide Laid, Read32, Write32;
    taken := allocations;
    ghost var live0, mem0 := m.live, m.mem;
    p := m.Alloc(4);
    if p.None? {
      return;
    }
    TookOne(before, live0, taken, p.value, 4);
    FreshIsClear(before, live0, m.start, m.end, lo, hi, p.value, 4);
    taken := taken + [p.value];
    Write32Reads(m.mem, p.value, Mod32(n));
    m.Write(p.value, Mod32(n));
    FreshWriteKeeps(before, live0, mem0, m.mem, m.start, m.end, p.value, 4);
  }

  lemma KeptTwice(before: Blocks, live0: Blocks, live1: Blocks, mem0: Mem, mem1: Mem, mem2: Mem)
    requires Grows(live0, live1) && TakenKept(before, live0, mem0, mem1) && TakenKept(before, live1, mem1, mem2)
    ensures TakenKept(before, live0, mem0, mem2)
  {
    forall b | b in live0 && b !in before ensures SameBytes(mem0, mem2, b, b + live0[b]) {
      assert SameBytes(mem0, mem1, b, b + live0[b]) && SameBytes(mem1, mem2, b, b + live1[b]);
    }
  }

  method WriteWords(m: Memory, a: nat, words: seq<nat>)
    requires forall j :: 0 <= j < |words| ==> words[j] < 0x1_0000_0000
    modifies m`mem
    ensures forall j :: 0 <= j < |words| ==> Read32(m.mem, a + 4 * j) == words[j]
    ensures OnlyChanges(old(m.mem), m.mem, a, a + 4 * |words|)
  {
    hide Read32, Write32;
    var i := 0;
    while i < |words|
      invariant 0 <= i <= |words|
      invariant forall j :: 0 <= j < i ==> Read32(m.mem, a + 4 * j) == words[j]
      invariant OnlyChanges(old(m.mem), m.mem, a, a + 4 * i)
    {
      ghost var mem0 := m.mem;
      Write32Reads(m.mem, a + 4 * i, words[i]);
      m.Write(a + 4 * i, words[i]);
      forall j | 0 <= j < i ensures Read32(m.mem, a + 4 * j) == words[j] {
        SameRead32(mem0, m.mem, a + 4 * j);
      }
      i := i + 1;
    }
  }

  /** The strings of a /M slot. */
  method AllocStrings(m: Memory, ghost before: Blocks, allocations: seq<nat>, texts: seq<Bytes>, ghost lo: nat,
                      ghost hi: nat)
    returns (ok: bool, ptrs: seq<nat>, taken: seq<nat>)
    requires m.Valid() && Took(before, m.live, allocations) && ClearOf(before, m.live, lo, hi)
    requires Spoken(before, m.start, m.end, lo, hi)
    modifies m
    ensures Placed(m, before, taken, lo, hi)
    ensures ok ==> |ptrs| == |texts| && forall j :: 0 <= j < |texts| ==>
              0 < ptrs[j] < 0x1_0000_0000 && HeldString(before, m.live, m.mem, ptrs[j], texts[j])
  {
    hide HeldString, Spoken, Took, ClearOf;
    ok, ptrs, taken := true, [], allocations;
    ghost var live0, mem0 := m.live, m.mem;
    var i := 0;
    while i < |texts|
      invariant 0 <= i <= |texts| && |ptrs| == i
      invariant m.Valid() && Took(before, m.live, taken) && Grows(live0, m.live) && ClearOf(before, m.live, lo, hi)
      invariant TakenKept(before, live0, mem0, m.mem) && SameBytes(mem0, m.mem, lo, hi)
      invariant forall j :: 0 <= j < i ==>
                  0 < ptrs[j] < 0x1_0000_0000 && HeldString(before, m.live, m.mem, ptrs[j], texts[j])
    {
      ghost var live1, mem1 := m.live, m.mem;
      var p;
      p, taken := AllocCString(m, before, taken, texts[i], lo, hi);
      KeptTwice(before, live0, live1, mem0, mem1, m.mem);
      if p.None? {
        ok := false;
        return;
      }
      forall j | 0 <= j < i ensures HeldString(before, m.live, m.mem, ptrs[j], texts[j]) {
        StringKept(before, live1, m.live, mem1, m.mem, ptrs[j], texts[j]);
      }
      ptrs := ptrs + [p.value];
      i := i + 1;
    }
  }

  /** A /M slot: its strings, then the table of pointers to them. */
  method PlaceMulti(m: Memory, ghost before: Blocks, allocations: seq<nat>, texts: seq<Bytes>, ghost lo: nat,
                    ghost hi: nat)
    returns (p: Option<nat>, taken: seq<nat>)
    requires m.Valid() && Took(before, m.live, allocations) && ClearOf(before, m.live, lo, hi)
    requires Spoken(before, m.start, m.end, lo, hi)
    modifies m
    ensures Placed(m, before, taken, lo, hi)
    ensures p.Some? ==> 0 < p.value < 0x1_0000_0000 && HeldTable(before, m.live, m.mem, p.value, texts)
  {
    hide HeldString, Spoken, Laid, Took, ClearOf, Read32;
    ghost var live0, mem0 := m.live, m.mem;
    p := None;
    var ok, ptrs;
    ok, ptrs, taken := AllocStrings(m, before, allocations, texts, lo, hi);
    if !ok {
      return;
    }
    ghost var live1, mem1 := m.live, m.mem;
    var n := 4 * (|ptrs| + 1);
    p := m.Alloc(n);
    if p.None? {
      return;
    }
    TookGrows(before, live1, taken);
    TookOne(before, live1, taken, p.value, AlignUp(n));
    FreshIsClear(before, live1, m.start, m.end, lo, hi, p.value, AlignUp(n));
    taken := taken + [p.value];
    WriteWords(m, p.value, ptrs + [0]);
    FreshWriteKeeps(before, live1, mem1, m.mem, m.start, m.end, p.value, AlignUp(n));
    KeptTwice(before, live0, live1, mem0, mem1, m.mem);
    FreshKeepsRegion(before, m.live, mem1, m.mem, p.value, lo, hi);
    TableWritten(before, live1, m.live, mem1, m.mem, p.value, ptrs, texts);
  }

  lemma TookGrows(before: Blocks, live: Blocks, taken: seq<nat>)
    requires Took(before, live, taken)
    ensures Grows(before, live)
    ensures forall a :: a !in live ==> a !in before
  {
  }

  /** Writing inside a taken block leaves a region clear of it as it was. */
  lemma FreshKeepsRegion(before: Blocks, live: Blocks, mem: Mem, mem': Mem, a: nat, lo: nat, hi: nat)
    requires ClearOf(before, live, lo, hi) && a in live && a !in before && OnlyChanges(mem, mem', a, a + live[a])
    ensures SameBytes(mem, mem', lo, hi)
  {
  }

  lemma TableWritten(before: Blocks, live: Blocks, live': Blocks, mem: Mem, mem': Mem, p: nat, ptrs: seq<nat>,
                     texts: seq<Bytes>)
    requires |ptrs| == |texts| && Grows(live, live') && TakenKept(before, live, mem, mem')
    requires p in live' && p !in before && live'[p] >= 4 * (|texts| + 1)
    requires forall j :: 0 <= j < |texts| ==> ptrs[j] != 0 && HeldString(before, live, mem, ptrs[j], texts[j])
    requires forall j :: 0 <= j < |texts| + 1 ==> Read32(mem', p + 4 * j) == (ptrs + [0])[j]
    ensures HeldTable(before, live', mem', p, texts)
  {
    hide HeldString, Read32, TakenKept;
    forall j | 0 <= j < |texts| ensures HeldEntry(before, live', mem', p, texts, j) {
      assert (ptrs + [0])[j] == ptrs[j];
      StringKept(before, live, live', mem, mem', ptrs[j], texts[j]);
    }
    assert (ptrs + [0])[|texts|] == 0;
  }
}
