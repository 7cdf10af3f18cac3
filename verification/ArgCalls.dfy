// ReadArgs and FreeArgs as calls on guest memory and the tables behind them.

module ArgCalls {
  import opened Guest
  import opened GuestMemory
  import opened ArgReader
  import opened ArgTemplate
  import opened ArgMatch
  import opened ArgHeap
  import opened ArgRuns
  import ArgStores

  /** The result array leads to every slot. */
  ghost predicate AllRecovered(mem: Mem, base: nat, t: Template, slots: Slots)
    requires |slots| == |t|
  {
    forall i :: 0 <= i < |t| ==> Recovers(mem, base + 4 * i, t[i].kind, slots[i])
  }

  ghost predicate HeldSlot(before: Blocks, live: Blocks, mem: Mem, base: nat, t: Template, slots: Slots, i: nat)
    requires i < |t| == |slots|
  {
    Held(before, live, mem, Read32(mem, base + 4 * i), t[i].kind, slots[i])
  }

  /** All it leads to lies in blocks taken since `before`. */
  ghost predicate AllHeld(before: Blocks, live: Blocks, mem: Mem, base: nat, t: Template, slots: Slots)
    requires |slots| == |t|
  {
    forall i: nat :: i < |t| ==> HeldSlot(before, live, mem, base, t, slots, i)
  }

  lemma HeldIsRecovered(before: Blocks, live: Blocks, mem: Mem, base: nat, t: Template, slots: Slots)
    requires |slots| == |t| && AllHeld(before, live, mem, base, t, slots)
    ensures AllRecovered(mem, base, t, slots)
  {
    hide Held, Recovers, Read32;
    forall j | 0 <= j < |t| ensures Recovers(mem, base + 4 * j, t[j].kind, slots[j]) {
      assert HeldSlot(before, live, mem, base, t, slots, j);
      HeldRecovers(before, live, mem, base + 4 * j, t[j].kind, slots[j]);
    }
  }

  lemma StillHeld(before: Blocks, live: Blocks, live': Blocks, mem: Mem, base: nat, t: Template, slots: Slots)
    requires |slots| == |t| && AllHeld(before, live, mem, base, t, slots) && Grows(live, live')
    ensures AllHeld(before, live', mem, base, t, slots)
  {
    hide Held, Read32;
    forall i: nat | i < |t| ensures HeldSlot(before, live', mem, base, t, slots, i) {
      assert HeldSlot(before, live, mem, base, t, slots, i);
      HeldKept(before, live, live', mem, mem, Read32(mem, base + 4 * i), t[i].kind, slots[i]);
    }
  }

  /** The guest's value for one slot; None when the heap is full. */
  method PlaceSlot(m: Memory, ghost before: Blocks, allocations: seq<nat>, kind: ArgKind, slot: Slot, ghost lo: nat,
                   ghost hi: nat)
    returns (p: Option<nat>, taken: seq<nat>)
    requires m.Valid() && Took(before, m.live, allocations) && ClearOf(before, m.live, lo, hi)
    requires Spoken(before, m.start, m.end, lo, hi)
    modifies m
    ensures Placed(m, before, taken, lo, hi)
    ensures p.Some? ==> p.value < 0x1_0000_0000 && Held(before, m.live, m.mem, p.value, kind, slot)
  {
    hide HeldString, HeldTable, Spoken, Took, ClearOf, Read32;
    p, taken := Some(0), allocations;
    match kind {
      case Switch =>
        p := Some(if slot.flag then 1 else 0);
      case Toggle =>
        p := Some(if slot.flag then 1 else 0);
      case Number =>
        if slot.num.Some? {
          p, taken := PlaceNumber(m, before, allocations, slot.num.value, lo, hi);
        }
      case Multi =>
        if slot.multi != [] {
          p, taken := PlaceMulti(m, before, allocations, slot.multi, lo, hi);
        }
      case Str =>
        if slot.str.Some? {
          p, taken := AllocCString(m, before, allocations, slot.str.value, lo, hi);
        }
      case RestOfLine =>
        if slot.str.Some? {
          p, taken := AllocCString(m, before, allocations, slot.str.value, lo, hi);
        }
    }
  }

  /** Storing slot i's value in the result array keeps every earlier slot's. */
  lemma StoredSlot(before: Blocks, live0: Blocks, live: Blocks, mem0: Mem, mem1: Mem, mem2: Mem,
                   base: nat, t: Template, slots: Slots, i: nat, p: u32)
    requires i < |t| == |slots| && Grows(live0, live)
    requires forall j: nat :: j < i ==> HeldSlot(before, live0, mem0, base, t, slots, j)
    requires TakenKept(before, live0, mem0, mem1) && SameBytes(mem0, mem1, base, base + 4 * |t|)
    requires Held(before, live, mem1, p, t[i].kind, slots[i])
    requires ClearOf(before, live, base, base + 4 * |t|)
    requires mem2 == Write32(mem1, base + 4 * i, p)
    ensures forall j: nat :: j <= i ==> HeldSlot(before, live, mem2, base, t, slots, j)
  {
    hide Held, Read32, Write32;
    Write32Reads(mem1, base + 4 * i, p);
    assert TakenKept(before, live, mem1, mem2) by {
      forall b | b in live && b !in before ensures SameBytes(mem1, mem2, b, b + live[b]) {
      }
    }
    HeldKept(before, live, live, mem1, mem2, p, t[i].kind, slots[i]);
    forall j: nat | j < i ensures HeldSlot(before, live, mem2, base, t, slots, j) {
      EarlierSlot(before, live0, live, mem0, mem1, mem2, base, t, slots, i, j);
    }
  }

  lemma EarlierSlot(before: Blocks, live0: Blocks, live: Blocks, mem0: Mem, mem1: Mem, mem2: Mem,
                    base: nat, t: Template, slots: Slots, i: nat, j: nat)
    requires j < i < |t| == |slots| && Grows(live0, live)
    requires HeldSlot(before, live0, mem0, base, t, slots, j)
    requires TakenKept(before, live0, mem0, mem1) && SameBytes(mem0, mem1, base, base + 4 * |t|)
    requires TakenKept(before, live, mem1, mem2) && OnlyChanges(mem1, mem2, base + 4 * i, base + 4 * i + 4)
    ensures HeldSlot(before, live, mem2, base, t, slots, j)
  {
    hide Held, Read32;
    SameRead32(mem0, mem1, base + 4 * j);
    SameRead32(mem1, mem2, base + 4 * j);
    HeldKept(before, live0, live, mem0, mem1, Read32(mem0, base + 4 * j), t[j].kind, slots[j]);
    HeldKept(before, live, live, mem1, mem2, Read32(mem0, base + 4 * j), t[j].kind, slots[j]);
  }

  method FreeAll(m: Memory, allocations: seq<nat>)
    requires m.Valid()
    modifies m`live
    ensures m.Valid() && m.live == old(m.live) - Keys(allocations)
  {
    var i := 0;
    while i < |allocations|
      invariant 0 <= i <= |allocations|
      invariant m.Valid() && m.live == old(m.live) - Keys(allocations[..i])
    {
      assert Keys(allocations[..i + 1]) == Keys(allocations[..i]) + {allocations[i]};
      m.Free(allocations[i]);
      i := i + 1;
    }
    assert allocations[..i] == allocations;
  }

  /** Stores every slot, or frees whatever it had taken. */
  method Materialize(m: Memory, t: Template, slots: Slots, base: nat) returns (ok: bool, allocations: seq<nat>)
    requires m.Valid() && |slots| == |t| && Spoken(m.live, m.start, m.end, base, base + 4 * |t|)
    modifies m
    ensures m.Valid()
    ensures !ok ==> m.live == old(m.live)
    ensures ok ==> Took(old(m.live), m.live, allocations) && AllHeld(old(m.live), m.live, m.mem, base, t, slots)
  {
    hide Laid, Spoken, Took, ClearOf, Held, Read32, Write32, TakenKept;
    ghost var before, lo, hi := m.live, base, base + 4 * |t|;
    allocations := [];
    TookNothing(before, lo, hi);
    var i := 0;
    while i < |t|
      invariant 0 <= i <= |t| && m.Valid()
      invariant Took(before, m.live, allocations) && ClearOf(before, m.live, lo, hi)
      invariant forall j: nat :: j < i ==> HeldSlot(before, m.live, m.mem, base, t, slots, j)
    {
      ghost var live0, mem0 := m.live, m.mem;
      var p;
      p, allocations := PlaceSlot(m, before, allocations, t[i].kind, slots[i], lo, hi);
      if p.None? {
        TookBack(before, m.live, allocations);
        FreeAll(m, allocations);
        return false, allocations;
      }
      ghost var mem1 := m.mem;
      m.Write(base + 4 * i, p.value);
      StoredSlot(before, live0, m.live, mem0, mem1, m.mem, base, t, slots, i, p.value);
      i := i + 1;
    }
    ok := true;
  }

  lemma TookNothing(before: Blocks, lo: nat, hi: nat)
    ensures Took(before, before, []) && ClearOf(before, before, lo, hi)
  {
  }

  class Dos {
    const inputBuf: Bytes
    var inputPos: nat
    var rdargs: Records

    constructor (inputBuf: Bytes, inputPos: nat)
      ensures this.inputBuf == inputBuf && this.inputPos == inputPos && rdargs == map[]
    {
      this.inputBuf, this.inputPos, this.rdargs := inputBuf, inputPos, map[];
    }

    /** The cursor, held to the buffer. */
    ghost function Cursor(): (n: nat)
      reads this
      ensures n <= |inputBuf|
    {
      if inputPos <= |inputBuf| then inputPos else |inputBuf|
    }

    /** ReadArgs: `code` is 0 and `anchor` what D0 holds, or `code` is the IoErr().
        It is all or nothing: after an error no block it took is live and no entry is
        recorded; otherwise the result array leads to every slot. */
    method ReadArgs(m: Memory, template: Bytes, base: nat, rdargsPtr: nat) returns (code: int, anchor: nat)
      requires m.Valid()
      requires ParseTemplate(template).Some? ==>
                 Spoken(m.live, m.start, m.end, base, base + 4 * |ParseTemplate(template).value|)
      modifies m, this
      ensures m.Valid()
      ensures ParseTemplate(template).None? ==> code == ERROR_BAD_TEMPLATE && inputPos == old(inputPos)
      ensures ParseTemplate(template).Some? ==>
                var matched := MatchArgs(ParseTemplate(template).value, inputBuf, old(Cursor()));
                && inputPos == matched.pos
                && (matched.Refused? ==> code == matched.error)
                && (matched.Matched? ==> code == 0 || code == ERROR_NO_FREE_STORE)
      ensures HeapStep(State(old(m.live), old(rdargs)), State(m.live, rdargs), ReadCall(rdargsPtr, code, anchor),
                   m.start, m.end)
      ensures code == 0 ==>
                var t := ParseTemplate(template).value;
                var slots := MatchArgs(t, inputBuf, old(Cursor())).slots;
                AllHeld(old(m.live), m.live, m.mem, base, t, slots) && AllRecovered(m.mem, base, t, slots)
    {
      hide ParseTemplate, MatchArgs, Laid, Spoken, Took, AllHeld, AllRecovered;
      anchor := 0;
      var template := RunParseTemplate(template);
      if template.None? {
        return ERROR_BAD_TEMPLATE, 0;
      }
      var t := template.value;
      var reader := new Reader(inputBuf, inputPos);
      var matched := RunMatchArgs(reader, t);
      inputPos := reader.pos;
      if matched.Refused? {
        return matched.error, 0;
      }
      MatchedSize(t, inputBuf, old(Cursor()));
      var ok, allocations := Materialize(m, t, matched.slots, base);
      if !ok {
        return ERROR_NO_FREE_STORE, 0;
      }
      var owns := rdargsPtr == 0;
      anchor := rdargsPtr;
      if owns {
        ghost var live1 := m.live;
        var addr := m.Alloc(4);
        if addr.None? {
          TookBack(old(m.live), m.live, allocations);
          FreeAll(m, allocations);
          return ERROR_NO_FREE_STORE, 0;
        }
        anchor := addr.value;
        TookGrows(old(m.live), live1, allocations);
        TookOne(old(m.live), live1, allocations, anchor, 4);
        StillHeld(old(m.live), live1, m.live, m.mem, base, t, matched.slots);
      } else {
        assert allocations + [] == allocations;
      }
      HeldIsRecovered(old(m.live), m.live, m.mem, base, t, matched.slots);
      rdargs := rdargs[anchor := RdArgs(allocations, owns)];
      code := 0;
    }

    /** FreeArgs frees what the matching ReadArgs recorded, and the anchor if ReadArgs
        made it; for 0 or an address never returned it does nothing. */
    method FreeArgs(m: Memory, ptr: nat)
      requires m.Valid()
      modifies m`live, this`rdargs
      ensures m.Valid()
      ensures HeapStep(State(old(m.live), old(rdargs)), State(m.live, rdargs), FreeCall(ptr), m.start, m.end)
    {
      if ptr == 0 || ptr !in rdargs {
        return;
      }
      var entry := rdargs[ptr];
      rdargs := rdargs - {ptr};
      FreeAll(m, entry.allocations);
      if entry.ownsAnchor {
        m.Free(ptr);
      } else {
        assert m.live - {} == m.live;
      }
    }
  }

  lemma MatchedSize(t: Template, buf: Bytes, pos: nat)
    requires pos <= |buf|
    ensures MatchArgs(t, buf, pos).Matched? ==> |MatchArgs(t, buf, pos).slots| == |t|
  {
    hide Loop, AllFilled;
  }

  /** Whatever ReadArgs took, FreeArgs gives back: the heap's live blocks are exactly
      those of before, whether ReadArgs made the anchor or was handed one. */
  method ReadThenFree(dos: Dos, m: Memory, template: Bytes, base: nat, rdargsPtr: nat) returns (code: int)
    requires m.Valid()
    requires ParseTemplate(template).Some? ==>
               Spoken(m.live, m.start, m.end, base, base + 4 * |ParseTemplate(template).value|)
    modifies m, dos
    ensures m.live == old(m.live)
    ensures code == 0 && rdargsPtr == 0 ==> dos.rdargs.Keys <= old(dos.rdargs).Keys
    ensures code == 0 && rdargsPtr != 0 ==> dos.rdargs == old(dos.rdargs) - {rdargsPtr}
  {
    hide ParseTemplate, MatchArgs, Laid, Spoken, Recovers;
    ghost var before := m.live;
    var anchor;
    code, anchor := dos.ReadArgs(m, template, base, rdargsPtr);
    if code == 0 {
      ghost var entry := dos.rdargs[anchor];
      ghost var taken := entry.allocations + if rdargsPtr == 0 then [anchor] else [];
      TookBack(before, m.live, taken);
      assert Keys(taken) == Keys(entry.allocations) + if rdargsPtr == 0 then {anchor} else {};
      dos.FreeArgs(m, anchor);
    }
  }

  /** A line of `A=x y` read twice for `A,B` with one anchor, and the anchor freed once: if
      both reads succeed, the block of the first one stays live and has no record. */
  method AnchorReused(m: Memory, base: nat, anchor: nat) returns (first: int, second: int, ghost lost: set<nat>)
    requires m.Valid() && anchor != 0 && Spoken(m.live, m.start, m.end, base, base + 8)
    modifies m
    ensures first == 0 && second == 0 ==>
              lost != {} && old(m.live).Keys !! lost && m.live.Keys == old(m.live).Keys + lost
  {
    hide ParseTemplate, MatchArgs, Laid, Spoken, HeapStep, Held, AllHeld, AllRecovered;
    var template := ArgStores.A + [COMMA] + ArgStores.B;
    ArgStores.KeywordThenWord();
    var dos := new Dos(ArgStores.LINE, 0);
    ghost var s0 := State(m.live, dos.rdargs);
    lost := {};
    var found;
    first, found := dos.ReadArgs(m, template, base, anchor);
    ghost var s1 := State(m.live, dos.rdargs);
    if first != 0 {
      return first, first, {};
    }
    FirstTakes(s0, s1, found, m.mem, m.start, m.end, base, anchor, [EMPTY.(str := Some(ArgStores.Y)), EMPTY]);
    SpokenStays(s0.live, s1.live, m.start, m.end, base, base + 8);
    lost := BlocksOf(anchor, s1.rdargs[anchor]);
    second, found := dos.ReadArgs(m, template, base, anchor);
    ghost var s2 := State(m.live, dos.rdargs);
    dos.FreeArgs(m, anchor);
    ghost var s3 := State(m.live, dos.rdargs);
    if second == 0 {
      ReusedRun(s0, s1, s2, s3, anchor, found, m.start, m.end);
    }
  }

  /** The first read leaves a record with a block in it. */
  lemma FirstTakes(s0: State, s1: State, found: nat, mem: Mem, start: nat, end: nat, base: nat, anchor: nat,
                   slots: Slots)
    requires HeapStep(s0, s1, ReadCall(anchor, 0, found), start, end) && anchor != 0
    requires |slots| == 2 && slots[0].str.Some? && AllHeld(s0.live, s1.live, mem, base, ArgStores.TWO, slots)
    ensures found == anchor && anchor in s1.rdargs && BlocksOf(anchor, s1.rdargs[anchor]) != {}
    ensures Grows(s0.live, s1.live)
  {
    hide Read32, CString;
    assert HeldSlot(s0.live, s1.live, mem, base, ArgStores.TWO, slots, 0);
    var p := Read32(mem, base);
    assert p in s1.live && p !in s0.live;
    var entry := s1.rdargs[anchor];
    assert entry.allocations + [] == entry.allocations;
    assert p in Keys(entry.allocations);
  }

  lemma SpokenStays(live: Blocks, live': Blocks, start: nat, end: nat, lo: nat, hi: nat)
    requires Spoken(live, start, end, lo, hi) && Grows(live, live')
    ensures Spoken(live', start, end, lo, hi)
  {
    forall x: nat | lo <= x < hi ensures InUse(live', start, end, x) {
      assert InUse(live, start, end, x);
      if start <= x < end {
        var b :| b in live && b <= x < b + live[b];
        assert b in live';
      }
    }
  }

  /** Two reads with one anchor and one free, as a run. */
  lemma ReusedRun(s0: State, s1: State, s2: State, s3: State, anchor: nat, found: nat, start: nat, end: nat)
    requires s0.rdargs == map[] && anchor != 0
    requires HeapStep(s0, s1, ReadCall(anchor, 0, anchor), start, end)
    requires HeapStep(s1, s2, ReadCall(anchor, 0, found), start, end)
    requires HeapStep(s2, s3, FreeCall(anchor), start, end)
    ensures anchor in s1.rdargs
    ensures s3.live.Keys == s0.live.Keys + BlocksOf(anchor, s1.rdargs[anchor])
    ensures s0.live.Keys !! BlocksOf(anchor, s1.rdargs[anchor])
  {
    hide BlocksOf, Took, Recorded;
    NothingRecorded(s0);
    StepAccounts(s0.live, s0, s1, ReadCall(anchor, 0, anchor), start, end, {});
    StepAccounts(s0.live, s1, s2, ReadCall(anchor, 0, found), start, end, {} + {});
    var lost := BlocksOf(anchor, s1.rdargs[anchor]);
    StepAccounts(s0.live, s2, s3, FreeCall(anchor), start, end, {} + {} + lost);
    assert s3.rdargs == map[];
    NoRecords(s3.rdargs);
  }

  lemma NoRecords(rdargs: Records)
    requires rdargs == map[]
    ensures Recorded(rdargs) == {}
  {
  }
}
