// Guest memory and the guest heap: bytes at addresses, and an allocator that hands
// out blocks nobody else holds, or nothing, as it likes.

module GuestMemory {
  import opened Guest

  type Mem = map<nat, byte>

  function Read8(mem: Mem, a: nat): byte {
    if a in mem then mem[a] else 0
  }

  function Read32(mem: Mem, a: nat): u32 {
    Read8(mem, a) * 0x100_0000 + Read8(mem, a + 1) * 0x1_0000 + Read8(mem, a + 2) * 0x100 + Read8(mem, a + 3)
  }

  function Write32(mem: Mem, a: nat, v: u32): Mem {
    mem[a := v / 0x100_0000][a + 1 := v / 0x1_0000 % 0x100][a + 2 := v / 0x100 % 0x100][a + 3 := v % 0x100]
  }

  lemma Write32Reads(mem: Mem, a: nat, v: u32)
    ensures Read32(Write32(mem, a, v), a) == v
    ensures forall x: nat :: x < a || x >= a + 4 ==> Read8(Write32(mem, a, v), x) == Read8(mem, x)
  {
    FourBytes(v);
    Write32Bytes(mem, a, v);
  }

  lemma Write32Bytes(mem: Mem, a: nat, v: u32)
    ensures var mem' := Write32(mem, a, v);
            && Read8(mem', a) == v / 0x100_0000 && Read8(mem', a + 1) == v / 0x1_0000 % 0x100
            && Read8(mem', a + 2) == v / 0x100 % 0x100 && Read8(mem', a + 3) == v % 0x100
  {
    assert a < a + 1 < a + 2 < a + 3;
  }

  /** The same bytes from lo to hi-1. */
  ghost predicate SameBytes(mem: Mem, mem': Mem, lo: nat, hi: nat) {
    forall x: nat :: lo <= x < hi ==> Read8(mem', x) == Read8(mem, x)
  }

  /** The same bytes everywhere but from lo to hi-1. */
  ghost predicate OnlyChanges(mem: Mem, mem': Mem, lo: nat, hi: nat) {
    forall x: nat :: x < lo || hi <= x ==> Read8(mem', x) == Read8(mem, x)
  }

  lemma SameRead32(mem: Mem, mem': Mem, a: nat)
    requires SameBytes(mem, mem', a, a + 4)
    ensures Read32(mem', a) == Read32(mem, a)
  {
    assert Read8(mem', a + 3) == Read8(mem, a + 3);
  }

  predicate Apart(a: nat, n: nat, b: nat, m: nat) {
    a + n <= b || b + m <= a
  }

  function AlignUp(n: nat): (r: nat)
    ensures n <= r < n + 4 && r % 4 == 0
  {
    (n + 3) / 4 * 4
  }

  /** Live blocks by address: their sizes. */
  type Blocks = map<nat, nat>

  /** A block of n bytes at a would lie in the heap, clear of every live block. */
  predicate Fits(live: Blocks, start: nat, end: nat, a: nat, n: nat) {
    start <= a && a + n <= end && a % 4 == 0 && forall b <- live :: Apart(a, n, b, live[b])
  }

  ghost predicate Laid(live: Blocks, start: nat, end: nat) {
    && (forall b <- live :: 0 < live[b] && start <= b && b + live[b] <= end)
    && (forall b, c :: b in live && c in live && b != c ==> Apart(b, live[b], c, live[c]))
  }

  class Memory {
    const start: nat
    const end: nat
    var live: Blocks
    var mem: Mem

    ghost predicate Valid()
      reads this
    {
      0 < start && end <= 0x1_0000_0000 && Laid(live, start, end)
    }

    constructor (start: nat, end: nat)
      requires 0 < start && end <= 0x1_0000_0000
      ensures Valid() && live == map[] && this.start == start && this.end == end
    {
      this.start, this.end, this.live, this.mem := start, end, map[], map[];
    }

    /** Any placement that fits, or failure at any time. */
    method Alloc(size: nat) returns (addr: Option<nat>)
      requires Valid() && size > 0
      modifies this`live
      ensures Valid()
      ensures addr.None? ==> live == old(live)
      ensures addr.Some? ==>
                && addr.value !in old(live) && live == old(live)[addr.value := AlignUp(size)]
                && Fits(old(live), start, end, addr.value, AlignUp(size))
                && addr.value > 0
    {
      var n := AlignUp(size);
      addr := None;
      if * {
        return;
      }
      if a: nat :| a <= end && Fits(live, start, end, a, n) {
        live := live[a := n];
        addr := Some(a);
      }
    }

    /** Frees a live block; anything else is refused and changes nothing. */
    method Free(addr: nat)
      requires Valid()
      modifies this`live
      ensures Valid() && live == old(live) - {addr}
    {
      live := live - {addr};
    }

    method Write(a: nat, v: u32)
      modifies this`mem
      ensures mem == Write32(old(mem), a, v)
    {
      mem := Write32(mem, a, v);
    }
  }
}
