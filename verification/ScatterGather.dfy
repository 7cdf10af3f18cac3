// recvmsg and sendmsg: one host buffer scattered over, or gathered from, guest iovecs.

module ScatterGather {
  import opened Guest

  const ADDRESSES := 0x1_0000_0000
  const IOVEC_SIZE := 8

  /** Guest memory wraps around addresses; outside it, reads give 0 and writes are lost. */
  function Peek(mem: Bytes, a: int): byte {
    var at := a % ADDRESSES;
    if at < |mem| then mem[at] else 0
  }

  function Poke(mem: Bytes, a: int, b: byte): (r: Bytes)
    ensures |r| == |mem|
  {
    var at := a % ADDRESSES;
    if at < |mem| then mem[at := b] else mem
  }

  /** A byte of a longword; a longword does not wrap around. */
  function At(mem: Bytes, at: nat): byte { if at < |mem| then mem[at] else 0 }

  function PeekLong(mem: Bytes, a: int): u32 {
    var at := a % ADDRESSES;
    At(mem, at) * 0x100_0000 + At(mem, at + 1) * 0x1_0000 + At(mem, at + 2) * 0x100 + At(mem, at + 3)
  }

  /** Memory with the longword at an address cleared. */
  function ZeroedLong(mem: Bytes, a: int): (r: Bytes)
    ensures |r| == |mem|
    ensures forall x :: 0 <= x < |mem| ==> r[x] == if a % ADDRESSES <= x < a % ADDRESSES + 4 then 0 else mem[x]
  {
    var at := a % ADDRESSES;
    seq(|mem|, x requires 0 <= x < |mem| => if at <= x < at + 4 then 0 else mem[x])
  }

  datatype Iovec = Iovec(base: u32, len: u32)

  /** A length a guest claims, cut to the size of its memory. */
  function ClampLen(mem: nat, len: u32): (r: nat)
    ensures r <= mem && r <= len && (r == mem || r == len)
  {
    if len < mem then len else mem
  }

  // --- The addresses a list of iovecs stands for ---

  function Span(v: Iovec): (r: seq<u32>)
    ensures |r| == v.len && forall i :: 0 <= i < v.len ==> r[i] == (v.base + i) % ADDRESSES
  {
    seq(v.len, i requires 0 <= i < v.len => (v.base + i) % ADDRESSES)
  }

  /** Every byte the iovecs name, in order. */
  function Targets(iovecs: seq<Iovec>): (r: seq<u32>) {
    if iovecs == [] then [] else Targets(iovecs[..|iovecs| - 1]) + Span(iovecs[|iovecs| - 1])
  }

  function Clamped(iovecs: seq<Iovec>, mem: nat): (r: seq<Iovec>)
    requires mem < ADDRESSES
    ensures |r| == |iovecs|
    ensures forall i :: 0 <= i < |r| ==> r[i] == Iovec(iovecs[i].base, ClampLen(mem, iovecs[i].len))
  {
    seq(|iovecs|, i requires 0 <= i < |iovecs| => Iovec(iovecs[i].base, ClampLen(mem, iovecs[i].len)))
  }

  function Total(iovecs: seq<Iovec>): (r: nat)
    ensures r == |Targets(iovecs)|
  {
    if iovecs == [] then 0 else Total(iovecs[..|iovecs| - 1]) + iovecs[|iovecs| - 1].len
  }

  lemma {:induction false} TargetsPrefix(iovecs: seq<Iovec>, k: nat)
    requires k <= |iovecs|
    ensures Targets(iovecs[..k]) <= Targets(iovecs)
    decreases |iovecs|
  {
    var n := |iovecs|;
    if k < n {
      TargetsPrefix(iovecs[..n - 1], k);
      assert iovecs[..n - 1][..k] == iovecs[..k];
    } else {
      assert iovecs[..k] == iovecs;
    }
  }

  lemma TargetsNext(iovecs: seq<Iovec>, k: nat)
    requires k < |iovecs|
    ensures Targets(iovecs[..k + 1]) == Targets(iovecs[..k]) + Span(iovecs[k])
  {
    assert iovecs[..k + 1][..k] == iovecs[..k];
  }

  // --- Bytes at target addresses ---

  /** The bytes stored one after the other. */
  function Stored(mem: Bytes, targets: seq<u32>, data: Bytes): (r: Bytes)
    requires |data| <= |targets|
    ensures |r| == |mem|
    decreases |data|
  {
    if data == [] then mem
    else
      var n := |data| - 1;
      Poke(Stored(mem, targets, data[..n]), targets[n], data[n])
  }

  function Fetched(mem: Bytes, targets: seq<u32>): (r: Bytes)
    ensures |r| == |targets| && forall j :: 0 <= j < |r| ==> r[j] == Peek(mem, targets[j])
  {
    seq(|targets|, j requires 0 <= j < |targets| => Peek(mem, targets[j]))
  }

  /** Address x is named by one of the first n targets. */
  ghost predicate Named(targets: seq<u32>, n: nat, x: u32)
    requires n <= |targets|
  {
    exists j :: 0 <= j < n && targets[j] == x
  }

  /** The last of the first n targets to name its address. */
  ghost predicate LastNaming(targets: seq<u32>, n: nat, j: nat)
    requires n <= |targets|
  {
    j < n && forall k :: j < k < n ==> targets[k] != targets[j]
  }

  /** What memory holds after the stores, overlapping or not: an address holds the last
      byte sent to it, if memory has it; every other address is as it was. */
  lemma {:induction false} StoredMeans(mem: Bytes, targets: seq<u32>, data: Bytes)
    requires |data| <= |targets|
    ensures var mem' := Stored(mem, targets, data);
            && (forall x: u32 :: !Named(targets, |data|, x) ==> Peek(mem', x) == Peek(mem, x))
            && (forall j: nat :: LastNaming(targets, |data|, j) ==>
                  Peek(mem', targets[j]) == if targets[j] < |mem| then data[j] else 0)
    decreases |data|
  {
    hide Peek, Poke, Named;
    if data != [] {
      var n := |data| - 1;
      StoredMeans(mem, targets, data[..n]);
      var before := Stored(mem, targets, data[..n]);
      StoreOne(before, targets, n, data[n]);
      forall x: u32 | !Named(targets, n + 1, x) ensures Peek(Stored(mem, targets, data), x) == Peek(mem, x) {
        NotNamedBefore(targets, n, x);
      }
      forall j: nat | LastNaming(targets, n + 1, j)
        ensures Peek(Stored(mem, targets, data), targets[j]) == if targets[j] < |mem| then data[j] else 0
      {
        if j < n { assert LastNaming(targets, n, j); }
      }
    }
  }

  lemma StoreOne(before: Bytes, targets: seq<u32>, n: nat, b: byte)
    requires n < |targets|
    ensures forall x: u32 ::
              Peek(Poke(before, targets[n], b), x) == if x == targets[n] && x < |before| then b else Peek(before, x)
    ensures Peek(Poke(before, targets[n], b), targets[n]) == if targets[n] < |before| then b else 0
  {
  }

  lemma NotNamedBefore(targets: seq<u32>, n: nat, x: u32)
    requires n < |targets| && !Named(targets, n + 1, x)
    ensures !Named(targets, n, x) && targets[n] != x
  {
  }

  /** The first n targets are all in memory and all different. */
  ghost predicate Apart(targets: seq<u32>, n: nat, mem: nat)
    requires n <= |targets|
  {
    && (forall j :: 0 <= j < n ==> targets[j] < mem)
    && (forall j, k :: 0 <= j < k < n ==> targets[j] != targets[k])
  }

  /** Cutting each length to the size of memory keeps the first targets, as many as
      memory has bytes. */
  lemma {:induction false} ClampedTargets(iovecs: seq<Iovec>, mem: nat, n: nat)
    requires mem < ADDRESSES && n <= mem && n <= |Targets(iovecs)|
    ensures n <= |Targets(Clamped(iovecs, mem))| <= |Targets(iovecs)|
    ensures Targets(Clamped(iovecs, mem))[..n] == Targets(iovecs)[..n]
    decreases |iovecs|
  {
    if iovecs != [] {
      var k := |iovecs| - 1;
      var init, last := iovecs[..k], iovecs[k];
      var cut := Iovec(last.base, ClampLen(mem, last.len));
      assert Clamped(iovecs, mem) == Clamped(init, mem) + [cut];
      assert Clamped(iovecs, mem)[..k] == Clamped(init, mem);
      ClampedTargets(init, mem, if |Targets(init)| < mem then |Targets(init)| else mem);
      SpanCut(last, cut);
      ClampedPrefix(Targets(init), Targets(Clamped(init, mem)), Span(last), Span(cut), mem, n);
    }
  }

  lemma SpanCut(v: Iovec, cut: Iovec)
    requires cut.base == v.base && cut.len <= v.len
    ensures Span(cut) <= Span(v)
  {
  }

  lemma ClampedPrefix(all: seq<u32>, kept: seq<u32>, span: seq<u32>, cut: seq<u32>, mem: nat, n: nat)
    requires cut <= span && (cut == span || |cut| == mem) && n <= mem && n <= |all| + |span|
    requires var m := if |all| < mem then |all| else mem;
             m <= |kept| <= |all| && kept[..m] == all[..m]
    ensures n <= |kept + cut| <= |all + span| && (kept + cut)[..n] == (all + span)[..n]
  {
    if n > |all| {
      assert kept == all;
    }
  }

  // --- The message header ---

  /** How many iovecs are read: no more than memory could hold. */
  function Count(mem: Bytes, msg: u32): (r: nat) {
    ClampLen(|mem| / IOVEC_SIZE, PeekLong(mem, msg + 12))
  }

  function IovecAt(mem: Bytes, table: u32, i: nat): Iovec {
    var entry := (table + i * IOVEC_SIZE) % ADDRESSES;
    Iovec(PeekLong(mem, entry), PeekLong(mem, entry + 4))
  }

  function IovecList(mem: Bytes, msg: u32): (r: seq<Iovec>)
    ensures |r| == Count(mem, msg)
  {
    seq(Count(mem, msg), i requires 0 <= i < Count(mem, msg) => IovecAt(mem, PeekLong(mem, msg + 8), i))
  }

  function Saturated(v: nat): u32 { if v < ADDRESSES then v else ADDRESSES - 1 }

  /** The size of the host buffer a receive is given. */
  function Room(mem: Bytes, msg: u32): (r: nat)
    ensures r <= |mem| && r <= |Targets(IovecList(mem, msg))|
  {
    ClampLen(|mem|, Saturated(Total(IovecList(mem, msg))))
  }

  // --- The two calls ---

  datatype Received = Received(data: Bytes) | RecvFailed(errno: ErrorCode)
  datatype Reply = Moved(n: nat) | Failed(errno: ErrorCode)

  method ReadIovecs(mem: array<byte>, msg: u32) returns (iovecs: seq<Iovec>)
    ensures iovecs == IovecList(mem[..], msg)
  {
    hide PeekLong, Peek;
    var table := PeekLong(mem[..], msg + 8);
    var n := ClampLen(mem.Length / IOVEC_SIZE, PeekLong(mem[..], msg + 12));
    iovecs := [];
    for i := 0 to n
      invariant |iovecs| == i && forall k :: 0 <= k < i ==> iovecs[k] == IovecAt(mem[..], table, k)
    {
      var entry := (table + i * IOVEC_SIZE) % ADDRESSES;
      iovecs := iovecs + [Iovec(PeekLong(mem[..], entry), PeekLong(mem[..], entry + 4))];
    }
  }

  /** Gathers the bytes of every iovec into one buffer. */
  method Gather(mem: array<byte>, iovecs: seq<Iovec>) returns (buf: Bytes)
    requires mem.Length < ADDRESSES
    ensures buf == Fetched(mem[..], Targets(Clamped(iovecs, mem.Length)))
  {
    hide Peek, Targets, ClampLen;
    ghost var cut := Clamped(iovecs, mem.Length);
    buf := [];
    var k := 0;
    NoTargets(cut);
    while k < |iovecs|
      invariant 0 <= k <= |iovecs|
      invariant buf == Fetched(mem[..], Targets(cut[..k]))
    {
      var base, len := iovecs[k].base, ClampLen(mem.Length, iovecs[k].len);
      TargetsNext(cut, k);
      ghost var done := buf;
      for i := 0 to len
        invariant |buf| == |done| + i && buf[..|done|] == done
        invariant forall j :: 0 <= j < i ==> buf[|done| + j] == Peek(mem[..], Span(cut[k])[j])
      {
        buf := buf + [Peek(mem[..], (base + i) % ADDRESSES)];
      }
      assert forall j :: 0 <= j < |done| ==> buf[j] == buf[..|done|][j];
      k := k + 1;
    }
    assert cut[..k] == cut;
  }

  lemma NoTargets(iovecs: seq<Iovec>)
    ensures Targets(iovecs[..0]) == []
  {
  }

  /** Scatters a buffer's bytes over the iovecs in order; the buffer is never read past
      its end. */
  method Scatter(mem: array<byte>, iovecs: seq<Iovec>, buf: Bytes, n: nat)
    requires n <= |buf| && n <= |Targets(iovecs)|
    modifies mem
    ensures mem[..] == Stored(old(mem[..]), Targets(iovecs), buf[..n])
  {
    hide Targets, Stored, Poke;
    var remaining: nat, src: nat, k: nat := n, 0, 0;
    ghost var all := Targets(iovecs);
    NoTargets(iovecs);
    NoneStored(mem[..], all, buf);
    while k < |iovecs|
      invariant 0 <= k <= |iovecs| && 0 <= src <= n && src + remaining == n
      invariant remaining > 0 ==> src == |Targets(iovecs[..k])|
      invariant mem[..] == Stored(old(mem[..]), all, buf[..src])
    {
      if remaining == 0 {
        break;
      }
      var base, len := iovecs[k].base, iovecs[k].len;
      var take := if remaining < len then remaining else len;
      TargetsNext(iovecs, k);
      TargetsPrefix(iovecs, k + 1);
      for i := 0 to take
        invariant mem[..] == Stored(old(mem[..]), all, buf[..src + i])
      {
        assert all[src + i] == Span(iovecs[k])[i];
        OneMoreStored(old(mem[..]), all, buf, src + i);
        PokeArray(mem, (base + i) % ADDRESSES, buf[src + i]);
      }
      src := src + take;
      remaining := remaining - take;
      k := k + 1;
    }
    if k == |iovecs| { assert iovecs[..k] == iovecs; }
  }

  method PokeArray(mem: array<byte>, a: u32, b: byte)
    modifies mem
    ensures mem[..] == Poke(old(mem[..]), a, b)
  {
    if a < mem.Length {
      mem[a] := b;
    }
  }

  lemma {:induction false} NoneStored(mem: Bytes, targets: seq<u32>, data: Bytes)
    ensures Stored(mem, targets, data[..0]) == mem
  {
  }

  lemma {:induction false} OneMoreStored(mem: Bytes, targets: seq<u32>, data: Bytes, j: nat)
    requires j < |data| && j < |targets|
    ensures Stored(mem, targets, data[..j + 1]) == Poke(Stored(mem, targets, data[..j]), targets[j], data[j])
  {
    hide Poke;
    assert data[..j + 1][..j] == data[..j];
  }

  /** Guest memory after a message was received. */
  function AfterReceive(mem: Bytes, msg: u32, data: Bytes): (r: Bytes)
    requires |data| <= Room(mem, msg)
    ensures |r| == |mem|
  {
    ZeroedLong(Stored(mem, Targets(IovecList(mem, msg)), data), msg + 24)
  }

  /** recvmsg on a socket that is open or not; the host returns an error or at most as
      much as the buffer it was given holds. */
  method RecvMsg(mem: array<byte>, open: bool, msg: u32, host: Received) returns (reply: Reply)
    requires host.Received? ==> |host.data| <= Room(mem[..], msg)
    modifies mem
    ensures !open ==> reply == Failed(EBADF)
    ensures open && host.RecvFailed? ==> reply == Failed(host.errno)
    ensures reply.Failed? ==> mem[..] == old(mem[..])
    ensures open && host.Received? ==>
              reply == Moved(|host.data|) && mem[..] == AfterReceive(old(mem[..]), msg, host.data)
  {
    hide Stored, Targets, IovecList, PeekLong, Total;
    var iovecs := ReadIovecs(mem, msg);
    var total := SaturatingTotal(iovecs);
    var room := ClampLen(mem.Length, total);
    if !open {
      return Failed(EBADF);
    }
    if host.RecvFailed? {
      return Failed(host.errno);
    }
    var buf := host.data + seq(room - |host.data|, _ => 0);
    assert buf[..|host.data|] == host.data;
    Scatter(mem, iovecs, buf, |host.data|);
    ghost var scattered := mem[..];
    ZeroArray(mem, msg + 24);
    reply := Moved(|host.data|);
  }

  method ZeroArray(mem: array<byte>, a: int)
    modifies mem
    ensures mem[..] == ZeroedLong(old(mem[..]), a)
  {
    var at := a % ADDRESSES;
    for i := 0 to 4
      invariant forall x :: 0 <= x < mem.Length ==> mem[x] == if at <= x < at + i then 0 else old(mem[x])
    {
      if at + i < mem.Length {
        mem[at + i] := 0;
      }
    }
  }

  method SaturatingTotal(iovecs: seq<Iovec>) returns (total: u32)
    ensures total == Saturated(Total(iovecs))
  {
    total := 0;
    var k := 0;
    while k < |iovecs|
      invariant 0 <= k <= |iovecs| && total == Saturated(Total(iovecs[..k]))
    {
      assert iovecs[..k + 1][..k] == iovecs[..k];
      total := Saturated(total + iovecs[k].len);
      k := k + 1;
    }
    assert iovecs[..k] == iovecs;
  }

  datatype Sent = Sent(n: nat) | SendFailed(errno: ErrorCode)

  /** sendmsg: the buffer handed to the host, and its answer. */
  method SendMsg(mem: array<byte>, open: bool, msg: u32, host: Sent) returns (buf: Bytes, reply: Reply)
    requires mem.Length < ADDRESSES
    ensures buf == Fetched(mem[..], Targets(Clamped(IovecList(mem[..], msg), mem.Length)))
    ensures reply == if !open then Failed(EBADF) else if host.Sent? then Moved(host.n) else Failed(host.errno)
  {
    var iovecs := ReadIovecs(mem, msg);
    buf := Gather(mem, iovecs);
    reply := if !open then Failed(EBADF) else if host.Sent? then Moved(host.n) else Failed(host.errno);
  }

  // --- Received, then sent ---

  ghost predicate FlagsClear(targets: seq<u32>, n: nat, msg: u32)
    requires n <= |targets|
  {
    var at := (msg + 24) % ADDRESSES;
    forall j :: 0 <= j < n ==> !(at <= targets[j] < at + 4)
  }

  /** Received over distinct bytes of memory, clear of the message's flags: the iovecs hold
      the data, in order and whole, and no other byte but the flags changed. */
  lemma ReceivedWhole(mem: Bytes, msg: u32, data: Bytes)
    requires |data| <= Room(mem, msg)
    requires var targets := Targets(IovecList(mem, msg));
             Apart(targets, |data|, |mem|) && FlagsClear(targets, |data|, msg)
    ensures var targets := Targets(IovecList(mem, msg));
            var mem' := AfterReceive(mem, msg, data);
            var at := (msg + 24) % ADDRESSES;
            && data <= Fetched(mem', targets)
            && forall x: u32 :: !Named(targets, |data|, x) && !(at <= x < at + 4) ==> Peek(mem', x) == Peek(mem, x)
  {
    hide Stored, Targets, IovecList, Named, Peek, ZeroedLong, LastNaming;
    var targets := Targets(IovecList(mem, msg));
    StoredMeans(mem, targets, data);
    var stored := Stored(mem, targets, data);
    var mem' := AfterReceive(mem, msg, data);
    forall x: u32
      ensures Peek(mem', x) == if (msg + 24) % ADDRESSES <= x < (msg + 24) % ADDRESSES + 4 then 0 else Peek(stored, x)
    {
      ZeroedPeek(stored, msg + 24, x);
    }
    forall j | 0 <= j < |data| ensures Fetched(mem', targets)[j] == data[j] {
      ApartLast(targets, |data|, j, |mem|);
    }
  }

  lemma ZeroedPeek(mem: Bytes, a: int, x: u32)
    ensures Peek(ZeroedLong(mem, a), x) == if a % ADDRESSES <= x < a % ADDRESSES + 4 then 0 else Peek(mem, x)
  {
  }

  lemma ApartLast(targets: seq<u32>, n: nat, j: nat, mem: nat)
    requires n <= |targets| && j < n && Apart(targets, n, mem)
    ensures LastNaming(targets, n, j) && targets[j] < mem
  {
  }

  /** The same message, sent after it was received, starts with the data received, even
      though a send cuts each iovec to the size of memory and a receive does not. */
  lemma ReceivedThenSent(mem: Bytes, msg: u32, data: Bytes)
    requires |mem| < ADDRESSES && |data| <= Room(mem, msg)
    requires var targets := Targets(IovecList(mem, msg));
             Apart(targets, |data|, |mem|) && FlagsClear(targets, |data|, msg)
    requires IovecList(AfterReceive(mem, msg, data), msg) == IovecList(mem, msg)
    ensures var mem' := AfterReceive(mem, msg, data);
            data <= Fetched(mem', Targets(Clamped(IovecList(mem', msg), |mem|)))
  {
    hide Stored, Targets, IovecList, AfterReceive, Apart, FlagsClear, Peek;
    var iovecs := IovecList(mem, msg);
    ReceivedWhole(mem, msg, data);
    ClampedTargets(iovecs, |mem|, |data|);
    var mem' := AfterReceive(mem, msg, data);
    var all, cut := Targets(iovecs), Targets(Clamped(iovecs, |mem|));
    forall j | 0 <= j < |data| ensures Fetched(mem', cut)[j] == data[j] {
      assert cut[j] == cut[..|data|][j] == all[j];
      assert Fetched(mem', all)[j] == data[j];
    }
  }

  /** Byte x is one that reading the message's iovec list depends on. */
  ghost predicate InList(mem: Bytes, msg: u32, x: nat) {
    || (msg + 8) % ADDRESSES <= x < (msg + 8) % ADDRESSES + 4
    || (msg + 12) % ADDRESSES <= x < (msg + 12) % ADDRESSES + 4
    || InTable(PeekLong(mem, msg + 8), Count(mem, msg), x)
  }

  ghost predicate InTable(table: u32, count: nat, x: nat) {
    exists i: nat :: i < count && InEntry(table, i, x)
  }

  ghost predicate InEntry(table: u32, i: nat, x: nat) {
    var entry := (table + i * IOVEC_SIZE) % ADDRESSES;
    entry <= x < entry + 4 || (entry + 4) % ADDRESSES <= x < (entry + 4) % ADDRESSES + 4
  }

  /** A receive that touches neither the header nor the table leaves the list as it was. */
  lemma ListKept(mem: Bytes, mem': Bytes, msg: u32)
    requires |mem'| == |mem| && forall x: nat :: x < |mem| && InList(mem, msg, x) ==> mem'[x] == mem[x]
    ensures IovecList(mem', msg) == IovecList(mem, msg)
  {
    hide InEntry, PeekLong;
    LongKept(mem, mem', msg + 8);
    LongKept(mem, mem', msg + 12);
    var table := PeekLong(mem, msg + 8);
    forall i: nat | i < Count(mem, msg) ensures IovecAt(mem', table, i) == IovecAt(mem, table, i) {
      forall x: nat | x < |mem| && InEntry(table, i, x) ensures mem'[x] == mem[x] {
        assert InTable(table, Count(mem, msg), x);
      }
      EntryKept(mem, mem', table, i);
    }
  }

  lemma LongKept(mem: Bytes, mem': Bytes, a: int)
    requires |mem'| == |mem|
    requires forall x :: a % ADDRESSES <= x < a % ADDRESSES + 4 && x < |mem| ==> mem'[x] == mem[x]
    ensures PeekLong(mem', a) == PeekLong(mem, a)
  {
  }

  lemma EntryKept(mem: Bytes, mem': Bytes, table: u32, i: nat)
    requires |mem'| == |mem|
    requires forall x: nat :: x < |mem| && InEntry(table, i, x) ==> mem'[x] == mem[x]
    ensures IovecAt(mem', table, i) == IovecAt(mem, table, i)
  {
    hide PeekLong;
    var entry := (table + i * IOVEC_SIZE) % ADDRESSES;
    LongKept(mem, mem', entry);
    LongKept(mem, mem', entry + 4);
  }
}
