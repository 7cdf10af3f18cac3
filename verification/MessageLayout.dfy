// recvmsg and sendmsg from the caller's side: the message and the table of iovecs as bytes
// the caller wrote, and where the data of a message lies.

module MessageLayout {
  import opened Guest
  import opened ScatterGather

  /** The four bytes at `a` are v, the most significant first. */
  ghost predicate Holds(mem: Bytes, a: nat, v: u32) {
    && a + 4 <= |mem|
    && mem[a] == v / 0x100_0000 && mem[a + 1] == v / 0x1_0000 % 0x100
    && mem[a + 2] == v / 0x100 % 0x100 && mem[a + 3] == v % 0x100
  }

  /** A `struct iovec`: its base and then its length. */
  ghost predicate HoldsIovec(mem: Bytes, a: nat, v: Iovec) {
    Holds(mem, a, v.base) && Holds(mem, a + 4, v.len)
  }

  /** A `struct msghdr` whose `msg_iov` and `msg_iovlen` give these iovecs. */
  ghost predicate HoldsMessage(mem: Bytes, msg: u32, table: u32, iovecs: seq<Iovec>) {
    && |mem| <= ADDRESSES && |iovecs| < ADDRESSES
    && Holds(mem, msg + 8, table) && Holds(mem, msg + 12, |iovecs|)
    && forall i: nat :: i < |iovecs| ==> HoldsIovec(mem, table + 8 * i, iovecs[i])
  }

  lemma HeldLong(mem: Bytes, a: nat, v: u32)
    requires |mem| <= ADDRESSES && Holds(mem, a, v)
    ensures PeekLong(mem, a) == v
  {
    FourBytes(v);
  }

  lemma HeldIovec(mem: Bytes, table: u32, i: nat, v: Iovec)
    requires |mem| <= ADDRESSES && HoldsIovec(mem, table + 8 * i, v)
    ensures IovecAt(mem, table, i) == v
  {
    hide PeekLong, Holds;
    HeldInside(mem, table + 8 * i, v.base);
    HeldLong(mem, table + 8 * i, v.base);
    HeldLong(mem, table + 8 * i + 4, v.len);
  }

  lemma HeldInside(mem: Bytes, a: nat, v: u32)
    requires Holds(mem, a, v)
    ensures a + 4 <= |mem|
  {
  }

  /** The list that is read is the list that was written. */
  lemma ListRead(mem: Bytes, msg: u32, table: u32, iovecs: seq<Iovec>)
    requires HoldsMessage(mem, msg, table, iovecs)
    ensures IovecList(mem, msg) == iovecs
  {
    hide PeekLong, IovecAt;
    HeldLong(mem, msg + 8, table);
    HeldLong(mem, msg + 12, |iovecs|);
    if iovecs != [] {
      var last := |iovecs| - 1;
      assert HoldsIovec(mem, table + 8 * last, iovecs[last]);
    }
    forall i: nat | i < |iovecs| ensures IovecAt(mem, table, i) == iovecs[i] {
      assert HoldsIovec(mem, table + 8 * i, iovecs[i]);
      HeldIovec(mem, table, i, iovecs[i]);
    }
  }

  // --- Where byte j of a message lies ---

  /** How many bytes the iovecs before number k name. */
  function Before(iovecs: seq<Iovec>, k: nat): nat
    requires k <= |iovecs|
  {
    if k == 0 then 0 else Before(iovecs, k - 1) + iovecs[k - 1].len
  }

  lemma {:induction false} BeforeIsTotal(iovecs: seq<Iovec>, k: nat)
    requires k <= |iovecs|
    ensures Before(iovecs, k) == |Targets(iovecs[..k])|
  {
    hide Targets;
    if k == 0 {
      NoTargets(iovecs);
    } else {
      BeforeIsTotal(iovecs, k - 1);
      TargetsNext(iovecs, k - 1);
    }
  }

  /** Byte i of iovec k is the byte of the message after those of the iovecs before. */
  lemma {:induction false} TargetAt(iovecs: seq<Iovec>, k: nat, i: nat)
    requires k < |iovecs| && i < iovecs[k].len
    ensures Before(iovecs, k) + i < |Targets(iovecs)|
    ensures Targets(iovecs)[Before(iovecs, k) + i] == (iovecs[k].base + i) % ADDRESSES
  {
    hide Targets;
    BeforeIsTotal(iovecs, k);
    TargetsNext(iovecs, k);
    TargetsPrefix(iovecs, k + 1);
    var first := Targets(iovecs[..k + 1]);
    assert first[Before(iovecs, k) + i] == Span(iovecs[k])[i];
  }

  /** The host is asked for as much as the iovecs name, or as much as memory has if that is
      less. */
  lemma {:induction false} RoomIs(mem: Bytes, msg: u32, table: u32, iovecs: seq<Iovec>)
    requires HoldsMessage(mem, msg, table, iovecs) && |mem| < ADDRESSES
    ensures Room(mem, msg) == Min(|mem|, Before(iovecs, |iovecs|)) && Before(iovecs, |iovecs|) == |Targets(iovecs)|
  {
    hide IovecList, HoldsMessage, Targets, Before;
    ListRead(mem, msg, table, iovecs);
    BeforeIsTotal(iovecs, |iovecs|);
    assert iovecs[..|iovecs|] == iovecs;
  }

  /** Byte i of iovec k, if the data reaches it, is in memory and holds the byte of the data
      after those for the iovecs before. */
  ghost predicate Lies(mem: Bytes, iovecs: seq<Iovec>, data: Bytes, k: nat, i: nat)
    requires k < |iovecs|
  {
    i < iovecs[k].len && Before(iovecs, k) + i < |data| ==>
      var a := (iovecs[k].base + i) % ADDRESSES;
      a < |mem| && mem[a] == data[Before(iovecs, k) + i]
  }

  /** A message received over distinct bytes of memory, clear of the flags word: the data
      lies where the iovecs say, `msg_flags` is zero, and every byte no iovec took is as it
      was. */
  lemma {:induction false} ReceivedLies(mem: Bytes, msg: u32, table: u32, iovecs: seq<Iovec>, data: Bytes)
    requires HoldsMessage(mem, msg, table, iovecs) && msg + 28 <= |mem|
    requires |data| <= Room(mem, msg) && |data| <= |Targets(iovecs)|
    requires Apart(Targets(iovecs), |data|, |mem|) && FlagsClear(Targets(iovecs), |data|, msg)
    ensures var mem' := AfterReceive(mem, msg, data);
            && (forall k: nat, i: nat :: k < |iovecs| ==> Lies(mem', iovecs, data, k, i))
            && Holds(mem', msg + 24, 0)
            && (forall a: nat :: a < |mem| && !(msg + 24 <= a < msg + 28) && !Named(Targets(iovecs), |data|, a) ==>
                  mem'[a] == mem[a])
  {
    hide Targets, IovecList, Stored, Named, HoldsMessage, Lies, Apart, FlagsClear, Room, Peek, Holds, ZeroedLong;
    ListRead(mem, msg, table, iovecs);
    SizeOf(mem, msg, table, iovecs);
    ReceivedWhole(mem, msg, data);
    var mem' := AfterReceive(mem, msg, data);
    forall k: nat, i: nat | k < |iovecs| ensures Lies(mem', iovecs, data, k, i) {
      FetchedLies(mem', iovecs, data, |mem|, k, i);
    }
    FlagsZero(Stored(mem, Targets(iovecs), data), msg);
    OthersSame(mem, mem', Targets(iovecs), |data|, msg);
  }

  lemma FlagsZero(mem: Bytes, msg: u32)
    requires msg + 28 <= |mem| <= ADDRESSES
    ensures Holds(ZeroedLong(mem, msg + 24), msg + 24, 0)
  {
  }

  lemma OthersSame(mem: Bytes, mem': Bytes, targets: seq<u32>, n: nat, msg: u32)
    requires |mem'| == |mem| <= ADDRESSES && n <= |targets| && msg + 28 <= |mem|
    requires forall x: u32 ::
               !Named(targets, n, x) && !((msg + 24) % ADDRESSES <= x < (msg + 24) % ADDRESSES + 4) ==>
                 Peek(mem', x) == Peek(mem, x)
    ensures forall a: nat :: a < |mem| && !(msg + 24 <= a < msg + 28) && !Named(targets, n, a) ==> mem'[a] == mem[a]
  {
    hide Named;
    forall a: nat | a < |mem| && !(msg + 24 <= a < msg + 28) && !Named(targets, n, a) ensures mem'[a] == mem[a] {
      assert Peek(mem', a) == Peek(mem, a);
    }
  }

  lemma {:induction false} FetchedLies(mem: Bytes, iovecs: seq<Iovec>, data: Bytes, size: nat, k: nat, i: nat)
    requires k < |iovecs| && |data| <= |Targets(iovecs)| && data <= Fetched(mem, Targets(iovecs))
    requires Apart(Targets(iovecs), |data|, size) && size == |mem|
    ensures Lies(mem, iovecs, data, k, i)
  {
    hide Targets;
    if i < iovecs[k].len && Before(iovecs, k) + i < |data| {
      TargetAt(iovecs, k, i);
      var j := Before(iovecs, k) + i;
      assert data[j] == Fetched(mem, Targets(iovecs))[j];
    }
  }

  lemma SizeOf(mem: Bytes, msg: u32, table: u32, iovecs: seq<Iovec>)
    requires HoldsMessage(mem, msg, table, iovecs)
    ensures |mem| <= ADDRESSES
  {
  }

  /** A message sent takes byte i of iovec k from there, lengths cut to the size of memory. */
  lemma {:induction false} SentTakes(mem: Bytes, msg: u32, table: u32, iovecs: seq<Iovec>, k: nat, i: nat)
    requires HoldsMessage(mem, msg, table, iovecs) && |mem| < ADDRESSES
    requires k < |iovecs| && i < iovecs[k].len && Before(iovecs, k) + i < |mem|
    ensures var buf := Fetched(mem, Targets(Clamped(IovecList(mem, msg), |mem|)));
            && Before(iovecs, k) + i < |buf|
            && buf[Before(iovecs, k) + i] == Peek(mem, (iovecs[k].base + i) % ADDRESSES)
  {
    hide Targets, IovecList, Clamped, HoldsMessage, Peek;
    ListRead(mem, msg, table, iovecs);
    TargetAt(iovecs, k, i);
    var j := Before(iovecs, k) + i;
    ClampedTargets(iovecs, |mem|, j + 1);
    var cut := Targets(Clamped(iovecs, |mem|));
    assert cut[j] == cut[..j + 1][j] == Targets(iovecs)[..j + 1][j];
  }
}
