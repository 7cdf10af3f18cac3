// The descriptor table of bsdsocket.library on values: what each call makes of it.

module SocketTable {
  import opened Guest

  const EMFILE := 24
  const EOPNOTSUPP := 45

  const AF_INET := 2
  const SOCK_STREAM := 1
  const SOCK_DGRAM := 2

  const FD_ACCEPT: bv32 := 0x01
  const FD_READ: bv32 := 0x08
  const FD_WRITE: bv32 := 0x10
  const FD_ERROR: bv32 := 0x20
  const FD_CLOSE: bv32 := 0x40

  const MAX_OPEN_SOCKETS := 64
  const MAX_TABLE := 4096
  const MAX_FD: i32 := 0x7FFF_FFFF

  /** One descriptor: the host connection it stands for, the event bits it is armed for,
      and those queued for it. */
  datatype Entry = Entry(conn: nat, mask: bv32, pending: bv32, listener: bool, connected: bool)

  function NewEntry(conn: nat): Entry { Entry(conn, 0, 0, false, false) }

  datatype Table = Table(sockets: map<i32, Entry>, nextId: i32, size: nat, cursor: i32)

  const EMPTY := Table(map[], 1, MAX_OPEN_SOCKETS, -1)

  /** What the host makes of a request. */
  datatype Host = Gave(conn: nat) | Refused(errno: int)

  /** What poll says of one descriptor; `eof` is what a peek would say. */
  datatype Revents = Revents(readable: bool, writable: bool, urgent: bool, hungUp: bool, failed: bool, eof: bool)

  datatype Call =
    | Socket(domain: int, kind: int, host: Host)
    | Accept(fd: i32, host: Host)
    | Listen(fd: i32, ok: bool)
    | Connect(fd: i32, begun: bool)
    | Dup2(fd: i32, target: i32, host: Host)
    | Close(fd: i32)
    | EventMask(fd: i32, mask: bv32)
    | TableSize(requested: u32)
    | Poll(ready: map<i32, Revents>)
    | Events

  /** Descriptor numbers count up, and start over at 1 after the largest. */
  function After(id: i32): (r: i32)
  {
    if id == MAX_FD then 1 else if id + 1 > 1 then id + 1 else 1
  }

  predicate Full(t: Table) { |t.sockets| >= t.size }

  /** The descriptor a call opens, if it goes through. */
  function Opens(t: Table, call: Call): Option<i32> {
    match call
    case Socket(domain, kind, host) =>
      if !Full(t) && domain == AF_INET && (kind == SOCK_STREAM || kind == SOCK_DGRAM) && host.Gave? then Some(t.nextId)
      else None
    case Accept(fd, host) =>
      if !Full(t) && fd in t.sockets && host.Gave? then Some(t.nextId) else None
    case Dup2(fd, want, host) =>
      var id := if want < 0 then t.nextId else want;
      if fd in t.sockets && (id in t.sockets || !Full(t)) && host.Gave? then Some(id) else None
    case _ => None
  }

  /** Only bits the mask has. */
  predicate Within(bits: bv32, mask: bv32) { bits & !mask == 0 }

  /** An event's bit, if it is armed and something is the case. */
  function EventIf(happened: bool, mask: bv32, event: bv32): (bits: bv32)
    ensures Within(bits, mask)
  {
    if happened then mask & event else 0
  }

  /** The bits of both. */
  function Union(a: bv32, b: bv32): bv32 { a | b }

  lemma UnionWithin(a: bv32, b: bv32, mask: bv32)
    requires Within(a, mask) && Within(b, mask)
    ensures Within(Union(a, b), mask)
  {
  }

  /** Readable: a connection waits at a listener; elsewhere there is data, or, when only
      closing is armed, the end of it. */
  function InputBits(e: Entry, r: Revents): (bits: bv32)
    ensures Within(bits, e.mask)
  {
    if e.listener then EventIf(r.readable, e.mask, FD_ACCEPT)
    else if e.mask & FD_READ != 0 then EventIf(r.readable, e.mask, FD_READ)
    else EventIf(r.readable && r.eof, e.mask, FD_CLOSE)
  }

  /** Hanging up and writing count only where there ever was a connection. */
  function ConnectionBits(e: Entry, r: Revents): (bits: bv32)
    ensures Within(bits, e.mask)
  {
    var hung := EventIf(e.connected && r.hungUp, e.mask, FD_CLOSE);
    var room := EventIf(e.connected && r.writable && !e.listener, e.mask, FD_WRITE);
    UnionWithin(hung, room, e.mask);
    Union(hung, room)
  }

  function FailedBits(e: Entry, r: Revents): (bits: bv32)
    ensures Within(bits, e.mask)
  {
    EventIf(r.failed, e.mask, FD_ERROR)
  }

  /** The event bits one poll answer queues for a descriptor. */
  function NewBits(e: Entry, r: Revents): (bits: bv32)
    ensures Within(bits, e.mask)
  {
    UnionWithin(InputBits(e, r), ConnectionBits(e, r), e.mask);
    UnionWithin(Union(InputBits(e, r), ConnectionBits(e, r)), FailedBits(e, r), e.mask);
    Union(Union(InputBits(e, r), ConnectionBits(e, r)), FailedBits(e, r))
  }

  /** An armed descriptor's entry with what its poll answer queues. */
  function QueuedEntry(e: Entry, fd: i32, ready: map<i32, Revents>): Entry {
    if e.mask != 0 && fd in ready then QueueBits(e, NewBits(e, ready[fd])) else e
  }

  function QueueBits(e: Entry, bits: bv32): Entry { e.(pending := Union(e.pending, bits)) }

  function Queued(t: Table, ready: map<i32, Revents>): map<i32, Entry> {
    map fd | fd in t.sockets :: QueuedEntry(t.sockets[fd], fd, ready)
  }

  // --- Round robin ---

  function Pending(t: Table): (fds: set<i32>) {
    set fd | fd in t.sockets && t.sockets[fd].pending != 0
  }

  ghost predicate IsLeast(fds: set<i32>, fd: i32) {
    fd in fds && forall g: i32 :: g in fds ==> fd <= g
  }

  function Above(fds: set<i32>, cursor: i32): set<i32> {
    set g | g in fds && g > cursor
  }

  /** The first pending descriptor above the cursor, or else the first of all. */
  ghost predicate IsNext(fds: set<i32>, cursor: i32, fd: i32) {
    if Above(fds, cursor) != {} then IsLeast(Above(fds, cursor), fd) else IsLeast(fds, fd)
  }

  lemma {:induction false} LeastExists(fds: set<i32>)
    requires fds != {}
    ensures exists fd: i32 :: IsLeast(fds, fd)
    decreases |fds|
  {
    var x :| x in fds;
    var rest := fds - {x};
    assert fds == rest + {x};
    if rest == {} {
      assert IsLeast(fds, x);
    } else {
      LeastExists(rest);
      var y: i32 :| IsLeast(rest, y);
      assert IsLeast(fds, if x < y then x else y);
    }
  }

  ghost function NextAfter(fds: set<i32>, cursor: i32): (fd: i32)
    requires fds != {}
    ensures IsNext(fds, cursor, fd) && fd in fds
  {
    var pool := if Above(fds, cursor) != {} then Above(fds, cursor) else fds;
    LeastExists(pool);
    var fd: i32 :| IsLeast(pool, fd);
    fd
  }

  lemma NextUnique(fds: set<i32>, cursor: i32, fd: i32)
    requires fds != {} && IsNext(fds, cursor, fd)
    ensures NextAfter(fds, cursor) == fd
  {
    hide NextAfter;
  }

  // --- One call ---

  /** The descriptor a GetSocketEvents hands back, if any. */
  ghost function Returned(t: Table): (r: Option<i32>)
    ensures r.Some? ==> r.value in t.sockets && t.sockets[r.value].pending != 0
  {
    if Pending(t) == {} then None else Some(NextAfter(Pending(t), t.cursor))
  }

  /** A descriptor's entry replaced, or added. */
  function With(t: Table, fd: i32, e: Entry): Table {
    t.(sockets := t.sockets[fd := e])
  }

  function Resized(t: Table, requested: u32): Table {
    t.(size := Max(Min(Max(requested, MAX_OPEN_SOCKETS), MAX_TABLE), t.size))
  }

  function Armed(e: Entry, mask: bv32): Entry {
    e.(mask := mask, pending := e.pending & mask)
  }

  /** The entry of a descriptor that a call opened: nothing armed, nothing queued. */
  function OpenedEntry(t: Table, call: Call): (e: Entry)
    requires Opens(t, call).Some?
    ensures e.mask == 0 && e.pending == 0
  {
    match call
    case Socket(_, _, host) => NewEntry(host.conn)
    case Accept(_, host) => NewEntry(host.conn).(connected := true)
    case Dup2(fd, _, host) =>
      NewEntry(host.conn).(listener := t.sockets[fd].listener, connected := t.sockets[fd].connected)
  }

  /** The next descriptor after a call opened one. */
  function NextId(t: Table, call: Call): i32
    requires Opens(t, call).Some?
  {
    if call.Dup2? && 0 <= call.target < t.nextId then t.nextId else After(Opens(t, call).value)
  }

  ghost function Step(t: Table, call: Call): Table {
    match call
    case Listen(fd, ok) =>
      if fd in t.sockets && ok then With(t, fd, t.sockets[fd].(listener := true)) else t
    case Connect(fd, begun) =>
      if fd in t.sockets && begun then With(t, fd, t.sockets[fd].(connected := true)) else t
    case Close(fd) => t.(sockets := t.sockets - {fd})
    case EventMask(fd, mask) => if fd in t.sockets then With(t, fd, Armed(t.sockets[fd], mask)) else t
    case TableSize(requested) => Resized(t, requested)
    case Poll(ready) => t.(sockets := Queued(t, ready))
    case Events =>
      var fd := Returned(t);
      if fd.None? then t else With(t, fd.value, t.sockets[fd.value].(pending := 0)).(cursor := fd.value)
    case _ => // Socket, Accept, Dup2
      if Opens(t, call).None? then t
      else With(t, Opens(t, call).value, OpenedEntry(t, call)).(nextId := NextId(t, call))
  }

  // --- What every call keeps ---

  ghost predicate EntryOk(fd: i32, e: Entry) {
    fd >= 0 && Within(e.pending, e.mask)
  }

  ghost predicate EntriesOk(sockets: map<i32, Entry>) {
    forall fd <- sockets :: EntryOk(fd, sockets[fd])
  }

  ghost predicate Inv(t: Table) {
    |t.sockets| <= t.size && MAX_OPEN_SOCKETS <= t.size <= MAX_TABLE && t.nextId >= 1 && EntriesOk(t.sockets)
  }

  /** Every open descriptor is below the next one. */
  ghost predicate Below(t: Table) {
    forall fd <- t.sockets :: fd < t.nextId
  }

  lemma WithKeeps(t: Table, fd: i32, e: Entry)
    requires Inv(t) && EntryOk(fd, e) && (fd in t.sockets || !Full(t))
    ensures Inv(With(t, fd, e))
    ensures With(t, fd, e).sockets.Keys == t.sockets.Keys + {fd}
  {
    assert With(t, fd, e).sockets.Keys == t.sockets.Keys + {fd};
  }

  lemma CloseKeeps(t: Table, fd: i32)
    requires Inv(t)
    ensures Inv(t.(sockets := t.sockets - {fd}))
  {
    assert (t.sockets - {fd}).Keys == t.sockets.Keys - {fd};
  }

  lemma BitsOk(fd: i32, e: Entry, bits: bv32)
    requires EntryOk(fd, e) && Within(bits, e.mask)
    ensures EntryOk(fd, QueueBits(e, bits))
  {
    MaskKept(e.pending, bits, e.mask);
  }

  lemma MaskKept(pending: bv32, bits: bv32, mask: bv32)
    requires pending & !mask == 0 && bits & !mask == 0
    ensures Union(pending, bits) & !mask == 0
  {
  }

  lemma PollKeeps(t: Table, ready: map<i32, Revents>)
    requires Inv(t)
    ensures Inv(t.(sockets := Queued(t, ready))) && Queued(t, ready).Keys == t.sockets.Keys
  {
    hide QueuedEntry, EntryOk;
    assert Queued(t, ready).Keys == t.sockets.Keys;
    forall fd | fd in t.sockets ensures EntryOk(fd, Queued(t, ready)[fd]) {
      QueuedOk(fd, t.sockets[fd], ready);
    }
  }

  lemma QueuedOk(fd: i32, e: Entry, ready: map<i32, Revents>)
    requires EntryOk(fd, e)
    ensures EntryOk(fd, QueuedEntry(e, fd, ready))
  {
    hide NewBits, EntryOk, Within, QueueBits;
    if e.mask != 0 && fd in ready {
      BitsOk(fd, e, NewBits(e, ready[fd]));
    }
  }

  lemma ArmedOk(fd: i32, e: Entry, mask: bv32)
    requires fd >= 0
    ensures EntryOk(fd, Armed(e, mask))
  {
  }

  /** What a call opens is not negative and fits the table. */
  lemma OpensFits(t: Table, call: Call)
    requires Inv(t) && Opens(t, call).Some?
    ensures var id := Opens(t, call).value;
            id >= 0 && (id in t.sockets || !Full(t)) && EntryOk(id, OpenedEntry(t, call)) && NextId(t, call) >= 1
  {
  }

  lemma UpdateOk(t: Table, fd: i32, e: Entry)
    requires Inv(t) && fd in t.sockets
    requires e.mask == t.sockets[fd].mask && (e.pending == t.sockets[fd].pending || e.pending == 0)
    ensures EntryOk(fd, e)
  {
    assert EntryOk(fd, t.sockets[fd]);
  }

  lemma OtherFields(t: Table, nextId: i32, cursor: i32)
    requires Inv(t) && nextId >= 1
    ensures Inv(t.(nextId := nextId)) && Inv(t.(cursor := cursor))
  {
  }

  lemma ResizeKeeps(t: Table, requested: u32)
    requires Inv(t)
    ensures Inv(Resized(t, requested)) && Resized(t, requested).size >= t.size
  {
  }

  lemma OpenKeeps(t: Table, call: Call)
    requires Inv(t) && Opens(t, call).Some?
    ensures Inv(With(t, Opens(t, call).value, OpenedEntry(t, call)).(nextId := NextId(t, call)))
  {
    hide Inv, EntryOk, Opens, OpenedEntry, NextId, Full, With;
    OpensFits(t, call);
    WithKeeps(t, Opens(t, call).value, OpenedEntry(t, call));
    OtherFields(With(t, Opens(t, call).value, OpenedEntry(t, call)), NextId(t, call), 0);
  }

  lemma EventsKeep(t: Table, fd: i32)
    requires Inv(t) && fd in t.sockets
    ensures Inv(With(t, fd, t.sockets[fd].(pending := 0)).(cursor := fd))
  {
    hide Inv, EntryOk;
    UpdateOk(t, fd, t.sockets[fd].(pending := 0));
    WithKeeps(t, fd, t.sockets[fd].(pending := 0));
    OtherFields(With(t, fd, t.sockets[fd].(pending := 0)), 1, fd);
  }

  lemma UpdateKeeps(t: Table, fd: i32, e: Entry)
    requires Inv(t) && fd in t.sockets
    requires e.mask == t.sockets[fd].mask && e.pending == t.sockets[fd].pending
    ensures Inv(With(t, fd, e))
  {
    hide Inv, EntryOk;
    UpdateOk(t, fd, e);
    WithKeeps(t, fd, e);
  }

  lemma MaskKeeps(t: Table, fd: i32, mask: bv32)
    requires Inv(t) && fd in t.sockets
    ensures Inv(With(t, fd, Armed(t.sockets[fd], mask)))
  {
    assert EntryOk(fd, t.sockets[fd]);
    hide Inv, EntryOk, Armed;
    ArmedOk(fd, t.sockets[fd], mask);
    WithKeeps(t, fd, Armed(t.sockets[fd], mask));
  }

  /** The table never holds more than its size, its size never shrinks and stays in range,
      descriptors are not negative, and nothing is queued that is not armed. */
  lemma StepKeeps(t: Table, call: Call)
    requires Inv(t)
    ensures Inv(Step(t, call)) && Step(t, call).size >= t.size
  {
    hide Inv, Step, Opens;
    match call
    case Listen(fd, ok) => EntryStep(t, call, fd);
    case Connect(fd, begun) => EntryStep(t, call, fd);
    case Close(fd) => EntryStep(t, call, fd);
    case EventMask(fd, mask) => EntryStep(t, call, fd);
    case TableSize(requested) => ResizeStepKeeps(t, requested);
    case Poll(ready) => PollStepKeeps(t, ready);
    case Events => EventsStepKeeps(t);
    case _ => OpenStepKeeps(t, call);
  }

  lemma EntryStep(t: Table, call: Call, fd: i32)
    requires Inv(t)
    requires call == Close(fd) || (call.Listen? && call.fd == fd) || (call.Connect? && call.fd == fd)
             || (call.EventMask? && call.fd == fd)
    ensures Inv(Step(t, call)) && Step(t, call).size >= t.size
  {
    hide Inv, EntryOk, Opens, OpenedEntry, Armed, Queued, Returned;
    match call
    case Listen(_, ok) =>
      if fd in t.sockets && ok { UpdateKeeps(t, fd, t.sockets[fd].(listener := true)); }
    case Connect(_, begun) =>
      if fd in t.sockets && begun { UpdateKeeps(t, fd, t.sockets[fd].(connected := true)); }
    case Close(_) => CloseKeeps(t, fd);
    case EventMask(_, mask) =>
      if fd in t.sockets { MaskKeeps(t, fd, mask); }
  }

  lemma ResizeStepKeeps(t: Table, requested: u32)
    requires Inv(t)
    ensures Inv(Step(t, TableSize(requested))) && Step(t, TableSize(requested)).size >= t.size
  {
    hide Inv, Resized;
    ResizeKeeps(t, requested);
  }

  lemma PollStepKeeps(t: Table, ready: map<i32, Revents>)
    requires Inv(t)
    ensures Inv(Step(t, Poll(ready))) && Step(t, Poll(ready)).size >= t.size
  {
    hide Inv, Queued;
    PollKeeps(t, ready);
  }

  lemma EventsStepKeeps(t: Table)
    requires Inv(t)
    ensures Inv(Step(t, Events)) && Step(t, Events).size >= t.size
  {
    hide Inv, Returned;
    if Returned(t).Some? { EventsKeep(t, Returned(t).value); }
  }

  lemma OpenStepKeeps(t: Table, call: Call)
    requires Inv(t) && (call.Socket? || call.Accept? || call.Dup2?)
    ensures Inv(Step(t, call)) && Step(t, call).size >= t.size
  {
    hide Inv, Opens, OpenedEntry, NextId;
    if Opens(t, call).Some? { OpenKeeps(t, call); }
  }

  // --- Fresh descriptors ---

  /** The call opens the largest descriptor there is. */
  predicate Wraps(t: Table, call: Call) {
    Opens(t, call) == Some(MAX_FD)
  }

  /** Every open descriptor stays below the next one, until and unless a call opens the
      largest; then it does not. */
  lemma StepBelow(t: Table, call: Call)
    requires Inv(t) && Below(t)
    ensures Below(Step(t, call)) <==> !Wraps(t, call)
  {
    hide Inv, EntryOk, OpenedEntry, Armed, Queued, Resized, NewBits;
    if Opens(t, call).Some? {
      OpensFits(t, call);
      OpenBelow(t, call);
    } else {
      OtherCallBelow(t, call);
    }
  }

  lemma OpenBelow(t: Table, call: Call)
    requires Inv(t) && Below(t) && Opens(t, call).Some?
    ensures Below(Step(t, call)) <==> !Wraps(t, call)
  {
    hide EntryOk, OpenedEntry;
    OpensFits(t, call);
    var id := Opens(t, call).value;
    var t' := Step(t, call);
    assert t'.sockets.Keys == t.sockets.Keys + {id};
    if Wraps(t, call) {
      assert id in t'.sockets && id >= t'.nextId;
    }
  }

  lemma OtherCallBelow(t: Table, call: Call)
    requires Inv(t) && Below(t) && Opens(t, call).None?
    ensures Below(Step(t, call))
  {
    hide Inv, EntryOk, OpenedEntry, Armed, NewBits, Returned;
    assert Step(t, call).nextId == t.nextId;
    assert forall fd <- Step(t, call).sockets :: fd in t.sockets;
  }

  // --- Whole runs ---

  ghost function Run(t: Table, calls: seq<Call>): Table
    decreases |calls|
  {
    if calls == [] then t else Run(Step(t, calls[0]), calls[1..])
  }

  ghost predicate NoneWraps(t: Table, calls: seq<Call>)
    decreases |calls|
  {
    calls != [] ==> !Wraps(t, calls[0]) && NoneWraps(Step(t, calls[0]), calls[1..])
  }

  lemma {:induction false} RunKeeps(t: Table, calls: seq<Call>)
    requires Inv(t)
    ensures Inv(Run(t, calls)) && Run(t, calls).size >= t.size
    decreases |calls|
  {
    hide Inv, Step;
    if calls != [] {
      StepKeeps(t, calls[0]);
      RunKeeps(Step(t, calls[0]), calls[1..]);
    }
  }

  lemma {:induction false} RunBelow(t: Table, calls: seq<Call>)
    requires Inv(t) && Below(t) && NoneWraps(t, calls)
    ensures Below(Run(t, calls))
    decreases |calls|
  {
    hide Inv, Step, Below, Wraps;
    if calls != [] {
      StepKeeps(t, calls[0]);
      StepBelow(t, calls[0]);
      RunBelow(Step(t, calls[0]), calls[1..]);
    }
  }

  lemma {:induction false} Reachable(calls: seq<Call>)
    ensures Inv(Run(EMPTY, calls))
  {
    hide Step;
    RunKeeps(EMPTY, calls);
  }

  /** As long as no call opened the largest descriptor, socket and accept open one that
      is not in use, and disturb no other. */
  lemma {:induction false} OpensUnused(calls: seq<Call>, call: Call)
    requires NoneWraps(EMPTY, calls) && (call.Socket? || call.Accept?)
    ensures var t := Run(EMPTY, calls);
            Opens(t, call).Some? ==>
              && Opens(t, call).value !in t.sockets
              && Step(t, call).sockets == t.sockets[Opens(t, call).value := OpenedEntry(t, call)]
              && |Step(t, call).sockets| == |t.sockets| + 1
  {
    hide Inv, Run, OpenedEntry;
    Reachable(calls);
    EmptyBelow();
    RunBelow(EMPTY, calls);
    var t := Run(EMPTY, calls);
    if Opens(t, call).Some? {
      assert (t.sockets[Opens(t, call).value := OpenedEntry(t, call)]).Keys == t.sockets.Keys + {t.nextId};
    }
  }

  lemma EmptyBelow()
    ensures Inv(EMPTY) && Below(EMPTY)
  {
  }

  /** Not so afterwards: with the largest descriptor opened by Dup2Socket, the next socket
      call takes descriptor 1 from the socket that has it. */
  lemma WrappedReuses(first: nat, second: nat)
    ensures var calls := [Socket(AF_INET, SOCK_STREAM, Gave(first)), Dup2(1, MAX_FD, Gave(first))];
            var t := Run(EMPTY, calls);
            var call := Socket(AF_INET, SOCK_STREAM, Gave(second));
            && 1 in t.sockets && t.sockets[1].conn == first
            && Opens(t, call) == Some(1) && Step(t, call).sockets[1].conn == second
            && |Step(t, call).sockets| == |t.sockets|
  {
    var a := Socket(AF_INET, SOCK_STREAM, Gave(first));
    var b := Dup2(1, MAX_FD, Gave(first));
    var t1 := Step(EMPTY, a);
    assert t1 == Table(map[1 := NewEntry(first)], 2, MAX_OPEN_SOCKETS, -1);
    var t2 := Step(t1, b);
    assert t2 == Table(map[1 := NewEntry(first), MAX_FD := NewEntry(first)], 1, MAX_OPEN_SOCKETS, -1);
    RunTwo(EMPTY, a, b);
    var t3 := Step(t2, Socket(AF_INET, SOCK_STREAM, Gave(second)));
    assert t3.sockets.Keys == t2.sockets.Keys;
  }

  lemma {:induction false} RunTwo(t: Table, a: Call, b: Call)
    ensures Run(t, [a, b]) == Step(Step(t, a), b)
  {
    hide Step;
    assert [a, b][1..] == [b] && [b][1..] == [];
    assert Run(Step(t, a), [b]) == Run(Step(Step(t, a), b), []);
  }
}
