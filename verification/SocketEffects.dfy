// What each call does to one descriptor, and to which.

module SocketEffects {
  import opened Guest
  import opened SocketTable

  /** When a call opens a descriptor, and which. */
  lemma OpensIff(t: Table, call: Call, fd: i32)
    ensures Opens(t, call) == Some(fd) <==>
              match call
              case Socket(domain, kind, host) =>
                |t.sockets| < t.size && domain == 2 && (kind == 1 || kind == 2) && host.Gave? && fd == t.nextId
              case Accept(from, host) => |t.sockets| < t.size && from in t.sockets && host.Gave? && fd == t.nextId
              case Dup2(from, target, host) =>
                from in t.sockets && host.Gave? && (if target < 0 then fd == t.nextId else fd == target)
                && (fd in t.sockets || |t.sockets| < t.size)
              case _ => false
  {
  }

  /** A descriptor just opened: its connection, armed for nothing and nothing queued; it
      listens if it was copied from one that does, and is connected if it was accepted or
      copied from one that is. */
  lemma OpenedIs(t: Table, call: Call, fd: i32)
    requires Opens(t, call) == Some(fd)
    ensures var t' := Step(t, call);
            && t'.sockets.Keys == t.sockets.Keys + {fd} && t'.size == t.size && t'.cursor == t.cursor
            && var e := t'.sockets[fd];
               && e.mask == 0 && e.pending == 0
               && (call.Socket? ==> e.conn == call.host.conn && !e.listener && !e.connected)
               && (call.Accept? ==> e.conn == call.host.conn && !e.listener && e.connected)
               && (call.Dup2? ==> e.conn == call.host.conn && e.listener == t.sockets[call.fd].listener
                                  && e.connected == t.sockets[call.fd].connected)
  {
    assert Step(t, call).sockets.Keys == t.sockets.Keys + {fd};
  }

  /** What a call that does not open a descriptor leaves of its entry. */
  ghost predicate EntryThen(t: Table, call: Call, fd: i32, e: Entry, e': Entry) {
    && e'.conn == e.conn
    && (e'.listener <==> e.listener || (call.Listen? && call.fd == fd && call.ok))
    && (e'.connected <==> e.connected || (call.Connect? && call.fd == fd && call.begun))
    && e'.mask == (if call.EventMask? && call.fd == fd then call.mask else e.mask)
    && (call.Events? ==> e'.pending == if Returned(t) == Some(fd) then 0 else e.pending)
    && (!call.Events? && !call.Poll? && !(call.EventMask? && call.fd == fd) ==> e'.pending == e.pending)
  }

  ghost predicate OtherThen(t: Table, call: Call, fd: i32) {
    var t' := Step(t, call);
    && (fd in t'.sockets <==> fd in t.sockets && !(call.Close? && call.fd == fd))
    && (fd in t'.sockets ==> EntryThen(t, call, fd, t.sockets[fd], t'.sockets[fd]))
  }

  /** Any other descriptor: it is gone only if it was closed, listens from a listen and is
      connected from a connect on, is armed by SO_EVENTMASK, and is queued for by a poll and
      emptied by being handed back. */
  lemma OtherIs(t: Table, call: Call, fd: i32)
    requires Opens(t, call) != Some(fd)
    ensures OtherThen(t, call, fd)
  {
    hide OtherThen, Opens;
    match call
    case Poll(ready) => PollOther(t, ready, fd);
    case EventMask(at, mask) => MaskOther(t, at, mask, fd);
    case Events => EventsOther(t, fd);
    case Listen(at, ok) => PlainOther(t, call, fd);
    case Connect(at, begun) => PlainOther(t, call, fd);
    case Close(at) => PlainOther(t, call, fd);
    case TableSize(requested) => PlainOther(t, call, fd);
    case _ => OpenOther(t, call, fd);
  }

  lemma PollOther(t: Table, ready: map<i32, Revents>, fd: i32)
    ensures OtherThen(t, Poll(ready), fd)
  {
    hide Queued, Returned, Opens, OpenedEntry;
    PollIs(t, ready, fd);
  }

  lemma MaskOther(t: Table, at: i32, mask: bv32, fd: i32)
    ensures OtherThen(t, EventMask(at, mask), fd)
  {
    hide Armed, Returned, Opens, OpenedEntry, Queued;
    if at in t.sockets { ArmedIs(t.sockets[at], mask); }
  }

  lemma EventsOther(t: Table, fd: i32)
    ensures OtherThen(t, Events, fd)
  {
    hide Returned, Opens, OpenedEntry, Queued, Armed;
  }

  lemma PlainOther(t: Table, call: Call, fd: i32)
    requires call.Listen? || call.Connect? || call.Close? || call.TableSize?
    ensures OtherThen(t, call, fd)
  {
    hide Returned, Opens, OpenedEntry, Queued, Armed;
  }

  lemma OpenOther(t: Table, call: Call, fd: i32)
    requires call.Socket? || call.Accept? || call.Dup2?
    requires Opens(t, call) != Some(fd)
    ensures OtherThen(t, call, fd)
  {
    hide Returned, Opens, OpenedEntry, Queued, Armed, NextId;
  }

  lemma ArmedIs(e: Entry, mask: bv32)
    ensures Armed(e, mask) == e.(mask := mask, pending := Armed(e, mask).pending)
  {
  }

  lemma PollIs(t: Table, ready: map<i32, Revents>, fd: i32)
    ensures fd in Queued(t, ready) <==> fd in t.sockets
    ensures fd in t.sockets ==> Queued(t, ready)[fd] == t.sockets[fd].(pending := Queued(t, ready)[fd].pending)
  {
    hide NewBits, Within, Union;
  }

  /** The next number: one more, or 1 after the largest; a copy onto a lower number leaves it. */
  lemma NumbersOn(t: Table, call: Call)
    requires 1 <= t.nextId
    ensures var next := Step(t, call).nextId;
            var made := Opens(t, call);
            if made.None? || (call.Dup2? && 0 <= call.target < t.nextId) then next == t.nextId
            else next == if made.value == 0x7FFF_FFFF then 1 else made.value + 1
  {
    hide OpenedEntry, Queued, Returned;
  }
}
