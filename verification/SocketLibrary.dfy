// The calls of bsdsocket.library as they run on the descriptor table.

module SocketLibrary {
  import opened Guest
  import opened SocketTable
  import opened WaitSelect

  const FAILED := -1
  const EINPROGRESS := 36

  datatype Connecting = Made | InProgress | Failed(errno: int)

  class BsdSocketState {
    var sockets: map<i32, Entry>
    var nextId: i32
    var dtablesize: nat
    var eventCursor: i32
    var lastErrno: int
    var sigEventMask: bv32
    /** The signals the caller has received. */
    var received: bv32

    function View(): Table
      reads this
    {
      Table(sockets, nextId, dtablesize, eventCursor)
    }

    constructor (received: bv32)
      ensures View() == EMPTY && Inv(View()) && sigEventMask == 0 && this.received == received && lastErrno == 0
    {
      sockets, nextId, dtablesize, eventCursor := map[], 1, MAX_OPEN_SOCKETS, -1;
      lastErrno, sigEventMask, this.received := 0, 0, received;
    }

    /** socket(): the descriptor, or an error in this order: table full, not supported, host. */
    method SocketCall(domain: int, kind: int, host: Host) returns (d0: int)
      requires Inv(View())
      modifies this`sockets, this`nextId, this`lastErrno
      ensures Inv(View()) && View() == Step(old(View()), Socket(domain, kind, host))
      ensures var made := Opens(old(View()), Socket(domain, kind, host));
              if made.Some? then d0 == made.value && lastErrno == 0
              else d0 == FAILED && lastErrno ==
                   if Full(old(View())) then EMFILE
                   else if domain != AF_INET || (kind != SOCK_STREAM && kind != SOCK_DGRAM) then EOPNOTSUPP
                   else host.errno
    {
      hide Inv, Within;
      StepKeeps(View(), Socket(domain, kind, host));
      d0 := FAILED;
      if |sockets| >= dtablesize {
        lastErrno := EMFILE;
        return;
      }
      if domain != AF_INET || (kind != SOCK_STREAM && kind != SOCK_DGRAM) {
        lastErrno := EOPNOTSUPP;
        return;
      }
      if host.Refused? {
        lastErrno := host.errno;
        return;
      }
      d0 := nextId;
      sockets := sockets[nextId := NewEntry(host.conn)];
      nextId := After(nextId);
      lastErrno := 0;
    }

    /** accept(): the accepted connection's descriptor. */
    method AcceptCall(fd: i32, host: Host) returns (d0: int)
      requires Inv(View())
      modifies this`sockets, this`nextId, this`lastErrno
      ensures Inv(View()) && View() == Step(old(View()), Accept(fd, host))
      ensures var made := Opens(old(View()), Accept(fd, host));
              if made.Some? then d0 == made.value && lastErrno == 0
              else d0 == FAILED && lastErrno ==
                   if Full(old(View())) then EMFILE else if fd !in old(sockets) then EBADF else host.errno
    {
      hide Inv, Within;
      StepKeeps(View(), Accept(fd, host));
      d0 := FAILED;
      if |sockets| >= dtablesize {
        lastErrno := EMFILE;
      } else if fd !in sockets {
        lastErrno := EBADF;
      } else if host.Refused? {
        lastErrno := host.errno;
      } else {
        d0 := nextId;
        sockets := sockets[nextId := NewEntry(host.conn).(connected := true)];
        nextId := After(nextId);
        lastErrno := 0;
      }
    }

    method ListenCall(fd: i32, refused: Option<int>) returns (d0: int)
      requires Inv(View())
      modifies this`sockets, this`lastErrno
      ensures Inv(View()) && View() == Step(old(View()), Listen(fd, refused.None?))
      ensures (d0 == 0 <==> fd in old(sockets) && refused.None?) && (d0 != 0 ==> d0 == FAILED)
      ensures lastErrno == if fd !in old(sockets) then EBADF else if refused.Some? then refused.value else 0
    {
      hide Inv, Within;
      StepKeeps(View(), Listen(fd, refused.None?));
      d0 := FAILED;
      if fd !in sockets {
        lastErrno := EBADF;
      } else if refused.Some? {
        lastErrno := refused.value;
      } else {
        sockets := sockets[fd := sockets[fd].(listener := true)];
        lastErrno, d0 := 0, 0;
      }
    }

    /** connect(): a connection made or under way marks its descriptor connected. */
    method ConnectCall(fd: i32, outcome: Connecting) returns (d0: int)
      requires Inv(View())
      modifies this`sockets, this`lastErrno
      ensures Inv(View()) && View() == Step(old(View()), Connect(fd, !outcome.Failed?))
      ensures d0 == if fd in old(sockets) && outcome.Made? then 0 else FAILED
      ensures lastErrno == if fd !in old(sockets) then EBADF
                           else if outcome.Made? then 0
                           else if outcome.InProgress? then EINPROGRESS else outcome.errno
    {
      hide Inv, Within;
      StepKeeps(View(), Connect(fd, !outcome.Failed?));
      d0 := FAILED;
      if fd !in sockets {
        lastErrno := EBADF;
        return;
      }
      match outcome
      case Made =>
        sockets := sockets[fd := sockets[fd].(connected := true)];
        lastErrno, d0 := 0, 0;
      case InProgress =>
        sockets := sockets[fd := sockets[fd].(connected := true)];
        lastErrno := EINPROGRESS;
      case Failed(errno) =>
        lastErrno := errno;
    }

    /** Dup2Socket(): a new entry for the same connection, on a chosen descriptor or the
        next one; only a table that grows must have room. */
    method Dup2SocketCall(fd: i32, target: i32, host: Host) returns (d0: int)
      requires Inv(View())
      modifies this`sockets, this`nextId, this`lastErrno
      ensures Inv(View()) && View() == Step(old(View()), Dup2(fd, target, host))
      ensures var made := Opens(old(View()), Dup2(fd, target, host));
              if made.Some? then d0 == made.value && lastErrno == 0
              else d0 == FAILED && lastErrno ==
                   if fd !in old(sockets) then EBADF
                   else if Full(old(View())) && (if target < 0 then old(nextId) else target) !in old(sockets)
                   then EMFILE
                   else host.errno
    {
      hide Inv, Within;
      StepKeeps(View(), Dup2(fd, target, host));
      d0 := FAILED;
      if fd !in sockets {
        lastErrno := EBADF;
        return;
      }
      var source := sockets[fd];
      var id := if target < 0 then nextId else target;
      if id !in sockets && |sockets| >= dtablesize {
        lastErrno := EMFILE;
        return;
      }
      if host.Refused? {
        lastErrno := host.errno;
        return;
      }
      if target < 0 {
        nextId := After(nextId);
      } else if target >= nextId {
        nextId := After(target);
      }
      sockets := sockets[id := NewEntry(host.conn).(listener := source.listener, connected := source.connected)];
      lastErrno, d0 := 0, id;
    }

    method CloseSocketCall(fd: i32) returns (d0: int)
      requires Inv(View())
      modifies this`sockets, this`lastErrno
      ensures Inv(View()) && View() == Step(old(View()), Close(fd))
      ensures if fd in old(sockets) then d0 == 0 && lastErrno == 0 else d0 == FAILED && lastErrno == EBADF
    {
      hide Inv, Within;
      StepKeeps(View(), Close(fd));
      if fd in sockets {
        sockets := sockets - {fd};
        d0, lastErrno := 0, 0;
      } else {
        assert sockets - {fd} == sockets;
        d0, lastErrno := FAILED, EBADF;
      }
    }

    /** setsockopt(SO_EVENTMASK): arms a descriptor; what it is no longer armed for is
        dropped from its queue. */
    method SetEventMask(fd: i32, mask: bv32) returns (d0: int)
      requires Inv(View())
      modifies this`sockets, this`lastErrno
      ensures Inv(View()) && View() == Step(old(View()), EventMask(fd, mask))
      ensures if fd in old(sockets) then d0 == 0 && lastErrno == 0 else d0 == FAILED && lastErrno == EBADF
    {
      hide Inv, Within;
      StepKeeps(View(), EventMask(fd, mask));
      if fd !in sockets {
        d0, lastErrno := FAILED, EBADF;
      } else {
        sockets := sockets[fd := sockets[fd].(mask := mask, pending := sockets[fd].pending & mask)];
        d0, lastErrno := 0, 0;
      }
    }

    /** SocketBaseTagList(SBTC_DTABLESIZE). */
    method SetTableSize(requested: u32)
      requires Inv(View())
      modifies this`dtablesize
      ensures Inv(View()) && View() == Step(old(View()), TableSize(requested))
    {
      hide Inv;
      StepKeeps(View(), TableSize(requested));
      var size: int := requested;
      if size < MAX_OPEN_SOCKETS { size := MAX_OPEN_SOCKETS; }
      if size > MAX_TABLE { size := MAX_TABLE; }
      if size > dtablesize { dtablesize := size; }
    }

    // --- GetSocketEvents ---

    method LeastOf(fds: set<i32>) returns (least: i32)
      requires fds != {}
      ensures IsLeast(fds, least)
    {
      var todo := fds;
      least :| least in todo;
      while todo != {}
        invariant todo <= fds && least in fds
        invariant forall g: i32 :: g in fds && g !in todo ==> least <= g
        decreases |todo|
      {
        var g :| g in todo;
        if g < least { least := g; }
        todo := todo - {g};
      }
    }

    /** The descriptors with something queued, in ascending order. */
    method Candidates() returns (fds: seq<i32>)
      ensures forall j, k :: 0 <= j < k < |fds| ==> fds[j] < fds[k]
      ensures forall g: i32 :: g in fds <==> g in Pending(View())
    {
      var todo := Pending(View());
      fds := [];
      while todo != {}
        invariant forall j, k :: 0 <= j < k < |fds| ==> fds[j] < fds[k]
        invariant forall g: i32 :: g in fds || g in todo <==> g in Pending(View())
        invariant forall j, g: i32 :: 0 <= j < |fds| && g in todo ==> fds[j] < g
        decreases |todo|
      {
        var least := LeastOf(todo);
        fds := fds + [least];
        todo := todo - {least};
      }
    }

    /** The first candidate past the cursor, or else the first. */
    method FindNext(fds: seq<i32>) returns (fd: i32)
      requires fds != [] && forall j, k :: 0 <= j < k < |fds| ==> fds[j] < fds[k]
      ensures IsNext((set g | g in fds), eventCursor, fd)
    {
      ghost var all := set g | g in fds;
      var i := 0;
      while i < |fds| && fds[i] <= eventCursor
        invariant 0 <= i <= |fds| && forall k :: 0 <= k < i ==> fds[k] <= eventCursor
      {
        i := i + 1;
      }
      fd := if i < |fds| then fds[i] else fds[0];
      if i < |fds| {
        assert fds[i] in all && fds[i] in Above(all, eventCursor);
      } else {
        assert Above(all, eventCursor) == {};
      }
    }

    /** Hands back one descriptor and everything queued for it, taking turns. */
    method GetSocketEvents() returns (d0: int, bits: Option<bv32>)
      requires Inv(View())
      modifies this`sockets, this`eventCursor, this`lastErrno
      ensures Inv(View()) && View() == Step(old(View()), Events) && lastErrno == 0
      ensures var fd := Returned(old(View()));
              if fd.None? then d0 == FAILED && bits == None
              else d0 == fd.value && bits == Some(old(sockets)[fd.value].pending)
    {
      hide Inv, IsNext, NextAfter;
      StepKeeps(View(), Events);
      var fds := Candidates();
      lastErrno := 0;
      ghost var all := set g | g in fds;
      assert all == Pending(View());
      if fds == [] {
        return FAILED, None;
      }
      assert fds[0] in all;
      var fd := FindNext(fds);
      NextUnique(all, eventCursor, fd);
      bits := Some(sockets[fd].pending);
      sockets := sockets[fd := sockets[fd].(pending := 0)];
      eventCursor := fd;
      d0 := fd;
    }

    // --- WaitSelect ---

    /** Lists the open descriptors below the bound that are in some set. */
    method ListInterests(nfds: i32, reading: FdSet, writing: FdSet, excepting: FdSet) returns (interests: seq<Interest>)
      ensures Interesting(interests, View(), nfds, GivenSets(reading, writing, excepting))
    {
      hide Given;
      ghost var sets := GivenSets(reading, writing, excepting);
      interests := [];
      var fd := 0;
      while fd < nfds
        invariant 0 <= fd && (fd <= nfds || fd == 0)
        invariant Interesting(interests, View(), fd, sets)
        invariant forall i :: 0 <= i < |interests| ==> interests[i].fd < fd
      {
        ghost var before := interests;
        if fd in sockets {
          var read := FdTest(reading, fd);
          var write := FdTest(writing, fd);
          var except := FdTest(excepting, fd);
          if read || write || except {
            interests := interests + [Interest(fd, read, write, except)];
          }
        }
        OneMoreInterest(before, interests, View(), fd, sets);
        fd := fd + 1;
      }
      NoneBelowZero(interests, View(), fd, nfds, sets);
    }

    /** Marks a descriptor, if ready, in a set it is not in yet. */
    method Mark(words: FdSet, ready: bool, fd: i32) returns (added: nat)
      requires ready ==> words != null && 0 <= fd < FD_SETSIZE && fd as int !in Given(words)
      modifies words
      ensures Given(words) == old(Given(words)) + if ready then {fd as int} else {}
      ensures |Given(words)| == |old(Given(words))| + added
    {
      hide Members;
      added := 0;
      if ready {
        FdAdd(words, fd);
        added := 1;
      }
    }

    /** Marks one interest in the sets it is ready in. */
    method MarkInterest(i: Interest, r: Revents, reading: FdSet, writing: FdSet, excepting: FdSet) returns (added: nat)
      requires Markable(i, reading, writing, excepting) && Distinct(reading, writing, excepting)
      requires NotYet(i, GivenSets(reading, writing, excepting))
      modifies reading, writing, excepting
      ensures GivenSets(reading, writing, excepting) == MarkedWith(old(GivenSets(reading, writing, excepting)), i, r)
      ensures GivenSets(reading, writing, excepting).Size()
              == old(GivenSets(reading, writing, excepting).Size()) + added
    {
      hide Ready, Given;
      var n0 := Mark(reading, i.read && Ready(Reading, r), i.fd);
      var n1 := Mark(writing, i.write && Ready(Writing, r), i.fd);
      var n2 := Mark(excepting, i.except && Ready(Excepting, r), i.fd);
      added := n0 + n1 + n2;
    }

    /** Clears the sets, then marks and counts the ready interests. */
    method MarkReady(interests: seq<Interest>, watched: map<i32, Revents>, reading: FdSet, writing: FdSet,
                     excepting: FdSet)
      returns (count: nat)
      requires Ascending(interests)
      requires forall i :: 0 <= i < |interests| ==> Markable(interests[i], reading, writing, excepting)
      requires Distinct(reading, writing, excepting)
      modifies reading, writing, excepting
      ensures GivenSets(reading, writing, excepting) == AllPicked(interests, watched)
      ensures count == GivenSets(reading, writing, excepting).Size()
    {
      hide Answer, AllPicked, Given, Ascending, Markable, Distinct, MarkedWith, NotYet;
      FdZero(reading);
      FdZero(writing);
      FdZero(excepting);
      count := 0;
      var k := 0;
      NonePicked(interests, watched);
      while k < |interests|
        invariant 0 <= k <= |interests|
        invariant GivenSets(reading, writing, excepting) == AllPicked(interests[..k], watched)
        invariant count == GivenSets(reading, writing, excepting).Size()
      {
        PickedMore(interests, k, watched);
        var added := MarkInterest(interests[k], Answer(watched, interests[k].fd), reading, writing, excepting);
        count := count + added;
        k := k + 1;
      }
      assert interests[..k] == interests;
    }

    /** Queues what poll says of every armed descriptor, in any order; whether any was new. */
    method QueueEvents(ready: map<i32, Revents>) returns (anyNew: bool)
      modifies this`sockets
      ensures View() == Step(old(View()), Poll(ready)) && anyNew == AnyNews(old(View()), ready)
    {
      hide NewBits, QueueBits, HalfQueued, NewsOutside;
      anyNew := false;
      ghost var was := sockets;
      var todo := sockets.Keys;
      NoneQueued(was, ready);
      while todo != {}
        invariant HalfQueued(was, sockets, todo, ready) && anyNew == NewsOutside(was, todo, ready)
        decreases |todo|
      {
        var fd :| fd in todo;
        QueueOne(was, sockets, todo, fd, ready);
        var e := sockets[fd];
        if e.mask != 0 && fd in ready {
          var bits := NewBits(e, ready[fd]);
          if bits != 0 {
            anyNew := true;
          }
          sockets := sockets[fd := QueueBits(e, bits)];
        }
        todo := todo - {fd};
      }
      AllQueued(old(View()), sockets, ready);
    }

    /** The part of WaitSelect after the signal check. */
    method WaitSelectPoll(nfds: i32, reading: FdSet, writing: FdSet, excepting: FdSet, poll: Polled) returns (d0: int)
      requires Inv(View()) && Distinct(reading, writing, excepting)
      modifies this`sockets, this`lastErrno, this`received, reading, writing, excepting
      ensures Inv(View())
      ensures poll.PollFailed? ==>
                d0 == FAILED && lastErrno == poll.errno && View() == old(View()) && received == old(received)
                && GivenSets(reading, writing, excepting) == old(GivenSets(reading, writing, excepting))
      ensures poll.Polled? ==>
                Answered(old(View()), nfds, poll.watched, d0,
                         old(GivenSets(reading, writing, excepting)),
                         GivenSets(reading, writing, excepting))
                && lastErrno == 0 && View() == Step(old(View()), Poll(poll.armed))
                && received == (if AnyNews(old(View()), poll.armed) then Raised(old(received), sigEventMask)
                                else old(received))
    {
      hide Inv, Given, Picked, ReadyOnes, Interesting, Queued, QueuedEntry, AnyNews, Raised, AsAsked;
      ghost var t, sets := View(), GivenSets(reading, writing, excepting);
      StepKeeps(t, Poll(if poll.Polled? then poll.armed else map[]));
      var interests := ListInterests(nfds, reading, writing, excepting);
      if poll.PollFailed? {
        lastErrno := poll.errno;
        return FAILED;
      }
      AllMarkable(interests, t, nfds, reading, writing, excepting);
      GivenInRange(reading, writing, excepting);
      PickedAnswers(interests, t, nfds, sets, poll.watched);
      d0 := MarkReady(interests, poll.watched, reading, writing, excepting);
      var anyNew := QueueEvents(poll.armed);
      if anyNew && sigEventMask != 0 {
        received := received | sigEventMask;
      }
      RaisedIs(old(received), sigEventMask);
      lastErrno := 0;
    }

    /** WaitSelect(): a requested signal that is already pending is taken and reported, and
        nothing else happens; otherwise the sets are polled, and the signal longword cleared. */
    method WaitSelectCall(nfds: i32, reading: FdSet, writing: FdSet, excepting: FdSet, signals: Option<bv32>,
                          poll: Polled)
      returns (d0: int, signalled: Option<bv32>)
      requires Inv(View()) && Distinct(reading, writing, excepting)
      modifies this`sockets, this`lastErrno, this`received, reading, writing, excepting
      ensures Inv(View())
      ensures signals.Some? && Both(old(received), signals.value) != 0 ==>
                d0 == 0 && lastErrno == 0 && signalled == Some(Both(old(received), signals.value))
                && received == Taken(old(received), Both(old(received), signals.value)) && View() == old(View())
                && GivenSets(reading, writing, excepting) == old(GivenSets(reading, writing, excepting))
      ensures !(signals.Some? && Both(old(received), signals.value) != 0) ==>
                && (signalled == if signals.Some? then Some(0) else None)
                && (poll.PollFailed? ==>
                      d0 == FAILED && lastErrno == poll.errno && View() == old(View()) && received == old(received)
                      && GivenSets(reading, writing, excepting) == old(GivenSets(reading, writing, excepting)))
                && (poll.Polled? ==>
                      Answered(old(View()), nfds, poll.watched, d0,
                               old(GivenSets(reading, writing, excepting)),
                               GivenSets(reading, writing, excepting))
                      && lastErrno == 0 && View() == Step(old(View()), Poll(poll.armed))
                      && received == if AnyNews(old(View()), poll.armed) then Raised(old(received), sigEventMask)
                                     else old(received))
    {
      hide Inv, Given, Step, Answered, Taken, Both, AnyNews, Raised;
      if signals.Some? {
        var matched := Both(received, signals.value);
        if matched != 0 {
          received := Taken(received, matched);
          lastErrno := 0;
          return 0, Some(matched);
        }
      }
      d0 := WaitSelectPoll(nfds, reading, writing, excepting, poll);
      signalled := if signals.Some? then Some(0) else None;
    }
  }

  function Both(a: bv32, b: bv32): bv32 { a & b }

  function Taken(received: bv32, matched: bv32): bv32 { received & !matched }

  /** The signals with the event signal raised; a zero mask raises none. */
  function Raised(received: bv32, mask: bv32): bv32 { received | mask }

  lemma RaisedIs(received: bv32, mask: bv32)
    ensures Raised(received, mask) == received | mask && Raised(received, 0) == received
  {
  }

  predicate News(e: Entry, fd: i32, ready: map<i32, Revents>) {
    e.mask != 0 && fd in ready && NewBits(e, ready[fd]) != 0
  }

  /** The poll queued something for some descriptor. */
  ghost predicate AnyNews(t: Table, ready: map<i32, Revents>) {
    exists fd: i32 :: fd in t.sockets && News(t.sockets[fd], fd, ready)
  }

  /** Every descriptor that is not still to do is queued. */
  ghost predicate HalfQueued(was: map<i32, Entry>, now: map<i32, Entry>, todo: set<i32>, ready: map<i32, Revents>) {
    && now.Keys == was.Keys && todo <= was.Keys
    && forall fd: i32 :: fd in was ==> now[fd] == if fd in todo then was[fd] else QueuedEntry(was[fd], fd, ready)
  }

  ghost predicate NewsOutside(was: map<i32, Entry>, todo: set<i32>, ready: map<i32, Revents>) {
    exists fd: i32 :: fd in was && fd !in todo && News(was[fd], fd, ready)
  }

  lemma NoneQueued(was: map<i32, Entry>, ready: map<i32, Revents>)
    ensures HalfQueued(was, was, was.Keys, ready) && !NewsOutside(was, was.Keys, ready)
  {
  }

  lemma QueueOne(was: map<i32, Entry>, now: map<i32, Entry>, todo: set<i32>, fd: i32, ready: map<i32, Revents>)
    requires HalfQueued(was, now, todo, ready) && fd in todo
    ensures fd in now && fd in was && now[fd] == was[fd]
    ensures HalfQueued(was, now[fd := QueuedEntry(was[fd], fd, ready)], todo - {fd}, ready)
    ensures QueuedEntry(was[fd], fd, ready) == was[fd] ==> HalfQueued(was, now, todo - {fd}, ready)
    ensures NewsOutside(was, todo - {fd}, ready) <==> NewsOutside(was, todo, ready) || News(was[fd], fd, ready)
  {
    hide QueuedEntry, News;
    if News(was[fd], fd, ready) {
      assert fd !in todo - {fd};
    }
  }

  lemma AllQueued(t: Table, now: map<i32, Entry>, ready: map<i32, Revents>)
    requires HalfQueued(t.sockets, now, {}, ready)
    ensures now == Queued(t, ready) && NewsOutside(t.sockets, {}, ready) == AnyNews(t, ready)
  {
    hide QueuedEntry, News;
  }

  /** WaitSelect's answer: each set holds just those of its descriptors that are open,
      below the bound and ready, and the result counts the three sets together. */
  ghost predicate Answered(t: Table, nfds: i32, watched: map<i32, Revents>, d0: int, asked: Sets, sets: Sets) {
    && sets.read == ReadyOnes(asked.read, Reading, t, nfds, watched)
    && sets.write == ReadyOnes(asked.write, Writing, t, nfds, watched)
    && sets.except == ReadyOnes(asked.except, Excepting, t, nfds, watched)
    && d0 == sets.Size()
  }

  lemma GivenInRange(reading: FdSet, writing: FdSet, excepting: FdSet)
    ensures InRange(GivenSets(reading, writing, excepting))
  {
  }

  lemma AllMarkable(interests: seq<Interest>, t: Table, nfds: i32, reading: FdSet, writing: FdSet, excepting: FdSet)
    requires Interesting(interests, t, nfds, GivenSets(reading, writing, excepting))
    ensures Ascending(interests)
    ensures forall i :: 0 <= i < |interests| ==> Markable(interests[i], reading, writing, excepting)
  {
  }

  lemma PickedAnswers(interests: seq<Interest>, t: Table, nfds: i32, sets: Sets, watched: map<i32, Revents>)
    requires Interesting(interests, t, nfds, sets) && InRange(sets)
    ensures AllPicked(interests, watched) ==
            Sets(ReadyOnes(sets.read, Reading, t, nfds, watched), ReadyOnes(sets.write, Writing, t, nfds, watched),
                 ReadyOnes(sets.except, Excepting, t, nfds, watched))
  {
    hide Picked, ReadyOnes, Interesting;
    PickedReady(interests, Reading, t, nfds, sets, watched);
    PickedReady(interests, Writing, t, nfds, sets, watched);
    PickedReady(interests, Excepting, t, nfds, sets, watched);
  }

  /** The sets do not share memory. */
  predicate Distinct(reading: FdSet, writing: FdSet, excepting: FdSet) {
    && (reading == null || (reading != writing && reading != excepting))
    && (writing == null || writing != excepting)
  }

  /** The interest names sets that were given, and fits them. */
  predicate Markable(i: Interest, reading: FdSet, writing: FdSet, excepting: FdSet) {
    && (i.read ==> reading != null) && (i.write ==> writing != null) && (i.except ==> excepting != null)
    && 0 <= i.fd < FD_SETSIZE
  }

  ghost function GivenSets(reading: FdSet, writing: FdSet, excepting: FdSet): Sets
    reads reading, writing, excepting
  {
    Sets(Given(reading), Given(writing), Given(excepting))
  }

  predicate NotYet(i: Interest, sets: Sets) {
    i.fd as int !in sets.read && i.fd as int !in sets.write && i.fd as int !in sets.except
  }

  function MarkedWith(sets: Sets, i: Interest, r: Revents): Sets {
    Sets(sets.read + (if i.read && Ready(Reading, r) then {i.fd as int} else {}),
         sets.write + (if i.write && Ready(Writing, r) then {i.fd as int} else {}),
         sets.except + (if i.except && Ready(Excepting, r) then {i.fd as int} else {}))
  }

  /** What the interests pick for the three sets. */
  ghost function AllPicked(interests: seq<Interest>, watched: map<i32, Revents>): Sets {
    Sets(Picked(interests, Reading, watched), Picked(interests, Writing, watched),
         Picked(interests, Excepting, watched))
  }

  lemma NonePicked(interests: seq<Interest>, watched: map<i32, Revents>)
    ensures AllPicked(interests[..0], watched) == Sets({}, {}, {})
  {
  }

  lemma PickedMore(interests: seq<Interest>, k: nat, watched: map<i32, Revents>)
    requires k < |interests| && Ascending(interests)
    ensures NotYet(interests[k], AllPicked(interests[..k], watched))
    ensures AllPicked(interests[..k + 1], watched)
         == MarkedWith(AllPicked(interests[..k], watched), interests[k], Answer(watched, interests[k].fd))
  {
    hide Picked, Ready, Answer;
    PickedNext(interests, k, Reading, watched);
    PickedNext(interests, k, Writing, watched);
    PickedNext(interests, k, Excepting, watched);
  }


  lemma OneMoreInterest(before: seq<Interest>, interests: seq<Interest>, t: Table, fd: i32, sets: Sets)
    requires fd < 0x7FFF_FFFF && Interesting(before, t, fd, sets)
    requires forall i :: 0 <= i < |before| ==> before[i].fd < fd
    requires var i := Interest(fd, fd as int in sets.read, fd as int in sets.write, fd as int in sets.except);
             interests == if Interests(fd, t, fd + 1, sets) then before + [i] else before
    ensures Interesting(interests, t, fd + 1, sets)
  {
    forall g: i32 | Interests(g, t, fd + 1, sets) ensures Listed(interests, g) {
      if g == fd {
        assert interests[|before|].fd == g;
      } else {
        assert Interests(g, t, fd, sets);
        var i :| 0 <= i < |before| && before[i].fd == g;
        assert interests[i].fd == g;
      }
    }
  }

  lemma NoneBelowZero(interests: seq<Interest>, t: Table, fd: i32, nfds: i32, sets: Sets)
    requires Interesting(interests, t, fd, sets) && (fd == nfds || (fd == 0 && nfds < 0))
    ensures Interesting(interests, t, nfds, sets)
  {
  }
}
