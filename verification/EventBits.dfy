// Which events a poll answer queues, bit by bit, and how they reach GetSocketEvents.

module EventBits {
  import opened Guest
  import opened SocketTable
  import opened EventQueue
  import opened WaitSelect
  import opened SocketLibrary

  /** The bit is among the bits. */
  predicate Has(bits: bv32, bit: bv32) { bits & bit != 0 }

  /** One of the five events. */
  predicate IsEvent(bit: bv32) {
    bit == FD_ACCEPT || bit == FD_READ || bit == FD_WRITE || bit == FD_ERROR || bit == FD_CLOSE
  }

  /** When one poll answer is this event for a descriptor: a connection to accept at a
      listener, data anywhere else, room to write or a hang-up where there is a connection,
      the end of the data where reading is not armed, and an error. */
  predicate Happens(e: Entry, r: Revents, bit: bv32) {
    Has(e.mask, bit)
    && if bit == FD_ACCEPT then e.listener && r.readable
       else if bit == FD_READ then !e.listener && r.readable
       else if bit == FD_CLOSE then
         (e.connected && r.hungUp) || (!e.listener && !Has(e.mask, FD_READ) && r.readable && r.eof)
       else if bit == FD_WRITE then e.connected && r.writable && !e.listener
       else bit == FD_ERROR && r.failed
  }

  // --- Bits ---

  function Kept(bits: bv32, mask: bv32): bv32 { bits & mask }

  /** The bits that are no events. */
  function Others(bits: bv32): bv32 { bits & 0xFFFF_FF86 }

  lemma KeptUnion(a: bv32, b: bv32, mask: bv32)
    ensures Kept(Union(a, b), mask) == Union(Kept(a, mask), Kept(b, mask))
  {
  }

  lemma UnionIsNone(a: bv32, b: bv32)
    ensures Union(a, b) == 0 <==> a == 0 && b == 0
  {
  }

  lemma HasIsKept(bits: bv32, bit: bv32)
    ensures Has(bits, bit) <==> Kept(bits, bit) != 0
  {
  }

  lemma HasUnion(a: bv32, b: bv32, bit: bv32)
    ensures Has(Union(a, b), bit) <==> Has(a, bit) || Has(b, bit)
  {
    hide Has, Kept, Union;
    HasIsKept(a, bit);
    HasIsKept(b, bit);
    HasIsKept(Union(a, b), bit);
    KeptUnion(a, b, bit);
    UnionIsNone(Kept(a, bit), Kept(b, bit));
  }

  lemma HasBoth(mask: bv32, kept: bv32, bit: bv32)
    requires IsEvent(bit) && IsEvent(kept)
    ensures Has(Kept(mask, kept), bit) <==> bit == kept && Has(mask, bit)
  {
  }

  lemma HasNone(bit: bv32)
    ensures !Has(0, bit)
  {
  }

  lemma HasMasked(bits: bv32, mask: bv32, bit: bv32)
    requires IsEvent(bit)
    ensures Has(Kept(bits, mask), bit) <==> Has(bits, bit) && Has(mask, bit)
  {
  }

  lemma HasAny(bits: bv32, bit: bv32)
    requires Has(bits, bit)
    ensures bits != 0
  {
  }

  lemma OthersKept(mask: bv32, kept: bv32)
    requires IsEvent(kept)
    ensures Others(Kept(mask, kept)) == 0 && Others(0) == 0
  {
  }

  lemma OthersUnion(a: bv32, b: bv32)
    requires Others(b) == 0
    ensures Others(Union(a, b)) == Others(a)
  {
  }

  lemma Events()
    ensures IsEvent(FD_ACCEPT) && IsEvent(FD_READ) && IsEvent(FD_CLOSE) && IsEvent(FD_WRITE) && IsEvent(FD_ERROR)
    ensures FD_ACCEPT != FD_READ && FD_READ != FD_CLOSE && FD_ACCEPT != FD_CLOSE
    ensures FD_WRITE != FD_CLOSE && FD_WRITE != FD_ERROR && FD_CLOSE != FD_ERROR
    ensures FD_ACCEPT != FD_WRITE && FD_ACCEPT != FD_ERROR && FD_READ != FD_WRITE && FD_READ != FD_ERROR
  {
  }

  // --- What an answer adds ---

  lemma EventMeans(happened: bool, mask: bv32, event: bv32, bit: bv32)
    requires IsEvent(event) && IsEvent(bit)
    ensures Has(EventIf(happened, mask, event), bit) <==> happened && bit == event && Has(mask, bit)
    ensures Others(EventIf(happened, mask, event)) == 0
  {
    hide IsEvent, Has, Kept, Others, EventIf;
    EventIsKept(happened, mask, event);
    HasNone(bit);
    HasBoth(mask, event, bit);
    OthersKept(mask, event);
  }

  lemma EventIsKept(happened: bool, mask: bv32, event: bv32)
    ensures EventIf(happened, mask, event) == if happened then Kept(mask, event) else 0
  {
  }

  lemma InputMeans(e: Entry, r: Revents, bit: bv32)
    requires IsEvent(bit)
    ensures Has(InputBits(e, r), bit) <==>
              Has(e.mask, bit) && r.readable
              && if bit == FD_ACCEPT then e.listener
                 else if bit == FD_READ then !e.listener
                 else bit == FD_CLOSE && !e.listener && !Has(e.mask, FD_READ) && r.eof
    ensures Others(InputBits(e, r)) == 0
  {
    hide IsEvent, Has, EventIf, Others, Within;
    Events();
    ReadArmed(e.mask);
    EventMeans(r.readable, e.mask, FD_ACCEPT, bit);
    EventMeans(r.readable, e.mask, FD_READ, bit);
    EventMeans(r.readable && r.eof, e.mask, FD_CLOSE, bit);
  }

  lemma ReadArmed(mask: bv32)
    ensures Has(mask, FD_READ) <==> mask & FD_READ != 0
  {
  }

  lemma ConnectionMeans(e: Entry, r: Revents, bit: bv32)
    requires IsEvent(bit)
    ensures Has(ConnectionBits(e, r), bit) <==>
              Has(e.mask, bit) && e.connected
              && ((bit == FD_CLOSE && r.hungUp) || (bit == FD_WRITE && r.writable && !e.listener))
    ensures Others(ConnectionBits(e, r)) == 0
  {
    hide IsEvent, Has, EventIf, Others, Union, Within;
    Events();
    var hung := EventIf(e.connected && r.hungUp, e.mask, FD_CLOSE);
    var room := EventIf(e.connected && r.writable && !e.listener, e.mask, FD_WRITE);
    EventMeans(e.connected && r.hungUp, e.mask, FD_CLOSE, bit);
    EventMeans(e.connected && r.writable && !e.listener, e.mask, FD_WRITE, bit);
    HasUnion(hung, room, bit);
    OthersUnion(hung, room);
  }

  lemma EventsOnly(bit: bv32)
    requires IsEvent(bit)
    ensures bit == FD_ACCEPT || bit == FD_READ || bit == FD_WRITE || bit == FD_ERROR || bit == FD_CLOSE
  {
  }

  lemma HasThree(a: bv32, b: bv32, c: bv32, bit: bv32)
    ensures Has(Union(Union(a, b), c), bit) <==> Has(a, bit) || Has(b, bit) || Has(c, bit)
    ensures Others(b) == 0 && Others(c) == 0 ==> Others(Union(Union(a, b), c)) == Others(a)
  {
    hide Has, Union, Others;
    HasUnion(Union(a, b), c, bit);
    HasUnion(a, b, bit);
    if Others(b) == 0 && Others(c) == 0 {
      OthersUnion(a, b);
      OthersUnion(Union(a, b), c);
    }
  }

  lemma FailedMeans(e: Entry, r: Revents, bit: bv32)
    requires IsEvent(bit)
    ensures Has(FailedBits(e, r), bit) <==> bit == FD_ERROR && Has(e.mask, bit) && r.failed
    ensures Others(FailedBits(e, r)) == 0
  {
    hide IsEvent, Has, EventIf, Others, Within;
    Events();
    EventMeans(r.failed, e.mask, FD_ERROR, bit);
  }

  lemma NewBitsJoined(e: Entry, r: Revents)
    ensures NewBits(e, r) == Union(Union(InputBits(e, r), ConnectionBits(e, r)), FailedBits(e, r))
  {
    hide Union, InputBits, ConnectionBits, FailedBits, Within;
  }

  /** One poll answer queues exactly the events that happened, and no other bit. */
  lemma NewBitsIff(e: Entry, r: Revents, bit: bv32)
    requires IsEvent(bit)
    ensures Has(NewBits(e, r), bit) <==> Happens(e, r, bit)
    ensures Others(NewBits(e, r)) == 0
  {
    hide InputBits, ConnectionBits, FailedBits, NewBits, Has, Kept, Others, Union, IsEvent, Within;
    NewBitsJoined(e, r);
    InputMeans(e, r, bit);
    ConnectionMeans(e, r, bit);
    FailedMeans(e, r, bit);
    HasThree(InputBits(e, r), ConnectionBits(e, r), FailedBits(e, r), bit);
    Events();
    EventsOnly(bit);
  }

  lemma SomeEvent(bits: bv32)
    requires Others(bits) == 0 && bits != 0
    ensures Has(bits, FD_ACCEPT) || Has(bits, FD_READ) || Has(bits, FD_WRITE) || Has(bits, FD_ERROR)
            || Has(bits, FD_CLOSE)
  {
  }

  /** A poll is news for a descriptor, and may raise the event signal, if and only if some event
      happened. */
  lemma NewsIff(e: Entry, fd: i32, ready: map<i32, Revents>)
    ensures News(e, fd, ready) <==> fd in ready && exists bit :: IsEvent(bit) && Happens(e, ready[fd], bit)
  {
    hide NewBits, Has, Others, Happens, IsEvent;
    if fd in ready {
      Events();
      var r := ready[fd];
      NewBitsIff(e, r, FD_ACCEPT);
      NewBitsIff(e, r, FD_READ);
      NewBitsIff(e, r, FD_WRITE);
      NewBitsIff(e, r, FD_ERROR);
      NewBitsIff(e, r, FD_CLOSE);
      if NewBits(e, r) != 0 { SomeEvent(NewBits(e, r)); }
      if bit :| IsEvent(bit) && Happens(e, r, bit) {
        NewBitsIff(e, r, bit);
        HasAny(NewBits(e, r), bit);
        UnarmedNothing(e, ready, fd, bit);
      }
    }
  }

  /** A WaitSelect that finds signals asked for takes those and leaves all others. */
  lemma SignalsTaken(received: bv32, asked: bv32)
    ensures var matched := Both(received, asked);
            var left := Taken(received, matched);
            && matched & !asked == 0 && left & asked == 0 && left & matched == 0 && left | matched == received
  {
    hide Both, Taken;
    NoneBeside(received, asked);
    NoneLeft(received, asked);
    NoneTwice(received, Both(received, asked));
    AllThere(received, asked);
  }

  lemma NoneBeside(received: bv32, asked: bv32)
    ensures Both(received, asked) & !asked == 0
  {
  }

  lemma NoneLeft(received: bv32, asked: bv32)
    ensures Taken(received, Both(received, asked)) & asked == 0
  {
  }

  lemma NoneTwice(received: bv32, matched: bv32)
    ensures Taken(received, matched) & matched == 0
  {
  }

  lemma AllThere(received: bv32, asked: bv32)
    ensures Taken(received, Both(received, asked)) | Both(received, asked) == received
  {
  }

  // --- On the table ---

  /** After a poll an event is queued for a descriptor if and only if it was queued before or
      the descriptor was answered for and the event happened; bits that are no events, and
      everything else about the descriptor, stay as they were. */
  lemma PollQueues(t: Table, ready: map<i32, Revents>, fd: i32, bit: bv32)
    requires fd in t.sockets && IsEvent(bit)
    ensures var t' := Step(t, Poll(ready));
            var e := t.sockets[fd];
            && t'.sockets.Keys == t.sockets.Keys && t'.sockets[fd] == e.(pending := t'.sockets[fd].pending)
            && (Has(t'.sockets[fd].pending, bit) <==>
                  Has(e.pending, bit) || (fd in ready && Happens(e, ready[fd], bit)))
            && Others(t'.sockets[fd].pending) == Others(e.pending)
  {
    hide NewBits, IsEvent, Happens, Has, QueueBits, Others, Union;
    var e := t.sockets[fd];
    PollEntry(t, ready, fd);
    UnarmedNothing(e, ready, fd, bit);
    if fd in ready {
      NewBitsIff(e, ready[fd], bit);
      HasUnion(e.pending, NewBits(e, ready[fd]), bit);
      OthersUnion(e.pending, NewBits(e, ready[fd]));
    }
  }

  lemma PollEntry(t: Table, ready: map<i32, Revents>, fd: i32)
    requires fd in t.sockets
    ensures var t' := Step(t, Poll(ready));
            var e := t.sockets[fd];
            && t'.sockets.Keys == t.sockets.Keys
            && t'.sockets[fd] ==
               if e.mask != 0 && fd in ready then e.(pending := Union(e.pending, NewBits(e, ready[fd]))) else e
  {
    hide NewBits;
  }

  lemma UnarmedNothing(e: Entry, ready: map<i32, Revents>, fd: i32, bit: bv32)
    ensures fd in ready && e.mask == 0 ==> !Happens(e, ready[fd], bit)
  {
  }

  /** After SO_EVENTMASK a descriptor is armed for the events asked for, and of what was
      queued those stay that it is armed for. */
  lemma MaskArms(t: Table, fd: i32, mask: bv32, bit: bv32)
    requires fd in t.sockets && IsEvent(bit)
    ensures var t' := Step(t, EventMask(fd, mask));
            && t'.sockets == t.sockets[fd := t'.sockets[fd]] && t'.nextId == t.nextId && t'.size == t.size
            && t'.sockets[fd] == t.sockets[fd].(mask := mask, pending := t'.sockets[fd].pending)
            && (Has(t'.sockets[fd].pending, bit) <==> Has(t.sockets[fd].pending, bit) && Has(mask, bit))
  {
    hide Has, IsEvent, Kept;
    MaskEntry(t, fd, mask);
    HasMasked(t.sockets[fd].pending, mask, bit);
  }

  lemma MaskEntry(t: Table, fd: i32, mask: bv32)
    requires fd in t.sockets
    ensures var t' := Step(t, EventMask(fd, mask));
            var e := t.sockets[fd].(mask := mask, pending := Kept(t.sockets[fd].pending, mask));
            && t'.sockets == t.sockets[fd := e] && t'.nextId == t.nextId && t'.size == t.size
  {
    hide Kept, Armed, Within;
    ArmedKept(t.sockets[fd], mask);
  }

  lemma ArmedKept(e: Entry, mask: bv32)
    ensures Armed(e, mask) == e.(mask := mask, pending := Kept(e.pending, mask))
  {
  }

  /** A table size asked for becomes the size, held to 64..4096, unless it would shrink. */
  lemma SizeAsked(t: Table, requested: u32)
    requires MAX_OPEN_SOCKETS <= t.size <= MAX_TABLE
    ensures var size := Step(t, TableSize(requested)).size;
            && (64 <= requested <= 4096 && requested > t.size ==> size == requested)
            && (requested > 4096 ==> size == 4096)
            && (requested <= t.size ==> size == t.size)
            && Step(t, TableSize(requested)).sockets == t.sockets
  {
  }

  /** From arming to the answer: a descriptor armed and then polled is handed back, with the
      descriptors that wait beside it, exactly once and with exactly the events that were
      queued and stayed armed or happened, if there are any, and otherwise not. */
  lemma {:induction false} ArmedPolledReported(t: Table, fd: i32, mask: bv32, ready: map<i32, Revents>, bit: bv32)
    requires fd in t.sockets && IsEvent(bit)
    ensures var t' := Step(Step(t, EventMask(fd, mask)), Poll(ready));
            var reports := Reports(t', Asks(|Pending(t')|));
            var armed := t.sockets[fd].(mask := mask);
            var due := (Has(t.sockets[fd].pending, bit) && Has(mask, bit))
                       || (fd in ready && Happens(armed, ready[fd], bit));
            && (due ==> exists i :: 0 <= i < |reports| && reports[i].fd == fd && Has(reports[i].bits, bit))
            && (!due ==> forall i :: 0 <= i < |reports| && reports[i].fd == fd ==> !Has(reports[i].bits, bit))
            && (forall i, j :: 0 <= i < j < |reports| ==> reports[i].fd != reports[j].fd)
  {
    hide Step, Has, Happens, IsEvent, Reports;
    var t1 := Step(t, EventMask(fd, mask));
    var t' := Step(t1, Poll(ready));
    MaskArms(t, fd, mask, bit);
    PollQueues(t1, ready, fd, bit);
    SameHappens(t.sockets[fd].(mask := mask), t1.sockets[fd], ready, fd, bit);
    DrainsOnce(t');
    if Has(t'.sockets[fd].pending, bit) {
      HasAny(t'.sockets[fd].pending, bit);
      assert fd in Pending(t');
      assert Reported(Reports(t', Asks(|Pending(t')|)), fd);
    }
  }

  lemma SameHappens(e: Entry, e': Entry, ready: map<i32, Revents>, fd: i32, bit: bv32)
    requires e' == e.(pending := e'.pending)
    ensures fd in ready ==> (Happens(e', ready[fd], bit) <==> Happens(e, ready[fd], bit))
  {
  }

  // --- The three sets ---

  /** Data, a hang-up and an error make a descriptor ready for reading, room and an error for
      writing, urgent data for the third set. */
  lemma AnswersReady(t: Table, asked: set<int>, nfds: i32, watched: map<i32, Revents>, fd: i32)
    requires fd as int in asked && fd < nfds && fd in t.sockets && fd in watched
    ensures var r := watched[fd];
            && (fd as int in ReadyOnes(asked, Reading, t, nfds, watched) <==> r.readable || r.hungUp || r.failed)
            && (fd as int in ReadyOnes(asked, Writing, t, nfds, watched) <==> r.writable || r.failed)
            && (fd as int in ReadyOnes(asked, Excepting, t, nfds, watched) <==> r.urgent)
  {
  }
}
