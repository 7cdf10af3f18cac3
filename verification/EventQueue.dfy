// GetSocketEvents: round robin over the descriptors with something queued.

module EventQueue {
  import opened Guest
  import opened SocketTable

  /** How far a descriptor is past the cursor, going round. */
  function Rank(cursor: i32, fd: i32): (r: nat)
    ensures 0 < r <= 0x1_0000_0000
  {
    if fd > cursor then fd - cursor else fd - cursor + 0x1_0000_0000
  }

  lemma NextIsNearest(fds: set<i32>, cursor: i32, fd: i32, other: i32)
    requires IsNext(fds, cursor, fd) && other in fds && other != fd
    ensures Rank(cursor, fd) < Rank(cursor, other)
  {
    AboveHolds(fds, cursor, other);
    AboveHolds(fds, cursor, fd);
  }

  lemma AboveHolds(fds: set<i32>, cursor: i32, fd: i32)
    requires fd in fds
    ensures fd > cursor <==> fd in Above(fds, cursor)
  {
  }

  // --- What a run reports ---

  datatype Report = Report(fd: i32, bits: bv32)

  ghost function Reports(t: Table, calls: seq<Call>): (r: seq<Report>)
    decreases |calls|
  {
    if calls == [] then []
    else
      (if calls[0].Events? && Returned(t).Some? then
         [Report(Returned(t).value, t.sockets[Returned(t).value].pending)]
       else [])
      + Reports(Step(t, calls[0]), calls[1..])
  }

  /** All through the run the descriptor stays open with something queued, and it is not
      handed back. */
  ghost predicate Waits(t: Table, calls: seq<Call>, d: i32)
    decreases |calls|
  {
    && d in Pending(t)
    && (calls != [] ==>
          && !(calls[0].Events? && Returned(t) == Some(d))
          && Waits(Step(t, calls[0]), calls[1..], d))
  }

  /** Where the cursor is, on its way round from where it was to the descriptor. */
  ghost predicate OnTheWay(start: i32, cursor: i32, done: nat, d: i32) {
    if done == 0 then cursor == start else done == Rank(start, cursor) && done < Rank(start, d)
  }

  lemma NextOnTheWay(fds: set<i32>, start: i32, cursor: i32, done: nat, d: i32, fd: i32)
    requires OnTheWay(start, cursor, done, d) && d in fds && IsNext(fds, cursor, fd) && fd != d
    ensures done < Rank(start, fd) < Rank(start, d)
  {
    NextIsNearest(fds, cursor, fd, d);
  }

  ghost predicate Climbs(start: i32, done: nat, reports: seq<Report>, d: i32) {
    && (forall i :: 0 <= i < |reports| ==> done < Rank(start, reports[i].fd) < Rank(start, d))
    && (forall i, j :: 0 <= i < j < |reports| ==> Rank(start, reports[i].fd) < Rank(start, reports[j].fd))
  }

  lemma ClimbsNone(start: i32, done: nat, d: i32)
    ensures Climbs(start, done, [], d)
  {
  }

  lemma StillOnTheWay(start: i32, cursor: i32, d: i32)
    requires Rank(start, cursor) < Rank(start, d)
    ensures OnTheWay(start, cursor, Rank(start, cursor), d)
  {
  }

  lemma ClimbsMore(start: i32, done: nat, first: Report, rest: seq<Report>, d: i32)
    requires done < Rank(start, first.fd) < Rank(start, d) && Climbs(start, Rank(start, first.fd), rest, d)
    ensures Climbs(start, done, [first] + rest, d)
  {
    hide Rank;
  }

  lemma CursorStays(t: Table, call: Call)
    requires !call.Events?
    ensures Step(t, call).cursor == t.cursor
  {
    hide Queued, Armed, OpenedEntry, Opens, NextId, Returned;
  }

  lemma EventsStep(t: Table)
    ensures Returned(t).None? ==> Step(t, Events) == t
    ensures Returned(t).Some? ==>
              Step(t, Events).cursor == Returned(t).value && IsNext(Pending(t), t.cursor, Returned(t).value)
  {
    hide IsNext;
  }

  lemma {:induction false} ReportsClimb(start: i32, done: nat, t: Table, calls: seq<Call>, d: i32)
    requires Waits(t, calls, d) && OnTheWay(start, t.cursor, done, d)
    ensures Climbs(start, done, Reports(t, calls), d)
    decreases |calls|
  {
    hide Step, IsNext, Pending, Returned, Climbs, OnTheWay;
    if calls == [] {
      ClimbsNone(start, done, d);
    } else {
      var t' := Step(t, calls[0]);
      if calls[0].Events? && Returned(t).Some? {
        var fd := Returned(t).value;
        EventsStep(t);
        NextOnTheWay(Pending(t), start, t.cursor, done, d, fd);
        StillOnTheWay(start, fd, d);
        ReportsClimb(start, Rank(start, fd), t', calls[1..], d);
        ClimbsMore(start, done, Report(fd, t.sockets[fd].pending), Reports(t', calls[1..]), d);
      } else {
        if calls[0].Events? { EventsStep(t); } else { CursorStays(t, calls[0]); }
        ReportsClimb(start, done, t', calls[1..], d);
        assert Reports(t, calls) == Reports(t', calls[1..]);
      }
    }
  }

  /** Bounded waiting: in any run of any calls, while a descriptor waits no other is
      handed back twice. */
  lemma {:induction false} NoneTwiceWhileWaiting(t: Table, calls: seq<Call>, d: i32)
    requires Waits(t, calls, d)
    ensures var reports := Reports(t, calls);
            && (forall i :: 0 <= i < |reports| ==> reports[i].fd != d)
            && (forall i, j :: 0 <= i < j < |reports| ==> reports[i].fd != reports[j].fd)
  {
    ReportsClimb(t.cursor, 0, t, calls, d);
  }

  // --- Draining the queue ---

  function Asks(n: nat): (calls: seq<Call>)
    ensures |calls| == n && forall i :: 0 <= i < n ==> calls[i] == Events
  {
    seq(n, _ => Events)
  }

  ghost predicate Drained(t: Table, reports: seq<Report>) {
    && (forall i :: 0 <= i < |reports| ==>
          reports[i].fd in Pending(t) && reports[i].bits == t.sockets[reports[i].fd].pending)
    && (forall i, j :: 0 <= i < j < |reports| ==> reports[i].fd != reports[j].fd)
    && (forall fd <- Pending(t) :: Reported(reports, fd))
  }

  ghost predicate Reported(reports: seq<Report>, fd: i32) {
    exists i :: 0 <= i < |reports| && reports[i].fd == fd
  }

  /** The table with nothing queued. */
  function Quiet(t: Table): map<i32, Entry> {
    map fd | fd in t.sockets :: t.sockets[fd].(pending := 0)
  }

  lemma Take(t: Table, fd: i32)
    requires Returned(t) == Some(fd)
    ensures var t' := Step(t, Events);
            && Pending(t') == Pending(t) - {fd} && Quiet(t') == Quiet(t) && fd in Pending(t)
            && forall g <- Pending(t') :: g in t.sockets && t'.sockets[g] == t.sockets[g]
  {
    hide IsNext, NextAfter;
  }

  /** With no other calls, each descriptor with something queued is handed back once, with
      exactly what was queued for it; then nothing is queued, nothing else has changed, and
      asking again says so and changes nothing. */
  lemma {:induction false} DrainsOnce(t: Table)
    ensures var n := |Pending(t)|;
            var reports := Reports(t, Asks(n));
            var t' := Run(t, Asks(n));
            && |reports| == n && Drained(t, reports)
            && Pending(t') == {} && t'.sockets == Quiet(t) && t'.nextId == t.nextId && t'.size == t.size
            && Returned(t').None? && Step(t', Events) == t'
    decreases |Pending(t)|
  {
    hide Drained, IsNext, Returned;
    var n := |Pending(t)|;
    if n == 0 {
      NothingQueued(t);
    } else {
      SomeReturned(t);
      var fd := Returned(t).value;
      Take(t, fd);
      var t' := Step(t, Events);
      var first := Report(fd, t.sockets[fd].pending);
      assert Asks(n)[1..] == Asks(n - 1);
      DrainsOnce(t');
      DrainedMore(t, t', first, Reports(t', Asks(n - 1)));
    }
  }

  lemma SomeReturned(t: Table)
    requires Pending(t) != {}
    ensures Returned(t).Some? && Returned(t).value in t.sockets
  {
  }

  lemma {:induction false} NothingQueued(t: Table)
    requires Pending(t) == {}
    ensures Returned(t).None? && Step(t, Events) == t && t.sockets == Quiet(t) && Drained(t, [])
    ensures Reports(t, Asks(0)) == [] && Run(t, Asks(0)) == t
  {
    forall fd | fd in t.sockets ensures t.sockets[fd].pending == 0 {
      assert fd !in Pending(t);
    }
  }

  lemma DrainedMore(t: Table, t': Table, first: Report, rest: seq<Report>)
    requires first.fd in Pending(t) && first.bits == t.sockets[first.fd].pending
    requires Pending(t') == Pending(t) - {first.fd} && Drained(t', rest)
    requires forall g <- Pending(t') :: g in t.sockets && t'.sockets[g] == t.sockets[g]
    ensures Drained(t, [first] + rest)
  {
    hide Reported;
    var all := [first] + rest;
    forall i | 0 <= i < |all|
      ensures all[i].fd in Pending(t) && all[i].fd in t.sockets && all[i].bits == t.sockets[all[i].fd].pending
    {
      if i > 0 { assert all[i] == rest[i - 1]; }
    }
    forall fd | fd in Pending(t) ensures Reported(all, fd) {
      ReportedMore(first, rest, fd);
    }
  }

  lemma ReportedMore(first: Report, rest: seq<Report>, fd: i32)
    ensures Reported([first] + rest, fd) <==> fd == first.fd || Reported(rest, fd)
  {
    var all := [first] + rest;
    assert all[0] == first && forall i :: 0 <= i < |rest| ==> all[i + 1] == rest[i];
    if Reported(rest, fd) {
      var i :| 0 <= i < |rest| && rest[i].fd == fd;
      assert all[i + 1].fd == fd;
    }
  }
}
