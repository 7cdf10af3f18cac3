// Any number of AnchorPaths in use at once.

module AnchorInterleave {
  import opened Guest
  import opened HostTree
  import opened AnchorModel
  import opened AnchorInvariant

  /** Every call of the run is one its caller may make where it comes. */
  ghost predicate Playable(host: Host, sys: Sys, ops: seq<Op>)
    decreases ops
  {
    ops == [] || (Callable(sys, ops[0]) && Ready(sys, ops[0]) && Playable(host, Apply(host, sys, ops[0]).sys, ops[1..]))
  }

  predicate Callable(sys: Sys, op: Op) {
    op.id in sys.aps && (op.id in sys.scans ==> sys.scans[op.id].levels != [])
  }

  ghost function Final(host: Host, sys: Sys, ops: seq<Op>): Sys
    requires Playable(host, sys, ops)
    decreases ops
  {
    if ops == [] then sys else Final(host, Apply(host, sys, ops[0]).sys, ops[1..])
  }

  ghost function AllLeaks(host: Host, sys: Sys, ops: seq<Op>): set<nat>
    requires Playable(host, sys, ops)
    decreases ops
  {
    if ops == [] then {}
    else Leaks(host, sys, ops[0]) + AllLeaks(host, Apply(host, sys, ops[0]).sys, ops[1..])
  }

  lemma {:induction false} RunKeepsInv(host: Host, sys: Sys, stray: set<nat>, ops: seq<Op>)
    requires Inv(sys, stray) && Playable(host, sys, ops)
    ensures Inv(Final(host, sys, ops), stray + AllLeaks(host, sys, ops))
    decreases ops
  {
    hide Inv, Apply, Leaks, Ready;
    if ops == [] {
      assert stray + {} == stray;
    } else {
      var op := ops[0];
      var next := Apply(host, sys, op).sys;
      ApplyKeepsInv(host, sys, stray, op);
      RunKeepsInv(host, next, stray + Leaks(host, sys, op), ops[1..]);
      assert stray + Leaks(host, sys, op) + AllLeaks(host, next, ops[1..])
          == stray + (Leaks(host, sys, op) + AllLeaks(host, next, ops[1..]));
    }
  }

  /** After any run of calls on any number of AnchorPaths, whatever failed on the way:
      each live scan's guest list visits its level stack from top to bottom and ends at
      `ap_Base`; the locks held are the initial ones, the leaked ones and one for each
      live level, all different. */
  lemma {:induction false} ReachableStates(host: Host, sys: Sys, ops: seq<Op>)
    requires sys.scans == map[] && Playable(host, sys, ops)
    ensures var end := Final(host, sys, ops);
            && AllDistinct(end)
            && Accounted(end, sys.locks + AllLeaks(host, sys, ops))
            && (forall id :: id in end.scans ==>
                  && id in end.aps && end.scans[id].levels != []
                  && Visits(end.chains, end.aps[id].last, TopDown(end.scans[id].levels))
                  && TopDown(end.scans[id].levels)[|end.scans[id].levels| - 1] == end.aps[id].base)
            && (forall id, i: nat :: IsLive(end, id, i) ==>
                  end.scans[id].levels[i].achain in end.chains
                  && end.chains[end.scans[id].levels[i].achain].lock == end.scans[id].levels[i].lock)
  {
    assert LiveLocks(sys) == {};
    RunKeepsInv(host, sys, sys.locks, ops);
    var end := Final(host, sys, ops);
    forall id | id in end.scans
      ensures id in end.aps && end.scans[id].levels != []
      ensures Visits(end.chains, end.aps[id].last, TopDown(end.scans[id].levels))
      ensures TopDown(end.scans[id].levels)[|end.scans[id].levels| - 1] == end.aps[id].base
    {
      MirrorsVisits(end.chains, end.aps[id], end.scans[id].levels);
    }
    forall id, i: nat | IsLive(end, id, i)
      ensures end.scans[id].levels[i].achain in end.chains
      ensures end.chains[end.scans[id].levels[i].achain].lock == end.scans[id].levels[i].lock
    {
      assert Linked(end.chains, end.scans[id].levels, i);
    }
  }

  /** Once every scan has been ended, only the initial and the leaked locks are held. */
  lemma {:induction false} EndedScansHoldNothing(host: Host, sys: Sys, ops: seq<Op>)
    requires sys.scans == map[] && Playable(host, sys, ops) && Final(host, sys, ops).scans == map[]
    ensures Final(host, sys, ops).locks == sys.locks + AllLeaks(host, sys, ops)
  {
    ReachableStates(host, sys, ops);
    assert LiveLocks(Final(host, sys, ops)) == {};
  }

  // --- One AnchorPath does not disturb another ---

  /** The part of the state that belongs to one AnchorPath. */
  ghost predicate SameOwn(s: Sys, t: Sys, id: nat) {
    && id in s.aps && id in t.aps && s.aps[id] == t.aps[id]
    && (id in s.scans <==> id in t.scans)
    && (id in s.scans ==> s.scans[id] == t.scans[id])
  }

  lemma EnterIsOwn(host: Host, v: View, w: View, g: Grant)
    requires v.scan.levels != [] && v.ap == w.ap && v.scan == w.scan
    ensures var s := Enter(host, v, g);
            var t := Enter(host, w, g);
            && s.v.ap == t.v.ap && s.v.scan == t.v.scan && s.v.scan.levels != []
            && s.Refused? == t.Refused? && s.Entered? == t.Entered? && (s.Refused? ==> s.error == t.error)
  {
    hide JoinAmiga, EnsureTrailingSep, Listing;
  }

  lemma SettleIsOwn(v: View, w: View, entered: bool)
    requires v.scan.levels != [] && v.ap == w.ap && v.scan == w.scan
    ensures var s := Settle(v, entered);
            var t := Settle(w, entered);
            s.report == t.report && s.v.ap == t.v.ap && s.v.scan == t.v.scan
  {
    hide JoinAmiga, Fits, NoteAp, NoteChain;
  }

  lemma NextIsOwn(host: Host, v: View, w: View, g: Grant)
    requires v.scan.levels != [] && v.ap == w.ap && v.scan == w.scan
    ensures var s := Next(host, v, g);
            var t := Next(host, w, g);
            s.report == t.report && s.v.ap == t.v.ap && s.v.scan == t.v.scan
  {
    hide Enter, Settle;
    EnterIsOwn(host, v, w, g);
    var s, t := Enter(host, v, g), Enter(host, w, g);
    if !s.Refused? {
      SettleIsOwn(s.v, t.v, s.Entered?);
    }
  }

  lemma FirstIsOwn(host: Host, s: Sys, t: Sys, pat: Bytes, id: nat, g: Grant)
    requires SameOwn(s, t, id)
    ensures MatchFirst(host, s, pat, id, g).report == MatchFirst(host, t, pat, id, g).report
    ensures SameOwn(MatchFirst(host, s, pat, id, g).sys, MatchFirst(host, t, pat, id, g).sys, id)
  {
    hide JoinAmiga, SplitPattern, Listing, AnchorDisplayName, Begin;
    forall level: Level, first: Entry, shown: Bytes, scan: Scan, wild: bool
      ensures Begin(s, id, level, first, shown, scan, wild).report
              == Begin(t, id, level, first, shown, scan, wild).report
      ensures SameOwn(Begin(s, id, level, first, shown, scan, wild).sys,
                      Begin(t, id, level, first, shown, scan, wild).sys, id)
    {
      BeginIsOwn(s, t, id, level, first, shown, scan, wild);
    }
  }

  lemma BeginIsOwn(s: Sys, t: Sys, id: nat, level: Level, first: Entry, shown: Bytes, scan: Scan, wild: bool)
    requires SameOwn(s, t, id)
    ensures var a, b := Begin(s, id, level, first, shown, scan, wild), Begin(t, id, level, first, shown, scan, wild);
            a.report == b.report && SameOwn(a.sys, b.sys, id)
  {
    hide NoteAp, Fits;
  }

  /** A call reports the same, and leaves its AnchorPath the same, whatever the others are. */
  lemma ApplyIsOwn(host: Host, s: Sys, t: Sys, op: Op)
    requires SameOwn(s, t, op.id) && Callable(s, op)
    ensures Callable(t, op)
    ensures Apply(host, s, op).report == Apply(host, t, op).report
    ensures SameOwn(Apply(host, s, op).sys, Apply(host, t, op).sys, op.id)
  {
    hide Next, MatchFirst;
    if op.DoNext? && op.id in s.scans {
      NextIsOwn(host, ViewOf(s, op.id), ViewOf(t, op.id), op.grant);
    }
    if op.DoFirst? {
      FirstIsOwn(host, s, t, op.pat, op.id, op.grant);
    }
  }

  lemma ApplyLeavesOthers(host: Host, sys: Sys, op: Op, id: nat)
    requires Callable(sys, op) && id in sys.aps && id != op.id
    ensures SameOwn(sys, Apply(host, sys, op).sys, id)
  {
    hide Next, JoinAmiga, SplitPattern, Listing, StoreDisplay, AnchorDisplayName, Fits;
  }

  /** What the calls on `id` report in a run. */
  ghost function ReportsFor(host: Host, sys: Sys, ops: seq<Op>, id: nat): seq<Report>
    decreases ops
  {
    if ops == [] || !Callable(sys, ops[0]) then []
    else
      var called := Apply(host, sys, ops[0]);
      (if ops[0].id == id then [called.report] else []) + ReportsFor(host, called.sys, ops[1..], id)
  }

  /** The calls on `id` alone. */
  function Only(ops: seq<Op>, id: nat): seq<Op> {
    if ops == [] then [] else (if ops[0].id == id then [ops[0]] else []) + Only(ops[1..], id)
  }

  /** Whatever calls on other AnchorPaths are interleaved, and however they fail, the
      calls on one report exactly what they would report by themselves. */
  lemma {:induction false} OthersNeverShow(host: Host, s: Sys, t: Sys, ops: seq<Op>, id: nat)
    requires Playable(host, s, ops) && SameOwn(s, t, id)
    ensures ReportsFor(host, s, ops, id) == ReportsFor(host, t, Only(ops, id), id)
    decreases ops
  {
    hide Apply, Ready;
    if ops != [] {
      var op := ops[0];
      var next := Apply(host, s, op).sys;
      if op.id == id {
        ApplyIsOwn(host, s, t, op);
        OthersNeverShow(host, next, Apply(host, t, op).sys, ops[1..], id);
        assert Only(ops, id)[1..] == Only(ops[1..], id);
      } else {
        ApplyLeavesOthers(host, s, op, id);
        OthersNeverShow(host, next, t, ops[1..], id);
        assert Only(ops, id) == Only(ops[1..], id);
      }
    }
  }
}
