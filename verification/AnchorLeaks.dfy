// Exactly which calls leave a lock behind: the condition a caller can see before the
// call, over single calls and over whole runs, and runs in which it happens.

module AnchorLeaks {
  import opened Guest
  import opened HostTree
  import opened AnchorModel
  import opened AnchorInvariant
  import opened AnchorInterleave

  // --- One call ---

  /** MatchNext will lock the pending directory and then find no memory for its AChain. */
  predicate NextStrands(host: Host, sys: Sys, id: nat, g: Grant)
    requires id in sys.aps
    requires id in sys.scans ==> sys.scans[id].levels != []
  {
    && id in sys.scans
    && sys.scans[id].pending.Some? && sys.scans[id].pending.value.IsDir() && APF_DODIR in sys.aps[id].flags
    && host.lookup(sys.scans[id].ChildPath(sys.scans[id].pending.value.name)).Some?
    && g.lock.Some? && g.chain.None?
  }

  /** The path MatchFirst would show first. */
  function FirstShown(host: Host, pat: Bytes, g: Grant): Bytes
    requires Reaches(host, pat, g)
  {
    var split := SplitPattern(host, pat);
    var parsed := host.parse(split.component).value;
    if parsed.wild then JoinAmiga(split.display, Listing(host.lookup(split.dir).value, host.Keep(parsed))[0].name)
    else pat
  }

  /** MatchFirst will hold a lock and find no memory for its AChain, or no room in `ap_Buf`,
      or a scan still live on its AnchorPath. */
  predicate FirstStrands(host: Host, sys: Sys, pat: Bytes, id: nat, g: Grant)
    requires id in sys.aps
  {
    Reaches(host, pat, g)
    && (g.chain.None? || !Fits(sys.aps[id].strlen, FirstShown(host, pat, g)) || id in sys.scans)
  }

  lemma EnterOutOfStore(host: Host, v: View, g: Grant)
    requires v.scan.levels != []
    ensures var entering := Enter(host, v, g);
            && entering.v.scan.levels != []
            && (entering.Refused? && entering.error == ERROR_NO_FREE_STORE <==>
                  && v.scan.pending.Some? && v.scan.pending.value.IsDir() && APF_DODIR in v.ap.flags
                  && host.lookup(v.scan.ChildPath(v.scan.pending.value.name)).Some?
                  && g.lock.Some? && g.chain.None?)
  {
    hide Listing, JoinAmiga, EnsureTrailingSep;
  }

  /** A MatchNext leaves a lock behind exactly then, and it is the one it took. */
  lemma NextStrandsExactly(host: Host, sys: Sys, id: nat, g: Grant)
    requires id in sys.aps
    requires id in sys.scans ==> sys.scans[id].levels != []
    ensures NextLeaks(host, sys, id, g) == if NextStrands(host, sys, id, g) then {g.lock.value} else {}
  {
    hide Enter, Settle;
    if id in sys.scans {
      EnterOutOfStore(host, ViewOf(sys, id), g);
      var entering := Enter(host, ViewOf(sys, id), g);
      if !entering.Refused? {
        SettleReport(entering.v, entering.Entered?);
      }
    }
  }

  lemma FirstReport(host: Host, sys: Sys, pat: Bytes, id: nat, g: Grant)
    requires id in sys.aps
    ensures var report := MatchFirst(host, sys, pat, id, g).report;
            report.Code() == 0 <==>
            Reaches(host, pat, g) && g.chain.Some? && Fits(sys.aps[id].strlen, FirstShown(host, pat, g))
  {
    hide Listing, JoinAmiga, SplitPattern, AnchorDisplayName, Fits, StoreDisplay;
  }

  /** A MatchFirst leaves locks behind exactly then. */
  lemma FirstStrandsExactly(host: Host, sys: Sys, pat: Bytes, id: nat, g: Grant)
    requires id in sys.aps
    requires id in sys.scans ==> sys.scans[id].levels != []
    ensures FirstLeaks(host, sys, pat, id, g) != {} <==> FirstStrands(host, sys, pat, id, g)
  {
    hide MatchFirst, Reaches, FirstShown, Fits;
    FirstReport(host, sys, pat, id, g);
    if id in sys.scans {
      assert sys.scans[id].levels[0].lock in LevelLocks(sys.scans[id].levels);
    }
  }

  // --- Runs ---

  predicate Strands(host: Host, sys: Sys, op: Op)
    requires Callable(sys, op)
  {
    match op
    case DoFirst(id, pat, g) => FirstStrands(host, sys, pat, id, g)
    case DoNext(id, g) => NextStrands(host, sys, id, g)
    case _ => false
  }

  lemma StrandsExactly(host: Host, sys: Sys, op: Op)
    requires Callable(sys, op)
    ensures Leaks(host, sys, op) != {} <==> Strands(host, sys, op)
  {
    hide FirstLeaks, NextLeaks, FirstStrands, NextStrands;
    match op
    case DoFirst(id, pat, g) => FirstStrandsExactly(host, sys, pat, id, g);
    case DoNext(id, g) => NextStrandsExactly(host, sys, id, g);
    case _ =>
  }

  /** No call of the run is one that strands a lock. */
  ghost predicate NoneStrands(host: Host, sys: Sys, ops: seq<Op>)
    requires Playable(host, sys, ops)
    decreases ops
  {
    ops != [] ==> !Strands(host, sys, ops[0]) && NoneStrands(host, Apply(host, sys, ops[0]).sys, ops[1..])
  }

  lemma {:induction false} NoLeaks(host: Host, sys: Sys, ops: seq<Op>)
    requires Playable(host, sys, ops)
    ensures AllLeaks(host, sys, ops) == {} <==> NoneStrands(host, sys, ops)
    decreases ops
  {
    hide Apply, Leaks, Strands, Ready;
    if ops != [] {
      StrandsExactly(host, sys, ops[0]);
      NoLeaks(host, Apply(host, sys, ops[0]).sys, ops[1..]);
    }
  }

  /** What a call leaves behind was not stray before. */
  lemma LeaksAreNew(host: Host, sys: Sys, stray: set<nat>, op: Op)
    requires Inv(sys, stray) && Callable(sys, op) && Ready(sys, op)
    ensures Leaks(host, sys, op) !! stray
  {
    hide MatchFirst, MatchNext, Reaches, SplitPattern;
    assert stray <= sys.locks && stray !! LiveLocks(sys);
    if op.DoFirst? {
      ReachesLocks(host, op.pat, op.grant);
      if op.id in sys.scans {
        forall lock | lock in LevelLocks(sys.scans[op.id].levels) ensures lock in LiveLocks(sys) {
          var i :| 0 <= i < |sys.scans[op.id].levels| && sys.scans[op.id].levels[i].lock == lock;
          assert IsLive(sys, op.id, i);
        }
      }
    }
  }

  lemma ReachesLocks(host: Host, pat: Bytes, g: Grant)
    ensures Reaches(host, pat, g) ==> g.lock.Some?
  {
  }

  lemma {:induction false} AllLeaksAreNew(host: Host, sys: Sys, stray: set<nat>, ops: seq<Op>)
    requires Inv(sys, stray) && Playable(host, sys, ops)
    ensures AllLeaks(host, sys, ops) !! stray
    decreases ops
  {
    hide Inv, Apply, Leaks, Ready;
    if ops != [] {
      var op := ops[0];
      LeaksAreNew(host, sys, stray, op);
      ApplyKeepsInv(host, sys, stray, op);
      AllLeaksAreNew(host, Apply(host, sys, op).sys, stray + Leaks(host, sys, op), ops[1..]);
    }
  }

  /** After any run the held locks are exactly the initial ones and one for each live level
      if and only if no call of the run was one that strands a lock. */
  lemma {:induction false} LocksExactlyLive(host: Host, sys: Sys, ops: seq<Op>)
    requires sys.scans == map[] && Playable(host, sys, ops)
    ensures var end := Final(host, sys, ops);
            end.locks == sys.locks + LiveLocks(end) <==> NoneStrands(host, sys, ops)
  {
    hide Apply, Leaks, Strands, Ready;
    assert LiveLocks(sys) == {};
    ReachableStates(host, sys, ops);
    AllLeaksAreNew(host, sys, sys.locks, ops);
    NoLeaks(host, sys, ops);
    var end, leaked := Final(host, sys, ops), AllLeaks(host, sys, ops);
    if lock :| lock in leaked {
      assert lock in end.locks && lock !in sys.locks && lock !in LiveLocks(end);
    }
  }

  // --- Calls that do it ---

  /** A host on which every name is a file and no pattern has a wildcard. */
  const FILES := Host(path => Some(File), path => path, c => Some(Pattern(name => true, false)), name => false, [])

  const BARE := AnchorPath(0, 0, {}, 0, [], false, [])

  /** A MatchFirst for which the heap has a lock but no AChain: it fails, no scan is live,
      and lock 8 stays held. */
  lemma {:induction false} NoStoreStrands(pat: Bytes)
    ensures var sys := Sys(map[1 := BARE], map[], {}, map[]);
            var ops := [DoFirst(1, pat, Grant(Some(8), None))];
            && Playable(FILES, sys, ops) && !NoneStrands(FILES, sys, ops)
            && Final(FILES, sys, ops) == sys.(locks := {8})
  {
    hide SplitPattern;
    var sys := Sys(map[1 := BARE], map[], {}, map[]);
    var op := DoFirst(1, pat, Grant(Some(8), None));
    var next := Apply(FILES, sys, op).sys;
    assert next == sys.(locks := {8});
    OneCall(FILES, sys, op);
  }

  /** `ap_Strlen` leaves room for the terminator alone: any path overflows, no scan is
      live, and the lock stays held. */
  lemma {:induction false} OverflowStrands(pat: Bytes)
    requires pat != []
    ensures var sys := Sys(map[1 := BARE.(strlen := 1, buf := [0])], map[], {}, map[]);
            var ops := [DoFirst(1, pat, Grant(Some(8), Some(16)))];
            && Playable(FILES, sys, ops) && !NoneStrands(FILES, sys, ops)
            && Final(FILES, sys, ops).scans == map[] && Final(FILES, sys, ops).locks == {8}
  {
    hide SplitPattern, AnchorDisplayName;
    var sys := Sys(map[1 := BARE.(strlen := 1, buf := [0])], map[], {}, map[]);
    var op := DoFirst(1, pat, Grant(Some(8), Some(16)));
    OneCall(FILES, sys, op);
  }

  /** On this host a MatchFirst with both grants begins a scan of one level. */
  lemma FileBegins(sys: Sys, pat: Bytes, g: Grant)
    requires 1 in sys.aps && sys.aps[1].strlen == 0 && g.lock.Some? && g.chain.Some?
    ensures var next := MatchFirst(FILES, sys, pat, 1, g).sys;
            && next.locks == sys.locks + {g.lock.value} && next.scans.Keys == sys.scans.Keys + {1}
            && next.chains.Keys == sys.chains.Keys + {g.chain.value}
            && next.aps.Keys == sys.aps.Keys && next.aps[1].strlen == 0
            && |next.scans[1].levels| == 1 && next.scans[1].levels[0].lock == g.lock.value
            && next.scans[1].levels[0].achain == g.chain.value && next.aps[1].last == g.chain.value
  {
    hide SplitPattern, AnchorDisplayName;
  }

  lemma EndsOne(sys: Sys, lock: nat)
    requires sys.scans.Keys == {1} && |sys.scans[1].levels| == 1 && sys.scans[1].levels[0].lock == lock
    ensures MatchEnd(sys, 1).scans == map[] && MatchEnd(sys, 1).locks == sys.locks - {lock}
  {
    assert LevelLocks(sys.scans[1].levels) == {lock};
  }

  /** MatchFirst, MatchFirst again on the same AnchorPath, MatchEnd: the first scan's lock
      is never given back. */
  lemma {:induction false} RestartStrands(pat: Bytes)
    ensures var sys := Sys(map[1 := BARE], map[], {}, map[]);
            var ops := [
              DoFirst(1, pat, Grant(Some(8), Some(16))), DoFirst(1, pat, Grant(Some(24), Some(32))), DoEnd(1)];
            && Playable(FILES, sys, ops) && !NoneStrands(FILES, sys, ops)
            && Final(FILES, sys, ops).scans == map[] && Final(FILES, sys, ops).locks == {8}
  {
    hide MatchFirst;
    var sys := Sys(map[1 := BARE], map[], {}, map[]);
    var a, b := DoFirst(1, pat, Grant(Some(8), Some(16))), DoFirst(1, pat, Grant(Some(24), Some(32)));
    var s1 := Apply(FILES, sys, a).sys;
    FileBegins(sys, pat, a.grant);
    var s2 := Apply(FILES, s1, b).sys;
    FileBegins(s1, pat, b.grant);
    OneCall(FILES, s2, DoEnd(1));
    EndsOne(s2, 24);
    assert [a, b, DoEnd(1)][1..] == [b, DoEnd(1)] && [b, DoEnd(1)][1..] == [DoEnd(1)];
  }

  lemma {:induction false} OneCall(host: Host, sys: Sys, op: Op)
    requires Callable(sys, op) && Ready(sys, op)
    ensures Playable(host, sys, [op]) && Final(host, sys, [op]) == Apply(host, sys, op).sys
    ensures NoneStrands(host, sys, [op]) <==> !Strands(host, sys, op)
  {
    hide Apply, Strands, Ready;
    assert [op][1..] == [];
  }
}
