// What every call keeps: the guest's AChain list mirrors the host's level stack, and
// the locks held are the initial ones, one for each live level, and exactly those
// the failure paths leave behind.

module AnchorInvariant {
  import opened Guest
  import opened HostTree
  import opened AnchorModel

  /** Following an_Parent from `addr` visits exactly the nodes of `path`. */
  ghost predicate Visits(chains: map<nat, AChain>, addr: nat, path: seq<nat>)
    decreases path
  {
    if path == [] then addr == 0
    else addr != 0 && addr == path[0] && addr in chains && Visits(chains, chains[addr].parent, path[1..])
  }

  /** The AChain addresses of a level stack, top first. */
  function TopDown(levels: seq<Level>): (addrs: seq<nat>)
    ensures |addrs| == |levels|
    decreases |levels|
  {
    if levels == [] then [] else [levels[|levels| - 1].achain] + TopDown(levels[..|levels| - 1])
  }

  /** Level i's node holds that level's lock and points at the node below it. */
  ghost predicate Linked(chains: map<nat, AChain>, levels: seq<Level>, i: nat)
    requires i < |levels|
  {
    && levels[i].achain != 0 && levels[i].achain in chains
    && chains[levels[i].achain].lock == levels[i].lock
    && chains[levels[i].achain].parent == if i == 0 then 0 else levels[i - 1].achain
  }

  ghost predicate Mirrors(chains: map<nat, AChain>, ap: AnchorPath, levels: seq<Level>) {
    && levels != []
    && ap.base == levels[0].achain && ap.last == levels[|levels| - 1].achain
    && forall i: nat :: i < |levels| ==> Linked(chains, levels, i)
  }

  /** The guest sees the host's stack: from ap_Last through an_Parent it visits the
      levels from top to bottom and ends at ap_Base. */
  lemma {:induction false} MirrorsVisits(chains: map<nat, AChain>, ap: AnchorPath, levels: seq<Level>)
    requires Mirrors(chains, ap, levels)
    ensures Visits(chains, ap.last, TopDown(levels))
    ensures TopDown(levels)[|TopDown(levels)| - 1] == ap.base
    decreases |levels|
  {
    var n := |levels|;
    assert Linked(chains, levels, n - 1);
    if n > 1 {
      var below := levels[..n - 1];
      forall i: nat | i < n - 1 ensures Linked(chains, below, i) {
        assert Linked(chains, levels, i);
      }
      MirrorsVisits(chains, ap.(last := below[n - 2].achain), below);
    } else {
      assert levels[..0] == [];
      assert TopDown(levels[..0]) == [];
    }
  }

  // --- The invariant over all AnchorPaths ---

  predicate IsLive(sys: Sys, id: nat, i: nat) {
    id in sys.scans && i < |sys.scans[id].levels|
  }

  function LiveLocks(sys: Sys): set<nat> {
    set id, i | id in sys.scans && 0 <= i < |sys.scans[id].levels| :: sys.scans[id].levels[i].lock
  }

  ghost predicate AllMirrored(sys: Sys) {
    forall id :: id in sys.scans ==>
      id in sys.aps && Mirrors(sys.chains, sys.aps[id], sys.scans[id].levels)
  }

  /** No two live levels, of one scan or of two, share a lock or a node. */
  ghost predicate AllDistinct(sys: Sys) {
    forall id, i: nat, other, j: nat ::
      (IsLive(sys, id, i) && IsLive(sys, other, j)
       && (sys.scans[id].levels[i].lock == sys.scans[other].levels[j].lock
           || sys.scans[id].levels[i].achain == sys.scans[other].levels[j].achain)) ==>
      id == other && i == j
  }

  /** `stray` is the set of locks no live level owns. */
  ghost predicate Accounted(sys: Sys, stray: set<nat>) {
    && sys.locks == stray + LiveLocks(sys)
    && stray !! LiveLocks(sys)
  }

  ghost predicate Inv(sys: Sys, stray: set<nat>) {
    AllMirrored(sys) && AllDistinct(sys) && Accounted(sys, stray)
  }

  /** The heap hands out addresses nobody holds. */
  ghost predicate FreshFor(sys: Sys, g: Grant) {
    && (g.lock.Some? ==> g.lock.value !in sys.locks)
    && (g.chain.Some? ==> g.chain.value != 0 && g.chain.value !in sys.chains)
  }

  /** Nodes stay where they are, with the links they have. */
  ghost predicate Keeps(chains: map<nat, AChain>, chains': map<nat, AChain>) {
    forall a :: a in chains ==>
      a in chains' && chains'[a].parent == chains[a].parent && chains'[a].lock == chains[a].lock
  }

  ghost predicate SameIds(levels: seq<Level>, levels': seq<Level>) {
    && |levels| == |levels'|
    && forall i :: 0 <= i < |levels| ==> levels'[i].achain == levels[i].achain && levels'[i].lock == levels[i].lock
  }

  lemma KeepsMirrors(chains: map<nat, AChain>, chains': map<nat, AChain>, ap: AnchorPath, levels: seq<Level>,
                     levels': seq<Level>)
    requires Mirrors(chains, ap, levels) && Keeps(chains, chains') && SameIds(levels, levels')
    ensures Mirrors(chains', ap, levels')
  {
    forall i: nat | i < |levels'| ensures Linked(chains', levels', i) {
      assert Linked(chains, levels, i);
    }
  }

  /** The other scans do not notice a view that keeps the nodes. */
  lemma OthersMirrored(sys: Sys, id: nat, v: View)
    requires AllMirrored(sys) && Keeps(sys.chains, v.chains)
    requires Mirrors(v.chains, v.ap, v.scan.levels)
    ensures AllMirrored(WithView(sys, id, v))
  {
    var sys' := WithView(sys, id, v);
    forall other | other in sys'.scans
      ensures other in sys'.aps && Mirrors(sys'.chains, sys'.aps[other], sys'.scans[other].levels)
    {
      if other != id {
        KeepsMirrors(sys.chains, v.chains, sys.aps[other], sys.scans[other].levels, sys.scans[other].levels);
      }
    }
  }

  lemma LiveLock(sys: Sys, id: nat, i: nat)
    requires IsLive(sys, id, i)
    ensures sys.scans[id].levels[i].lock in LiveLocks(sys)
  {
  }

  // --- The three ways a view moves: in place, one level up, one level down ---

  lemma InPlace(sys: Sys, stray: set<nat>, id: nat, v: View)
    requires Inv(sys, stray) && id in sys.scans
    requires SameIds(sys.scans[id].levels, v.scan.levels) && Keeps(sys.chains, v.chains)
    requires v.ap.base == sys.aps[id].base && v.ap.last == sys.aps[id].last && v.locks == sys.locks
    ensures Inv(WithView(sys, id, v), stray)
  {
    hide Linked;
    var sys' := WithView(sys, id, v);
    KeepsMirrors(sys.chains, v.chains, sys.aps[id], sys.scans[id].levels, v.scan.levels);
    OthersMirrored(sys, id, v);
    SameLive(sys, id, v);
  }

  lemma SameLive(sys: Sys, id: nat, v: View)
    requires AllDistinct(sys) && id in sys.scans && SameIds(sys.scans[id].levels, v.scan.levels)
    ensures AllDistinct(WithView(sys, id, v)) && LiveLocks(WithView(sys, id, v)) == LiveLocks(sys)
  {
    var sys' := WithView(sys, id, v);
    assert forall x, i: nat :: IsLive(sys', x, i) <==> IsLive(sys, x, i);
    assert forall x, i: nat :: IsLive(sys, x, i) ==>
      sys'.scans[x].levels[i].lock == sys.scans[x].levels[i].lock
      && sys'.scans[x].levels[i].achain == sys.scans[x].levels[i].achain;
  }

  /** A new top level with a fresh lock and a fresh node. */
  lemma Pushed(sys: Sys, stray: set<nat>, id: nat, v: View, level: Level)
    requires Inv(sys, stray) && id in sys.scans
    requires level.lock !in sys.locks && level.achain != 0 && level.achain !in sys.chains
    requires v.scan.levels == sys.scans[id].levels + [level] && v.locks == sys.locks + {level.lock}
    requires v.ap.base == sys.aps[id].base && v.ap.last == level.achain
    requires v.chains == sys.chains[level.achain := AChain(sys.aps[id].last, level.lock, [], false)]
    ensures Inv(WithView(sys, id, v), stray)
  {
    hide AllDistinct, Accounted, Mirrors, Linked, LiveLocks;
    PushedMirrors(sys, id, v, level);
    OthersMirrored(sys, id, v);
    PushedLive(sys, stray, id, v, level);
    PushedAccounts(sys, stray, id, v, level);
  }

  lemma PushedMirrors(sys: Sys, id: nat, v: View, level: Level)
    requires AllMirrored(sys) && id in sys.scans
    requires level.achain != 0 && level.achain !in sys.chains
    requires v.scan.levels == sys.scans[id].levels + [level]
    requires v.ap.base == sys.aps[id].base && v.ap.last == level.achain
    requires v.chains == sys.chains[level.achain := AChain(sys.aps[id].last, level.lock, [], false)]
    ensures Mirrors(v.chains, v.ap, v.scan.levels) && Keeps(sys.chains, v.chains)
  {
    var before := sys.scans[id].levels;
    assert Mirrors(sys.chains, sys.aps[id], before);
    forall i: nat | i < |v.scan.levels| ensures Linked(v.chains, v.scan.levels, i) {
      if i < |before| { assert Linked(sys.chains, before, i); }
    }
  }

  lemma PushedAccounts(sys: Sys, stray: set<nat>, id: nat, v: View, level: Level)
    requires Accounted(sys, stray) && level.lock !in sys.locks && v.locks == sys.locks + {level.lock}
    requires LiveLocks(WithView(sys, id, v)) == LiveLocks(sys) + {level.lock}
    ensures Accounted(WithView(sys, id, v), stray)
  {
    hide LiveLocks;
  }

  lemma PushedLive(sys: Sys, stray: set<nat>, id: nat, v: View, level: Level)
    requires Inv(sys, stray) && id in sys.scans
    requires level.lock !in sys.locks && level.achain !in sys.chains
    requires v.scan.levels == sys.scans[id].levels + [level]
    ensures AllDistinct(WithView(sys, id, v))
    ensures LiveLocks(WithView(sys, id, v)) == LiveLocks(sys) + {level.lock}
  {
    hide Mirrors, Accounted;
    var sys' := WithView(sys, id, v);
    var n := |sys.scans[id].levels|;
    forall x, i: nat | IsLive(sys', x, i)
      ensures (x == id && i == n && sys'.scans[x].levels[i] == level)
           || (IsLive(sys, x, i) && sys'.scans[x].levels[i] == sys.scans[x].levels[i]
               && sys.scans[x].levels[i].lock in sys.locks && sys.scans[x].levels[i].achain in sys.chains)
    {
      if !(x == id && i == n) {
        LiveIsHeld(sys, stray, x, i);
      }
    }
    assert LiveLocks(sys) <= LiveLocks(sys') by {
      forall l | l in LiveLocks(sys) ensures l in LiveLocks(sys') {
        var x, i: nat :| IsLive(sys, x, i) && sys.scans[x].levels[i].lock == l;
        assert IsLive(sys', x, i) && sys'.scans[x].levels[i] == sys.scans[x].levels[i];
        LiveLock(sys', x, i);
      }
    }
    assert IsLive(sys', id, n);
    LiveLock(sys', id, n);
  }

  lemma LiveIsHeld(sys: Sys, stray: set<nat>, id: nat, i: nat)
    requires Inv(sys, stray) && IsLive(sys, id, i)
    ensures sys.scans[id].levels[i].lock in sys.locks && sys.scans[id].levels[i].achain in sys.chains
    ensures sys.scans[id].levels[i].lock !in stray
  {
    LiveLock(sys, id, i);
    assert Linked(sys.chains, sys.scans[id].levels, i);
  }

  /** The top level and its lock go. */
  lemma Popped(sys: Sys, stray: set<nat>, id: nat, v: View)
    requires Inv(sys, stray) && id in sys.scans
    requires var levels := sys.scans[id].levels;
             && |levels| > 1 && v.scan.levels == levels[..|levels| - 1]
             && v.locks == sys.locks - {levels[|levels| - 1].lock}
             && v.ap.base == sys.aps[id].base && v.ap.last == levels[|levels| - 2].achain
    requires Keeps(sys.chains, v.chains)
    ensures Inv(WithView(sys, id, v), stray)
  {
    var levels := sys.scans[id].levels;
    forall i: nat | i < |v.scan.levels| ensures Linked(v.chains, v.scan.levels, i) {
      assert Linked(sys.chains, levels, i);
    }
    OthersMirrored(sys, id, v);
    PoppedLive(sys, stray, id, v);
  }

  lemma PoppedLive(sys: Sys, stray: set<nat>, id: nat, v: View)
    requires Inv(sys, stray) && id in sys.scans
    requires var levels := sys.scans[id].levels;
             |levels| > 1 && v.scan.levels == levels[..|levels| - 1]
    ensures AllDistinct(WithView(sys, id, v))
    ensures var levels := sys.scans[id].levels;
            LiveLocks(WithView(sys, id, v)) == LiveLocks(sys) - {levels[|levels| - 1].lock}
            && levels[|levels| - 1].lock in LiveLocks(sys)
  {
    hide Mirrors, Accounted;
    var sys' := WithView(sys, id, v);
    var n := |sys.scans[id].levels|;
    assert IsLive(sys, id, n - 1);
    LiveLock(sys, id, n - 1);
    forall x, i: nat
      ensures IsLive(sys', x, i) <==> IsLive(sys, x, i) && !(x == id && i == n - 1)
      ensures IsLive(sys', x, i) ==> sys'.scans[x].levels[i] == sys.scans[x].levels[i]
    {
    }
  }

  // --- Calls ---

  datatype Op =
    | DoFirst(id: nat, pat: Bytes, grant: Grant)
    | DoNext(id: nat, grant: Grant)
    | DoEnd(id: nat)
    | DoStoreFlags(id: nat, flags: Flags)

  /** One call, or the caller storing into ap_Flags. */
  function Apply(host: Host, sys: Sys, op: Op): Called
    requires op.id in sys.aps
    requires op.id in sys.scans ==> sys.scans[op.id].levels != []
  {
    match op
    case DoFirst(id, pat, g) => MatchFirst(host, sys, pat, id, g)
    case DoNext(id, g) => MatchNext(host, sys, id, g)
    case DoEnd(id) => Called(MatchEnd(sys, id), Failed(ERROR_NO_MORE_ENTRIES))
    case DoStoreFlags(id, flags) =>
      Called(sys.(aps := sys.aps[id := sys.aps[id].(flags := flags)]), Failed(ERROR_NO_MORE_ENTRIES))
  }

  lemma NoteKeeps(chains: map<nat, AChain>, achain: nat, name: Bytes, isDir: bool)
    ensures Keeps(chains, NoteChain(chains, achain, name, isDir))
  {
  }

  lemma SettleKeepsInv(sys: Sys, stray: set<nat>, id: nat, entered: bool)
    requires Inv(sys, stray) && id in sys.scans
    ensures Inv(WithView(sys, id, Settle(ViewOf(sys, id), entered).v), stray)
  {
    hide Inv, NoteChain, JoinAmiga, Fits;
    assert AllMirrored(sys) by { InvParts(sys, stray); }
    var v := ViewOf(sys, id);
    var top := v.scan.Top();
    var n := |v.scan.levels|;
    if top.cursor < |top.entries| {
      var e := top.entries[top.cursor];
      NoteKeeps(v.chains, top.achain, e.name, e.IsDir());
      InPlace(sys, stray, id, ReportEntry(v, entered).v);
    } else if n == 1 {
      InPlace(sys, stray, id, v);
    } else {
      NoteKeeps(v.chains, v.scan.levels[n - 2].achain, top.selfName, true);
      Popped(sys, stray, id, LeaveTop(v).v);
    }
  }

  lemma InvParts(sys: Sys, stray: set<nat>)
    requires Inv(sys, stray)
    ensures AllMirrored(sys) && AllDistinct(sys) && Accounted(sys, stray)
  {
  }

  lemma EnterKeepsInv(host: Host, sys: Sys, stray: set<nat>, id: nat, g: Grant)
    requires Inv(sys, stray) && id in sys.scans && id in sys.aps && sys.scans[id].levels != [] && FreshFor(sys, g)
    ensures var entering := Enter(host, ViewOf(sys, id), g);
            Inv(WithView(sys, id, entering.v),
                if entering.Refused? && entering.error == ERROR_NO_FREE_STORE then stray + {g.lock.value} else stray)
  {
    hide Inv, Listing, JoinAmiga, EnsureTrailingSep;
    InvParts(sys, stray);
    var v := ViewOf(sys, id);
    var entering := Enter(host, v, g);
    if entering.Entered? {
      Pushed(sys, stray, id, entering.v, entering.v.scan.Top());
    } else if entering.Refused? && entering.error == ERROR_NO_FREE_STORE {
      Strayed(sys, stray, id, entering.v, g.lock.value);
    } else {
      InPlace(sys, stray, id, entering.v);
    }
  }

  /** A lock taken for nothing. */
  lemma Strayed(sys: Sys, stray: set<nat>, id: nat, v: View, lock: nat)
    requires Inv(sys, stray) && id in sys.scans && id in sys.aps
    requires v.scan.levels == sys.scans[id].levels && v.chains == sys.chains && v.ap == sys.aps[id]
    requires lock !in sys.locks && v.locks == sys.locks + {lock}
    ensures Inv(WithView(sys, id, v), stray + {lock})
  {
    SameLive(sys, id, v);
  }

  /** The locks one MatchNext leaves behind: the one it had already taken when the heap
      had no room for the new AChain. */
  function NextLeaks(host: Host, sys: Sys, id: nat, g: Grant): set<nat>
    requires id in sys.aps
    requires id in sys.scans ==> sys.scans[id].levels != []
  {
    if MatchNext(host, sys, id, g).report == Failed(ERROR_NO_FREE_STORE) && g.lock.Some? then {g.lock.value} else {}
  }

  lemma NextKeepsInv(host: Host, sys: Sys, stray: set<nat>, id: nat, g: Grant)
    requires Inv(sys, stray) && id in sys.aps && FreshFor(sys, g)
    ensures id in sys.scans ==> sys.scans[id].levels != []
    ensures Inv(MatchNext(host, sys, id, g).sys, stray + NextLeaks(host, sys, id, g))
  {
    hide Inv, Enter, Settle;
    InvParts(sys, stray);
    if id !in sys.scans {
      assert stray + {} == stray;
    } else {
      var entering := Enter(host, ViewOf(sys, id), g);
      EnterKeepsInv(host, sys, stray, id, g);
      EnterRefusal(host, sys, id, g);
      if !entering.Refused? {
        var mid := WithView(sys, id, entering.v);
        SettleKeepsInv(mid, stray, id, entering.Entered?);
        WithViewTwice(sys, id, entering.v, Settle(entering.v, entering.Entered?).v);
        SettleReport(entering.v, entering.Entered?);
      }
      assert stray + {} == stray;
    }
  }

  lemma EnterRefusal(host: Host, sys: Sys, id: nat, g: Grant)
    requires id in sys.scans && id in sys.aps && sys.scans[id].levels != []
    ensures var entering := Enter(host, ViewOf(sys, id), g);
            && entering.v.scan.levels != []
            && (entering.Refused? && entering.error == ERROR_NO_FREE_STORE ==> g.lock.Some?)
  {
  }

  lemma SettleReport(v: View, entered: bool)
    requires v.scan.levels != []
    ensures Settle(v, entered).report != Failed(ERROR_NO_FREE_STORE)
  {
  }

  lemma WithViewTwice(sys: Sys, id: nat, v: View, v': View)
    ensures WithView(WithView(sys, id, v), id, v') == WithView(sys, id, v')
    ensures id in sys.aps ==> ViewOf(WithView(sys, id, v), id) == v
  {
  }

  // --- MatchEnd ---

  /** MatchEnd releases the locks of its own scan's levels and no others. */
  lemma EndKeepsInv(sys: Sys, stray: set<nat>, id: nat)
    requires Inv(sys, stray)
    ensures Inv(MatchEnd(sys, id), stray)
    ensures id in sys.scans ==> LiveLocks(MatchEnd(sys, id)) == LiveLocks(sys) - LevelLocks(sys.scans[id].levels)
  {
    if id in sys.scans {
      Retired(sys, id);
    }
  }

  lemma Retired(sys: Sys, id: nat)
    requires AllDistinct(sys) && id in sys.scans
    ensures LiveLocks(sys.(scans := sys.scans - {id})) == LiveLocks(sys) - LevelLocks(sys.scans[id].levels)
    ensures LevelLocks(sys.scans[id].levels) <= LiveLocks(sys)
    ensures AllDistinct(sys.(scans := sys.scans - {id}))
  {
    var sys' := sys.(scans := sys.scans - {id});
    assert forall x, i: nat :: IsLive(sys', x, i) <==> IsLive(sys, x, i) && x != id;
    forall l | l in LevelLocks(sys.scans[id].levels) ensures l in LiveLocks(sys) && l !in LiveLocks(sys') {
      var i: nat :| i < |sys.scans[id].levels| && sys.scans[id].levels[i].lock == l;
      assert IsLive(sys, id, i);
      LiveLock(sys, id, i);
      if l in LiveLocks(sys') {
        var x, j: nat :| IsLive(sys', x, j) && sys'.scans[x].levels[j].lock == l;
      }
    }
    forall l | l in LiveLocks(sys) ensures l in LiveLocks(sys') || l in LevelLocks(sys.scans[id].levels) {
      var x, i: nat :| IsLive(sys, x, i) && sys.scans[x].levels[i].lock == l;
      if x != id {
        assert IsLive(sys', x, i);
        LiveLock(sys', x, i);
      }
    }
  }

  // --- MatchFirst ---

  /** Dropping a scan's state without unlocking leaves its locks to nobody. */
  lemma Forgotten(sys: Sys, stray: set<nat>, id: nat)
    requires Inv(sys, stray) && id in sys.scans
    ensures Inv(sys.(scans := sys.scans - {id}), stray + LevelLocks(sys.scans[id].levels))
  {
    Retired(sys, id);
  }

  /** A scan of one level with a fresh lock and a fresh node. */
  lemma Started(sys: Sys, stray: set<nat>, id: nat, ap: AnchorPath, chain: AChain, scan: Scan)
    requires Inv(sys, stray) && id !in sys.scans && |scan.levels| == 1
    requires var level := scan.levels[0];
             && level.lock !in sys.locks && level.achain != 0 && level.achain !in sys.chains
             && chain.parent == 0 && chain.lock == level.lock
             && ap.base == level.achain && ap.last == level.achain
    ensures var level := scan.levels[0];
            Inv(Sys(sys.aps[id := ap], sys.chains[level.achain := chain],
                    sys.locks + {level.lock}, sys.scans[id := scan]),
                stray)
  {
    hide AllDistinct, Accounted, Mirrors, Linked, LiveLocks;
    var level := scan.levels[0];
    var v := View(ap, scan, sys.chains[level.achain := chain], sys.locks + {level.lock});
    OneMirrored(v.chains, ap, scan.levels);
    OthersMirrored(sys, id, v);
    StartedLive(sys, stray, id, v);
    PushedAccounts(sys, stray, id, v, level);
  }

  lemma OneMirrored(chains: map<nat, AChain>, ap: AnchorPath, levels: seq<Level>)
    requires |levels| == 1 && levels[0].achain != 0 && levels[0].achain in chains
    requires var chain := chains[levels[0].achain]; chain.parent == 0 && chain.lock == levels[0].lock
    requires ap.base == levels[0].achain && ap.last == levels[0].achain
    ensures Mirrors(chains, ap, levels)
  {
    assert Linked(chains, levels, 0);
  }

  lemma StartedLive(sys: Sys, stray: set<nat>, id: nat, v: View)
    requires Inv(sys, stray) && id !in sys.scans && |v.scan.levels| == 1
    requires v.scan.levels[0].lock !in sys.locks && v.scan.levels[0].achain !in sys.chains
    ensures AllDistinct(WithView(sys, id, v))
    ensures LiveLocks(WithView(sys, id, v)) == LiveLocks(sys) + {v.scan.levels[0].lock}
  {
    hide Mirrors, Accounted;
    var sys' := WithView(sys, id, v);
    forall x, i: nat | IsLive(sys', x, i)
      ensures (x == id && i == 0)
           || (IsLive(sys, x, i) && sys'.scans[x].levels[i] == sys.scans[x].levels[i]
               && sys.scans[x].levels[i].lock in sys.locks && sys.scans[x].levels[i].achain in sys.chains)
    {
      if x != id {
        LiveIsHeld(sys, stray, x, i);
      }
    }
    forall l | l in LiveLocks(sys) ensures l in LiveLocks(sys') {
      var x, i: nat :| IsLive(sys, x, i) && sys.scans[x].levels[i].lock == l;
      assert IsLive(sys', x, i);
      LiveLock(sys', x, i);
    }
    assert IsLive(sys', id, 0);
    LiveLock(sys', id, 0);
  }

  /** A lock and a node taken for a match whose path did not fit `ap_Buf`. */
  lemma Overflowed(sys: Sys, stray: set<nat>, id: nat, ap: AnchorPath, lock: nat, achain: nat, chain: AChain)
    requires Inv(sys, stray) && id in sys.aps && lock !in sys.locks && achain !in sys.chains
    requires ap.base == sys.aps[id].base && ap.last == sys.aps[id].last
    ensures Inv(sys.(aps := sys.aps[id := ap], chains := sys.chains[achain := chain], locks := sys.locks + {lock}),
                stray + {lock})
  {
    var sys' := sys.(aps := sys.aps[id := ap], chains := sys.chains[achain := chain], locks := sys.locks + {lock});
    forall x | x in sys'.scans ensures x in sys'.aps && Mirrors(sys'.chains, sys'.aps[x], sys'.scans[x].levels) {
      KeepsMirrors(sys.chains, sys'.chains, sys.aps[x], sys.scans[x].levels, sys.scans[x].levels);
    }
    assert forall x, i: nat :: IsLive(sys', x, i) <==> IsLive(sys, x, i);
    assert LiveLocks(sys') == LiveLocks(sys);
  }

  /** MatchFirst gets as far as allocating the AChain, a lock in hand. */
  predicate Reaches(host: Host, pat: Bytes, g: Grant) {
    var split := SplitPattern(host, pat);
    var parsed := host.parse(split.component);
    && parsed.Some? && g.lock.Some?
    && var target := host.lookup(if parsed.value.wild then split.dir else pat);
       && target.Some?
       && (parsed.value.wild ==>
             ListError(target.value).None? && Listing(target.value, host.Keep(parsed.value)) != [])
  }

  /** The locks one MatchFirst leaves behind: the new one when no AChain can be had or the
      path overflows `ap_Buf`, and all of a scan still live on the same AnchorPath when
      it is replaced. */
  function FirstLeaks(host: Host, sys: Sys, pat: Bytes, id: nat, g: Grant): set<nat>
    requires id in sys.aps
  {
    var report := MatchFirst(host, sys, pat, id, g).report;
    if Reaches(host, pat, g) && report.Code() != 0 then {g.lock.value}
    else if report.Code() == 0 && id in sys.scans then LevelLocks(sys.scans[id].levels)
    else {}
  }

  lemma BeginKeepsInv(sys: Sys, stray: set<nat>, id: nat, first: Entry, shown: Bytes, scan: Scan, wild: bool)
    requires Inv(sys, stray) && id in sys.aps && |scan.levels| == 1
    requires var level := scan.levels[0];
             level.lock !in sys.locks && level.achain != 0 && level.achain !in sys.chains
    ensures var level := scan.levels[0];
            var called := Begin(sys, id, level, first, shown, scan, wild);
            Inv(called.sys, stray + if called.report.Code() != 0 then {level.lock}
                                    else if id in sys.scans then LevelLocks(sys.scans[id].levels) else {})
  {
    hide Inv, StoreDisplay, LevelLocks;
    var level := scan.levels[0];
    var called := Begin(sys, id, level, first, shown, scan, wild);
    var chain := AChain(0, level.lock, first.name, first.IsDir());
    if called.report.Code() != 0 {
      Overflowed(sys, stray, id, called.sys.aps[id], level.lock, level.achain, chain);
    } else if id in sys.scans {
      Forgotten(sys, stray, id);
      var bare := sys.(scans := sys.scans - {id});
      Started(bare, stray + LevelLocks(sys.scans[id].levels), id, called.sys.aps[id], chain, scan);
      assert bare.scans[id := scan] == sys.scans[id := scan];
    } else {
      Started(sys, stray, id, called.sys.aps[id], chain, scan);
      assert stray + {} == stray;
    }
  }

  lemma LockStrays(sys: Sys, stray: set<nat>, lock: nat)
    requires Inv(sys, stray) && lock !in sys.locks
    ensures Inv(sys.(locks := sys.locks + {lock}), stray + {lock})
  {
    var sys' := sys.(locks := sys.locks + {lock});
    assert forall x, i: nat :: IsLive(sys', x, i) <==> IsLive(sys, x, i);
    assert LiveLocks(sys') == LiveLocks(sys);
  }

  lemma FirstKeepsInv(host: Host, sys: Sys, stray: set<nat>, pat: Bytes, id: nat, g: Grant)
    requires Inv(sys, stray) && id in sys.aps && FreshFor(sys, g)
    ensures Inv(MatchFirst(host, sys, pat, id, g).sys, stray + FirstLeaks(host, sys, pat, id, g))
  {
    hide Inv, Begin, Listing, SplitPattern, AnchorDisplayName, JoinAmiga, LevelLocks;
    assert stray + {} == stray;
    if Reaches(host, pat, g) {
      var split := SplitPattern(host, pat);
      var parsed := host.parse(split.component).value;
      var target := host.lookup(if parsed.wild then split.dir else pat).value;
      if g.chain.None? {
        LockStrays(sys, stray, g.lock.value);
      } else if parsed.wild {
        var es := Listing(target, host.Keep(parsed));
        var scan := WildScan(split.dir, split.display, host.Keep(parsed), es, g.lock.value, g.chain.value);
        BeginKeepsInv(sys, stray, id, es[0], JoinAmiga(split.display, es[0].name), scan, true);
      } else {
        var scan := DirectScan(host, pat, target, g.lock.value, g.chain.value);
        BeginKeepsInv(sys, stray, id, scan.pending.value, pat, scan, false);
      }
    }
  }

  // --- Every run ---

  ghost predicate Ready(sys: Sys, op: Op) {
    && op.id in sys.aps
    && (op.DoFirst? || op.DoNext? ==> FreshFor(sys, op.grant))
  }

  function Leaks(host: Host, sys: Sys, op: Op): set<nat>
    requires op.id in sys.aps
    requires op.id in sys.scans ==> sys.scans[op.id].levels != []
  {
    match op
    case DoFirst(id, pat, g) => FirstLeaks(host, sys, pat, id, g)
    case DoNext(id, g) => NextLeaks(host, sys, id, g)
    case _ => {}
  }

  lemma FlagsKeepInv(sys: Sys, stray: set<nat>, id: nat, flags: Flags)
    requires Inv(sys, stray) && id in sys.aps
    ensures Inv(sys.(aps := sys.aps[id := sys.aps[id].(flags := flags)]), stray)
  {
    var sys' := sys.(aps := sys.aps[id := sys.aps[id].(flags := flags)]);
    assert forall x, i: nat :: IsLive(sys', x, i) <==> IsLive(sys, x, i);
    assert LiveLocks(sys') == LiveLocks(sys);
  }

  /** One call on any AnchorPath keeps every scan's list mirrored and every lock
      accounted for. */
  lemma ApplyKeepsInv(host: Host, sys: Sys, stray: set<nat>, op: Op)
    requires Inv(sys, stray) && Ready(sys, op)
    ensures op.id in sys.scans ==> sys.scans[op.id].levels != []
    ensures Inv(Apply(host, sys, op).sys, stray + Leaks(host, sys, op))
  {
    hide Inv, MatchFirst, MatchNext, FirstLeaks, NextLeaks, MatchEnd;
    InvParts(sys, stray);
    assert stray + {} == stray;
    match op
    case DoFirst(id, pat, g) => FirstKeepsInv(host, sys, stray, pat, id, g);
    case DoNext(id, g) => NextKeepsInv(host, sys, stray, id, g);
    case DoEnd(id) => EndKeepsInv(sys, stray, id);
    case DoStoreFlags(id, flags) => FlagsKeepInv(sys, stray, id, flags);
  }
}
