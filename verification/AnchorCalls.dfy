// MatchFirst, MatchNext and MatchEnd as the calls that update the shared state,
// proved against the functions of AnchorModel.

module AnchorCalls {
  import opened Guest
  import opened HostTree
  import opened AnchorModel

  /** A level's lock may already be among the held ones when its scan begins. */
  lemma BeginLocked(sys: Sys, locks: set<nat>, id: nat, level: Level, first: Entry, shown: Bytes, scan: Scan,
                    wild: bool)
    requires id in sys.aps && locks == sys.locks + {level.lock}
    ensures Begin(sys.(locks := locks), id, level, first, shown, scan, wild)
            == Begin(sys, id, level, first, shown, scan, wild)
  {
    assert locks + {level.lock} == locks;
  }

  class Matcher {
    const host: Host
    /** Guest memory: the callers' AnchorPaths and the AChain nodes. */
    var aps: map<nat, AnchorPath>
    var chains: map<nat, AChain>
    /** Held locks, and the live scans by AnchorPath address. */
    var locks: set<nat>
    var scans: map<nat, Scan>

    ghost function State(): Sys
      reads this
    {
      Sys(aps, chains, locks, scans)
    }

    /** An AnchorPath whose caller allocated the `ap_Buf` it announced. */
    ghost predicate Usable(id: nat)
      reads this
    {
      && id in aps && aps[id].strlen <= |aps[id].buf|
      && (id in scans ==> scans[id].levels != [])
    }

    constructor (host: Host, aps: map<nat, AnchorPath>)
      ensures State() == Sys(aps, map[], {}, map[]) && this.host == host
    {
      this.host := host;
      this.aps, this.chains, this.locks, this.scans := aps, map[], {}, map[];
    }

    method SetFlagBit(id: nat, bit: nat, set_: bool)
      requires id in aps
      modifies this`aps
      ensures aps == old(aps)[id := old(aps)[id].(
                flags := if set_ then old(aps)[id].flags + {bit} else old(aps)[id].flags - {bit})]
    {
      var flags := aps[id].flags;
      aps := aps[id := aps[id].(flags := if set_ then flags + {bit} else flags - {bit})];
    }

    method AllocAChain(addr: nat)
      modifies this`chains
      ensures chains == old(chains)[addr := AChain(0, 0, [], false)]
    {
      chains := chains[addr := AChain(0, 0, [], false)];
    }

    /** Fills ap_Info, an_Info and ap_Buf. */
    method WriteMatchResult(id: nat, achain: nat, name: Bytes, isDir: bool, display: Bytes) returns (code: int)
      requires id in aps && aps[id].strlen <= |aps[id].buf|
      modifies this`aps, this`chains
      ensures aps == old(aps)[id := NoteAp(old(aps)[id], name, isDir, display)]
      ensures chains == NoteChain(old(chains), achain, name, isDir)
      ensures code == if Fits(old(aps)[id].strlen, display) then 0 else ERROR_BUFFER_OVERFLOW
    {
      hide StoreDisplay;
      if achain in chains {
        chains := chains[achain := chains[achain].(infoName := name, infoIsDir := isDir)];
      }
      var buf;
      code, buf := StorePath(aps[id].buf, aps[id].strlen, display);
      aps := aps[id := aps[id].(infoName := name, infoIsDir := isDir, buf := buf)];
    }

    /** Copies a path into `ap_Buf` byte by byte, with the terminator if all of it fits. */
    method StorePath(buf: Bytes, strlen: nat, display: Bytes) returns (code: int, r: Bytes)
      requires strlen <= |buf|
      ensures r == StoreDisplay(buf, strlen, display)
      ensures code == if Fits(strlen, display) then 0 else ERROR_BUFFER_OVERFLOW
    {
      if strlen == 0 {
        return 0, buf;
      }
      var overflowed := |display| + 1 > strlen;
      var n := if |display| < strlen - 1 then |display| else strlen - 1;
      r := buf;
      var i := 0;
      while i < n
        invariant 0 <= i <= n
        invariant r == display[..i] + buf[i..]
      {
        r := r[i := display[i]];
        i := i + 1;
      }
      if !overflowed {
        r := r[n := 0];
        assert display[..n] == display;
      }
      code := if overflowed then ERROR_BUFFER_OVERFLOW else 0;
    }

    /** Locks a directory: the host object the path resolves to, if there is one and the
        heap grants the lock structure. */
    method LockObject(path: Bytes, g: Grant) returns (node: Option<Node>)
      modifies this`locks
      ensures node == if g.lock.Some? then host.lookup(path) else None
      ensures locks == if node.Some? then old(locks) + {g.lock.value} else old(locks)
    {
      node := None;
      if g.lock.Some? {
        node := host.lookup(path);
      }
      if node.Some? {
        locks := locks + {g.lock.value};
      }
    }

    method Unlock(lock: nat)
      modifies this`locks
      ensures locks == old(locks) - {lock}
    {
      locks := locks - {lock};
    }

    method MatchFirst(pat: Bytes, id: nat, g: Grant) returns (code: int)
      requires Usable(id)
      requires g.lock.Some? ==> g.lock.value !in locks
      modifies this
      ensures State() == AnchorModel.MatchFirst(host, old(State()), pat, id, g).sys
      ensures code == AnchorModel.MatchFirst(host, old(State()), pat, id, g).report.Code()
    {
      hide Listing, SplitPattern, AnchorDisplayName, JoinAmiga, Begin;
      var split := SplitPattern(host, pat);
      var parsed := host.parse(split.component);
      if parsed.None? {
        return ERROR_BAD_TEMPLATE;
      }
      var node := LockObject(if parsed.value.wild then split.dir else pat, g);
      if node.None? {
        return ERROR_OBJECT_NOT_FOUND;
      }
      if !parsed.value.wild {
        if g.chain.None? {
          return ERROR_NO_FREE_STORE;
        }
        var path := host.qualify(pat);
        var name := AnchorDisplayName(path);
        var level := Level(g.chain.value, g.lock.value, path, pat, name, [], 0);
        var scan := Scan(host.KeepAll(), [level], Some(Entry(name, node.value)), true);
        BeginLocked(old(State()), locks, id, level, scan.pending.value, pat, scan, false);
        code := BeginScan(id, level, scan.pending.value, pat, scan, false);
        return;
      }
      var keep := host.Keep(parsed.value);
      var listed, entries := ListAndFilter(node.value, keep);
      if listed != 0 {
        Unlock(g.lock.value);
        return listed;
      }
      if entries == [] {
        Unlock(g.lock.value);
        return ERROR_NO_MORE_ENTRIES;
      }
      if g.chain.None? {
        return ERROR_NO_FREE_STORE;
      }
      var level := Level(
        g.chain.value, g.lock.value, split.dir, split.display, AnchorDisplayName(split.dir), entries, 1);
      var scan := Scan(keep, [level], Some(entries[0]), false);
      BeginLocked(old(State()), locks, id, level, entries[0], JoinAmiga(split.display, entries[0].name), scan, true);
      code := BeginScan(id, level, entries[0], JoinAmiga(split.display, entries[0].name), scan, true);
    }

    /** The common end of MatchFirst, the lock already held: the first AChain and the
        first result; the scan's state is recorded only if the path fits `ap_Buf`. */
    method BeginScan(id: nat, level: Level, first: Entry, shown: Bytes, scan: Scan, wild: bool) returns (code: int)
      requires Usable(id) && level.lock in locks
      modifies this
      ensures State() == Begin(old(State()), id, level, first, shown, scan, wild).sys
      ensures code == Begin(old(State()), id, level, first, shown, scan, wild).report.Code()
    {
      hide NoteAp, NoteChain;
      NotedAp(aps[id], first.name, first.IsDir(), shown);
      ChainBegun(chains, level.achain, level.lock, first.name, first.IsDir());
      AllocAChain(level.achain);
      chains := chains[level.achain := chains[level.achain].(lock := level.lock)];
      code := WriteMatchResult(id, level.achain, first.name, first.IsDir(), shown);
      assert locks == locks + {level.lock};
      if code != 0 {
        return;
      }
      ghost var noted := aps[id];
      aps := aps[id := aps[id].(base := level.achain, last := level.achain)];
      if wild {
        SetFlagBit(id, APF_ITSWILD, true);
      }
      assert aps == old(aps)[id := noted.(base := level.achain, last := level.achain,
                                          flags := if wild then noted.flags + {APF_ITSWILD} else noted.flags)];
      scans := scans[id := scan];
    }

    /** The state is taken out of the table, worked on and put back, whatever happened. */
    method MatchNext(id: nat, g: Grant) returns (code: int)
      requires Usable(id)
      modifies this
      ensures State() == AnchorModel.MatchNext(host, old(State()), id, g).sys
      ensures code == AnchorModel.MatchNext(host, old(State()), id, g).report.Code()
    {
      hide Next;
      if id !in scans {
        return ERROR_NO_MORE_ENTRIES;
      }
      var state := scans[id];
      scans := scans - {id};
      code, state := MatchNextInner(id, g, state);
      scans := scans[id := state];
      assert scans == old(scans)[id := state];
    }

    method MatchNextInner(id: nat, g: Grant, scan: Scan) returns (code: int, state: Scan)
      requires id in aps && aps[id].strlen <= |aps[id].buf| && scan.levels != []
      modifies this`aps, this`chains, this`locks
      ensures id in aps
      ensures var step := Next(host, old(View(aps[id], scan, chains, locks)), g);
              && View(aps[id], state, chains, locks) == step.v
              && aps == old(aps)[id := step.v.ap]
              && code == step.report.Code()
    {
      hide Settle, ReportEntry, LeaveTop;
      var entered;
      code, state, entered := EnterDirectory(id, g, scan);
      if code != 0 {
        return;
      }
      code, state := SettleCall(id, state, entered);
    }

    method EnterDirectory(id: nat, g: Grant, scan: Scan) returns (code: int, state: Scan, entered: bool)
      requires id in aps && aps[id].strlen <= |aps[id].buf| && scan.levels != []
      modifies this`aps, this`chains, this`locks
      ensures id in aps && aps[id].strlen <= |aps[id].buf| && state.levels != []
      ensures var entering := Enter(host, old(View(aps[id], scan, chains, locks)), g);
              && View(aps[id], state, chains, locks) == entering.v
              && aps == old(aps)[id := entering.v.ap]
              && code == (if entering.Refused? then entering.error else 0)
              && entered == entering.Entered?
    {
      hide Listing, JoinAmiga, EnsureTrailingSep;
      code, state, entered := 0, scan, false;
      var pending := state.pending;
      state := state.(pending := None);
      if pending.Some? && pending.value.IsDir() && APF_DODIR in aps[id].flags {
        var name := pending.value.name;
        var top := state.Top();
        var path, display := state.ChildPath(name), state.ChildDisplay(name);
        state := state.(directSelf := false);
        var node := LockObject(path, g);
        if node.None? {
          code := ERROR_OBJECT_NOT_FOUND;
          return;
        }
        var _, entries := ListAndFilter(node.value, state.keep);
        if g.chain.None? {
          code := ERROR_NO_FREE_STORE;
          return;
        }
        AllocAChain(g.chain.value);
        chains := chains[g.chain.value := chains[g.chain.value].(lock := g.lock.value, parent := top.achain)];
        assert chains == old(chains)[g.chain.value := AChain(top.achain, g.lock.value, [], false)];
        ghost var ap := aps[id];
        aps := aps[id := aps[id].(last := g.chain.value)];
        SetFlagBit(id, APF_DODIR, false);
        SetFlagBit(id, APF_DIR_CHANGED, true);
        assert aps == old(aps)[id := ap.(last := g.chain.value, flags := ap.flags - {APF_DODIR} + {APF_DIR_CHANGED})];
        entered := true;
        var level := Level(g.chain.value, g.lock.value, path, display, name, entries, 0);
        state := state.(levels := state.levels + [level]);
      }
    }

    method SettleCall(id: nat, scan: Scan, entered: bool) returns (code: int, state: Scan)
      requires id in aps && aps[id].strlen <= |aps[id].buf| && scan.levels != []
      modifies this`aps, this`chains, this`locks
      ensures id in aps
      ensures var step := Settle(old(View(aps[id], scan, chains, locks)), entered);
              && View(aps[id], state, chains, locks) == step.v
              && aps == old(aps)[id := step.v.ap]
              && code == step.report.Code()
    {
      hide JoinAmiga, StoreDisplay;
      state := scan;
      var n := |state.levels|;
      var level := state.Top();
      if level.cursor < |level.entries| {
        var e := level.entries[level.cursor];
        state := state.(levels := state.levels[n - 1 := level.(cursor := level.cursor + 1)]);
        code := WriteMatchResult(id, level.achain, e.name, e.IsDir(), JoinAmiga(level.display, e.name));
        if code != 0 {
          return;
        }
        if !entered {
          SetFlagBit(id, APF_DIR_CHANGED, false);
        }
        state := state.(pending := Some(e));
        return;
      }
      if n == 1 {
        return ERROR_NO_MORE_ENTRIES, state;
      }
      var finished := level;
      state := state.(levels := state.levels[..n - 1]);
      Unlock(finished.lock);
      var parent := state.Top();
      aps := aps[id := aps[id].(last := parent.achain)];
      code := WriteMatchResult(id, parent.achain, finished.selfName, true, finished.display);
      if code != 0 {
        return;
      }
      SetFlagBit(id, APF_DIDDIR, true);
      SetFlagBit(id, APF_DIR_CHANGED, true);
      state := state.(pending := None);
    }

    method MatchEnd(id: nat)
      modifies this
      ensures State() == AnchorModel.MatchEnd(old(State()), id)
    {
      if id in scans {
        var levels := scans[id].levels;
        scans := scans - {id};
        var i := 0;
        while i < |levels|
          invariant 0 <= i <= |levels|
          invariant locks == old(locks) - LevelLocks(levels[..i])
          invariant aps == old(aps) && chains == old(chains) && scans == old(scans) - {id}
        {
          assert LevelLocks(levels[..i + 1]) == LevelLocks(levels[..i]) + {levels[i].lock};
          Unlock(levels[i].lock);
          i := i + 1;
        }
        assert levels[..i] == levels;
      }
    }
  }

  lemma NotedAp(ap: AnchorPath, name: Bytes, isDir: bool, display: Bytes)
    ensures NoteAp(ap, name, isDir, display).strlen == ap.strlen
  {
  }

  lemma ChainBegun(chains: map<nat, AChain>, achain: nat, lock: nat, name: Bytes, isDir: bool)
    ensures var c := AChain(0, 0, [], false);
            NoteChain(chains[achain := c][achain := c.(lock := lock)], achain, name, isDir)
            == chains[achain := AChain(0, lock, name, isDir)]
  {
  }
}
