// What a report is to the caller: the name and kind in ap_Info, the path in ap_Buf and
// the APF_DIDDIR bit it reads after the call.

module AnchorShown {
  import opened Guest
  import opened HostTree
  import opened AnchorModel

  /** The caller allocated the `ap_Buf` it announced. */
  predicate Roomy(ap: AnchorPath) { ap.strlen <= |ap.buf| }

  /** `ap_Buf` holds a path and its terminator, or as much of the path as leaves room for
      one; with `ap_Strlen` 0 there is none. */
  predicate BufHolds(ap: AnchorPath, display: Bytes) {
    ap.strlen == 0
    || (Roomy(ap)
        && if |display| < ap.strlen then ap.buf[..|display|] == display && ap.buf[|display|] == 0
           else ap.buf[..ap.strlen - 1] == display[..ap.strlen - 1])
  }

  /** The caller reads the report off its AnchorPath; a report of failure shows nothing. */
  predicate Shown(ap: AnchorPath, report: Report) {
    match report
    case Found(name, isDir, display, fits) =>
      && ap.infoName == name && ap.infoIsDir == isDir && BufHolds(ap, display)
      && fits == (ap.strlen == 0 || |display| < ap.strlen)
    case Left(name, display, fits) =>
      && ap.infoName == name && ap.infoIsDir && BufHolds(ap, display)
      && fits == (ap.strlen == 0 || |display| < ap.strlen)
      && (fits ==> APF_DIDDIR in ap.flags)
    case Failed(_) => true
  }

  lemma NoteHolds(ap: AnchorPath, name: Bytes, isDir: bool, display: Bytes)
    requires Roomy(ap)
    ensures var r := NoteAp(ap, name, isDir, display);
            && Roomy(r) && BufHolds(r, display) && r.infoName == name && r.infoIsDir == isDir
            && r.strlen == ap.strlen && r.flags == ap.flags
  {
  }

  ghost predicate NextShown(v: View, step: Step) {
    && Roomy(step.v.ap) && step.v.ap.strlen == v.ap.strlen && Shown(step.v.ap, step.report)
    && (step.report.Failed? ==>
          step.v.ap.infoName == v.ap.infoName && step.v.ap.infoIsDir == v.ap.infoIsDir && step.v.ap.buf == v.ap.buf)
    && (APF_DIDDIR in step.v.ap.flags <==> APF_DIDDIR in v.ap.flags || (step.report.Left? && step.report.fits))
  }

  lemma SettleShows(v: View, entered: bool)
    requires v.scan.levels != [] && Roomy(v.ap)
    ensures NextShown(v, Settle(v, entered))
  {
    hide NoteAp, NoteChain, BufHolds, JoinAmiga;
    var levels, top := v.scan.levels, v.scan.Top();
    if top.cursor < |top.entries| {
      var e := top.entries[top.cursor];
      NoteHolds(v.ap, e.name, e.IsDir(), JoinAmiga(top.display, e.name));
      var ap := NoteAp(v.ap, e.name, e.IsDir(), JoinAmiga(top.display, e.name));
      FlagsAside(ap, ap.flags - {APF_DIR_CHANGED}, JoinAmiga(top.display, e.name));
    } else if |levels| > 1 {
      var moved := v.ap.(last := levels[|levels| - 2].achain);
      NoteHolds(moved, top.selfName, true, top.display);
      var ap := NoteAp(moved, top.selfName, true, top.display);
      FlagsAside(ap, ap.flags + {APF_DIDDIR, APF_DIR_CHANGED}, top.display);
    }
  }

  lemma FlagsAside(ap: AnchorPath, flags: Flags, display: Bytes)
    ensures BufHolds(ap.(flags := flags), display) == BufHolds(ap, display)
  {
  }

  lemma EnterShowsNothing(host: Host, v: View, g: Grant)
    requires v.scan.levels != []
    ensures var w := Enter(host, v, g).v.ap;
            && w.infoName == v.ap.infoName && w.infoIsDir == v.ap.infoIsDir && w.buf == v.ap.buf
            && w.strlen == v.ap.strlen && (APF_DIDDIR in w.flags <==> APF_DIDDIR in v.ap.flags)
            && Enter(host, v, g).v.scan.levels != []
  {
    hide Listing, JoinAmiga, EnsureTrailingSep;
  }

  /** After any MatchNext the caller reads its report off the AnchorPath, a failure leaves
      what was shown before, and APF_DIDDIR is set exactly if it was set before or the call
      left a directory and had room for its path: it is never cleared. */
  lemma NextShows(host: Host, v: View, g: Grant)
    requires v.scan.levels != [] && Roomy(v.ap)
    ensures NextShown(v, Next(host, v, g))
  {
    hide Enter, Settle;
    EnterShowsNothing(host, v, g);
    var entering := Enter(host, v, g);
    if !entering.Refused? {
      SettleShows(entering.v, entering.Entered?);
    }
  }

  lemma BeginShows(sys: Sys, id: nat, level: Level, first: Entry, shown: Bytes, scan: Scan, wild: bool)
    requires id in sys.aps && Roomy(sys.aps[id])
    ensures var called := Begin(sys, id, level, first, shown, scan, wild);
            && id in called.sys.aps && Roomy(called.sys.aps[id]) && Shown(called.sys.aps[id], called.report)
            && called.sys.aps[id].strlen == sys.aps[id].strlen
            && (APF_DIDDIR in called.sys.aps[id].flags <==> APF_DIDDIR in sys.aps[id].flags)
  {
    hide BufHolds, NoteAp;
    NoteHolds(sys.aps[id], first.name, first.IsDir(), shown);
    var ap := NoteAp(sys.aps[id], first.name, first.IsDir(), shown);
    NodesAside(ap, level.achain, if wild then ap.flags + {APF_ITSWILD} else ap.flags, shown);
  }

  lemma NodesAside(ap: AnchorPath, achain: nat, flags: Flags, display: Bytes)
    ensures BufHolds(ap.(base := achain, last := achain, flags := flags), display) == BufHolds(ap, display)
  {
  }

  /** After a MatchFirst likewise; a failure touches no AnchorPath. */
  lemma FirstShows(host: Host, sys: Sys, pat: Bytes, id: nat, g: Grant)
    requires id in sys.aps && Roomy(sys.aps[id])
    ensures var called := MatchFirst(host, sys, pat, id, g);
            && id in called.sys.aps && Roomy(called.sys.aps[id]) && Shown(called.sys.aps[id], called.report)
            && called.sys.aps[id].strlen == sys.aps[id].strlen
            && (called.report.Failed? ==> called.sys.aps == sys.aps)
            && (APF_DIDDIR in called.sys.aps[id].flags <==> APF_DIDDIR in sys.aps[id].flags)
  {
    hide Begin, Listing, SplitPattern, AnchorDisplayName, JoinAmiga, Fits, BufHolds;
    BeginReports(host, sys, pat, id, g);
    var split := SplitPattern(host, pat);
    var parsed := host.parse(split.component);
    if parsed.Some? && g.lock.Some? && g.chain.Some? {
      var target := host.lookup(if parsed.value.wild then split.dir else pat);
      if target.Some? && !parsed.value.wild {
        var scan := DirectScan(host, pat, target.value, g.lock.value, g.chain.value);
        BeginShows(sys, id, scan.levels[0], scan.pending.value, pat, scan, false);
      } else if target.Some? {
        var es := Listing(target.value, host.Keep(parsed.value));
        if es != [] {
          var scan := WildScan(split.dir, split.display, host.Keep(parsed.value), es, g.lock.value, g.chain.value);
          BeginShows(sys, id, scan.levels[0], es[0], JoinAmiga(split.display, es[0].name), scan, true);
        }
      }
    }
  }

  lemma BeginReports(host: Host, sys: Sys, pat: Bytes, id: nat, g: Grant)
    requires id in sys.aps
    ensures MatchFirst(host, sys, pat, id, g).report.Failed? ==> MatchFirst(host, sys, pat, id, g).sys.aps == sys.aps
  {
    hide Listing, SplitPattern, AnchorDisplayName, JoinAmiga, Fits, NoteAp;
  }

  // --- The AChain the caller finds at ap_Last ---

  /** `ap_Last` is the top level's node, and every level's node is there. */
  ghost predicate Noted(v: View) {
    && v.scan.levels != [] && v.ap.last == v.scan.Top().achain
    && forall i :: 0 <= i < |v.scan.levels| ==> v.scan.levels[i].achain in v.chains
  }

  /** The node holds the name and kind of the report. */
  ghost predicate ChainShows(chains: map<nat, AChain>, a: nat, report: Report) {
    match report
    case Found(name, isDir, _, _) => a in chains && chains[a].infoName == name && chains[a].infoIsDir == isDir
    case Left(name, _, _) => a in chains && chains[a].infoName == name && chains[a].infoIsDir
    case Failed(_) => true
  }

  /** After any MatchNext the name and kind of the report are also in the node at `ap_Last`;
      no other node that was there changes. */
  lemma NextNotes(host: Host, v: View, g: Grant)
    requires Noted(v)
    ensures var step := Next(host, v, g);
            && ChainShows(step.v.chains, step.v.ap.last, step.report)
            && forall a :: a in v.chains && a != step.v.ap.last && g.chain != Some(a) ==>
                 a in step.v.chains && step.v.chains[a] == v.chains[a]
  {
    hide JoinAmiga, Fits, StoreDisplay, Listing, EnsureTrailingSep;
    var entering := Enter(host, v, g);
    EnterNotes(host, v, g);
    if !entering.Refused? {
      SettleNotes(entering.v, entering.Entered?);
    }
  }

  lemma EnterNotes(host: Host, v: View, g: Grant)
    requires Noted(v)
    ensures var w := Enter(host, v, g);
            && Noted(w.v)
            && forall a :: a in v.chains && g.chain != Some(a) ==> a in w.v.chains && w.v.chains[a] == v.chains[a]
  {
    hide JoinAmiga, Listing, EnsureTrailingSep;
  }

  lemma SettleNotes(v: View, entered: bool)
    requires Noted(v)
    ensures var step := Settle(v, entered);
            && ChainShows(step.v.chains, step.v.ap.last, step.report)
            && forall a :: a in v.chains && a != step.v.ap.last ==>
                 a in step.v.chains && step.v.chains[a] == v.chains[a]
  {
    hide JoinAmiga, Fits, StoreDisplay;
  }

  /** After a MatchFirst that reports something likewise, in its new node. */
  lemma FirstNotes(host: Host, sys: Sys, pat: Bytes, id: nat, g: Grant)
    requires id in sys.aps && g.chain.Some?
    ensures var called := MatchFirst(host, sys, pat, id, g);
            && ChainShows(called.sys.chains, g.chain.value, called.report)
            && (called.report.Code() == 0 ==>
                  called.sys.aps[id].base == called.sys.aps[id].last == g.chain.value)
            && forall a :: a in sys.chains && g.chain != Some(a) ==>
                 a in called.sys.chains && called.sys.chains[a] == sys.chains[a]
  {
    hide JoinAmiga, Fits, StoreDisplay, Listing, SplitPattern, AnchorDisplayName;
  }

  // --- How a MatchFirst ends ---

  /** What becomes of a MatchFirst, in the order in which it is decided. */
  lemma FirstOutcome(host: Host, sys: Sys, pat: Bytes, id: nat, g: Grant)
    requires id in sys.aps
    ensures var parsed := host.parse(SplitPattern(host, pat).component);
            var called := MatchFirst(host, sys, pat, id, g);
            parsed.None? ==> called == Called(sys, Failed(ERROR_BAD_TEMPLATE))
    ensures var split := SplitPattern(host, pat);
            var parsed := host.parse(split.component);
            var called := MatchFirst(host, sys, pat, id, g);
            parsed.Some? ==>
              var found := host.lookup(if parsed.value.wild then split.dir else pat);
              && (found.None? || g.lock.None? ==> called == Called(sys, Failed(ERROR_OBJECT_NOT_FOUND)))
              && (found.Some? && g.lock.Some? && !parsed.value.wild ==> FirstOfLiteral(called, sys, g))
              && (found.Some? && g.lock.Some? && parsed.value.wild ==>
                    FirstOfListing(called, sys, g, found.value, parsed.value.accepts, host.hidden))
  {
    hide SplitPattern, AnchorDisplayName, JoinAmiga, Fits, StoreDisplay, Listing;
    var parsed := host.parse(SplitPattern(host, pat).component);
    if parsed.Some? && parsed.value.wild {
      var found := host.lookup(SplitPattern(host, pat).dir);
      if found.Some? { KeptOnes(found.value, host.Keep(parsed.value)); }
    }
  }

  /** A matched object needs an AChain and nothing else. */
  ghost predicate FirstOfLiteral(called: Called, sys: Sys, g: Grant)
    requires g.lock.Some?
  {
    if g.chain.None? then called == Called(sys.(locks := sys.locks + {g.lock.value}), Failed(ERROR_NO_FREE_STORE))
    else called.report.Found?
  }

  /** A directory must be readable and have an entry the pattern accepts that is not hidden;
      then the AChain is needed. */
  ghost predicate FirstOfListing(called: Called, sys: Sys, g: Grant, node: Node, accepts: Bytes -> bool,
                                 hidden: Bytes -> bool)
    requires g.lock.Some?
  {
    if node.File? then called == Called(sys, Failed(ERROR_ACTION_NOT_KNOWN))
    else if node.denied.Some? then called == Called(sys, Failed(node.denied.value))
    else if forall e <- node.entries :: hidden(e.name) || !accepts(e.name) then
      called == Called(sys, Failed(ERROR_NO_MORE_ENTRIES))
    else if g.chain.None? then called == Called(sys.(locks := sys.locks + {g.lock.value}), Failed(ERROR_NO_FREE_STORE))
    else called.report.Found?
  }

  lemma KeptOnes(node: Node, keep: Bytes -> bool)
    ensures ListError(node).None? ==>
              (Listing(node, keep) == [] <==> forall e <- node.entries :: !keep(e.name))
  {
    hide Listing;
    if ListError(node).None? {
      ListingIsOrderedSelection(node, keep);
      var es := Listing(node, keep);
      forall e | e in node.entries && keep(e.name) ensures es != [] {
        assert e in multiset(node.entries);
        assert e in multiset(es);
      }
      if es != [] {
        ListingMember(node, keep, es[0]);
      }
    }
  }
}
