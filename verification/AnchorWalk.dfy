// MatchFirst and MatchNext to exhaustion report exactly the depth-first walk of
// the tree, pruned to the directories the caller chose to enter.

module AnchorWalk {
  import opened Guest
  import opened HostTree
  import opened AnchorModel

  /** What call number k finds: the caller's APF_DODIR bit and the heap's answer. */
  datatype Call = Call(doDir: bool, grant: Grant)

  /** One scan's fixed surroundings: the pattern, `ap_Strlen` and every future call. */
  datatype Ctx = Ctx(keep: Bytes -> bool, strlen: nat, call: nat -> Call)
  {
    predicate Enters(k: nat) { call(k).doDir }
    predicate Blocked(k: nat) { call(k).grant.lock.None? || call(k).grant.chain.None? }
    function BlockedReport(k: nat): Report {
      Failed(if call(k).grant.lock.None? then ERROR_OBJECT_NOT_FOUND else ERROR_NO_FREE_STORE)
    }
    function Leaving(name: Bytes, display: Bytes): Report {
      Left(name, display, Fits(strlen, display))
    }
  }

  // --- The walk, by recursion on the tree ---

  /** The reports for the entries `es` of one directory shown as `display`, the first
      of them made by call number k: each entry in turn, followed by whatever
      descending into it brings. */
  function Walk(c: Ctx, display: Bytes, es: seq<Entry>, k: nat): seq<Report>
    decreases TotalWeight(es), 0
  {
    if es == [] then []
    else
      var e := es[0];
      var shown := JoinAmiga(display, e.name);
      var fits := Fits(c.strlen, shown);
      var below := if fits then Descent(c, e, JoinAmiga(display, e.name + [SLASH]), k + 1) else [];
      [Found(e.name, e.IsDir(), shown, fits)] + below + Walk(c, display, es[1..], k + 1 + |below|)
  }

  /** What call k and its successors report before they come back to the level that
      listed `e`: nothing unless `e` is a directory the caller enters; else the
      directory's whole walk and one Left naming it, or the refusal. */
  function Descent(c: Ctx, e: Entry, display: Bytes, k: nat): seq<Report>
    decreases Weight(e.node), 1
  {
    if !e.IsDir() || !c.Enters(k) then []
    else if c.Blocked(k) then [c.BlockedReport(k)]
    else
      ListingWeight(e.node, c.keep);
      Walk(c, display, Listing(e.node, c.keep), k) + [c.Leaving(e.name, display)]
  }

  // --- What a scan state still has to report ---

  function Remaining(l: Level): seq<Entry> {
    if l.cursor <= |l.entries| then l.entries[l.cursor..] else []
  }

  /** What is left of a stack of levels whose top still reports `rest`. */
  function Unwind(c: Ctx, levels: seq<Level>, k: nat): seq<Report>
    decreases |levels|, 1
  {
    if levels == [] then []
    else
      var top := levels[|levels| - 1];
      var rest := Walk(c, top.display, Remaining(top), k);
      rest + Below(c, levels, k + |rest|)
  }

  /** What follows once the top level is exhausted and call k leaves it. */
  function Below(c: Ctx, levels: seq<Level>, k: nat): seq<Report>
    requires levels != []
    decreases |levels|, 0
  {
    if |levels| == 1 then []
    else
      var top := levels[|levels| - 1];
      [c.Leaving(top.selfName, top.display)] + Unwind(c, levels[..|levels| - 1], k + 1)
  }

  /** Everything still to come when the next call is number k. */
  function Future(c: Ctx, scan: Scan, k: nat): seq<Report>
    requires scan.levels != []
  {
    var below :=
      if scan.pending.None? then []
      else Descent(c, scan.pending.value, scan.ChildDisplay(scan.pending.value.name), k);
    below + Unwind(c, scan.levels, k + |below|)
  }

  // --- The host answers lookups consistently with its own listings ---

  ghost predicate Coherent(host: Host) {
    ChildrenCoherent(host) && SelfCoherent(host)
  }

  /** Appending a listed directory's name to a readable directory's path finds that directory. */
  ghost predicate ChildrenCoherent(host: Host) {
    forall p, e: Entry ::
      (EndsWithSep(p) && host.lookup(p).Some? && ListError(host.lookup(p).value).None?
       && e in host.lookup(p).value.entries && e.IsDir()) ==>
      host.lookup(p + (e.name + [SLASH])) == Some(e.node)
  }

  /** The qualified spelling of a path finds what the path finds. */
  ghost predicate SelfCoherent(host: Host) {
    forall p :: host.lookup(p).Some? ==> host.lookup(EnsureTrailingSep(host.qualify(p))) == host.lookup(p)
  }

  /** Each directory a level lists is what looking its path up will find. */
  ghost predicate LevelSound(host: Host, l: Level) {
    && l.cursor <= |l.entries|
    && (l.entries != [] ==> EndsWithSep(l.path))
    && (forall e <- l.entries :: e.IsDir() ==> host.lookup(l.path + (e.name + [SLASH])) == Some(e.node))
  }

  ghost predicate Sound(host: Host, scan: Scan) {
    && scan.levels != []
    && (forall i :: 0 <= i < |scan.levels| ==> LevelSound(host, scan.levels[i]))
    && (scan.pending.Some? && scan.pending.value.IsDir() ==>
          host.lookup(scan.ChildPath(scan.pending.value.name)) == Some(scan.pending.value.node))
    && (scan.directSelf ==> |scan.levels| == 1 && scan.Top().entries == [])
  }

  /** A view as call k finds it: the scan of `c` with the caller's bit stored. */
  ghost predicate Meets(c: Ctx, v: View, k: nat) {
    && v.scan.keep == c.keep && v.ap.strlen == c.strlen
    && (APF_DODIR in v.ap.flags <==> c.Enters(k))
  }

  // --- One call reports the first of what is still to come ---

  lemma EnterStaysSound(host: Host, v: View, g: Grant)
    requires Coherent(host) && Sound(host, v.scan)
    ensures var v' := Enter(host, v, g).v;
            && Sound(host, v'.scan) && v'.scan.keep == v.scan.keep
            && v'.scan.pending.None? && v'.ap.strlen == v.ap.strlen
  {
    hide Descend;
    if Enter(host, v, g).Entered? {
      DescendStaysSound(host, v, g.lock.value, g.chain.value);
    }
  }

  lemma DescendStaysSound(host: Host, v: View, lock: nat, chain: nat)
    requires Coherent(host) && Sound(host, v.scan)
    requires v.scan.pending.Some? && v.scan.pending.value.IsDir()
    ensures var v' := Descend(host, v, lock, chain);
            Sound(host, v'.scan) && v'.scan.keep == v.scan.keep
            && v'.scan.pending.None? && v'.ap.strlen == v.ap.strlen
  {
    var v' := Descend(host, v, lock, chain);
    ListingSound(host, v'.scan.Top(), v.scan.pending.value.node, v.scan.keep);
  }

  lemma ListingSound(host: Host, l: Level, node: Node, keep: Bytes -> bool)
    requires Coherent(host) && host.lookup(l.path) == Some(node)
    requires l.entries == Listing(node, keep) && EndsWithSep(l.path) && l.cursor <= |l.entries|
    ensures LevelSound(host, l)
  {
    forall e | e in l.entries && e.IsDir()
      ensures host.lookup(l.path + (e.name + [SLASH])) == Some(e.node)
    {
      ListingMember(node, keep, e);
    }
  }

  lemma {:induction false} DescendFollowsFuture(host: Host, c: Ctx, v: View, lock: nat, chain: nat, k: nat)
    requires Sound(host, v.scan) && v.scan.keep == c.keep
    requires v.scan.pending.Some? && v.scan.pending.value.IsDir() && c.Enters(k) && !c.Blocked(k)
    ensures var v' := Descend(host, v, lock, chain);
            v'.scan.levels != [] && Future(c, v.scan, k) == Unwind(c, v'.scan.levels, k)
  {
    hide Walk, Listing, LevelSound, JoinAmiga, EnsureTrailingSep;
    var e := v.scan.pending.value;
    var levels := Descend(host, v, lock, chain).scan.levels;
    var top := levels[|levels| - 1];
    var left := [c.Leaving(e.name, top.display)];
    assert levels[..|levels| - 1] == v.scan.levels;
    assert Remaining(top) == Listing(e.node, c.keep);
    var rest := Walk(c, top.display, Remaining(top), k);
    assert Descent(c, e, top.display, k) == rest + left;
    assert Unwind(c, levels, k) == rest + (left + Unwind(c, v.scan.levels, k + |rest| + 1));
  }

  lemma {:induction false} EnterFollowsFuture(host: Host, c: Ctx, v: View, k: nat)
    requires Sound(host, v.scan) && Meets(c, v, k)
    ensures var entering := Enter(host, v, c.call(k).grant);
            && entering.v.scan.levels != []
            && Future(c, v.scan, k) ==
               if entering.Refused?
               then [Failed(entering.error)] + Unwind(c, entering.v.scan.levels, k + 1)
               else Unwind(c, entering.v.scan.levels, k)
  {
    hide Walk, Unwind, Descend, LevelSound, JoinAmiga, EnsureTrailingSep;
    var g := c.call(k).grant;
    if Enter(host, v, g).Entered? {
      DescendFollowsFuture(host, c, v, g.lock.value, g.chain.value, k);
    }
  }

  /** Reporting one entry splits what a stack still has to report. */
  lemma UnwindAfterEntry(c: Ctx, levels: seq<Level>, top: Level, k: nat)
    requires levels != [] && top == levels[|levels| - 1] && top.cursor < |top.entries|
    ensures var e := top.entries[top.cursor];
            var shown := JoinAmiga(top.display, e.name);
            var fits := Fits(c.strlen, shown);
            var below := if fits then Descent(c, e, JoinAmiga(top.display, e.name + [SLASH]), k + 1) else [];
            var moved := levels[|levels| - 1 := top.(cursor := top.cursor + 1)];
            Unwind(c, levels, k)
            == [Found(e.name, e.IsDir(), shown, fits)] + (below + Unwind(c, moved, k + 1 + |below|))
  {
    hide Walk, Descent, JoinAmiga, Fits;
    var n := |levels|;
    var top' := top.(cursor := top.cursor + 1);
    var moved := levels[n - 1 := top'];
    assert Remaining(top)[1..] == Remaining(top');
    assert moved[..n - 1] == levels[..n - 1];
    WalkHead(c, top.display, Remaining(top), k);
  }

  lemma WalkHead(c: Ctx, display: Bytes, es: seq<Entry>, k: nat)
    requires es != []
    ensures var shown := JoinAmiga(display, es[0].name);
            var fits := Fits(c.strlen, shown);
            var below := if fits then Descent(c, es[0], JoinAmiga(display, es[0].name + [SLASH]), k + 1) else [];
            Walk(c, display, es, k)
            == [Found(es[0].name, es[0].IsDir(), shown, fits)] + below + Walk(c, display, es[1..], k + 1 + |below|)
  {
    hide Descent, JoinAmiga, Fits;
  }

  lemma SettleStaysSound(host: Host, v: View, entered: bool)
    requires Sound(host, v.scan) && v.scan.pending.None?
    ensures var v' := Settle(v, entered).v;
            Sound(host, v'.scan) && v'.scan.keep == v.scan.keep && v'.ap.strlen == v.ap.strlen
  {
    var top := v.scan.Top();
    if top.cursor < |top.entries| {
      assert LevelSound(host, top) && top.entries[top.cursor] in top.entries;
    }
  }

  lemma {:induction false} ReportFollowsUnwind(c: Ctx, v: View, entered: bool, k: nat)
    requires v.scan.levels != [] && v.scan.Top().cursor < |v.scan.Top().entries|
    requires v.scan.pending.None? && !v.scan.directSelf && v.ap.strlen == c.strlen
    ensures var step := ReportEntry(v, entered);
            step.v.scan.levels != [] && Unwind(c, v.scan.levels, k) == [step.report] + Future(c, step.v.scan, k + 1)
  {
    hide Walk, Descent, JoinAmiga, Fits, NoteAp, NoteChain, Unwind;
    UnwindAfterEntry(c, v.scan.levels, v.scan.Top(), k);
  }

  lemma {:induction false} LeaveFollowsUnwind(c: Ctx, v: View, k: nat)
    requires |v.scan.levels| > 1 && Remaining(v.scan.Top()) == []
    requires v.scan.pending.None? && v.ap.strlen == c.strlen
    ensures var step := LeaveTop(v);
            step.v.scan.levels != [] && Unwind(c, v.scan.levels, k) == [step.report] + Future(c, step.v.scan, k + 1)
  {
    hide Descent, JoinAmiga, Fits, NoteAp, NoteChain;
    assert Unwind(c, v.scan.levels, k) == Below(c, v.scan.levels, k);
  }

  lemma {:induction false} ExhaustedStays(c: Ctx, v: View, k: nat)
    requires |v.scan.levels| == 1 && Remaining(v.scan.Top()) == [] && v.scan.pending.None?
    ensures Unwind(c, v.scan.levels, k) == [] && Future(c, v.scan, k) == []
  {
  }

  lemma {:induction false} SettleFollowsUnwind(host: Host, c: Ctx, v: View, entered: bool, k: nat)
    requires Sound(host, v.scan) && v.scan.pending.None?
    requires v.scan.keep == c.keep && v.ap.strlen == c.strlen
    ensures var step := Settle(v, entered);
            && step.v.scan.levels != []
            && (if Unwind(c, v.scan.levels, k) == []
                then step.report == Failed(ERROR_NO_MORE_ENTRIES) && Future(c, step.v.scan, k + 1) == []
                else Unwind(c, v.scan.levels, k) == [step.report] + Future(c, step.v.scan, k + 1))
  {
    hide Unwind, Future, ReportEntry, LeaveTop;
    var top := v.scan.Top();
    assert LevelSound(host, top);
    if top.cursor < |top.entries| {
      ReportFollowsUnwind(c, v, entered, k);
    } else if |v.scan.levels| == 1 {
      ExhaustedStays(c, v, k);
      ExhaustedStays(c, v, k + 1);
    } else {
      LeaveFollowsUnwind(c, v, k);
    }
  }

  lemma {:induction false} FutureIdle(c: Ctx, scan: Scan, k: nat)
    requires scan.levels != [] && scan.pending.None?
    ensures Future(c, scan, k) == Unwind(c, scan.levels, k)
  {
  }

  /** One MatchNext: it reports the first of what is still to come, or, when nothing
      is, ERROR_NO_MORE_ENTRIES, after which nothing is still to come. */
  lemma NextReportsFuture(host: Host, c: Ctx, v: View, k: nat)
    requires Coherent(host) && Sound(host, v.scan) && Meets(c, v, k)
    ensures var step := Next(host, v, c.call(k).grant);
            && Sound(host, step.v.scan) && step.v.scan.keep == c.keep && step.v.ap.strlen == c.strlen
            && (if Future(c, v.scan, k) == []
                then step.report == Failed(ERROR_NO_MORE_ENTRIES) && Future(c, step.v.scan, k + 1) == []
                else Future(c, v.scan, k) == [step.report] + Future(c, step.v.scan, k + 1))
  {
    hide Enter, Settle, Future, Unwind, Walk, Descent, Below, LevelSound, Coherent;
    var g := c.call(k).grant;
    EnterStaysSound(host, v, g);
    EnterFollowsFuture(host, c, v, k);
    var entering := Enter(host, v, g);
    if entering.Refused? {
      FutureIdle(c, entering.v.scan, k + 1);
    } else {
      SettleStaysSound(host, entering.v, entering.Entered?);
      SettleFollowsUnwind(host, c, entering.v, entering.Entered?, k);
    }
  }
}
