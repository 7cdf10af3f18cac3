// Whole scans: MatchFirst, then MatchNext as often as the caller likes.

module AnchorRun {
  import opened Guest
  import opened HostTree
  import opened AnchorModel
  import opened AnchorWalk
  import opened AnchorPaths
  import opened AnchorBound
  import opened AnchorShown

  /** The caller stores its APF_DODIR choice for call k before making it. */
  function Choose(c: Ctx, v: View, k: nat): View {
    v.(ap := v.ap.(flags := if c.Enters(k) then v.ap.flags + {APF_DODIR} else v.ap.flags - {APF_DODIR}))
  }

  /** The reports of n MatchNext calls, the first of them call number k. */
  function Play(host: Host, c: Ctx, v: View, k: nat, n: nat): seq<Report>
    decreases n
  {
    if n == 0 || v.scan.levels == [] then []
    else
      var step := Next(host, Choose(c, v, k), c.call(k).grant);
      [step.report] + Play(host, c, step.v, k + 1, n - 1)
  }

  /** The scan and its surroundings after n of them. */
  function PlayView(host: Host, c: Ctx, v: View, k: nat, n: nat): View
    decreases n
  {
    if n == 0 || v.scan.levels == [] then v
    else PlayView(host, c, Next(host, Choose(c, v, k), c.call(k).grant).v, k + 1, n - 1)
  }

  /** A call's report at position i when `reports` are all there are. */
  function At(reports: seq<Report>, i: nat): Report {
    if i < |reports| then reports[i] else Failed(ERROR_NO_MORE_ENTRIES)
  }

  /** However long the caller goes on, it gets what was still to come and then
      ERROR_NO_MORE_ENTRIES for ever. */
  lemma {:induction false} PlayReportsFuture(host: Host, c: Ctx, v: View, k: nat, n: nat)
    requires Coherent(host) && Sound(host, v.scan) && v.scan.keep == c.keep && v.ap.strlen == c.strlen
    ensures |Play(host, c, v, k, n)| == n
    ensures forall i :: 0 <= i < n ==> Play(host, c, v, k, n)[i] == At(Future(c, v.scan, k), i)
    decreases n
  {
    hide Next, Future, Coherent, LevelSound;
    if n > 0 {
      var chosen := Choose(c, v, k);
      NextReportsFuture(host, c, chosen, k);
      var step := Next(host, chosen, c.call(k).grant);
      PlayReportsFuture(host, c, step.v, k + 1, n - 1);
      var future, rest := Future(c, v.scan, k), Future(c, step.v.scan, k + 1);
      forall i | 0 <= i < n ensures Play(host, c, v, k, n)[i] == At(future, i) {
        if i > 0 {
          assert Play(host, c, v, k, n)[i] == Play(host, c, step.v, k + 1, n - 1)[i - 1] == At(rest, i - 1);
        }
      }
    }
  }

  /** The whole depth-first walk a pattern asks for, MatchFirst being call number 0. */
  function Itinerary(host: Host, c: Ctx, pat: Bytes): seq<Report> {
    var split := SplitPattern(host, pat);
    var parsed := host.parse(split.component);
    var target := host.lookup(if parsed.Some? && parsed.value.wild then split.dir else pat);
    if parsed.None? || target.None? then []
    else if parsed.value.wild then
      Walk(c, split.display, Listing(target.value, c.keep), 0)
    else
      var self := Entry(AnchorDisplayName(host.qualify(pat)), target.value);
      [Found(self.name, self.IsDir(), pat, Fits(c.strlen, pat))]
      + if Fits(c.strlen, pat) then Descent(c, self, EnsureTrailingSep(pat), 1) else []
  }

  /** `c` describes a scan for `pat` on the AnchorPath at `id`. */
  ghost predicate Describes(host: Host, c: Ctx, sys: Sys, id: nat, pat: Bytes) {
    && id in sys.aps && sys.aps[id].strlen == c.strlen
    && var parsed := host.parse(SplitPattern(host, pat).component);
       (parsed.Some? ==> c.keep == if parsed.value.wild then host.Keep(parsed.value) else host.KeepAll())
  }

  /** MatchFirst succeeded. */
  predicate Begins(report: Report) { report.Code() == 0 }

  /** A MatchFirst that begins a scan reports the head of the walk and leaves the rest to come. */
  lemma FirstBeginsItinerary(host: Host, c: Ctx, sys: Sys, id: nat, pat: Bytes)
    requires Coherent(host) && Describes(host, c, sys, id, pat)
    requires Begins(MatchFirst(host, sys, pat, id, c.call(0).grant).report)
    ensures var called := MatchFirst(host, sys, pat, id, c.call(0).grant);
            && id in called.sys.aps && id in called.sys.scans
            && Sound(host, called.sys.scans[id]) && called.sys.scans[id].keep == c.keep
            && called.sys.aps[id].strlen == c.strlen
            && Itinerary(host, c, pat) == [called.report] + Future(c, called.sys.scans[id], 1)
  {
    hide Listing, Walk, Descent, Future, LevelSound, AnchorDisplayName, SplitPattern, EnsureTrailingSep, JoinAmiga;
    var g := c.call(0).grant;
    var split := SplitPattern(host, pat);
    var parsed := host.parse(split.component).value;
    if parsed.wild {
      var node := host.lookup(split.dir).value;
      WildSound(host, pat, c.keep, node, g.lock.value, g.chain.value);
      WildBegins(host, c, pat, Listing(node, c.keep), g.lock.value, g.chain.value);
    } else {
      DirectSound(host, pat, host.lookup(pat).value, g.lock.value, g.chain.value);
      DirectBegins(host, c, pat, host.lookup(pat).value, g.lock.value, g.chain.value);
    }
  }

  lemma DirectSound(host: Host, pat: Bytes, node: Node, lock: nat, chain: nat)
    requires Coherent(host) && host.lookup(pat) == Some(node)
    ensures Sound(host, DirectScan(host, pat, node, lock, chain))
  {
    hide Coherent, AnchorDisplayName, EnsureTrailingSep, LevelSound;
    SelfFound(host, pat);
    EmptyLevelSound(host, DirectScan(host, pat, node, lock, chain).levels[0]);
  }

  lemma SelfFound(host: Host, pat: Bytes)
    requires Coherent(host) && host.lookup(pat).Some?
    ensures host.lookup(EnsureTrailingSep(host.qualify(pat))) == host.lookup(pat)
  {
    hide ChildrenCoherent, EnsureTrailingSep;
  }

  lemma EmptyLevelSound(host: Host, l: Level)
    requires l.entries == [] && l.cursor == 0
    ensures LevelSound(host, l)
  {
  }

  lemma {:induction false} DirectBegins(host: Host, c: Ctx, pat: Bytes, node: Node, lock: nat, chain: nat)
    ensures var scan := DirectScan(host, pat, node, lock, chain);
            Future(c, scan, 1) == Descent(c, scan.pending.value, EnsureTrailingSep(pat), 1)
  {
    hide Descent, Walk, Unwind, AnchorDisplayName, EnsureTrailingSep;
    var scan := DirectScan(host, pat, node, lock, chain);
    var below := Descent(c, scan.pending.value, EnsureTrailingSep(pat), 1);
    UnwindOne(c, scan.levels[0], 1 + |below|);
    assert Remaining(scan.levels[0]) == [];
    NothingToWalk(c, pat, 1 + |below|);
  }

  lemma {:induction false} NothingToWalk(c: Ctx, display: Bytes, k: nat)
    ensures Walk(c, display, [], k) == []
  {
  }

  lemma {:induction false} UnwindOne(c: Ctx, level: Level, k: nat)
    ensures Unwind(c, [level], k) == Walk(c, level.display, Remaining(level), k)
  {
    hide Walk;
    assert [level][|[level]| - 1] == level;
  }

  lemma WildSound(host: Host, pat: Bytes, keep: Bytes -> bool, node: Node, lock: nat, chain: nat)
    requires Coherent(host) && host.lookup(SplitPattern(host, pat).dir) == Some(node)
    requires Listing(node, keep) != []
    ensures var split := SplitPattern(host, pat);
            Sound(host, WildScan(split.dir, split.display, keep, Listing(node, keep), lock, chain))
  {
    hide Listing, AnchorDisplayName, SplitPattern, LevelSound, ChildrenCoherent;
    SplitSeparates(host, pat);
    var split := SplitPattern(host, pat);
    var scan := WildScan(split.dir, split.display, keep, Listing(node, keep), lock, chain);
    ListingSound(host, scan.levels[0], node, keep);
    WildLevelSound(host, scan);
  }

  lemma WildLevelSound(host: Host, scan: Scan)
    requires |scan.levels| == 1 && LevelSound(host, scan.levels[0]) && scan.levels[0].entries != []
    requires scan.pending == Some(scan.levels[0].entries[0]) && !scan.directSelf
    ensures Sound(host, scan)
  {
    assert scan.Top() == scan.levels[0];
    assert scan.pending.value in scan.levels[0].entries;
  }

  lemma {:induction false} WildBegins(host: Host, c: Ctx, pat: Bytes, es: seq<Entry>, lock: nat, chain: nat)
    requires es != []
    requires Fits(c.strlen, JoinAmiga(SplitPattern(host, pat).display, es[0].name))
    ensures var split := SplitPattern(host, pat);
            Walk(c, split.display, es, 0)
            == [Found(es[0].name, es[0].IsDir(), JoinAmiga(split.display, es[0].name), true)]
               + Future(c, WildScan(split.dir, split.display, c.keep, es, lock, chain), 1)
  {
    hide Descent, Walk, Unwind, AnchorDisplayName, SplitPattern, JoinAmiga;
    var split := SplitPattern(host, pat);
    var scan := WildScan(split.dir, split.display, c.keep, es, lock, chain);
    WalkHead(c, split.display, es, 0);
    assert Remaining(scan.levels[0]) == es[1..];
    var below := Descent(c, es[0], JoinAmiga(split.display, es[0].name + [SLASH]), 1);
    UnwindOne(c, scan.levels[0], 1 + |below|);
  }

  /** After each of n calls the caller reads that call's report off its AnchorPath. */
  lemma {:induction false} PlayShows(host: Host, c: Ctx, v: View, k: nat, n: nat)
    requires Coherent(host) && Sound(host, v.scan) && v.scan.keep == c.keep && v.ap.strlen == c.strlen && Roomy(v.ap)
    requires n > 0
    ensures |Play(host, c, v, k, n)| == n
    ensures Shown(PlayView(host, c, v, k, n).ap, Play(host, c, v, k, n)[n - 1])
    decreases n
  {
    hide Next, Future, Coherent, LevelSound, Shown;
    var chosen := Choose(c, v, k);
    var step := Next(host, chosen, c.call(k).grant);
    NextReportsFuture(host, c, chosen, k);
    NextShows(host, chosen, c.call(k).grant);
    PlayReportsFuture(host, c, v, k, n);
    if n > 1 {
      PlayShows(host, c, step.v, k + 1, n - 1);
    }
  }

  /** The object a pattern's scan starts from. */
  function Target(host: Host, pat: Bytes): Option<Node> {
    var split := SplitPattern(host, pat);
    var parsed := host.parse(split.component);
    if parsed.None? then None else host.lookup(if parsed.value.wild then split.dir else pat)
  }

  /** The reports of a scan leave each directory they enter, every other one is an entry or
      a refusal, and the successful ones are no more than the entries reported and the
      directories entered. */
  ghost predicate Bounded(c: Ctx, reports: seq<Report>) {
    && Lefts(reports) == DirsEntered(c, reports, 0)
    && |reports| == Founds(reports) + Lefts(reports) + Refusals(c, reports, 0)
    && Successes(reports) <= Founds(reports) + DirsEntered(c, reports, 0)
  }

  lemma BalancedBounds(c: Ctx, reports: seq<Report>)
    requires Balanced(reports, Count(c, reports, 0))
    ensures Bounded(c, reports)
  {
    hide Founds, Lefts, DirsEntered, Refusals, Successes;
    SuccessesBounded(reports);
  }

  /** A matched object and what descending into it brings. */
  lemma {:induction false} DirectBounded(c: Ctx, self: Entry, pat: Bytes, display: Bytes)
    ensures var first := Found(self.name, self.IsDir(), pat, Fits(c.strlen, pat));
            var reports := [first] + if first.fits then Descent(c, self, display, 1) else [];
            Bounded(c, reports) && |reports| <= 1 + Weight(self.node)
  {
    hide Descent, Fits, Count, Balanced, Bounded;
    var first := Found(self.name, self.IsDir(), pat, Fits(c.strlen, pat));
    var below := if first.fits then Descent(c, self, display, 1) else [];
    DescentBalanced(c, self, display, 1);
    CountNone(c, 1);
    NoWalk(c, pat, 1 + |below|);
    CountNone(c, 1 + |below|);
    EntryBalanced(c, first, below, [], 0);
    assert [first] + below + [] == [first] + below;
    BalancedBounds(c, [first] + below);
  }

  /** A scan's reports are bounded, by its own entries and directories and by the objects
      at and below where it starts. */
  lemma {:induction false} ItineraryBounded(host: Host, c: Ctx, pat: Bytes)
    requires Target(host, pat).Some?
    ensures Bounded(c, Itinerary(host, c, pat))
    ensures |Itinerary(host, c, pat)| <= 1 + Weight(Target(host, pat).value)
  {
    hide Walk, Descent, Listing, SplitPattern, AnchorDisplayName, EnsureTrailingSep, Fits, Bounded, Count, Balanced;
    var split := SplitPattern(host, pat);
    var node := Target(host, pat).value;
    if host.parse(split.component).value.wild {
      WalkBalanced(c, split.display, Listing(node, c.keep), 0);
      ListingWeight(node, c.keep);
      BalancedBounds(c, Itinerary(host, c, pat));
    } else {
      DirectBounded(c, Entry(AnchorDisplayName(host.qualify(pat)), node), pat, EnsureTrailingSep(pat));
    }
  }

  lemma BegunHasTarget(host: Host, sys: Sys, pat: Bytes, id: nat, g: Grant)
    requires id in sys.aps && Begins(MatchFirst(host, sys, pat, id, g).report)
    ensures Target(host, pat).Some?
  {
    hide Listing, SplitPattern, AnchorDisplayName, JoinAmiga, Begin;
  }

  /** The scan as its caller sees it.  Whatever tree, pattern, `ap_Strlen`, choice of
      directories and heap failures: a MatchFirst that succeeds and any n MatchNext
      calls after it report the depth-first walk in order, one report a call, and
      then ERROR_NO_MORE_ENTRIES for ever.  After each call the caller reads the report
      off its AnchorPath, and the end comes within a bound given by the tree. */
  lemma {:induction false} ScanReportsItinerary(host: Host, c: Ctx, sys: Sys, id: nat, pat: Bytes, n: nat)
    requires Coherent(host) && Describes(host, c, sys, id, pat)
    requires Begins(MatchFirst(host, sys, pat, id, c.call(0).grant).report)
    ensures var called := MatchFirst(host, sys, pat, id, c.call(0).grant);
            && id in called.sys.aps && id in called.sys.scans
            && var reports := [called.report] + Play(host, c, ViewOf(called.sys, id), 1, n);
               && |reports| == n + 1
               && (forall i :: 0 <= i <= n ==> reports[i] == At(Itinerary(host, c, pat), i))
               && (Roomy(sys.aps[id]) ==>
                     Shown(PlayView(host, c, ViewOf(called.sys, id), 1, n).ap, reports[n]))
    ensures Bounded(c, Itinerary(host, c, pat)) && Target(host, pat).Some?
    ensures n > Weight(Target(host, pat).value) ==> At(Itinerary(host, c, pat), n) == Failed(ERROR_NO_MORE_ENTRIES)
  {
    hide MatchFirst, Itinerary, Play, PlayView, Future, Coherent, Sound, Describes, Shown, Roomy, Bounded, Target;
    ReportsInOrder(host, c, sys, id, pat, n);
    BegunHasTarget(host, sys, pat, id, c.call(0).grant);
    ItineraryBounded(host, c, pat);
    if id in sys.aps && Roomy(sys.aps[id]) {
      ReportsShown(host, c, sys, id, pat, n);
    }
  }

  lemma {:induction false} ReportsInOrder(host: Host, c: Ctx, sys: Sys, id: nat, pat: Bytes, n: nat)
    requires Coherent(host) && Describes(host, c, sys, id, pat)
    requires Begins(MatchFirst(host, sys, pat, id, c.call(0).grant).report)
    ensures id in sys.aps
    ensures var called := MatchFirst(host, sys, pat, id, c.call(0).grant);
            && id in called.sys.aps && id in called.sys.scans
            && var reports := [called.report] + Play(host, c, ViewOf(called.sys, id), 1, n);
               |reports| == n + 1 && forall i :: 0 <= i <= n ==> reports[i] == At(Itinerary(host, c, pat), i)
  {
    hide MatchFirst, Itinerary, Play, Future, Coherent, LevelSound;
    FirstBeginsItinerary(host, c, sys, id, pat);
    PlayReportsFuture(host, c, ViewOf(MatchFirst(host, sys, pat, id, c.call(0).grant).sys, id), 1, n);
  }

  /** What the last of the reports says can be read off the AnchorPath. */
  lemma {:induction false} ReportsShown(host: Host, c: Ctx, sys: Sys, id: nat, pat: Bytes, n: nat)
    requires Coherent(host) && Describes(host, c, sys, id, pat) && Roomy(sys.aps[id])
    requires Begins(MatchFirst(host, sys, pat, id, c.call(0).grant).report)
    ensures var called := MatchFirst(host, sys, pat, id, c.call(0).grant);
            && id in called.sys.aps && id in called.sys.scans
            && var reports := [called.report] + Play(host, c, ViewOf(called.sys, id), 1, n);
               |reports| == n + 1 && Shown(PlayView(host, c, ViewOf(called.sys, id), 1, n).ap, reports[n])
  {
    hide MatchFirst, Itinerary, Play, Future, Coherent, LevelSound, Shown, Roomy;
    var g := c.call(0).grant;
    FirstBeginsItinerary(host, c, sys, id, pat);
    var called := MatchFirst(host, sys, pat, id, g);
    PlayReportsFuture(host, c, ViewOf(called.sys, id), 1, n);
    FirstShows(host, sys, pat, id, g);
    if n > 0 {
      PlayShows(host, c, ViewOf(called.sys, id), 1, n);
    }
  }
}
