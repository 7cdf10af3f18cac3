// Which names a scan reports: those the pattern accepts that are not hidden, all of them.

module AnchorKept {
  import opened Guest
  import opened HostTree
  import opened AnchorModel
  import opened AnchorWalk
  import opened AnchorRun

  /** Every entry reported has a name the scan keeps. */
  ghost predicate AllKept(c: Ctx, reports: seq<Report>) {
    forall i :: 0 <= i < |reports| && reports[i].Found? ==> c.keep(reports[i].name)
  }

  lemma AllKeptJoin(c: Ctx, a: seq<Report>, b: seq<Report>)
    requires AllKept(c, a) && AllKept(c, b)
    ensures AllKept(c, a + b)
  {
  }

  lemma {:induction false} WalkKept(c: Ctx, display: Bytes, es: seq<Entry>, k: nat)
    requires forall e <- es :: c.keep(e.name)
    ensures AllKept(c, Walk(c, display, es, k))
    decreases TotalWeight(es), 0
  {
    hide Descent, JoinAmiga, Fits, AllKept;
    if es == [] {
      NothingKept(c, display, k);
    } else {
      var e := es[0];
      var shown := JoinAmiga(display, e.name);
      var fits := Fits(c.strlen, shown);
      var first := Found(e.name, e.IsDir(), shown, fits);
      var below := if fits then Descent(c, e, JoinAmiga(display, e.name + [SLASH]), k + 1) else [];
      OneKept(c, first);
      if fits { DescentKept(c, e, JoinAmiga(display, e.name + [SLASH]), k + 1); } else { NoneKept(c); }
      WalkKept(c, display, es[1..], k + 1 + |below|);
      AllKeptJoin(c, [first], below);
      AllKeptJoin(c, [first] + below, Walk(c, display, es[1..], k + 1 + |below|));
    }
  }

  lemma {:induction false} NothingKept(c: Ctx, display: Bytes, k: nat)
    ensures AllKept(c, Walk(c, display, [], k))
  {
  }

  lemma NoneKept(c: Ctx)
    ensures AllKept(c, [])
  {
  }

  lemma OneKept(c: Ctx, r: Report)
    requires r.Found? ==> c.keep(r.name)
    ensures AllKept(c, [r])
  {
  }

  lemma {:induction false} DescentKept(c: Ctx, e: Entry, display: Bytes, k: nat)
    ensures AllKept(c, Descent(c, e, display, k))
    decreases Weight(e.node), 1
  {
    hide Walk, Listing, AllKept;
    NoneKept(c);
    if e.IsDir() && c.Enters(k) {
      if c.Blocked(k) {
        OneKept(c, c.BlockedReport(k));
      } else {
        ListingWeight(e.node, c.keep);
        forall x | x in Listing(e.node, c.keep) ensures c.keep(x.name) { ListingMember(e.node, c.keep, x); }
        WalkKept(c, display, Listing(e.node, c.keep), k);
        OneKept(c, c.Leaving(e.name, display));
        AllKeptJoin(c, Walk(c, display, Listing(e.node, c.keep), k), [c.Leaving(e.name, display)]);
      }
    }
  }

  /** However the caller steers it, a wildcard scan finds only names that the pattern accepts
      and that are not hidden; below a literally matched object a scan finds every name that
      is not hidden. */
  lemma {:induction false} ItineraryKept(host: Host, c: Ctx, pat: Bytes)
    requires host.parse(SplitPattern(host, pat).component).Some?
    requires var parsed := host.parse(SplitPattern(host, pat).component).value;
             c.keep == if parsed.wild then host.Keep(parsed) else host.KeepAll()
    ensures var parsed := host.parse(SplitPattern(host, pat).component).value;
            var reports := Itinerary(host, c, pat);
            forall i :: 0 <= i < |reports| && reports[i].Found? && (parsed.wild || i > 0) ==>
              !host.hidden(reports[i].name) && (parsed.wild ==> parsed.accepts(reports[i].name))
  {
    hide Walk, Descent, Listing, SplitPattern, AnchorDisplayName, EnsureTrailingSep, Fits;
    var split := SplitPattern(host, pat);
    var parsed := host.parse(split.component).value;
    var target := host.lookup(if parsed.wild then split.dir else pat);
    if target.Some? && parsed.wild {
      forall x | x in Listing(target.value, c.keep) ensures c.keep(x.name) { ListingMember(target.value, c.keep, x); }
      WalkKept(c, split.display, Listing(target.value, c.keep), 0);
    } else if target.Some? {
      var self := Entry(AnchorDisplayName(host.qualify(pat)), target.value);
      DescentKept(c, self, EnsureTrailingSep(pat), 1);
    }
  }

  /** An entry is among the reports, under its path. */
  ghost predicate Reported(c: Ctx, reports: seq<Report>, display: Bytes, e: Entry) {
    exists i :: 0 <= i < |reports| && reports[i].Found? && reports[i].name == e.name
                && reports[i].isDir == e.IsDir() && reports[i].display == JoinAmiga(display, e.name)
  }

  lemma ReportedLater(c: Ctx, a: seq<Report>, b: seq<Report>, display: Bytes, e: Entry)
    requires Reported(c, b, display, e)
    ensures Reported(c, a + b, display, e)
  {
    hide JoinAmiga;
    var i :| 0 <= i < |b| && b[i].Found? && b[i].name == e.name
             && b[i].isDir == e.IsDir() && b[i].display == JoinAmiga(display, e.name);
    assert (a + b)[|a| + i] == b[i];
  }

  lemma {:induction false} WalkCovers(c: Ctx, display: Bytes, es: seq<Entry>, k: nat)
    ensures forall e <- es :: Reported(c, Walk(c, display, es, k), display, e)
    decreases |es|
  {
    hide Descent, JoinAmiga, Fits;
    if es != [] {
      var shown := JoinAmiga(display, es[0].name);
      var fits := Fits(c.strlen, shown);
      var first := Found(es[0].name, es[0].IsDir(), shown, fits);
      var below := if fits then Descent(c, es[0], JoinAmiga(display, es[0].name + [SLASH]), k + 1) else [];
      var rest := Walk(c, display, es[1..], k + 1 + |below|);
      assert Walk(c, display, es, k) == [first] + below + rest;
      WalkCovers(c, display, es[1..], k + 1 + |below|);
      forall e | e in es ensures Reported(c, Walk(c, display, es, k), display, e) {
        if e == es[0] {
          assert ([first] + below + rest)[0] == first;
        } else {
          assert e in es[1..];
          ReportedLater(c, [first] + below, rest, display, e);
        }
      }
    }
  }

  /** A wildcard scan reports every entry of its directory that the pattern accepts and that is
      not hidden, under the directory as the caller spelled it. */
  lemma {:induction false} ItineraryCovers(host: Host, c: Ctx, pat: Bytes, node: Node)
    requires var parsed := host.parse(SplitPattern(host, pat).component);
             parsed.Some? && parsed.value.wild && c.keep == host.Keep(parsed.value)
    requires host.lookup(SplitPattern(host, pat).dir) == Some(node) && ListError(node).None?
    ensures var split := SplitPattern(host, pat);
            var accepts := host.parse(split.component).value.accepts;
            forall e <- node.entries :: !host.hidden(e.name) && accepts(e.name) ==>
              Reported(c, Itinerary(host, c, pat), split.display, e)
  {
    hide Walk, Listing, SplitPattern, Reported;
    var split := SplitPattern(host, pat);
    ListingIsOrderedSelection(node, c.keep);
    WalkCovers(c, split.display, Listing(node, c.keep), 0);
    forall e | e in node.entries && c.keep(e.name) ensures e in Listing(node, c.keep) {
      assert e in multiset(node.entries);
      assert e in multiset(Listing(node, c.keep));
    }
  }
}
