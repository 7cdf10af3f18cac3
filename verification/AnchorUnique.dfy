// No object is reported twice in one scan.

module AnchorUnique {
  import opened Guest
  import opened HostTree
  import opened AnchorModel
  import opened AnchorWalk
  import opened AnchorRun
  import opened AnchorPaths

  ghost predicate ProperList(es: seq<Entry>) {
    ProperNames(es) && forall e <- es :: ProperTree(e.node)
  }

  lemma OccursTwice(es: seq<Entry>, i: nat, j: nat)
    requires i < j < |es| && es[i] == es[j]
    ensures multiset(es)[es[i]] >= 2
  {
    assert es == es[..j] + [es[j]] + es[j + 1..];
    assert es[..j][i] == es[i];
    assert es[i] in multiset(es[..j]);
  }

  lemma {:induction false} OccursOnce(es: seq<Entry>, e: Entry)
    requires ProperNames(es)
    ensures multiset(es)[e] <= 1
  {
    if es != [] {
      var rest := es[1..];
      assert es == [es[0]] + rest;
      forall x | x in rest ensures x in es && x.name != es[0].name {
        var i :| 0 <= i < |rest| && rest[i] == x;
        assert es[i + 1] == x;
      }
      OccursOnce(rest, e);
      if e == es[0] {
        assert e !in rest;
        assert e !in multiset(rest);
      }
    }
  }

  lemma {:induction false} ListingProper(node: Node, keep: Bytes -> bool)
    requires ProperTree(node)
    ensures ProperList(Listing(node, keep))
  {
    hide Listing;
    var es := Listing(node, keep);
    forall e | e in es ensures SLASH !in e.name && ProperTree(e.node) && node.Dir? && e in node.entries {
      ListingMember(node, keep, e);
    }
    forall i, j | 0 <= i < j < |es| ensures es[i].name != es[j].name {
      if es[i].name == es[j].name {
        assert es[i] in es && es[j] in es;
        var a :| 0 <= a < |node.entries| && node.entries[a] == es[i];
        var b :| 0 <= b < |node.entries| && node.entries[b] == es[j];
        assert a == b;
        ListedOnce(node, keep, es[i]);
        OccursTwice(es, i, j);
        assert false;
      }
    }
  }

  lemma ListedOnce(node: Node, keep: Bytes -> bool, e: Entry)
    requires node.Dir? && ProperNames(node.entries) && e in Listing(node, keep)
    ensures multiset(Listing(node, keep))[e] <= 1
  {
    hide Sort, Filter;
    if ListError(node).None? {
      ListingIsOrderedSelection(node, keep);
      OccursOnce(node.entries, e);
    }
  }

  /** A displayed path is the entry `name` of the directory shown as `d`, or lies below it. */
  predicate Owns(d: Bytes, name: Bytes, shown: Bytes) {
    d + name <= shown && (|shown| == |d + name| || shown[|d + name|] == SLASH)
  }

  lemma OwnedOnce(d: Bytes, a: Bytes, b: Bytes, shown: Bytes)
    requires Owns(d, a, shown) && Owns(d, b, shown) && SLASH !in a && SLASH !in b
    ensures a == b
  {
    if |a| < |b| {
      OwnedDeeper(d, a, b, shown);
    } else if |b| < |a| {
      OwnedDeeper(d, b, a, shown);
    } else {
      assert d + a == shown[..|d| + |a|] == d + b;
      assert a == (d + a)[|d|..];
      assert b == (d + b)[|d|..];
    }
  }

  lemma OwnedDeeper(d: Bytes, a: Bytes, b: Bytes, shown: Bytes)
    requires Owns(d, a, shown) && Owns(d, b, shown) && |a| < |b|
    ensures SLASH in b
  {
    assert (d + b)[|d + a|] == shown[|d + a|] == SLASH;
    assert b[|a|] == SLASH;
  }

  /** Every path found is owned by one of the entries walked. */
  ghost predicate OwnedBy(d: Bytes, es: seq<Entry>, reports: seq<Report>) {
    forall r <- reports :: r.Found? ==> exists e <- es :: Owns(d, e.name, r.display)
  }

  ghost predicate AllBelow(prefix: Bytes, reports: seq<Report>) {
    forall r <- reports :: r.Found? ==> prefix <= r.display
  }

  ghost predicate NoRepeats(reports: seq<Report>) {
    forall i, j :: 0 <= i < j < |reports| && reports[i].Found? && reports[j].Found? ==>
      reports[i].display != reports[j].display
  }

  predicate Prefix(d: Bytes) { d == [] || EndsWithSep(d) }

  lemma OwnedIsBelow(d: Bytes, es: seq<Entry>, reports: seq<Report>)
    requires OwnedBy(d, es, reports)
    ensures AllBelow(d, reports)
  {
    forall r | r in reports && r.Found? ensures d <= r.display {
      var e :| e in es && Owns(d, e.name, r.display);
    }
  }

  lemma {:induction false} WalkUnique(c: Ctx, d: Bytes, es: seq<Entry>, k: nat)
    requires ProperList(es) && Prefix(d)
    ensures OwnedBy(d, es, Walk(c, d, es, k)) && NoRepeats(Walk(c, d, es, k))
    decreases TotalWeight(es), 0
  {
    hide Walk, Descent, Fits, ProperTree;
    if es == [] {
      NothingToWalk(c, d, k);
    } else {
      var e := es[0];
      var fits := Fits(c.strlen, JoinAmiga(d, e.name));
      var below := if fits then Descent(c, e, JoinAmiga(d, e.name + [SLASH]), k + 1) else [];
      var rest := Walk(c, d, es[1..], k + 1 + |below|);
      WalkHead(c, d, es, k);
      DescentUnique(c, e, d, k + 1);
      WalkUnique(c, d, es[1..], k + 1 + |below|);
      var here := Found(e.name, e.IsDir(), d + e.name, fits);
      assert NoRepeats(below) && AllBelow(d + e.name + [SLASH], below);
      Assemble(d, es, here, below, rest);
    }
  }

  lemma {:induction false} DescentUnique(c: Ctx, e: Entry, d: Bytes, k: nat)
    requires ProperTree(e.node) && Prefix(d)
    ensures var below := Descent(c, e, JoinAmiga(d, e.name + [SLASH]), k);
            NoRepeats(below) && AllBelow(d + e.name + [SLASH], below)
    decreases Weight(e.node), 1
  {
    hide Walk, ProperTree;
    var prefix := d + (e.name + [SLASH]);
    assert prefix == JoinAmiga(d, e.name + [SLASH]) == d + e.name + [SLASH];
    if e.IsDir() && c.Enters(k) && !c.Blocked(k) {
      ListingWeight(e.node, c.keep);
      ListingProper(e.node, c.keep);
      assert prefix[|prefix| - 1] == SLASH;
      WalkUnique(c, prefix, Listing(e.node, c.keep), k);
      OwnedIsBelow(prefix, Listing(e.node, c.keep), Walk(c, prefix, Listing(e.node, c.keep), k));
    }
  }

  /** An entry, what lies below it and the walk of the other entries do not overlap. */
  lemma Assemble(d: Bytes, es: seq<Entry>, here: Report, below: seq<Report>, rest: seq<Report>)
    requires es != [] && ProperNames(es) && here.Found? && here.display == d + es[0].name
    requires NoRepeats(below) && AllBelow(d + es[0].name + [SLASH], below)
    requires NoRepeats(rest) && OwnedBy(d, es[1..], rest)
    ensures OwnedBy(d, es, [here] + below + rest) && NoRepeats([here] + below + rest)
  {
    var name := es[0].name;
    var all := [here] + below + rest;
    forall r | r in below && r.Found? ensures Owns(d, name, r.display) && r.display != here.display {
      assert (d + name + [SLASH])[|d + name|] == SLASH;
    }
    forall r | r in rest && r.Found? ensures !Owns(d, name, r.display) && exists e <- es :: Owns(d, e.name, r.display) {
      var e :| e in es[1..] && Owns(d, e.name, r.display);
      var i :| 0 <= i < |es| - 1 && es[1..][i] == e;
      assert es[i + 1] == e && e in es;
      if Owns(d, name, r.display) {
        OwnedOnce(d, name, e.name, r.display);
      }
    }
    assert Owns(d, name, here.display) && es[0] in es;
    Separate([here], below, rest, d, name);
  }

  lemma Separate(a: seq<Report>, b: seq<Report>, rest: seq<Report>, d: Bytes, name: Bytes)
    requires NoRepeats(a) && NoRepeats(b) && NoRepeats(rest)
    requires forall x <- a, y <- b :: x.Found? && y.Found? ==> x.display != y.display
    requires forall r <- a + b :: r.Found? ==> Owns(d, name, r.display)
    requires forall r <- rest :: r.Found? ==> !Owns(d, name, r.display)
    ensures NoRepeats(a + b + rest)
  {
    var all := a + b + rest;
    forall i, j | 0 <= i < j < |all| && all[i].Found? && all[j].Found? ensures all[i].display != all[j].display {
      if i >= |a + b| {
        assert all[i] == rest[i - |a + b|] && all[j] == rest[j - |a + b|];
      } else {
        assert all[i] == (a + b)[i] && all[i] in a + b;
        if j >= |a + b| {
          assert all[j] == rest[j - |a + b|] && all[j] in rest;
        } else {
          assert all[j] == (a + b)[j];
          if i < |a| && j >= |a| {
            assert all[i] in a && all[j] in b;
          } else if i >= |a| {
            assert all[i] == b[i - |a|] && all[j] == b[j - |a|];
          }
        }
      }
    }
  }

  /** However the caller steers a wildcard scan of a proper tree, no path is found twice. */
  lemma ItineraryUnique(host: Host, c: Ctx, pat: Bytes)
    requires var split := SplitPattern(host, pat);
             && host.parse(split.component).Some? && host.parse(split.component).value.wild
             && host.lookup(split.dir).Some? && ProperTree(host.lookup(split.dir).value)
    ensures NoRepeats(Itinerary(host, c, pat))
  {
    hide Walk, Listing, SplitPattern, ProperTree;
    var split := SplitPattern(host, pat);
    var node := host.lookup(split.dir).value;
    SplitSeparates(host, pat);
    ListingProper(node, c.keep);
    WalkUnique(c, split.display, Listing(node, c.keep), 0);
  }
}
