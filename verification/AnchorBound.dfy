// How long a walk is: one report for each entry, and one for each directory entered or
// refused.

module AnchorBound {
  import opened Guest
  import opened HostTree
  import opened AnchorModel
  import opened AnchorWalk

  /** Report i shows a directory, and the caller asks for it with the next call. */
  predicate Asked(c: Ctx, reports: seq<Report>, k: nat, i: nat)
    requires i < |reports|
  {
    reports[i].Found? && reports[i].isDir && reports[i].fits && c.Enters(k + i + 1)
  }

  /** The directories entered on the way: asked for, with a lock and memory to be had. */
  function DirsEntered(c: Ctx, reports: seq<Report>, k: nat): nat {
    if reports == [] then 0
    else
      var n := |reports| - 1;
      DirsEntered(c, reports[..n], k) + if Asked(c, reports, k, n) && !c.Blocked(k + n + 1) then 1 else 0
  }

  /** The directories asked for and refused. */
  function Refusals(c: Ctx, reports: seq<Report>, k: nat): nat {
    if reports == [] then 0
    else
      var n := |reports| - 1;
      Refusals(c, reports[..n], k) + if Asked(c, reports, k, n) && c.Blocked(k + n + 1) then 1 else 0
  }

  function Founds(reports: seq<Report>): nat {
    if reports == [] then 0 else Founds(reports[..|reports| - 1]) + if reports[|reports| - 1].Found? then 1 else 0
  }

  function Lefts(reports: seq<Report>): nat {
    if reports == [] then 0 else Lefts(reports[..|reports| - 1]) + if reports[|reports| - 1].Left? then 1 else 0
  }

  function Successes(reports: seq<Report>): nat {
    if reports == [] then 0
    else Successes(reports[..|reports| - 1]) + if reports[|reports| - 1].Code() == 0 then 1 else 0
  }

  /** All that is counted, at once. */
  datatype Tally = Tally(founds: nat, lefts: nat, entered: nat, refused: nat)

  function Plus(a: Tally, b: Tally): Tally {
    Tally(a.founds + b.founds, a.lefts + b.lefts, a.entered + b.entered, a.refused + b.refused)
  }

  function Count(c: Ctx, reports: seq<Report>, k: nat): Tally {
    Tally(Founds(reports), Lefts(reports), DirsEntered(c, reports, k), Refusals(c, reports, k))
  }

  lemma {:induction false} CountAppends(c: Ctx, a: seq<Report>, b: seq<Report>, k: nat)
    ensures Count(c, a + b, k) == Plus(Count(c, a, k), Count(c, b, k + |a|))
    decreases |b|
  {
    if b == [] {
      assert a + b == a;
    } else {
      var n := |b| - 1;
      CountAppends(c, a, b[..n], k);
      assert (a + b)[..|a + b| - 1] == a + b[..n];
      assert k + |a| + n + 1 == k + (|a + b| - 1) + 1;
    }
  }

  lemma {:induction false} CountOne(c: Ctx, r: Report, k: nat)
    ensures var asked := r.Found? && r.isDir && r.fits && c.Enters(k + 1);
            Count(c, [r], k) == Tally(if r.Found? then 1 else 0, if r.Left? then 1 else 0,
                                      if asked && !c.Blocked(k + 1) then 1 else 0,
                                      if asked && c.Blocked(k + 1) then 1 else 0)
  {
    assert [r][..|[r]| - 1] == [];
    CountNone(c, k);
  }

  /** Every directory entered is left again, and every other report but an entry is a refusal. */
  ghost predicate Balanced(reports: seq<Report>, t: Tally) {
    t.lefts == t.entered && |reports| == t.founds + t.lefts + t.refused
  }

  /** The decision at call k is made before the descent it opens. */
  lemma {:induction false} DescentBalanced(c: Ctx, e: Entry, display: Bytes, k: nat)
    ensures var reports := Descent(c, e, display, k);
            var t := Count(c, reports, k);
            var asked := e.IsDir() && c.Enters(k);
            && t.lefts == t.entered + (if asked && !c.Blocked(k) then 1 else 0)
            && |reports| == t.founds + t.lefts + t.refused + (if asked && c.Blocked(k) then 1 else 0)
            && |reports| <= Weight(e.node)
    decreases Weight(e.node), 1
  {
    hide Walk, Count, Listing;
    CountNone(c, k);
    if e.IsDir() && c.Enters(k) {
      if c.Blocked(k) {
        CountOne(c, c.BlockedReport(k), k);
      } else {
        ListingWeight(e.node, c.keep);
        var inside := Walk(c, display, Listing(e.node, c.keep), k);
        WalkBalanced(c, display, Listing(e.node, c.keep), k);
        var left := c.Leaving(e.name, display);
        CountAppends(c, inside, [left], k);
        CountOne(c, left, k + |inside|);
      }
    }
  }

  lemma {:induction false} CountNone(c: Ctx, k: nat)
    ensures Count(c, [], k) == Tally(0, 0, 0, 0)
  {
  }

  /** A directory's walk leaves what it enters, and is no longer than there are entries
      and directories below it. */
  lemma {:induction false} WalkBalanced(c: Ctx, display: Bytes, es: seq<Entry>, k: nat)
    ensures var reports := Walk(c, display, es, k);
            Balanced(reports, Count(c, reports, k)) && |reports| <= TotalWeight(es)
    decreases TotalWeight(es), 0
  {
    hide Descent, Count, JoinAmiga, Fits, Balanced, Walk;
    if es == [] {
      NoWalk(c, display, k);
    } else {
      var e := es[0];
      var shown := JoinAmiga(display, e.name);
      var first := Found(e.name, e.IsDir(), shown, Fits(c.strlen, shown));
      var below := if first.fits then Descent(c, e, JoinAmiga(display, e.name + [SLASH]), k + 1) else [];
      var rest := Walk(c, display, es[1..], k + 1 + |below|);
      WalkHead(c, display, es, k);
      CountNone(c, k + 1);
      if first.fits {
        DescentBalanced(c, e, JoinAmiga(display, e.name + [SLASH]), k + 1);
      }
      WalkBalanced(c, display, es[1..], k + 1 + |below|);
      EntryBalanced(c, first, below, rest, k);
    }
  }

  lemma {:induction false} NoWalk(c: Ctx, display: Bytes, k: nat)
    ensures Walk(c, display, [], k) == [] && Balanced([], Count(c, [], k))
  {
  }

  /** An entry, what descending into it brings, and the rest of the walk. */
  lemma {:induction false} EntryBalanced(c: Ctx, first: Report, below: seq<Report>, rest: seq<Report>, k: nat)
    requires first.Found?
    requires var t := Count(c, below, k + 1);
             var asked := first.isDir && first.fits && c.Enters(k + 1);
             && t.lefts == t.entered + (if asked && !c.Blocked(k + 1) then 1 else 0)
             && |below| == t.founds + t.lefts + t.refused + (if asked && c.Blocked(k + 1) then 1 else 0)
    requires Balanced(rest, Count(c, rest, k + 1 + |below|))
    ensures Balanced([first] + below + rest, Count(c, [first] + below + rest, k))
  {
    hide Count;
    CountOne(c, first, k);
    CountAppends(c, [first], below, k);
    CountAppends(c, [first] + below, rest, k);
  }

  /** Only entries and directories left are reported with success. */
  lemma {:induction false} SuccessesBounded(reports: seq<Report>)
    ensures Successes(reports) <= Founds(reports) + Lefts(reports)
  {
    if reports != [] {
      SuccessesBounded(reports[..|reports| - 1]);
    }
  }
}
