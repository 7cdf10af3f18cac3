// The two paths of every level, and what reaches `ap_Buf`.

module AnchorPaths {
  import opened Guest
  import opened HostTree
  import opened AnchorModel

  /** The names of levels lo..hi-1, each followed by a slash. */
  function Names(levels: seq<Level>, lo: nat, hi: nat): Bytes
    requires hi <= |levels|
    decreases hi
  {
    if hi <= lo then [] else Names(levels, lo, hi - 1) + (levels[hi - 1].selfName + [SLASH])
  }

  /** Where the walk's own prefixes start: at the matched directory of a direct match,
      one level above the synthetic bottom, or at the bottom level itself. */
  function RootLevel(direct: bool): nat { if direct then 1 else 0 }

  /** Every level from the root level up is reached by the same name suffix under the
      qualified prefix `q` and under the caller's own prefix `t`. */
  ghost predicate Rooted(scan: Scan, direct: bool, q: Bytes, t: Bytes) {
    && scan.levels != []
    && EndsWithSep(q) && (t == [] || EndsWithSep(t))
    && (forall i: nat :: RootLevel(direct) <= i < |scan.levels| ==> Under(scan.levels, i, direct, q, t))
    && (direct ==> EnsureTrailingSep(scan.levels[0].path) == q && EnsureTrailingSep(scan.levels[0].display) == t)
    && (direct ==> scan.levels[0].entries == [])
    && (scan.directSelf ==> direct && |scan.levels| == 1)
    && (direct && |scan.levels| == 1 && scan.pending.Some? ==> scan.directSelf)
  }

  ghost predicate Under(levels: seq<Level>, i: nat, direct: bool, q: Bytes, t: Bytes)
    requires i < |levels|
  {
    && levels[i].path == q + Names(levels, RootLevel(direct) + 1, i + 1)
    && levels[i].display == t + Names(levels, RootLevel(direct) + 1, i + 1)
  }

  lemma {:induction false} NamesPrefix(levels: seq<Level>, levels': seq<Level>, lo: nat, hi: nat)
    requires hi <= |levels| && hi <= |levels'|
    requires forall i :: 0 <= i < hi ==> levels[i].selfName == levels'[i].selfName
    ensures Names(levels, lo, hi) == Names(levels', lo, hi)
    decreases hi
  {
    if hi > lo { NamesPrefix(levels, levels', lo, hi - 1); }
  }

  lemma {:induction false} NamesSeparated(levels: seq<Level>, lo: nat, hi: nat, prefix: Bytes)
    requires hi <= |levels| && (prefix == [] || EndsWithSep(prefix))
    ensures prefix + Names(levels, lo, hi) == [] || EndsWithSep(prefix + Names(levels, lo, hi))
  {
    if hi > lo {
      var r := prefix + Names(levels, lo, hi);
      assert r[|r| - 1] == SLASH;
    } else {
      assert prefix + [] == prefix;
    }
  }

  /** Levels that keep their paths and names keep their place under the prefixes. */
  lemma KeepsRooted(scan: Scan, scan': Scan, direct: bool, q: Bytes, t: Bytes)
    requires Rooted(scan, direct, q, t)
    requires 0 < |scan'.levels| <= |scan.levels|
    requires forall i :: 0 <= i < |scan'.levels| ==>
               && scan'.levels[i].path == scan.levels[i].path && scan'.levels[i].display == scan.levels[i].display
               && scan'.levels[i].selfName == scan.levels[i].selfName
               && scan'.levels[i].entries == scan.levels[i].entries
    requires scan'.directSelf ==> scan.directSelf
    requires direct && |scan'.levels| == 1 && scan'.pending.Some? ==> scan'.directSelf
    ensures Rooted(scan', direct, q, t)
  {
    forall i: nat | RootLevel(direct) <= i < |scan'.levels| ensures Under(scan'.levels, i, direct, q, t) {
      assert Under(scan.levels, i, direct, q, t);
      NamesPrefix(scan.levels, scan'.levels, RootLevel(direct) + 1, i + 1);
    }
  }

  /** A descent appends one and the same name to both prefixes. */
  lemma DescentPaths(scan: Scan, direct: bool, q: Bytes, t: Bytes)
    requires Rooted(scan, direct, q, t) && scan.pending.Some?
    ensures var name := scan.pending.value.name;
            var n := |scan.levels|;
            if scan.directSelf then scan.ChildPath(name) == q && scan.ChildDisplay(name) == t
            else && n > RootLevel(direct)
                 && scan.ChildPath(name) == scan.Top().path + (name + [SLASH])
                 && scan.ChildDisplay(name) == scan.Top().display + (name + [SLASH])
  {
    if !scan.directSelf {
      var n := |scan.levels|;
      assert Under(scan.levels, n - 1, direct, q, t);
      NamesSeparated(scan.levels, RootLevel(direct) + 1, n, q);
      NamesSeparated(scan.levels, RootLevel(direct) + 1, n, t);
    }
  }

  lemma DescendKeepsRooted(host: Host, v: View, direct: bool, q: Bytes, t: Bytes, lock: nat, chain: nat)
    requires Rooted(v.scan, direct, q, t) && v.scan.pending.Some?
    requires host.lookup(v.scan.ChildPath(v.scan.pending.value.name)).Some?
    ensures Rooted(Descend(host, v, lock, chain).scan, direct, q, t) && Descend(host, v, lock, chain).scan.pending.None?
  {
    hide Listing, JoinAmiga, EnsureTrailingSep, Names, Under;
    DescentPaths(v.scan, direct, q, t);
    var scan' := Descend(host, v, lock, chain).scan;
    var n := |v.scan.levels|;
    forall i: nat | RootLevel(direct) <= i <= n ensures Under(scan'.levels, i, direct, q, t) {
      if i < n {
        assert Under(v.scan.levels, i, direct, q, t);
        UnderKept(v.scan.levels, scan'.levels, i, direct, q, t);
      } else if v.scan.directSelf {
        UnderRoot(scan'.levels, n, direct, q, t);
      } else {
        assert Under(v.scan.levels, n - 1, direct, q, t);
        UnderChild(v.scan.levels, scan'.levels, n, direct, q, t);
      }
    }
  }

  lemma UnderKept(levels: seq<Level>, levels': seq<Level>, i: nat, direct: bool, q: Bytes, t: Bytes)
    requires i < |levels| <= |levels'| && levels'[..|levels|] == levels && Under(levels, i, direct, q, t)
    ensures Under(levels', i, direct, q, t)
  {
    hide Names;
    assert forall k :: 0 <= k <= i ==> levels'[k] == levels'[..|levels|][k];
    NamesPrefix(levels, levels', RootLevel(direct) + 1, i + 1);
  }

  /** The root of the prefixes adds no names. */
  lemma UnderRoot(levels: seq<Level>, n: nat, direct: bool, q: Bytes, t: Bytes)
    requires n < |levels| && n <= RootLevel(direct) && levels[n].path == q && levels[n].display == t
    ensures Under(levels, n, direct, q, t)
  {
  }

  /** A child adds its name to what its parent has. */
  lemma UnderChild(levels: seq<Level>, levels': seq<Level>, n: nat, direct: bool, q: Bytes, t: Bytes)
    requires n == |levels| == |levels'| - 1 && n > RootLevel(direct) && levels'[..n] == levels
    requires Under(levels, n - 1, direct, q, t)
    requires levels'[n].path == levels[n - 1].path + (levels'[n].selfName + [SLASH])
    requires levels'[n].display == levels[n - 1].display + (levels'[n].selfName + [SLASH])
    ensures Under(levels', n, direct, q, t)
  {
    assert forall k :: 0 <= k < n ==> levels'[k] == levels'[..n][k];
    NamesPrefix(levels, levels', RootLevel(direct) + 1, n);
    assert Names(levels', RootLevel(direct) + 1, n + 1)
        == Names(levels', RootLevel(direct) + 1, n) + (levels'[n].selfName + [SLASH]);
  }

  lemma EnterKeepsRooted(host: Host, v: View, g: Grant, direct: bool, q: Bytes, t: Bytes)
    requires Rooted(v.scan, direct, q, t)
    ensures Rooted(Enter(host, v, g).v.scan, direct, q, t) && Enter(host, v, g).v.scan.pending.None?
  {
    hide Descend, JoinAmiga, EnsureTrailingSep, Names;
    var entering := Enter(host, v, g);
    if entering.Entered? {
      DescendKeepsRooted(host, v, direct, q, t, g.lock.value, g.chain.value);
    } else {
      hide Under;
      KeepsRooted(v.scan, entering.v.scan, direct, q, t);
    }
  }

  lemma SettleKeepsRooted(v: View, entered: bool, direct: bool, q: Bytes, t: Bytes)
    requires Rooted(v.scan, direct, q, t) && v.scan.pending.None?
    ensures Rooted(Settle(v, entered).v.scan, direct, q, t)
  {
    hide JoinAmiga, EnsureTrailingSep, Names, NoteAp, NoteChain, Under, Fits;
    KeepsRooted(v.scan, Settle(v, entered).v.scan, direct, q, t);
  }

  /** What a report shows the caller, and where it points on the host. */
  lemma SettleShows(v: View, entered: bool, direct: bool, q: Bytes, t: Bytes)
    requires Rooted(v.scan, direct, q, t)
    ensures var r := Settle(v, entered).report;
            var suffix := Names(v.scan.levels, RootLevel(direct) + 1, |v.scan.levels|);
            && (r.Found? ==> v.scan.Top().path == q + suffix && r.display == t + suffix + r.name)
            && (r.Left? ==> v.scan.Top().path == q + suffix && r.display == t + suffix)
  {
    hide NoteAp, NoteChain, Fits, Names;
    var n := |v.scan.levels|;
    var r := Settle(v, entered).report;
    if !r.Failed? {
      assert n > RootLevel(direct);
      assert Under(v.scan.levels, n - 1, direct, q, t);
      NamesSeparated(v.scan.levels, RootLevel(direct) + 1, n, t);
    }
  }

  /** At every depth the path looked up on the host and the path shown to the caller are
      one and the same name suffix, under the qualified prefix and under the prefix as
      the caller typed it; every MatchNext keeps this, whatever fails. */
  lemma NextPaths(host: Host, v: View, g: Grant, direct: bool, q: Bytes, t: Bytes)
    requires Rooted(v.scan, direct, q, t)
    ensures Rooted(Next(host, v, g).v.scan, direct, q, t)
    ensures var r := Next(host, v, g).report;
            var levels := Enter(host, v, g).v.scan.levels;
            var suffix := Names(levels, RootLevel(direct) + 1, |levels|);
            && levels != []
            && (r.Found? ==> levels[|levels| - 1].path == q + suffix && r.display == t + suffix + r.name)
            && (r.Left? ==> levels[|levels| - 1].path == q + suffix && r.display == t + suffix)
  {
    hide Enter, Settle, Names, Under, EnsureTrailingSep;
    EnterKeepsRooted(host, v, g, direct, q, t);
    var entering := Enter(host, v, g);
    if !entering.Refused? {
      SettleKeepsRooted(entering.v, entering.Entered?, direct, q, t);
      SettleShows(entering.v, entering.Entered?, direct, q, t);
    }
  }

  /** MatchFirst starts a scan under the prefixes its pattern names. */
  lemma FirstPaths(host: Host, sys: Sys, pat: Bytes, id: nat, g: Grant)
    requires id in sys.aps && MatchFirst(host, sys, pat, id, g).report.Code() == 0
    ensures var scans := MatchFirst(host, sys, pat, id, g).sys.scans;
            var split := SplitPattern(host, pat);
            && id in scans && host.parse(split.component).Some?
            && if host.parse(split.component).value.wild then Rooted(scans[id], false, split.dir, split.display)
               else Rooted(scans[id], true, EnsureTrailingSep(host.qualify(pat)), EnsureTrailingSep(pat))
  {
    hide Listing, AnchorDisplayName, SplitPattern, NoteAp, JoinAmiga, Rooted, EndsWithSep, EnsureTrailingSep;
    var split := SplitPattern(host, pat);
    SplitSeparates(host, pat);
    var scan := MatchFirst(host, sys, pat, id, g).sys.scans[id];
    if host.parse(split.component).value.wild {
      WildRooted(scan, split.dir, split.display);
    } else {
      DirectRooted(scan, host.qualify(pat), pat);
    }
  }

  lemma WildRooted(scan: Scan, dir: Bytes, display: Bytes)
    requires |scan.levels| == 1 && scan.levels[0].path == dir && scan.levels[0].display == display && !scan.directSelf
    requires EndsWithSep(dir) && (display == [] || EndsWithSep(display))
    ensures Rooted(scan, false, dir, display)
  {
    assert dir + [] == dir && display + [] == display;
    assert Under(scan.levels, 0, false, dir, display);
  }

  lemma DirectRooted(scan: Scan, path: Bytes, display: Bytes)
    requires |scan.levels| == 1 && scan.levels[0].path == path && scan.levels[0].display == display
    requires scan.directSelf && scan.levels[0].entries == []
    ensures Rooted(scan, true, EnsureTrailingSep(path), EnsureTrailingSep(display))
  {
  }

  lemma {:induction false} SplitSeparates(host: Host, pat: Bytes)
    ensures EndsWithSep(SplitPattern(host, pat).dir)
    ensures SplitPattern(host, pat).display == [] || EndsWithSep(SplitPattern(host, pat).display)
    ensures SplitPoint(pat) > 0 ==> SplitPattern(host, pat).display + SplitPattern(host, pat).component == pat
  {
    if SplitPoint(pat) > 0 { SplitPointSeparates(pat); }
  }

  /** The split point is just past the last `:` or `/`. */
  lemma {:induction false} SplitPointSeparates(pat: Bytes)
    ensures SplitPoint(pat) > 0 ==> EndsWithSep(pat[..SplitPoint(pat)])
    ensures forall i :: SplitPoint(pat) <= i < |pat| ==> pat[i] != COLON && pat[i] != SLASH
  {
    if pat != [] && !EndsWithSep(pat) {
      var shorter := pat[..|pat| - 1];
      SplitPointSeparates(shorter);
      assert pat[..SplitPoint(pat)] == shorter[..SplitPoint(shorter)];
      forall i | SplitPoint(pat) <= i < |pat| ensures pat[i] != COLON && pat[i] != SLASH {
        if i < |pat| - 1 { assert shorter[i] == pat[i]; }
      }
    } else if pat != [] {
      assert pat[..|pat|] == pat;
    }
  }

  /** `ap_Buf` receives the longest prefix of the path that leaves room for the
      terminator, the terminator itself exactly when the whole path fits, and nothing
      at or past `ap_Strlen`. */
  lemma BufferReceivesPrefix(buf: Bytes, strlen: nat, display: Bytes)
    requires strlen <= |buf|
    ensures var r := StoreDisplay(buf, strlen, display);
            && |r| == |buf|
            && r[strlen..] == buf[strlen..]
            && (strlen > 0 ==>
                  var n := Min(|display|, strlen - 1);
                  && r[..n] == display[..n]
                  && (Fits(strlen, display) ==> n == |display| && r[n] == 0 && r[n + 1..] == buf[n + 1..])
                  && (!Fits(strlen, display) ==> n == strlen - 1 && r[n..] == buf[n..]))
  {
    var r := StoreDisplay(buf, strlen, display);
    if strlen > 0 {
      var n := Min(|display|, strlen - 1);
      assert r[..n] == display[..n];
    }
  }
}
