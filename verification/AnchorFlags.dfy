// What a call does to ap_Flags, and scans by a caller that only ever sets APF_DODIR.

module AnchorFlags {
  import opened Guest
  import opened HostTree
  import opened AnchorModel
  import opened AnchorWalk
  import opened AnchorRun

  // --- One call ---

  /** The last report was a directory, the caller has set APF_DODIR, the directory is found,
      and the heap has a lock and an AChain for it. */
  predicate GoesIn(host: Host, v: View, g: Grant)
    requires v.scan.levels != []
  {
    && v.scan.pending.Some? && v.scan.pending.value.IsDir() && APF_DODIR in v.ap.flags
    && host.lookup(v.scan.ChildPath(v.scan.pending.value.name)).Some?
    && g.lock.Some? && g.chain.Some?
  }

  lemma EnterFlags(host: Host, v: View, g: Grant)
    requires v.scan.levels != []
    ensures var w := Enter(host, v, g);
            && w.v.scan.levels != [] && (w.Entered? <==> GoesIn(host, v, g))
            && (w.Entered? ==> |w.v.scan.levels| > 1)
            && w.v.ap.flags == if GoesIn(host, v, g) then v.ap.flags - {APF_DODIR} + {APF_DIR_CHANGED} else v.ap.flags
  {
    hide Listing, JoinAmiga, EnsureTrailingSep;
  }

  lemma SettleFlags(v: View, entered: bool)
    requires v.scan.levels != []
    ensures var step := Settle(v, entered);
            var shown := step.report.Code() == 0;
            && (forall f: nat :: f != APF_DIDDIR && f != APF_DIR_CHANGED ==>
                  (f in step.v.ap.flags <==> f in v.ap.flags))
            && (APF_DIDDIR in step.v.ap.flags <==> APF_DIDDIR in v.ap.flags || (step.report.Left? && shown))
            && (APF_DIR_CHANGED in step.v.ap.flags <==>
                  (step.report.Left? && shown)
                  || (APF_DIR_CHANGED in v.ap.flags && (entered || !(step.report.Found? && shown))))
  {
    hide JoinAmiga, Fits, StoreDisplay;
  }

  /** After any MatchNext: APF_DODIR is set if and only if it was set and the call entered no
      directory; APF_DIR_CHANGED if and only if the call entered or left a directory, or it
      was set and the call did not show an entry; APF_DIDDIR if and only if it was set or the
      call left a directory; no other flag changes. */
  lemma NextFlags(host: Host, v: View, g: Grant)
    requires v.scan.levels != []
    ensures var step := Next(host, v, g);
            var shown := step.report.Code() == 0;
            && (APF_DODIR in step.v.ap.flags <==> APF_DODIR in v.ap.flags && !GoesIn(host, v, g))
            && (APF_DIR_CHANGED in step.v.ap.flags <==>
                  GoesIn(host, v, g) || (step.report.Left? && shown)
                  || (APF_DIR_CHANGED in v.ap.flags && !(step.report.Found? && shown)))
            && (APF_DIDDIR in step.v.ap.flags <==> APF_DIDDIR in v.ap.flags || (step.report.Left? && shown))
            && (forall f: nat :: f != APF_DODIR && f != APF_DIR_CHANGED && f != APF_DIDDIR ==>
                  (f in step.v.ap.flags <==> f in v.ap.flags))
  {
    hide Enter, Settle, GoesIn;
    EnterFlags(host, v, g);
    var w := Enter(host, v, g);
    if !w.Refused? { SettleFlags(w.v, w.Entered?); }
  }

  /** After any MatchFirst: APF_ITSWILD is set if and only if it was set or the call began a
      scan with a wildcard; no other flag changes. */
  lemma FirstFlags(host: Host, sys: Sys, pat: Bytes, id: nat, g: Grant)
    requires id in sys.aps
    ensures var called := MatchFirst(host, sys, pat, id, g);
            var parsed := host.parse(SplitPattern(host, pat).component);
            && id in called.sys.aps
            && (APF_ITSWILD in called.sys.aps[id].flags <==>
                  APF_ITSWILD in sys.aps[id].flags || (called.report.Code() == 0 && parsed.Some? && parsed.value.wild))
            && (forall f: nat :: f != APF_ITSWILD ==> (f in called.sys.aps[id].flags <==> f in sys.aps[id].flags))
  {
    hide SplitPattern, AnchorDisplayName, JoinAmiga, Listing, Fits, StoreDisplay;
  }

  // --- A caller that sets the bit and never clears it ---

  /** What happens before a call: the caller sets APF_DODIR, or does nothing. */
  datatype Visit = Visit(sets: bool, grant: Grant)

  function Setting(v: View, visit: Visit): View {
    if visit.sets then v.(ap := v.ap.(flags := v.ap.flags + {APF_DODIR})) else v
  }

  function AfterVisit(host: Host, v: View, visit: Visit): Step
    requires v.scan.levels != []
    ensures AfterVisit(host, v, visit).v.scan.levels != []
  {
    NextLevels(host, Setting(v, visit), visit.grant);
    Next(host, Setting(v, visit), visit.grant)
  }

  lemma NextLevels(host: Host, v: View, g: Grant)
    requires v.scan.levels != []
    ensures Next(host, v, g).v.scan.levels != []
  {
    hide JoinAmiga, Fits, NoteAp, Listing;
  }

  function VisitReports(host: Host, v: View, visits: seq<Visit>): seq<Report>
    requires v.scan.levels != []
    decreases |visits|
  {
    if visits == [] then []
    else
      var step := AfterVisit(host, v, visits[0]);
      [step.report] + VisitReports(host, step.v, visits[1..])
  }

  function VisitView(host: Host, v: View, visits: seq<Visit>): View
    requires v.scan.levels != []
    decreases |visits|
  {
    if visits == [] then v else VisitView(host, AfterVisit(host, v, visits[0]).v, visits[1..])
  }

  /** The directories the calls go into. */
  function Entries(host: Host, v: View, visits: seq<Visit>): nat
    requires v.scan.levels != []
    decreases |visits|
  {
    if visits == [] then 0
    else
      (if GoesIn(host, Setting(v, visits[0]), visits[0].grant) then 1 else 0)
      + Entries(host, AfterVisit(host, v, visits[0]).v, visits[1..])
  }

  /** How often the caller sets a bit that is clear. */
  function Settings(host: Host, v: View, visits: seq<Visit>): nat
    requires v.scan.levels != []
    decreases |visits|
  {
    if visits == [] then 0
    else
      (if visits[0].sets && APF_DODIR !in v.ap.flags then 1 else 0)
      + Settings(host, AfterVisit(host, v, visits[0]).v, visits[1..])
  }

  function Bit(v: View): nat { if APF_DODIR in v.ap.flags then 1 else 0 }

  /** Every setting of the bit is used up by one directory entered, or is still there. */
  lemma {:induction false} OneEntryPerSetting(host: Host, v: View, visits: seq<Visit>)
    requires v.scan.levels != []
    ensures Entries(host, v, visits) + Bit(VisitView(host, v, visits)) == Bit(v) + Settings(host, v, visits)
    decreases |visits|
  {
    hide Next, GoesIn;
    if visits != [] {
      NextFlags(host, Setting(v, visits[0]), visits[0].grant);
      SetToGoIn(host, Setting(v, visits[0]), visits[0].grant);
      OneEntryPerSetting(host, AfterVisit(host, v, visits[0]).v, visits[1..]);
    }
  }

  lemma SetToGoIn(host: Host, v: View, g: Grant)
    requires v.scan.levels != []
    ensures GoesIn(host, v, g) ==> APF_DODIR in v.ap.flags
  {
  }

  // --- The same caller in the theorem on whole scans ---

  /** Whether call i of the run finds the bit. */
  function BitAt(host: Host, v: View, visits: seq<Visit>, i: nat): bool
    requires v.scan.levels != [] && i < |visits|
    decreases i
  {
    if i == 0 then APF_DODIR in Setting(v, visits[0]).ap.flags
    else BitAt(host, AfterVisit(host, v, visits[0]).v, visits[1..], i - 1)
  }

  /** The calls of the run, the first of them call number k, as choices for each call. */
  ghost predicate Agrees(host: Host, c: Ctx, v: View, k: nat, visits: seq<Visit>)
    requires v.scan.levels != []
  {
    forall i :: 0 <= i < |visits| ==> c.call(k + i) == Call(BitAt(host, v, visits, i), visits[i].grant)
  }

  /** Such choices exist. */
  function Choices(host: Host, v: View, k: nat, visits: seq<Visit>): Ctx
    requires v.scan.levels != []
  {
    Ctx(v.scan.keep, v.ap.strlen,
        j => if k <= j < k + |visits| then Call(BitAt(host, v, visits, j - k), visits[j - k].grant)
             else Call(false, Grant(None, None)))
  }

  lemma {:induction false} AgreesNext(host: Host, c: Ctx, v: View, k: nat, visits: seq<Visit>)
    requires v.scan.levels != [] && visits != [] && Agrees(host, c, v, k, visits)
    ensures c.call(k) == Call(APF_DODIR in Setting(v, visits[0]).ap.flags, visits[0].grant)
    ensures Agrees(host, c, AfterVisit(host, v, visits[0]).v, k + 1, visits[1..])
  {
    hide AfterVisit;
    assert c.call(k + 0) == Call(BitAt(host, v, visits, 0), visits[0].grant);
    var next := AfterVisit(host, v, visits[0]).v;
    forall i | 0 <= i < |visits| - 1
      ensures c.call(k + 1 + i) == Call(BitAt(host, next, visits[1..], i), visits[1..][i].grant)
    {
      assert c.call(k + (i + 1)) == Call(BitAt(host, v, visits, i + 1), visits[i + 1].grant);
    }
  }

  /** Setting the bit now and then is choosing it for every call. */
  lemma {:induction false} SettingIsChoosing(host: Host, c: Ctx, v: View, k: nat, visits: seq<Visit>)
    requires v.scan.levels != [] && Agrees(host, c, v, k, visits)
    ensures Play(host, c, v, k, |visits|) == VisitReports(host, v, visits)
    decreases |visits|
  {
    hide Next, Agrees;
    if visits != [] {
      AgreesNext(host, c, v, k, visits);
      ChosenIsSet(c, v, k, visits[0]);
      SettingIsChoosing(host, c, AfterVisit(host, v, visits[0]).v, k + 1, visits[1..]);
    }
  }

  lemma ChosenIsSet(c: Ctx, v: View, k: nat, visit: Visit)
    requires c.Enters(k) <==> APF_DODIR in Setting(v, visit).ap.flags
    ensures Choose(c, v, k) == Setting(v, visit)
  {
    var flags := v.ap.flags;
    assert APF_DODIR in flags ==> flags + {APF_DODIR} == flags;
    assert APF_DODIR !in flags ==> flags - {APF_DODIR} == flags;
  }

  /** A caller that only ever sets the bit gets the walk into the directories that the calls
      finding the bit ask for, and goes into one for each setting at most. */
  lemma {:induction false} VisitsReportFuture(host: Host, v: View, k: nat, visits: seq<Visit>)
    requires Coherent(host) && Sound(host, v.scan)
    ensures var c := Choices(host, v, k, visits);
            var reports := VisitReports(host, v, visits);
            |reports| == |visits| && forall i :: 0 <= i < |visits| ==> reports[i] == At(Future(c, v.scan, k), i)
    ensures Entries(host, v, visits) <= Bit(v) + Settings(host, v, visits)
  {
    hide Coherent, LevelSound, Future, VisitReports, Play, Entries, Settings, VisitView;
    var c := Choices(host, v, k, visits);
    forall i | 0 <= i < |visits| ensures c.call(k + i) == Call(BitAt(host, v, visits, i), visits[i].grant) {
    }
    SettingIsChoosing(host, c, v, k, visits);
    PlayReportsFuture(host, c, v, k, |visits|);
    OneEntryPerSetting(host, v, visits);
  }
}
