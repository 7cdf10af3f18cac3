// What any run of ReadArgs and FreeArgs leaves allocated.

module ArgRuns {
  import opened GuestMemory
  import opened ArgHeap

  function Keys(taken: seq<nat>): set<nat> { set a <- taken }

  /** What ReadArgs remembers for FreeArgs. */
  datatype RdArgs = RdArgs(allocations: seq<nat>, ownsAnchor: bool)

  type Records = map<nat, RdArgs>

  /** The blocks FreeArgs gives back for this record. */
  function BlocksOf(anchor: nat, entry: RdArgs): set<nat> {
    Keys(entry.allocations) + if entry.ownsAnchor then {anchor} else {}
  }

  /** The live heap blocks and the records of the calls behind them. */
  datatype State = State(live: Blocks, rdargs: Records)

  datatype Call =
    | ReadCall(rdargsPtr: nat, code: int, anchor: nat)
    | FreeCall(ptr: nat)

  /** One call on a heap that lies from `start` to `end`. */
  ghost predicate HeapStep(s: State, s': State, call: Call, start: nat, end: nat) {
    match call
    case ReadCall(ptr, code, anchor) =>
      if code != 0 then s' == s
      else
        && anchor != 0 && anchor in s'.rdargs && s'.rdargs == s.rdargs[anchor := s'.rdargs[anchor]]
        && var entry := s'.rdargs[anchor];
           && Took(s.live, s'.live, entry.allocations + if entry.ownsAnchor then [anchor] else [])
           && (if ptr != 0 then anchor == ptr && !entry.ownsAnchor
               else entry.ownsAnchor && start <= anchor < end)
    case FreeCall(ptr) =>
      if ptr == 0 || ptr !in s.rdargs then s' == s
      else s' == State(s.live - BlocksOf(ptr, s.rdargs[ptr]), s.rdargs - {ptr})
  }

  /** One call after the other. */
  ghost predicate Run(states: seq<State>, calls: seq<Call>, start: nat, end: nat) {
    && |states| == |calls| + 1
    && forall k :: 0 <= k < |calls| ==> HeapStep(states[k], states[k + 1], calls[k], start, end)
  }

  /** The call puts its record in the place of another. */
  predicate Overwrites(s: State, call: Call) {
    call.ReadCall? && call.code == 0 && call.anchor in s.rdargs
  }

  /** The blocks of the record that the call overwrites. */
  function Stranded(s: State, call: Call): set<nat> {
    if Overwrites(s, call) then BlocksOf(call.anchor, s.rdargs[call.anchor]) else {}
  }

  function AllStranded(states: seq<State>, calls: seq<Call>): set<nat>
    requires |states| == |calls| + 1
  {
    if calls == [] then {}
    else AllStranded(states[..|calls|], calls[..|calls| - 1]) + Stranded(states[|calls| - 1], calls[|calls| - 1])
  }

  /** Every block in the records. */
  ghost function Recorded(rdargs: Records): set<nat> {
    set a, b | a in rdargs && b in BlocksOf(a, rdargs[a]) :: b
  }

  /** The live blocks are those of the beginning, unchanged, those in the records and the
      stranded ones, no block being two of these or in two records. */
  ghost predicate Accounted(live0: Blocks, s: State, stranded: set<nat>) {
    && (forall a :: a in live0 ==> a in s.live && s.live[a] == live0[a])
    && s.live.Keys == live0.Keys + Recorded(s.rdargs) + stranded
    && live0.Keys !! Recorded(s.rdargs) && live0.Keys !! stranded && Recorded(s.rdargs) !! stranded
    && (forall a, b :: a in s.rdargs && b in s.rdargs && a != b ==>
          BlocksOf(a, s.rdargs[a]) !! BlocksOf(b, s.rdargs[b]))
  }

  /** The records after the one at `anchor` is put there: the others and the new one. */
  lemma RecordedPut(rdargs: Records, anchor: nat, entry: RdArgs)
    ensures Recorded(rdargs[anchor := entry]) == Recorded(rdargs - {anchor}) + BlocksOf(anchor, entry)
  {
    hide BlocksOf;
    var rdargs' := rdargs[anchor := entry];
    forall b ensures b in Recorded(rdargs') <==> b in Recorded(rdargs - {anchor}) || b in BlocksOf(anchor, entry) {
      if b in BlocksOf(anchor, entry) {
        assert anchor in rdargs' && b in BlocksOf(anchor, rdargs'[anchor]);
      }
      if b in Recorded(rdargs - {anchor}) {
        var a :| a in rdargs - {anchor} && b in BlocksOf(a, (rdargs - {anchor})[a]);
        assert a in rdargs' && b in BlocksOf(a, rdargs'[a]);
      }
      if b in Recorded(rdargs') {
        var a :| a in rdargs' && b in BlocksOf(a, rdargs'[a]);
        if a != anchor { assert a in rdargs - {anchor} && b in BlocksOf(a, (rdargs - {anchor})[a]); }
      }
    }
  }

  /** Taking a record out takes out its blocks and no other record's. */
  lemma RecordedTaken(rdargs: Records, anchor: nat)
    requires anchor in rdargs
    requires forall a, b :: a in rdargs && b in rdargs && a != b ==> BlocksOf(a, rdargs[a]) !! BlocksOf(b, rdargs[b])
    ensures Recorded(rdargs) == Recorded(rdargs - {anchor}) + BlocksOf(anchor, rdargs[anchor])
    ensures Recorded(rdargs - {anchor}) !! BlocksOf(anchor, rdargs[anchor])
  {
    hide Recorded, BlocksOf;
    RecordedPut(rdargs, anchor, rdargs[anchor]);
    assert rdargs[anchor := rdargs[anchor]] == rdargs;
    RecordedApart(rdargs - {anchor}, BlocksOf(anchor, rdargs[anchor]));
  }

  lemma RecordedApart(rdargs: Records, blocks: set<nat>)
    ensures Recorded(rdargs) !! blocks <==> forall a :: a in rdargs ==> BlocksOf(a, rdargs[a]) !! blocks
  {
    hide BlocksOf;
    if Recorded(rdargs) !! blocks {
      forall a | a in rdargs ensures BlocksOf(a, rdargs[a]) !! blocks {
        forall b | b in BlocksOf(a, rdargs[a]) ensures b !in blocks { assert b in Recorded(rdargs); }
      }
    }
  }

  lemma TookKeys(live: Blocks, live': Blocks, taken: seq<nat>)
    requires Took(live, live', taken)
    ensures live'.Keys == live.Keys + Keys(taken) && live.Keys !! Keys(taken)
    ensures forall a :: a in live ==> a in live' && live'[a] == live[a]
  {
  }

  lemma KeysOfEntry(anchor: nat, entry: RdArgs)
    ensures Keys(entry.allocations + if entry.ownsAnchor then [anchor] else []) == BlocksOf(anchor, entry)
  {
  }

  /** Every call keeps the account, with what it overwrites added to the stranded blocks. */
  lemma StepAccounts(live0: Blocks, s: State, s': State, call: Call, start: nat, end: nat, stranded: set<nat>)
    requires Accounted(live0, s, stranded) && HeapStep(s, s', call, start, end)
    ensures Accounted(live0, s', stranded + Stranded(s, call))
  {
    if s' == s && !Overwrites(s, call) {
      assert stranded + {} == stranded;
    } else if call.ReadCall? {
      ReadAccounts(live0, s, s', call, start, end, stranded);
    } else {
      FreeAccounts(live0, s, s', call, start, end, stranded);
    }
  }

  lemma FreeAccounts(live0: Blocks, s: State, s': State, call: Call, start: nat, end: nat, stranded: set<nat>)
    requires Accounted(live0, s, stranded) && HeapStep(s, s', call, start, end)
    requires call.FreeCall? && call.ptr != 0 && call.ptr in s.rdargs
    ensures Accounted(live0, s', stranded + Stranded(s, call))
  {
    hide Recorded, BlocksOf;
    var blocks := BlocksOf(call.ptr, s.rdargs[call.ptr]);
    RecordedTaken(s.rdargs, call.ptr);
    assert s'.live.Keys == s.live.Keys - blocks;
    assert stranded + {} == stranded;
    assert forall a :: a in live0 ==> a !in blocks;
  }

  lemma ReadAccounts(live0: Blocks, s: State, s': State, call: Call, start: nat, end: nat, stranded: set<nat>)
    requires Accounted(live0, s, stranded) && HeapStep(s, s', call, start, end)
    requires call.ReadCall? && call.code == 0
    ensures Accounted(live0, s', stranded + Stranded(s, call))
  {
    hide Recorded, BlocksOf, Took, Keys;
    var anchor := call.anchor;
    var entry := s'.rdargs[anchor];
    var taken := BlocksOf(anchor, entry);
    KeysOfEntry(anchor, entry);
    TookKeys(s.live, s'.live, entry.allocations + if entry.ownsAnchor then [anchor] else []);
    RecordedPut(s.rdargs, anchor, entry);
    if anchor in s.rdargs {
      RecordedTaken(s.rdargs, anchor);
    } else {
      assert s.rdargs - {anchor} == s.rdargs;
    }
    var others := s.rdargs - {anchor};
    OthersInside(s.rdargs, anchor);
    ApartAfter(s.rdargs, anchor, entry);
    var gone := if anchor in s.rdargs then BlocksOf(anchor, s.rdargs[anchor]) else {};
    assert Stranded(s, call) == gone;
    Regrouped(live0.Keys, Recorded(others), gone, stranded, taken, s.live.Keys);
  }

  lemma OthersInside(rdargs: Records, anchor: nat)
    ensures Recorded(rdargs - {anchor}) <= Recorded(rdargs)
  {
    hide BlocksOf;
    forall b | b in Recorded(rdargs - {anchor}) ensures b in Recorded(rdargs) {
      var a :| a in rdargs - {anchor} && b in BlocksOf(a, (rdargs - {anchor})[a]);
      assert a in rdargs && b in BlocksOf(a, rdargs[a]);
    }
  }

  /** A record of blocks that none of the others holds is apart from them all. */
  lemma ApartAfter(rdargs: Records, anchor: nat, entry: RdArgs)
    requires forall a, b :: a in rdargs && b in rdargs && a != b ==> BlocksOf(a, rdargs[a]) !! BlocksOf(b, rdargs[b])
    requires Recorded(rdargs) !! BlocksOf(anchor, entry)
    ensures var rdargs' := rdargs[anchor := entry];
            forall a, b :: a in rdargs' && b in rdargs' && a != b ==> BlocksOf(a, rdargs'[a]) !! BlocksOf(b, rdargs'[b])
  {
    hide BlocksOf, Recorded;
    RecordedApart(rdargs, BlocksOf(anchor, entry));
  }

  lemma Regrouped(initial: set<nat>, others: set<nat>, gone: set<nat>, stranded: set<nat>, taken: set<nat>,
                  all: set<nat>)
    requires all == initial + (others + gone) + stranded && all !! taken
    requires initial !! others + gone && initial !! stranded && others + gone !! stranded && others !! gone
    ensures all + taken == initial + (others + taken) + (stranded + gone)
    ensures initial !! others + taken && initial !! stranded + gone && others + taken !! stranded + gone
  {
  }

  /** Over any run of calls from a heap with no records, whatever the codes and anchors: the
      live blocks are the first ones, those in the records and those of overwritten records,
      all apart. */
  lemma {:induction false} RunAccounts(states: seq<State>, calls: seq<Call>, start: nat, end: nat)
    requires Run(states, calls, start, end) && states[0].rdargs == map[]
    ensures Accounted(states[0].live, states[|calls|], AllStranded(states, calls))
    decreases |calls|
  {
    hide HeapStep, Stranded, Accounted;
    var n := |calls|;
    if n == 0 {
      NothingRecorded(states[0]);
    } else {
      RunShorter(states, calls, start, end);
      RunAccounts(states[..n], calls[..n - 1], start, end);
      StepAccounts(states[0].live, states[n - 1], states[n], calls[n - 1], start, end,
                   AllStranded(states[..n], calls[..n - 1]));
    }
  }

  lemma NothingRecorded(s: State)
    requires s.rdargs == map[]
    ensures Accounted(s.live, s, {})
  {
  }

  lemma RunShorter(states: seq<State>, calls: seq<Call>, start: nat, end: nat)
    requires Run(states, calls, start, end) && calls != []
    ensures Run(states[..|calls|], calls[..|calls| - 1], start, end)
    ensures HeapStep(states[|calls| - 1], states[|calls|], calls[|calls| - 1], start, end)
  {
    hide HeapStep;
    var n := |calls|;
    forall k | 0 <= k < n - 1
      ensures HeapStep(states[..n][k], states[..n][k + 1], calls[..n - 1][k], start, end)
    {
      assert HeapStep(states[k], states[k + 1], calls[k], start, end);
    }
  }

  /** When every record has been given back, what is left beyond the first blocks is exactly
      what was stranded. */
  lemma {:induction false} AllFreed(states: seq<State>, calls: seq<Call>, start: nat, end: nat)
    requires Run(states, calls, start, end) && states[0].rdargs == map[] && states[|calls|].rdargs == map[]
    ensures states[|calls|].live.Keys == states[0].live.Keys + AllStranded(states, calls)
    ensures AllStranded(states, calls) == {} <==> states[|calls|].live == states[0].live
  {
    hide HeapStep, AllStranded;
    RunAccounts(states, calls, start, end);
  }

  // --- Which calls strand blocks ---

  lemma {:induction false} StrandedIff(states: seq<State>, calls: seq<Call>)
    requires |states| == |calls| + 1
    ensures AllStranded(states, calls) == {} <==>
              forall k :: 0 <= k < |calls| ==> Stranded(states[k], calls[k]) == {}
    decreases |calls|
  {
    hide Stranded;
    var n := |calls|;
    if n > 0 {
      var states', calls' := states[..n], calls[..n - 1];
      StrandedIff(states', calls');
      assert forall k :: 0 <= k < n - 1 ==> states'[k] == states[k] && calls'[k] == calls[k];
    }
  }

  /** A caller's own anchor is one of its blocks from before, or no heap address; or it is
      an anchor that still has a record. */
  ghost predicate OwnAnchor(live0: Blocks, s: State, call: Call, start: nat, end: nat) {
    call.ReadCall? && call.rdargsPtr != 0 ==>
      call.rdargsPtr in live0 || !(start <= call.rdargsPtr < end) || call.rdargsPtr in s.rdargs
  }

  ghost predicate OwnAnchors(states: seq<State>, calls: seq<Call>, start: nat, end: nat)
    requires |states| == |calls| + 1
  {
    forall k :: 0 <= k < |calls| ==> OwnAnchor(states[0].live, states[k], calls[k], start, end)
  }

  /** No record is kept under an address that the heap could hand out. */
  ghost predicate Settled(live0: Blocks, s: State, stranded: set<nat>, start: nat, end: nat) {
    forall a :: a in s.rdargs && !s.rdargs[a].ownsAnchor ==> a in live0 || a in stranded || !(start <= a < end)
  }

  lemma StepSettles(live0: Blocks, s: State, s': State, call: Call, start: nat, end: nat, stranded: set<nat>)
    requires Accounted(live0, s, stranded) && Settled(live0, s, stranded, start, end)
    requires HeapStep(s, s', call, start, end) && OwnAnchor(live0, s, call, start, end)
    ensures Settled(live0, s', stranded + Stranded(s, call), start, end)
  {
    hide Accounted, Recorded, Took, Keys;
    if call.ReadCall? && call.code == 0 && call.rdargsPtr != 0 {
      var ptr := call.rdargsPtr;
      if ptr in s.rdargs && s.rdargs[ptr].ownsAnchor {
        assert ptr in BlocksOf(ptr, s.rdargs[ptr]);
      }
    }
  }

  /** A new anchor never has a record already. */
  lemma FreshOverwritesNothing(live0: Blocks, s: State, s': State, call: Call, start: nat, end: nat, stranded: set<nat>)
    requires Accounted(live0, s, stranded) && Settled(live0, s, stranded, start, end)
    requires HeapStep(s, s', call, start, end) && call.ReadCall? && call.rdargsPtr == 0
    ensures !Overwrites(s, call)
  {
    hide Keys;
    if Overwrites(s, call) {
      var entry := s'.rdargs[call.anchor];
      var taken := entry.allocations + [call.anchor];
      assert taken[|entry.allocations|] == call.anchor;
      if s.rdargs[call.anchor].ownsAnchor {
        OwnedIsLive(live0, s, stranded, call.anchor);
      }
    }
  }

  lemma OwnedIsLive(live0: Blocks, s: State, stranded: set<nat>, anchor: nat)
    requires Accounted(live0, s, stranded) && anchor in s.rdargs && s.rdargs[anchor].ownsAnchor
    ensures anchor in s.live
  {
    assert anchor in BlocksOf(anchor, s.rdargs[anchor]);
    assert anchor in Recorded(s.rdargs);
  }

  lemma {:induction false} RunSettles(states: seq<State>, calls: seq<Call>, start: nat, end: nat)
    requires Run(states, calls, start, end) && states[0].rdargs == map[] && OwnAnchors(states, calls, start, end)
    ensures Settled(states[0].live, states[|calls|], AllStranded(states, calls), start, end)
    decreases |calls|
  {
    hide HeapStep, Stranded, Accounted, OwnAnchor;
    var n := |calls|;
    if n > 0 {
      RunShorter(states, calls, start, end);
      OwnShorter(states, calls, start, end);
      RunSettles(states[..n], calls[..n - 1], start, end);
      RunAccounts(states[..n], calls[..n - 1], start, end);
      StepSettles(states[0].live, states[n - 1], states[n], calls[n - 1], start, end,
                  AllStranded(states[..n], calls[..n - 1]));
    }
  }

  lemma OwnShorter(states: seq<State>, calls: seq<Call>, start: nat, end: nat)
    requires |states| == |calls| + 1 && calls != [] && OwnAnchors(states, calls, start, end)
    ensures OwnAnchors(states[..|calls|], calls[..|calls| - 1], start, end)
    ensures OwnAnchor(states[0].live, states[|calls| - 1], calls[|calls| - 1], start, end)
  {
    hide OwnAnchor;
    var n := |calls|;
    forall k | 0 <= k < n - 1
      ensures OwnAnchor(states[..n][0].live, states[..n][k], calls[..n - 1][k], start, end)
    {
      assert OwnAnchor(states[0].live, states[k], calls[k], start, end);
    }
  }

  /** A call that succeeds and passes an anchor whose record still holds a block. */
  predicate Reuses(s: State, call: Call) {
    && call.ReadCall? && call.code == 0 && call.rdargsPtr != 0 && call.rdargsPtr in s.rdargs
    && BlocksOf(call.rdargsPtr, s.rdargs[call.rdargsPtr]) != {}
  }

  /** A call of a run strands blocks exactly when it succeeds and passes such an anchor. */
  lemma {:induction false} StrandsIff(states: seq<State>, calls: seq<Call>, start: nat, end: nat, k: nat)
    requires Run(states, calls, start, end) && states[0].rdargs == map[] && OwnAnchors(states, calls, start, end)
    requires k < |calls|
    ensures Stranded(states[k], calls[k]) != {} <==> Reuses(states[k], calls[k])
    decreases |calls|
  {
    hide Accounted, Settled, OwnAnchors, AllStranded, Took, BlocksOf;
    RunShorter(states, calls, start, end);
    OwnShorter(states, calls, start, end);
    var n := |calls|;
    if k < n - 1 {
      StrandsIff(states[..n], calls[..n - 1], start, end, k);
    } else {
      RunAccounts(states[..n], calls[..n - 1], start, end);
      RunSettles(states[..n], calls[..n - 1], start, end);
      var stranded := AllStranded(states[..n], calls[..n - 1]);
      if calls[k].ReadCall? && calls[k].rdargsPtr == 0 {
        FreshOverwritesNothing(states[0].live, states[k], states[n], calls[k], start, end, stranded);
      }
    }
  }

  /** Over any run, with anchors the callers own, nothing is stranded if and only if no call
      that succeeds passes an anchor whose record still holds a block. */
  lemma {:induction false} NothingStrandedIff(states: seq<State>, calls: seq<Call>, start: nat, end: nat)
    requires Run(states, calls, start, end) && states[0].rdargs == map[] && OwnAnchors(states, calls, start, end)
    ensures AllStranded(states, calls) == {} <==>
              forall k :: 0 <= k < |calls| ==> !Reuses(states[k], calls[k])
  {
    hide HeapStep, OwnAnchors, Stranded, AllStranded, Reuses;
    StrandedIff(states, calls);
    forall k | 0 <= k < |calls|
      ensures Stranded(states[k], calls[k]) != {} <==> Reuses(states[k], calls[k])
    {
      StrandsIff(states, calls, start, end, k);
    }
  }

  // --- What a caller can know before the call ---

  /** The call passes an anchor whose record still holds a block. */
  predicate Offers(s: State, call: Call) {
    && call.ReadCall? && call.rdargsPtr != 0 && call.rdargsPtr in s.rdargs
    && BlocksOf(call.rdargsPtr, s.rdargs[call.rdargsPtr]) != {}
  }

  /** The same call with a success for its outcome. */
  function Succeeding(call: Call, anchor: nat): Call
    requires call.ReadCall?
  {
    call.(code := 0, anchor := anchor)
  }

  /** Some outcome of the call strands blocks. */
  ghost predicate MayStrand(s: State, call: Call, start: nat, end: nat) {
    call.ReadCall? && exists s', anchor ::
      HeapStep(s, s', Succeeding(call, anchor), start, end) && Stranded(s, Succeeding(call, anchor)) != {}
  }

  /** A read that needs no block and takes the place of the record at `anchor`. */
  lemma EmptyRead(s: State, anchor: nat, start: nat, end: nat)
    requires anchor != 0
    ensures HeapStep(s, State(s.live, s.rdargs[anchor := RdArgs([], false)]), ReadCall(anchor, 0, anchor), start, end)
  {
    var none: seq<nat> := [];
    assert none + [] == none;
  }

  /** With an anchor of its own, a caller's ReadArgs may strand blocks if and only if the anchor
      still has a record with a block in it; with 0 it never does. */
  lemma MayStrandIff(live0: Blocks, s: State, stranded: set<nat>, call: Call, start: nat, end: nat)
    requires Accounted(live0, s, stranded) && Settled(live0, s, stranded, start, end)
    ensures MayStrand(s, call, start, end) <==> Offers(s, call)
  {
    hide BlocksOf, Took, Accounted, Settled;
    if Offers(s, call) {
      var ptr := call.rdargsPtr;
      EmptyRead(s, ptr, start, end);
      assert HeapStep(s, State(s.live, s.rdargs[ptr := RdArgs([], false)]), Succeeding(call, ptr), start, end);
      assert Stranded(s, Succeeding(call, ptr)) != {};
    }
    if MayStrand(s, call, start, end) {
      var s', anchor :|
        HeapStep(s, s', Succeeding(call, anchor), start, end) && Stranded(s, Succeeding(call, anchor)) != {};
      if call.rdargsPtr == 0 {
        FreshOverwritesNothing(live0, s, s', Succeeding(call, anchor), start, end, stranded);
      }
    }
  }

  /** The run up to call k, which then has some other outcome. */
  ghost predicate Branches(states: seq<State>, calls: seq<Call>, k: nat, states': seq<State>, calls': seq<Call>,
                           start: nat, end: nat)
    requires |states| == |calls| + 1
  {
    && k < |calls| && calls[k].ReadCall? && Run(states', calls', start, end)
    && |calls'| == k + 1 && states'[..k + 1] == states[..k + 1] && calls'[..k] == calls[..k]
    && exists anchor :: calls'[k] == Succeeding(calls[k], anchor)
  }

  /** Some run that a caller cannot tell from this one before its last call strands blocks. */
  ghost predicate RunMayStrand(states: seq<State>, calls: seq<Call>, start: nat, end: nat)
    requires |states| == |calls| + 1
  {
    exists k: nat, states', calls' ::
      Branches(states, calls, k, states', calls', start, end) && AllStranded(states', calls') != {}
  }

  lemma {:induction false} Prefix(states: seq<State>, calls: seq<Call>, start: nat, end: nat, k: nat)
    requires Run(states, calls, start, end) && states[0].rdargs == map[] && OwnAnchors(states, calls, start, end)
    requires k <= |calls|
    ensures var states', calls' := states[..k + 1], calls[..k];
            && Run(states', calls', start, end) && OwnAnchors(states', calls', start, end)
            && Accounted(states[0].live, states[k], AllStranded(states', calls'))
            && Settled(states[0].live, states[k], AllStranded(states', calls'), start, end)
    decreases |calls|
  {
    hide HeapStep, OwnAnchor, Accounted, Settled, AllStranded;
    if k < |calls| {
      RunShorter(states, calls, start, end);
      OwnShorter(states, calls, start, end);
      Prefix(states[..|calls|], calls[..|calls| - 1], start, end, k);
      assert states[..|calls|][..k + 1] == states[..k + 1] && calls[..|calls| - 1][..k] == calls[..k];
    } else {
      assert states[..k + 1] == states && calls[..k] == calls;
      RunAccounts(states, calls, start, end);
      RunSettles(states, calls, start, end);
    }
  }

  /** A caller that never passes an anchor whose record still holds a block strands nothing,
      whatever ReadArgs answers; one that passes such an anchor may. */
  lemma {:induction false} RunMayStrandIff(states: seq<State>, calls: seq<Call>, start: nat, end: nat)
    requires Run(states, calls, start, end) && states[0].rdargs == map[] && OwnAnchors(states, calls, start, end)
    ensures RunMayStrand(states, calls, start, end) <==>
              exists k :: 0 <= k < |calls| && Offers(states[k], calls[k])
    ensures (forall k :: 0 <= k < |calls| ==> !Offers(states[k], calls[k])) ==> AllStranded(states, calls) == {}
  {
    hide HeapStep, OwnAnchors, Stranded, AllStranded, BlocksOf, Offers;
    NothingStrandedIff(states, calls, start, end);
    forall k | 0 <= k < |calls| ensures Reuses(states[k], calls[k]) ==> Offers(states[k], calls[k]) {
      ReuseOffers(states[k], calls[k]);
    }
    if k :| 0 <= k < |calls| && Offers(states[k], calls[k]) {
      OfferBranches(states, calls, start, end, k);
    }
    if RunMayStrand(states, calls, start, end) {
      var k: nat, states', calls' :|
        Branches(states, calls, k, states', calls', start, end) && AllStranded(states', calls') != {};
      var j := BranchOffers(states, calls, start, end, k, states', calls');
    }
  }

  lemma {:induction false} OfferBranches(states: seq<State>, calls: seq<Call>, start: nat, end: nat, k: nat)
    requires Run(states, calls, start, end) && states[0].rdargs == map[] && OwnAnchors(states, calls, start, end)
    requires k < |calls| && Offers(states[k], calls[k])
    ensures RunMayStrand(states, calls, start, end)
  {
    hide HeapStep, OwnAnchors, Stranded, AllStranded, BlocksOf, Accounted, Settled;
    var kept := calls[..k];
    Prefix(states, calls, start, end, k);
    MayStrandIff(states[0].live, states[k], AllStranded(states[..k + 1], kept), calls[k], start, end);
    var s', anchor :|
      && HeapStep(states[k], s', Succeeding(calls[k], anchor), start, end)
      && Stranded(states[k], Succeeding(calls[k], anchor)) != {};
    var states', calls' := states[..k + 1] + [s'], kept + [Succeeding(calls[k], anchor)];
    assert states'[..k + 1] == states[..k + 1] && calls'[..k] == calls[..k];
    forall i | 0 <= i < |calls'| ensures HeapStep(states'[i], states'[i + 1], calls'[i], start, end) {
      if i < k { assert HeapStep(states[i], states[i + 1], calls[i], start, end); }
    }
    assert Stranded(states'[k], calls'[k]) != {};
    StrandedIff(states', calls');
    assert Branches(states, calls, k, states', calls', start, end);
  }

  lemma {:induction false} BranchOffers(states: seq<State>, calls: seq<Call>, start: nat, end: nat, k: nat,
                                        states': seq<State>, calls': seq<Call>) returns (j: nat)
    requires Run(states, calls, start, end) && states[0].rdargs == map[] && OwnAnchors(states, calls, start, end)
    requires Branches(states, calls, k, states', calls', start, end) && AllStranded(states', calls') != {}
    ensures j < |calls| && Offers(states[j], calls[j])
  {
    hide HeapStep, OwnAnchors, Stranded, AllStranded, BlocksOf, Accounted, Settled, Offers;
    StrandedIff(states', calls');
    j :| 0 <= j < |calls'| && Stranded(states'[j], calls'[j]) != {};
    assert states'[j] == states'[..k + 1][j] == states[j];
    Prefix(states, calls, start, end, j);
    if j < k {
      assert calls'[j] == calls'[..k][j] == calls[j];
      StrandsIff(states, calls, start, end, j);
      ReuseOffers(states[j], calls[j]);
    } else {
      MayStrandIff(states[0].live, states[k], AllStranded(states[..k + 1], calls[..k]), calls[k], start, end);
      assert HeapStep(states'[k], states'[k + 1], calls'[k], start, end);
    }
  }

  lemma ReuseOffers(s: State, call: Call)
    ensures Reuses(s, call) <==> Offers(s, call) && call.code == 0
  {
  }

  /** Two reads that succeed with the caller's anchor 1000 and one free: the first read's block
      16 stays live and no record is left. */
  lemma {:induction false} StrandingRun()
    ensures var taken: Records := map[1000 := RdArgs([16], false)];
            var again: Records := map[1000 := RdArgs([], false)];
            var live: Blocks := map[16 := 4];
            var states := [State(map[], map[]), State(live, taken), State(live, again), State(live, map[])];
            var calls := [ReadCall(1000, 0, 1000), ReadCall(1000, 0, 1000), FreeCall(1000)];
            && Run(states, calls, 4, 100) && OwnAnchors(states, calls, 4, 100)
            && AllStranded(states, calls) == {16}
  {
    var taken: Records := map[1000 := RdArgs([16], false)];
    var again: Records := map[1000 := RdArgs([], false)];
    var live: Blocks := map[16 := 4];
    var states := [State(map[], map[]), State(live, taken), State(live, again), State(live, map[])];
    var calls := [ReadCall(1000, 0, 1000), ReadCall(1000, 0, 1000), FreeCall(1000)];
    var one: seq<nat> := [16];
    var none: seq<nat> := [];
    assert one + [] == one && none + [] == none;
    assert HeapStep(states[0], states[1], calls[0], 4, 100);
    assert HeapStep(states[1], states[2], calls[1], 4, 100);
    assert again - {1000} == map[] && live - {} == live;
    assert HeapStep(states[2], states[3], calls[2], 4, 100);
    RunAccounts(states, calls, 4, 100);
    NoneRecorded();
  }

  lemma NoneRecorded()
    ensures Recorded(map[]) == {}
  {
  }
}
