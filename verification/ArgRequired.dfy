// Which required slots a line leaves unfilled.

module ArgRequired {
  import opened Guest
  import opened ArgReader
  import opened ArgMatch
  import opened ArgTokens
  import opened ArgBorrow
  import opened ArgStores
  import opened ArgDelivery
  import opened ArgNumbers

  /** After borrowing: each of the first n wanting slots has a value, the /M slot has n fewer,
      and every other slot is as it was. */
  ghost predicate Lent(t: Template, slots: Slots, r: Slots, m: nat, w: seq<nat>, n: nat)
    requires m < |t| == |slots| == |r| && n <= |w| && n <= |slots[m].multi| && Increasing(w, m + 1, |t|)
  {
    && |r[m].multi| == |slots[m].multi| - n
    && (forall k :: 0 <= k < n ==> AlreadyFilled(t[w[k]], r[w[k]]))
    && (forall i :: 0 <= i < |t| && i != m && !AmongFirst(w, n, i) ==> r[i] == slots[i])
  }

  lemma LendingFills(t: Template, slots: Slots, m: nat, i: nat)
    requires m < i < |t| == |slots| && Borrows(t, slots, m, i) && Lending(t, slots, m, i).Some?
    ensures var next := Lending(t, slots, m, i).value;
            && AlreadyFilled(t[i], next[i]) && |next[m].multi| == |slots[m].multi| - 1
            && forall x :: 0 <= x < |t| && x != m && x != i ==> next[x] == slots[x]
  {
    hide ParseNumber;
  }

  lemma {:induction false} BorrowFills(t: Template, slots: Slots, m: nat, i: nat)
    requires m < i <= |t| == |slots| && BorrowFrom(t, slots, m, i).Some?
    ensures Increasing(Wanting(t, slots, i), m + 1, |t|)
    ensures var w := Wanting(t, slots, i);
            Lent(t, slots, BorrowFrom(t, slots, m, i).value, m, w, Min(|w|, |slots[m].multi|))
    decreases |t| - i
  {
    hide Lending, AlreadyFilled, StoreBorrowed, Lent, Increasing;
    IncreasingWider(Wanting(t, slots, i), m + 1, i, |t|);
    if i == |t| {
      LentNone(t, slots, m, []);
    } else if Borrows(t, slots, m, i) {
      LendingMoves(t, slots, m, i);
      LendingFills(t, slots, m, i);
      var next := Lending(t, slots, m, i).value;
      var w := Wanting(t, slots, i + 1);
      WantingSame(t, slots, next, i + 1);
      BorrowFills(t, next, m, i + 1);
      LentMore(t, slots, next, BorrowFrom(t, slots, m, i).value, m, i, w, Min(|w|, |next[m].multi|));
    } else {
      BorrowFills(t, slots, m, i + 1);
      if slots[m].multi == [] {
        LentOther(t, slots, BorrowFrom(t, slots, m, i).value, m, Wanting(t, slots, i + 1), Wanting(t, slots, i));
      }
    }
  }

  lemma LentNone(t: Template, slots: Slots, m: nat, w: seq<nat>)
    requires m < |t| == |slots| && Increasing(w, m + 1, |t|)
    ensures Lent(t, slots, slots, m, w, 0)
  {
  }

  lemma LentOther(t: Template, slots: Slots, r: Slots, m: nat, w: seq<nat>, w': seq<nat>)
    requires m < |t| == |slots| == |r| && Increasing(w, m + 1, |t|) && Increasing(w', m + 1, |t|)
    requires Lent(t, slots, r, m, w, 0)
    ensures Lent(t, slots, r, m, w', 0)
  {
    assert forall i :: !AmongFirst(w, 0, i);
  }

  lemma LentMore(t: Template, slots: Slots, next: Slots, r: Slots, m: nat, i: nat, w: seq<nat>, n: nat)
    requires m < i < |t| == |slots| == |next| == |r| && slots[m].multi != []
    requires Increasing(w, i + 1, |t|) && Increasing([i] + w, m + 1, |t|) && Increasing(w, m + 1, |t|)
    requires n <= |w| && n <= |next[m].multi| == |slots[m].multi| - 1 && AlreadyFilled(t[i], next[i])
    requires forall x :: 0 <= x < |t| && x != m && x != i ==> next[x] == slots[x]
    requires Lent(t, next, r, m, w, n)
    ensures Lent(t, slots, r, m, [i] + w, n + 1)
  {
    hide AlreadyFilled, AmongFirst;
    LentMoreFilled(t, next, r, m, i, w, n);
    forall x | 0 <= x < |t| && x != m && !AmongFirst([i] + w, n + 1, x) ensures r[x] == slots[x] {
      AmongFirstShift(w, n, i, x);
    }
  }

  lemma LentMoreFilled(t: Template, next: Slots, r: Slots, m: nat, i: nat, w: seq<nat>, n: nat)
    requires m < i < |t| == |next| == |r| && n <= |w| && n <= |next[m].multi|
    requires Increasing(w, i + 1, |t|) && Increasing(w, m + 1, |t|) && AlreadyFilled(t[i], next[i])
    requires Lent(t, next, r, m, w, n)
    ensures forall k :: 0 <= k < n + 1 ==> ([i] + w)[k] < |t| && AlreadyFilled(t[([i] + w)[k]], r[([i] + w)[k]])
  {
    hide AlreadyFilled;
    assert !AmongFirst(w, n, i);
    assert r[i] == next[i];
  }

  // --- The whole line ---

  /** Slot i is among those that borrow. */
  ghost predicate Borrower(t: Template, puts: seq<Put>, i: nat) {
    var m := MultiIndex(t);
    m.Some? && AmongFirst(Unmet(t, puts, m.value + 1), Borrowing(t, puts, m.value), i)
  }

  /** How many values are left in slot i. */
  ghost function Remaining(t: Template, puts: seq<Put>, i: nat): int {
    var m := MultiIndex(t);
    |Texts(puts, i)| - if m == Some(i) then Borrowing(t, puts, i) else 0
  }

  /** The line leaves the required slot i without a value: a /M slot that everything is
      borrowed from or nothing is put into, or another slot but a flag that nothing is put
      into and that does not borrow. */
  ghost predicate Missing(t: Template, puts: seq<Put>, i: nat)
    requires i < |t|
  {
    t[i].required && !t[i].IsFlag()
    && if t[i].kind == Multi then Remaining(t, puts, i) == 0 else Texts(puts, i) == [] && !Borrower(t, puts, i)
  }

  lemma FilledIsAlready(arg: TemplateArg, slot: Slot)
    requires arg.kind != Multi && !arg.IsFlag()
    ensures Filled(arg, slot) <==> AlreadyFilled(arg, slot)
  {
  }

  /** Without /F, a line fails with ERROR_REQUIRED_ARG_MISSING if and only if the loop gets
      through, no bad number is borrowed, and some required slot is left without a value. */
  lemma {:induction false} RequiredIff(t: Template, buf: Bytes, pos: nat)
    requires pos <= |buf| && FreeOfRest(t) && Loop(t, buf, pos, Blank(t), 0).Matched?
    ensures var puts := LinePuts(t, buf, pos);
            var r := MatchArgs(t, buf, pos);
            && (r.Refused? && r.error == ERROR_REQUIRED_ARG_MISSING <==>
                  !LendsBad(t, puts) && exists i :: 0 <= i < |t| && Missing(t, puts, i))
            && (r.Matched? <==> !LendsBad(t, puts) && forall i :: 0 <= i < |t| ==> !Missing(t, puts, i))
  {
    hide Loop, Missing, LinePuts, BorrowFrom, MultiIndex, FreeOfRest, LendsBad;
    var puts := LinePuts(t, buf, pos);
    var slots := Loop(t, buf, pos, Blank(t), 0).slots;
    BorrowedOnLine(t, buf, pos);
    var m := MultiIndex(t);
    var borrowed := if m.Some? then BorrowFrom(t, slots, m.value, m.value + 1) else Some(slots);
    if borrowed.Some? {
      forall i | 0 <= i < |t| && t[i].required ensures Filled(t[i], borrowed.value[i]) <==> !Missing(t, puts, i) {
        MissingIs(t, buf, pos, borrowed.value, i);
      }
      forall i | 0 <= i < |t| && Missing(t, puts, i) ensures t[i].required { MissingRequired(t, puts, i); }
    }
  }

  lemma MissingRequired(t: Template, puts: seq<Put>, i: nat)
    requires i < |t| && Missing(t, puts, i)
    ensures t[i].required
  {
  }

  lemma {:induction false} BorrowedOnLine(t: Template, buf: Bytes, pos: nat)
    requires pos <= |buf| && FreeOfRest(t) && Loop(t, buf, pos, Blank(t), 0).Matched?
    ensures var m := MultiIndex(t);
            LendsBad(t, LinePuts(t, buf, pos)) <==>
            m.Some? && BorrowFrom(t, Loop(t, buf, pos, Blank(t), 0).slots, m.value, m.value + 1).None?
  {
    hide Loop, LinePuts, BorrowFrom, MultiIndex, FreeOfRest, Unmet, BadLoan, Texts;
    if MultiIndex(t).Some? { LoanOnLine(t, buf, pos, MultiIndex(t).value); }
  }

  lemma {:induction false} MissingIs(t: Template, buf: Bytes, pos: nat, r: Slots, i: nat)
    requires pos <= |buf| && FreeOfRest(t) && Loop(t, buf, pos, Blank(t), 0).Matched?
    requires var slots := Loop(t, buf, pos, Blank(t), 0).slots;
             var m := MultiIndex(t);
             Some(r) == if m.Some? then BorrowFrom(t, slots, m.value, m.value + 1) else Some(slots)
    requires i < |t| == |r| && t[i].required
    ensures Filled(t[i], r[i]) <==> !Missing(t, LinePuts(t, buf, pos), i)
  {
    hide Loop, Puts, Tokens, Texts, HoldsLast, Unmet, BorrowFrom, MultiIndex, Closed, FreeOfRest, Filled, AlreadyFilled,
         AmongFirst, Lent, Wanting;
    var puts := LinePuts(t, buf, pos);
    var slots := Loop(t, buf, pos, Blank(t), 0).slots;
    NothingLostIff(t, buf, pos);
    NoFlagPut(t, Tokens(buf, pos), 0);
    forall k | 0 <= k < |t| && t[k].IsFlag() ensures Texts(puts, k) == [] { TextsNone(puts, k); }
    FilledIfPut(t[i].kind, slots[i], Texts(puts, i), t[i]);
    FlagFilled(t[i], r[i]);
    if MultiIndex(t).Some? {
      var m := MultiIndex(t).value;
      UnmetWants(t, slots, puts, m + 1);
      FilledIfPut(t[m].kind, slots[m], Texts(puts, m), t[m]);
      BorrowFills(t, slots, m, m + 1);
      LentSlot(t, slots, r, m, Unmet(t, puts, m + 1), Borrowing(t, puts, m), i);
      MultiNeverBorrows(t, puts, m + 1, Borrowing(t, puts, m), i);
    }
    MultiFilled(t[i], r[i]);
    if t[i].kind != Multi && !t[i].IsFlag() { FilledIsAlready(t[i], r[i]); }
  }

  lemma {:induction false} UnmetNotMulti(t: Template, puts: seq<Put>, i: nat)
    requires i <= |t|
    ensures forall k :: 0 <= k < |Unmet(t, puts, i)| ==> t[Unmet(t, puts, i)[k]].kind != Multi
    decreases |t| - i
  {
    hide Texts;
    if i < |t| { UnmetNotMulti(t, puts, i + 1); }
  }

  lemma {:induction false} MultiNeverBorrows(t: Template, puts: seq<Put>, from: nat, n: nat, i: nat)
    requires from <= |t| && n <= |Unmet(t, puts, from)| && i < |t|
    ensures AmongFirst(Unmet(t, puts, from), n, i) ==> t[i].kind != Multi
  {
    hide Unmet;
    UnmetNotMulti(t, puts, from);
  }

  lemma FlagFilled(arg: TemplateArg, slot: Slot)
    ensures arg.IsFlag() ==> Filled(arg, slot)
  {
  }

  lemma MultiFilled(arg: TemplateArg, slot: Slot)
    ensures arg.kind == Multi ==> (Filled(arg, slot) <==> |slot.multi| > 0)
  {
  }

  lemma LentSlot(t: Template, slots: Slots, r: Slots, m: nat, w: seq<nat>, n: nat, i: nat)
    requires m < |t| == |slots| == |r| && n <= |w| && n <= |slots[m].multi| && Increasing(w, m + 1, |t|)
    requires Lent(t, slots, r, m, w, n) && i < |t|
    ensures i == m ==> |r[i].multi| == |slots[i].multi| - n && !AmongFirst(w, n, i)
    ensures AmongFirst(w, n, i) ==> AlreadyFilled(t[i], r[i])
    ensures i != m && !AmongFirst(w, n, i) ==> r[i] == slots[i]
  {
    hide AlreadyFilled;
    if AmongFirst(w, n, i) {
      var k :| 0 <= k < n && w[k] == i;
      assert AlreadyFilled(t[w[k]], r[w[k]]);
    }
  }
}
