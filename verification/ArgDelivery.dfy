// How many of a line's values the result array leads to in the end, and where the others
// are lost.

module ArgDelivery {
  import opened Guest
  import opened ArgReader
  import opened ArgMatch
  import opened ArgTokens
  import opened ArgBorrow
  import opened ArgStores

  /** How many values the array's entry for a slot leads to.  A flag's entry is its flag, so
      a text that got into the slot is not among them. */
  function Shown(kind: ArgKind, slot: Slot): nat {
    match kind
    case Switch => 0
    case Toggle => 0
    case Multi => |slot.multi|
    case Number => if slot.num.Some? then 1 else 0
    case _ => if slot.str.Some? then 1 else 0
  }

  /** Of the first n slots. */
  function AllShown(t: Template, slots: Slots, n: nat): nat
    requires n <= |t| == |slots|
  {
    if n == 0 then 0 else AllShown(t, slots, n - 1) + Shown(t[n - 1].kind, slots[n - 1])
  }

  /** How many values a slot had to give up for a later one. */
  function Replaced(kind: ArgKind, texts: seq<Bytes>): nat {
    if kind == Multi || texts == [] then 0 else |texts| - 1
  }

  function AllReplaced(t: Template, puts: seq<Put>, n: nat): nat
    requires n <= |t|
  {
    if n == 0 then 0 else AllReplaced(t, puts, n - 1) + Replaced(t[n - 1].kind, Texts(puts, n - 1))
  }

  /** The required slots from i on that the line puts nothing into, other than a /M slot. */
  function Unmet(t: Template, puts: seq<Put>, i: nat): (w: seq<nat>)
    requires i <= |t|
    ensures Increasing(w, i, |t|)
    decreases |t| - i
  {
    if i == |t| then []
    else if t[i].required && t[i].kind != Multi && Texts(puts, i) == [] then [i] + Unmet(t, puts, i + 1)
    else Unmet(t, puts, i + 1)
  }

  /** How many of the first n slots of `w` are flags. */
  function FlagsIn(t: Template, w: seq<nat>, n: nat): nat
    requires n <= |w| && forall k :: 0 <= k < |w| ==> w[k] < |t|
  {
    if n == 0 then 0 else (if t[w[0]].IsFlag() then 1 else 0) + FlagsIn(t, w[1..], n - 1)
  }

  /** The slots that borrow, and how many values flags take from the /M slot. */
  function Borrowing(t: Template, puts: seq<Put>, m: nat): nat
    requires m < |t|
  {
    Min(|Unmet(t, puts, m + 1)|, |Texts(puts, m)|)
  }

  function Stolen(t: Template, puts: seq<Put>): nat {
    match MultiIndex(t)
    case None => 0
    case Some(m) => FlagsIn(t, Unmet(t, puts, m + 1), Borrowing(t, puts, m))
  }

  // --- What the matching loop leaves ---

  function TextsTotal(puts: seq<Put>, n: nat): nat {
    if n == 0 then 0 else TextsTotal(puts, n - 1) + |Texts(puts, n - 1)|
  }

  lemma {:induction false} TotalStep(first: Put, rest: seq<Put>, n: nat)
    ensures TextsTotal([first] + rest, n) == TextsTotal(rest, n) + if first.slot < n then 1 else 0
  {
    hide Texts;
    if n > 0 {
      TotalStep(first, rest, n - 1);
      TextsStep(first, rest, n - 1);
    }
  }

  /** Every value goes into one slot. */
  lemma {:induction false} TotalIsAll(puts: seq<Put>, n: nat)
    requires forall p <- puts :: p.slot < n
    ensures TextsTotal(puts, n) == |puts|
  {
    hide TextsTotal;
    if puts == [] {
      TotalNone(n);
    } else {
      var first, rest := puts[0], puts[1..];
      assert first in puts && forall p <- rest :: p in puts;
      assert puts == [first] + rest;
      TotalIsAll(rest, n);
      TotalStep(first, rest, n);
    }
  }

  lemma {:induction false} TotalNone(n: nat)
    ensures TextsTotal([], n) == 0
  {
    if n > 0 { TotalNone(n - 1); }
  }

  lemma {:induction false} NoFlagPut(t: Template, items: seq<Item>, cursor: nat)
    requires Closed(items)
    ensures forall p <- Puts(t, items, cursor) :: !t[p.slot].IsFlag()
    decreases |items|
  {
    hide Used, HeadPut, CursorAfter, TooMany;
    var item := items[0];
    if item.kind == Equal {
      NoFlagPut(t, items[1..], cursor);
    } else if item.kind != Nothing && item.kind != Error {
      HeadNoFlag(t, items, cursor);
      var used := Used(t, items);
      if used < |items| { NoFlagPut(t, items[used..], CursorAfter(t, item, cursor)); }
    }
  }

  lemma HeadNoFlag(t: Template, items: seq<Item>, cursor: nat)
    requires Closed(items) && items[0].kind != Nothing
    ensures forall p <- HeadPut(t, items, cursor) :: !t[p.slot].IsFlag()
  {
    hide Used, KeywordOf, Closed;
    var positional := Positionals(t, |t|);
    if cursor < |positional| { assert positional[cursor] in positional; }
  }

  lemma {:induction false} TextsNone(puts: seq<Put>, i: nat)
    requires forall p <- puts :: p.slot != i
    ensures Texts(puts, i) == []
  {
    if puts != [] {
      assert puts[0] in puts && forall p <- puts[1..] :: p in puts;
      TextsNone(puts[1..], i);
    }
  }

  lemma ShownOrReplaced(kind: ArgKind, slot: Slot, texts: seq<Bytes>)
    requires HoldsLast(kind, EMPTY, slot, texts)
    requires kind == Switch || kind == Toggle ==> texts == []
    ensures |texts| == Shown(kind, slot) + Replaced(kind, texts)
  {
    hide ParseNumber;
    assert [] + texts == texts;
  }

  /** After the loop a value is in its slot or replaced there. */
  lemma {:induction false} LoopShows(t: Template, slots: Slots, puts: seq<Put>, n: nat)
    requires n <= |t| == |slots|
    requires forall i :: 0 <= i < |t| ==> HoldsLast(t[i].kind, EMPTY, slots[i], Texts(puts, i))
    requires forall i :: 0 <= i < |t| && t[i].IsFlag() ==> Texts(puts, i) == []
    ensures TextsTotal(puts, n) == AllShown(t, slots, n) + AllReplaced(t, puts, n)
  {
    hide HoldsLast, Texts, Shown, Replaced;
    if n > 0 {
      LoopShows(t, slots, puts, n - 1);
      ShownOrReplaced(t[n - 1].kind, slots[n - 1], Texts(puts, n - 1));
    }
  }

  // --- What borrowing changes ---

  lemma {:induction false} ShownAt(t: Template, slots: Slots, i: nat, slot: Slot, n: nat)
    requires n <= |t| == |slots| && i < |t|
    ensures AllShown(t, slots[i := slot], n) + (if i < n then Shown(t[i].kind, slots[i]) else 0)
         == AllShown(t, slots, n) + (if i < n then Shown(t[i].kind, slot) else 0)
  {
    hide Shown;
    if n > 0 { ShownAt(t, slots, i, slot, n - 1); }
  }

  /** The slots after one slot has borrowed. */
  function Lending(t: Template, slots: Slots, m: nat, i: nat): (r: Option<Slots>)
    requires m < i < |t| == |slots| && slots[m].multi != []
    ensures r.Some? ==> |r.value| == |t|
  {
    var multi := slots[m].multi;
    var slot := StoreBorrowed(t[i].kind, slots[i], multi[|multi| - 1]);
    if slot.None? then None
    else Some(slots[m := slots[m].(multi := multi[..|multi| - 1])][i := slot.value])
  }

  lemma LendingMoves(t: Template, slots: Slots, m: nat, i: nat)
    requires m < i < |t| == |slots| && Borrows(t, slots, m, i)
    ensures BorrowFrom(t, slots, m, i)
         == match Lending(t, slots, m, i) case None => None case Some(next) => BorrowFrom(t, next, m, i + 1)
    ensures Lending(t, slots, m, i).Some? ==>
              var next := Lending(t, slots, m, i).value;
              |next[m].multi| == |slots[m].multi| - 1 && forall k :: i < k < |t| ==> next[k] == slots[k]
  {
    hide ParseNumber;
  }

  /** One value leaves the /M slot, and is shown where it goes unless that is a flag. */
  lemma {:induction false} LendingShows(t: Template, slots: Slots, m: nat, i: nat)
    requires m < i < |t| == |slots| && t[m].kind == Multi && Borrows(t, slots, m, i)
    requires Lending(t, slots, m, i).Some?
    ensures AllShown(t, slots, |t|)
         == AllShown(t, Lending(t, slots, m, i).value, |t|) + if t[i].IsFlag() then 1 else 0
  {
    hide ParseNumber, AllShown;
    var multi := slots[m].multi;
    var less := slots[m].(multi := multi[..|multi| - 1]);
    var slot := StoreBorrowed(t[i].kind, slots[i], multi[|multi| - 1]).value;
    ShownAt(t, slots, m, less, |t|);
    ShownAt(t, slots[m := less], i, slot, |t|);
    assert Shown(t[m].kind, slots[m]) == Shown(t[m].kind, less) + 1;
    assert Shown(t[i].kind, slots[i]) == 0;
    assert Shown(t[i].kind, slot) == if t[i].IsFlag() then 0 else 1;
  }

  lemma FlagsFirst(t: Template, i: nat, w: seq<nat>, n: nat)
    requires i < |t| && n <= |w| && forall k :: 0 <= k < |w| ==> w[k] < |t|
    ensures forall k :: 0 <= k < |[i] + w| ==> ([i] + w)[k] < |t|
    ensures FlagsIn(t, [i] + w, n + 1) == (if t[i].IsFlag() then 1 else 0) + FlagsIn(t, w, n)
  {
    assert ([i] + w)[1..] == w;
  }

  /** Of the values the /M slot gives up, all are shown but those that flags take. */
  lemma {:induction false} BorrowShows(t: Template, slots: Slots, m: nat, i: nat)
    requires m < i <= |t| == |slots| && t[m].kind == Multi && BorrowFrom(t, slots, m, i).Some?
    ensures var w := Wanting(t, slots, i);
            AllShown(t, slots, |t|)
            == AllShown(t, BorrowFrom(t, slots, m, i).value, |t|) + FlagsIn(t, w, Min(|w|, |slots[m].multi|))
    decreases |t| - i
  {
    hide Lending, AllShown, FlagsIn, AlreadyFilled, StoreBorrowed;
    if i == |t| {
      NoFlagsIn(t, []);
    } else if Borrows(t, slots, m, i) {
      LendingMoves(t, slots, m, i);
      LendingShows(t, slots, m, i);
      var next := Lending(t, slots, m, i).value;
      WantingSame(t, slots, next, i + 1);
      BorrowShows(t, next, m, i + 1);
      var w := Wanting(t, slots, i + 1);
      FlagsFirst(t, i, w, Min(|w|, |next[m].multi|));
    } else {
      BorrowShows(t, slots, m, i + 1);
      if slots[m].multi == [] {
        NoFlagsIn(t, Wanting(t, slots, i));
        NoFlagsIn(t, Wanting(t, slots, i + 1));
      }
    }
  }

  lemma {:induction false} NoFlagsIn(t: Template, w: seq<nat>)
    requires forall k :: 0 <= k < |w| ==> w[k] < |t|
    ensures FlagsIn(t, w, 0) == 0
  {
  }

  /** A slot wants a value after the loop if it is required and the line puts nothing there. */
  lemma {:induction false} UnmetWants(t: Template, slots: Slots, puts: seq<Put>, i: nat)
    requires i <= |t| == |slots|
    requires forall k :: 0 <= k < |t| ==> HoldsLast(t[k].kind, EMPTY, slots[k], Texts(puts, k))
    requires forall k :: 0 <= k < |t| && t[k].IsFlag() ==> Texts(puts, k) == []
    ensures Wanting(t, slots, i) == Unmet(t, puts, i)
    decreases |t| - i
  {
    hide HoldsLast, Texts, AlreadyFilled;
    if i < |t| {
      UnmetWants(t, slots, puts, i + 1);
      FilledIfPut(t[i].kind, slots[i], Texts(puts, i), t[i]);
    }
  }

  lemma FilledIfPut(kind: ArgKind, slot: Slot, texts: seq<Bytes>, arg: TemplateArg)
    requires HoldsLast(kind, EMPTY, slot, texts) && arg.kind == kind
    ensures kind != Multi ==> (AlreadyFilled(arg, slot) <==> texts != [])
    ensures kind == Multi ==> slot.multi == texts
  {
    hide ParseNumber;
    assert [] + texts == texts;
  }

  // --- The whole line ---

  /** Without /F, every value of a line that matches is in the result array, or was replaced
      by a later value for its slot, or was taken from the /M slot by a required flag. */
  lemma {:induction false} ValuesAccounted(t: Template, buf: Bytes, pos: nat)
    requires pos <= |buf| && FreeOfRest(t) && MatchArgs(t, buf, pos).Matched?
    ensures |MatchArgs(t, buf, pos).slots| == |t|
    ensures var puts := LinePuts(t, buf, pos);
            |puts| == AllShown(t, MatchArgs(t, buf, pos).slots, |t|) + AllReplaced(t, puts, |t|) + Stolen(t, puts)
  {
    hide Loop, Puts, Tokens, Texts, HoldsLast, AllShown, AllReplaced, Unmet, FlagsIn, BorrowFrom, AllFilled, Wanting,
         MultiIndex, Closed, FreeOfRest, TextsTotal;
    NothingLostIff(t, buf, pos);
    var puts := LinePuts(t, buf, pos);
    var slots := Loop(t, buf, pos, Blank(t), 0).slots;
    NoFlagPut(t, Tokens(buf, pos), 0);
    forall i | 0 <= i < |t| && t[i].IsFlag() ensures Texts(puts, i) == [] { TextsNone(puts, i); }
    TotalIsAll(puts, |t|);
    LoopShows(t, slots, puts, |t|);
    if MultiIndex(t).Some? {
      var m := MultiIndex(t).value;
      BorrowShows(t, slots, m, m + 1);
      UnmetWants(t, slots, puts, m + 1);
      FilledIfPut(t[m].kind, slots[m], Texts(puts, m), t[m]);
    }
  }

  /** No required flag is among the slots that borrow. */
  ghost predicate NoFlagBorrows(t: Template, puts: seq<Put>) {
    var m := MultiIndex(t);
    m.Some? ==>
      var w := Unmet(t, puts, m.value + 1);
      forall k :: 0 <= k < Borrowing(t, puts, m.value) ==> !t[w[k]].IsFlag()
  }

  lemma {:induction false} NoneFlags(t: Template, w: seq<nat>, n: nat)
    requires n <= |w| && forall k :: 0 <= k < |w| ==> w[k] < |t|
    ensures FlagsIn(t, w, n) == 0 <==> forall k :: 0 <= k < n ==> !t[w[k]].IsFlag()
    decreases n
  {
    if n > 0 {
      NoneFlags(t, w[1..], n - 1);
      assert forall k :: 0 <= k < n - 1 ==> w[1..][k] == w[k + 1];
      assert forall k :: 0 < k < n ==> w[k] == w[1..][k - 1];
    }
  }

  lemma {:induction false} NoneReplaced(t: Template, puts: seq<Put>, n: nat)
    requires n <= |t|
    ensures AllReplaced(t, puts, n) == 0 <==>
              forall i :: 0 <= i < n && t[i].kind != Multi ==> |Texts(puts, i)| <= 1
  {
    hide Texts;
    if n > 0 { NoneReplaced(t, puts, n - 1); }
  }

  /** The result array leads to as many values as the line puts if and only if no slot other
      than the /M slot is put into twice and no required flag borrows.  Both can be read off
      the items of the line and the template. */
  lemma {:induction false} AllDeliveredIff(t: Template, buf: Bytes, pos: nat)
    requires pos <= |buf| && FreeOfRest(t) && MatchArgs(t, buf, pos).Matched?
    ensures |MatchArgs(t, buf, pos).slots| == |t|
    ensures var puts := LinePuts(t, buf, pos);
            AllShown(t, MatchArgs(t, buf, pos).slots, |t|) == |puts| <==> PutOnce(t, puts) && NoFlagBorrows(t, puts)
  {
    hide MatchArgs, LinePuts, Texts, AllShown, AllReplaced, Unmet, FlagsIn, MultiIndex, FreeOfRest;
    var puts := LinePuts(t, buf, pos);
    ValuesAccounted(t, buf, pos);
    NoneReplaced(t, puts, |t|);
    if MultiIndex(t).Some? {
      var m := MultiIndex(t).value;
      NoneFlags(t, Unmet(t, puts, m + 1), Borrowing(t, puts, m));
    }
  }
}
