// Required slots after the /M slot are filled from the end of its list.

module ArgBorrow {
  import opened Guest
  import opened ArgReader
  import opened ArgMatch
  import opened ArgTokens

  /** Slot numbers in increasing order, all of them from lo to hi-1. */
  predicate Increasing(w: seq<nat>, lo: nat, hi: nat) {
    && (forall a :: 0 <= a < |w| ==> lo <= w[a] < hi)
    && (forall a, b :: 0 <= a < b < |w| ==> w[a] < w[b])
  }

  predicate Wants(arg: TemplateArg, slot: Slot) {
    arg.required && arg.kind != Multi && !AlreadyFilled(arg, slot)
  }

  /** The slots from i on that are required, not /M and still unfilled, in template order. */
  function Wanting(t: Template, slots: Slots, i: nat): (w: seq<nat>)
    requires i <= |t| == |slots|
    ensures Increasing(w, i, |t|)
    decreases |t| - i
  {
    if i == |t| then []
    else if Wants(t[i], slots[i]) then [i] + Wanting(t, slots, i + 1)
    else Wanting(t, slots, i + 1)
  }

  predicate NoNumberWants(t: Template, slots: Slots, i: nat)
    requires i <= |t| == |slots|
  {
    forall k :: i <= k < |t| && Wants(t[k], slots[k]) ==> t[k].kind != Number
  }

  lemma {:induction false} WantingSame(t: Template, slots: Slots, slots': Slots, i: nat)
    requires i <= |t| == |slots| == |slots'|
    requires forall k :: i <= k < |t| ==> slots[k] == slots'[k]
    ensures Wanting(t, slots, i) == Wanting(t, slots', i)
    decreases |t| - i
  {
    if i < |t| { WantingSame(t, slots, slots', i + 1); }
  }

  predicate AmongFirst(w: seq<nat>, n: nat, i: nat)
    requires n <= |w|
  {
    exists k :: 0 <= k < n && w[k] == i
  }

  /** `slots'` is `slots` after the first n slots of `w` have each taken, in turn, the
      last value of the /M slot m. */
  ghost predicate Lent(slots: Slots, slots': Slots, m: nat, w: seq<nat>, n: nat)
    requires m < |slots| == |slots'| && n <= |w| && n <= |slots[m].multi|
    requires Increasing(w, m + 1, |slots|)
  {
    var multi := slots[m].multi;
    && slots'[m] == slots[m].(multi := multi[..|multi| - n])
    && (forall k :: 0 <= k < n ==> slots'[w[k]] == slots[w[k]].(str := Some(multi[|multi| - 1 - k])))
    && (forall i :: 0 <= i < |slots| && i != m && !AmongFirst(w, n, i) ==> slots'[i] == slots[i])
  }

  /** As long as there are values and slots that want one, the next slot takes the last
      value; every other slot is left alone. */
  lemma {:induction false} BorrowLends(t: Template, slots: Slots, m: nat, i: nat)
    requires m < i <= |t| == |slots| && NoNumberWants(t, slots, i)
    ensures BorrowFrom(t, slots, m, i).Some?
    ensures var w := Wanting(t, slots, i);
            Lent(slots, BorrowFrom(t, slots, m, i).value, m, w, Min(|w|, |slots[m].multi|))
    decreases |t| - i
  {
    hide ParseNumber, Lent, Once, Increasing;
    if i == |t| {
      LentNothing(slots, m, []);
    } else if Borrows(t, slots, m, i) {
      var slots' := Once(slots, m, i);
      OnceList(slots, m, i);
      BorrowedOnce(t, slots, m, i);
      WantingSame(t, slots, slots', i + 1);
      BorrowLends(t, slots', m, i + 1);
      IncreasingFirst(i, Wanting(t, slots, i + 1), m + 1, |slots|);
      LentOnce(slots, BorrowFrom(t, slots', m, i + 1).value, m, i, Wanting(t, slots, i + 1));
    } else {
      BorrowLends(t, slots, m, i + 1);
      if slots[m].multi == [] {
        IncreasingWider(Wanting(t, slots, i + 1), m + 1, i + 1, |slots|);
        IncreasingWider(Wanting(t, slots, i), m + 1, i, |slots|);
        LentNone(slots, BorrowFrom(t, slots, m, i + 1).value, m, Wanting(t, slots, i + 1), Wanting(t, slots, i));
      }
    }
  }

  lemma BorrowedOnce(t: Template, slots: Slots, m: nat, i: nat)
    requires m < i < |t| == |slots| && Borrows(t, slots, m, i) && t[i].kind != Number
    ensures BorrowFrom(t, slots, m, i) == BorrowFrom(t, Once(slots, m, i), m, i + 1)
  {
    hide ParseNumber;
  }

  lemma LentNothing(slots: Slots, m: nat, w: seq<nat>)
    requires m < |slots| && Increasing(w, m + 1, |slots|)
    ensures Lent(slots, slots, m, w, 0)
  {
    assert slots[m].multi[..|slots[m].multi|] == slots[m].multi;
  }

  lemma LentNone(slots: Slots, slots': Slots, m: nat, w: seq<nat>, w': seq<nat>)
    requires m < |slots| == |slots'| && Increasing(w, m + 1, |slots|) && Increasing(w', m + 1, |slots|)
    requires Lent(slots, slots', m, w, 0)
    ensures Lent(slots, slots', m, w', 0)
  {
    assert forall i :: !AmongFirst(w, 0, i);
  }

  lemma AmongFirstShift(w: seq<nat>, n: nat, i: nat, x: nat)
    requires n <= |w|
    ensures AmongFirst([i] + w, n + 1, x) <==> x == i || AmongFirst(w, n, x)
  {
    if x == i {
      assert ([i] + w)[0] == x;
    } else if AmongFirst(w, n, x) {
      var k :| 0 <= k < n && w[k] == x;
      assert ([i] + w)[k + 1] == x;
    }
  }

  /** Slot i takes the last value. */
  function Once(slots: Slots, m: nat, i: nat): (r: Slots)
    requires m < i < |slots| && slots[m].multi != []
    ensures |r| == |slots|
  {
    var multi := slots[m].multi;
    slots[m := slots[m].(multi := multi[..|multi| - 1])][i := slots[i].(str := Some(multi[|multi| - 1]))]
  }

  lemma OnceList(slots: Slots, m: nat, i: nat)
    requires m < i < |slots| && slots[m].multi != []
    ensures var multi := slots[m].multi;
            && Once(slots, m, i)[m] == slots[m].(multi := multi[..|multi| - 1])
            && Once(slots, m, i)[i] == slots[i].(str := Some(multi[|multi| - 1]))
            && forall x :: 0 <= x < |slots| && x != m && x != i ==> Once(slots, m, i)[x] == slots[x]
  {
  }

  lemma IncreasingWider(w: seq<nat>, lo: nat, lo': nat, hi: nat)
    requires lo <= lo' && Increasing(w, lo', hi)
    ensures Increasing(w, lo, hi)
  {
  }

  lemma IncreasingFirst(i: nat, w: seq<nat>, lo: nat, hi: nat)
    requires lo <= i < hi && Increasing(w, i + 1, hi)
    ensures Increasing([i] + w, lo, hi) && Increasing(w, lo, hi)
  {
  }

  lemma LentOnce(slots: Slots, slots': Slots, m: nat, i: nat, w: seq<nat>)
    requires m < i < |slots| == |slots'| && slots[m].multi != []
    requires Increasing(w, i + 1, |slots|) && Increasing([i] + w, m + 1, |slots|) && Increasing(w, m + 1, |slots|)
    requires Lent(Once(slots, m, i), slots', m, w, Min(|w|, |slots[m].multi| - 1))
    ensures Lent(slots, slots', m, [i] + w, Min(|w| + 1, |slots[m].multi|))
  {
    hide AmongFirst, Once, Increasing;
    OnceList(slots, m, i);
    LentTaken(slots, slots', m, i, w, Min(|w|, |slots[m].multi| - 1));
    LentRest(slots, slots', m, i, w, Min(|w|, |slots[m].multi| - 1));
  }

  lemma LentTaken(slots: Slots, slots': Slots, m: nat, i: nat, w: seq<nat>, n: nat)
    requires m < i < |slots| == |slots'| && n < |slots[m].multi| && n <= |w|
    requires Increasing(w, i + 1, |slots|) && Increasing(w, m + 1, |slots|)
    requires Lent(Once(slots, m, i), slots', m, w, n)
    ensures var multi := slots[m].multi;
            forall k :: 0 <= k < n + 1 ==>
              0 <= ([i] + w)[k] < |slots|
              && slots'[([i] + w)[k]] == slots[([i] + w)[k]].(str := Some(multi[|multi| - 1 - k]))
  {
    hide Once;
    OnceList(slots, m, i);
    assert !AmongFirst(w, n, i);
    assert slots'[i] == Once(slots, m, i)[i];
  }

  lemma LentRest(slots: Slots, slots': Slots, m: nat, i: nat, w: seq<nat>, n: nat)
    requires m < i < |slots| == |slots'| && n < |slots[m].multi| && n <= |w|
    requires Increasing(w, m + 1, |slots|) && Lent(Once(slots, m, i), slots', m, w, n)
    ensures forall x :: 0 <= x < |slots| && x != m && !AmongFirst([i] + w, n + 1, x) ==> slots'[x] == slots[x]
  {
    hide AmongFirst, Once, Increasing;
    OnceList(slots, m, i);
    forall x | 0 <= x < |slots| && x != m && !AmongFirst([i] + w, n + 1, x) ensures slots'[x] == slots[x] {
      AmongFirstShift(w, n, i, x);
    }
  }

  function Reverse(s: seq<Bytes>): (r: seq<Bytes>)
    ensures |r| == |s| && forall i :: 0 <= i < |s| ==> r[i] == s[|s| - 1 - i]
  {
    if s == [] then [] else Reverse(s[1..]) + [s[0]]
  }

  /** What the first n slots of `w` hold. */
  function Taken(slots: Slots, w: seq<nat>, n: nat): (r: seq<Bytes>)
    requires n <= |w| && forall k :: 0 <= k < n ==> w[k] < |slots|
    ensures |r| == n
  {
    seq(n, k requires 0 <= k < n => match slots[w[k]].str case Some(text) => text case None => [])
  }

  /** No value is lost or made up: the list before borrowing is the list that remains,
      followed by the borrowed values in reverse template order. */
  lemma BorrowConserves(t: Template, slots: Slots, m: nat)
    requires m < |t| == |slots| && NoNumberWants(t, slots, m + 1)
    ensures var w := Wanting(t, slots, m + 1);
            var n := Min(|w|, |slots[m].multi|);
            var r := BorrowFrom(t, slots, m, m + 1);
            && r.Some?
            && (forall k :: 0 <= k < n ==> r.value[w[k]].str.Some?)
            && slots[m].multi == r.value[m].multi + Reverse(Taken(r.value, w, n))
  {
    hide BorrowFrom, Wanting, Lent, Reverse, Taken, Increasing, NoNumberWants;
    BorrowLends(t, slots, m, m + 1);
    var w := Wanting(t, slots, m + 1);
    LentConserves(slots, BorrowFrom(t, slots, m, m + 1).value, m, w, Min(|w|, |slots[m].multi|));
  }

  lemma LentConserves(slots: Slots, slots': Slots, m: nat, w: seq<nat>, n: nat)
    requires m < |slots| == |slots'| && n <= |w| && n <= |slots[m].multi| && Increasing(w, m + 1, |slots|)
    requires Lent(slots, slots', m, w, n)
    ensures forall k :: 0 <= k < n ==> w[k] < |slots'| && slots'[w[k]].str.Some?
    ensures slots[m].multi == slots'[m].multi + Reverse(Taken(slots', w, n))
  {
    hide Reverse, AmongFirst;
    var multi := slots[m].multi;
    LentTexts(slots, slots', m, w, n);
    assert Reverse(Taken(slots', w, n)) == multi[|multi| - n..];
  }

  lemma LentTexts(slots: Slots, slots': Slots, m: nat, w: seq<nat>, n: nat)
    requires m < |slots| == |slots'| && n <= |w| && n <= |slots[m].multi| && Increasing(w, m + 1, |slots|)
    requires Lent(slots, slots', m, w, n)
    ensures var multi := slots[m].multi;
            forall k :: 0 <= k < n ==> w[k] < |slots'| && Taken(slots', w, n)[k] == multi[|multi| - 1 - k]
  {
    hide AmongFirst;
  }

  // --- The classic template FROM/A/M,TO/A ---

  const FROM: Bytes := [70, 82, 79, 77]
  const TO: Bytes := [84, 79]

  const COPY: Template := [TemplateArg([FROM], Multi, false, true), TemplateArg([TO], Str, false, true)]

  /** Every item is a word that names no slot, or an `=`. */
  predicate PlainWords(items: seq<Item>) {
    forall i :: 0 <= i < |items| - 1 ==>
      items[i].kind == Equal
      || ((items[i].kind == Quoted || items[i].kind == Unquoted) && KeywordOf(COPY, items[i]).None?)
  }

  function Words(items: seq<Item>): seq<Bytes> {
    if |items| <= 1 then []
    else (if items[0].kind == Equal then [] else [items[0].text]) + Words(items[1..])
  }

  lemma {:induction false} CopyCollects(items: seq<Item>, slots: Slots)
    requires Closed(items) && PlainWords(items) && |slots| == 2
    ensures LoopItems(COPY, items, slots, 0)
         == Matched(slots[0 := slots[0].(multi := slots[0].multi + Words(items))], items[|items| - 1].end)
    decreases |items|
  {
    hide FindKeyword, TakeItems, Used, Words;
    WordsNone(items);
    if |items| == 1 {
      assert slots[0].multi + [] == slots[0].multi;
    } else if items[0].kind == Equal {
      CopyCollects(items[1..], slots);
      WordsSkip(items);
    } else {
      var slots' := slots[0 := slots[0].(multi := slots[0].multi + [items[0].text])];
      CopyTakes(items, slots);
      CopyCollects(items[1..], slots');
      WordsFirst(slots[0].multi, items);
      CopySlots(slots, items[0].text, Words(items[1..]));
    }
  }

  lemma {:induction false} WordsNone(items: seq<Item>)
    ensures |items| <= 1 ==> Words(items) == []
  {
  }

  lemma {:induction false} WordsSkip(items: seq<Item>)
    requires |items| > 1 && items[0].kind == Equal
    ensures Words(items) == Words(items[1..])
  {
  }

  lemma {:induction false} WordsFirst(before: seq<Bytes>, items: seq<Item>)
    requires |items| > 1 && items[0].kind != Equal
    ensures before + Words(items) == before + [items[0].text] + Words(items[1..])
  {
  }

  lemma CopySlots(slots: Slots, text: Bytes, more: seq<Bytes>)
    requires |slots| == 2
    ensures var slots' := slots[0 := slots[0].(multi := slots[0].multi + [text])];
            slots'[0 := slots'[0].(multi := slots'[0].multi + more)]
            == slots[0 := slots[0].(multi := slots[0].multi + [text] + more)]
  {
  }

  /** A word goes behind the others. */
  lemma CopyTakes(items: seq<Item>, slots: Slots)
    requires Closed(items) && |slots| == 2 && |items| > 1 && KeywordOf(COPY, items[0]).None?
    ensures Used(COPY, items) == 1
    ensures TakeItems(COPY, items, slots, 0)
         == Go(slots[0 := slots[0].(multi := slots[0].multi + [items[0].text])], 0, items[0].end)
  {
    hide FindKeyword, KeywordOf;
    CopyPositionals();
  }

  lemma CopyPositionals()
    ensures Positionals(COPY, 2) == [0, 1]
  {
    assert Positionals(COPY, 0) == [];
    assert Positionals(COPY, 1) == [0];
  }

  /** Copy's template given n plain words: it fails exactly when n < 2, and otherwise TO
      takes the last word and FROM all the others. */
  lemma {:induction false} CopyTemplate(buf: Bytes, pos: nat)
    requires pos <= |buf| && PlainWords(Tokens(buf, pos))
    ensures var words := Words(Tokens(buf, pos));
            var n := |words|;
            var end := Tokens(buf, pos)[|Tokens(buf, pos)| - 1].end;
            MatchArgs(COPY, buf, pos) ==
              if n < 2 then Refused(ERROR_REQUIRED_ARG_MISSING, end)
              else Matched([EMPTY.(multi := words[..n - 1]), EMPTY.(str := Some(words[n - 1]))], end)
  {
    hide Tokens, Loop, LoopItems, Finish, Words, PlainWords, Blank;
    var items := Tokens(buf, pos);
    BlankCopy(Words(items));
    LoopIsItems(COPY, buf, pos, Blank(COPY), 0);
    CopyCollects(items, Blank(COPY));
    CopyFinishes(Words(items), items[|items| - 1].end);
  }

  lemma BlankCopy(words: seq<Bytes>)
    ensures Blank(COPY) == [EMPTY, EMPTY]
    ensures Blank(COPY)[0 := Blank(COPY)[0].(multi := Blank(COPY)[0].multi + words)] == [EMPTY.(multi := words), EMPTY]
  {
    assert EMPTY.multi + words == words;
  }

  lemma CopyFinishes(words: seq<Bytes>, end: nat)
    ensures Finish(COPY, [EMPTY.(multi := words), EMPTY], end) ==
              if |words| < 2 then Refused(ERROR_REQUIRED_ARG_MISSING, end)
              else Matched([EMPTY.(multi := words[..|words| - 1]), EMPTY.(str := Some(words[|words| - 1]))], end)
  {
    hide ParseNumber;
    var slots := [EMPTY.(multi := words), EMPTY];
    assert MultiIndex(COPY) == Some(0);
    assert COPY[0].required && COPY[1].required;
    if words == [] {
      assert BorrowFrom(COPY, slots, 0, 1) == Some(slots);
      assert !Filled(COPY[0], slots[0]);
    } else {
      var slots' := [EMPTY.(multi := words[..|words| - 1]), EMPTY.(str := Some(words[|words| - 1]))];
      assert slots[0 := slots'[0]][1 := slots'[1]] == slots';
      assert BorrowFrom(COPY, slots, 0, 1) == Some(slots');
      if |words| == 1 {
        assert !Filled(COPY[0], slots'[0]);
      }
    }
  }
}
