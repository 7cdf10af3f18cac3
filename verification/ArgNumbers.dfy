// Which texts a /N slot accepts, with which value, and what becomes of a line with any other.

module ArgNumbers {
  import opened Guest
  import opened ArgReader
  import opened ArgMatch
  import opened ArgTokens
  import opened ArgPrint
  import opened ArgBorrow
  import opened ArgStores
  import opened ArgDelivery

  const ZERO: byte := 48

  function Zeros(n: nat): (r: Bytes)
    ensures |r| == n && forall i :: 0 <= i < n ==> r[i] == ZERO
  {
    seq(n, i => ZERO)
  }

  /** `text` spells n: an optional sign, any zeros and the decimal digits of its amount. */
  ghost predicate Spelling(text: Bytes, n: int) {
    exists zeros: nat, m: nat ::
      || (n == m && text == Zeros(zeros) + PrintNat(m))
      || (n == m && text == [PLUS] + (Zeros(zeros) + PrintNat(m)))
      || (n == 0 - m && text == [MINUS] + (Zeros(zeros) + PrintNat(m)))
  }

  /** `text` spells a signed 32-bit number. */
  ghost predicate Numeral(text: Bytes, n: int) {
    -0x8000_0000 <= n <= 0x7fff_ffff && Spelling(text, n)
  }

  // --- Digits ---

  /** Any digits are zeros and the digits of their value. */
  lemma {:induction false} DigitsSpell(digits: Bytes) returns (zeros: nat)
    requires digits != [] && AllDigits(digits)
    ensures digits == Zeros(zeros) + PrintNat(DigitsValue(digits))
    decreases |digits|
  {
    hide PrintNat;
    var n := |digits| - 1;
    var init, last := digits[..n], digits[n];
    assert last in digits && forall b <- init :: b in digits;
    assert digits == init + [last];
    DigitsValueSplit(init, last);
    if init == [] {
      zeros := 0;
      OneDigit(last);
      assert digits == Zeros(0) + [last];
    } else {
      zeros := DigitsSpell(init);
      zeros := OneMore(zeros, DigitsValue(init), last);
    }
  }

  /** A digit behind zeros and a number's digits. */
  lemma OneMore(zeros: nat, v: nat, last: byte) returns (zeros': nat)
    requires IsDigit(last)
    ensures Zeros(zeros) + PrintNat(v) + [last] == Zeros(zeros') + PrintNat(v * 10 + (last as int - 48))
  {
    hide PrintNat;
    if v > 0 {
      zeros' := zeros;
      MoreDigits(v, last);
      assert Zeros(zeros) + PrintNat(v) + [last] == Zeros(zeros) + (PrintNat(v) + [last]);
    } else {
      zeros' := zeros + 1;
      OneDigit(last);
      ZeroDigit();
      assert Zeros(zeros) + [ZERO] + [last] == Zeros(zeros + 1) + [last];
    }
  }

  lemma {:induction false} DigitsValueSplit(init: Bytes, last: byte)
    requires AllDigits(init) && IsDigit(last)
    ensures AllDigits(init + [last]) && DigitsValue(init + [last]) == DigitsValue(init) * 10 + (last as int - 48)
  {
    assert (init + [last])[..|init|] == init;
  }

  lemma {:induction false} OneDigit(d: byte)
    requires IsDigit(d)
    ensures PrintNat(d as int - 48) == [d] && DigitsValue([]) == 0
  {
  }

  lemma ZeroDigit()
    ensures PrintNat(0) == [ZERO]
  {
  }

  lemma MoreDigits(v: nat, d: byte)
    requires v > 0 && IsDigit(d)
    ensures PrintNat(v * 10 + (d as int - 48)) == PrintNat(v) + [d]
  {
  }

  /** Zeros in front change nothing. */
  lemma {:induction false} ZerosAside(zeros: nat, digits: Bytes)
    requires AllDigits(digits)
    ensures AllDigits(Zeros(zeros) + digits) && DigitsValue(Zeros(zeros) + digits) == DigitsValue(digits)
    decreases |digits|, zeros
  {
    hide DigitsValue;
    if digits != [] {
      var n := |digits| - 1;
      assert digits[n] in digits && forall b <- digits[..n] :: b in digits;
      ZerosAside(zeros, digits[..n]);
      DigitsValueSplit(digits[..n], digits[n]);
      DigitsValueSplit(Zeros(zeros) + digits[..n], digits[n]);
      assert digits[..n] + [digits[n]] == digits;
      assert Zeros(zeros) + digits[..n] + [digits[n]] == Zeros(zeros) + digits;
    } else if zeros > 0 {
      ZerosAside(zeros - 1, digits);
      OneDigit(ZERO);
      DigitsValueSplit(Zeros(zeros - 1) + digits, ZERO);
      assert Zeros(zeros) + digits == Zeros(zeros - 1) + digits + [ZERO];
    } else {
      assert Zeros(0) + digits == digits;
    }
  }

  /** The digits of a text without its sign. */
  function Unsigned(text: Bytes): Bytes {
    if text != [] && (text[0] == PLUS || text[0] == MINUS) then text[1..] else text
  }

  lemma ParseDigits(text: Bytes)
    ensures var digits := Unsigned(text);
            ParseNumber(text) ==
            if digits == [] || !AllDigits(digits) then None
            else InRange(if text[0] == MINUS then 0 - DigitsValue(digits) else DigitsValue(digits))
  {
  }

  /** A number is accepted for what it spells, and nothing else is. */
  lemma {:induction false} ParsesNumerals(text: Bytes)
    ensures forall n: int :: ParseNumber(text) == Some(n) <==> Numeral(text, n)
    ensures ParseNumber(text).None? <==> forall n: int :: !Numeral(text, n)
  {
    hide ParseNumber, Numeral, Unsigned;
    forall n: int ensures ParseNumber(text) == Some(n) <==> Numeral(text, n) {
      if ParseNumber(text) == Some(n) { ParsedSpells(text, n); }
      if Numeral(text, n) { SpelledParses(text, n); }
    }
    if ParseNumber(text).Some? {
      assert Numeral(text, ParseNumber(text).value);
    }
  }

  lemma {:induction false} ParsedSpells(text: Bytes, n: int)
    requires ParseNumber(text) == Some(n)
    ensures Numeral(text, n)
  {
    hide PrintNat, ParseNumber;
    ParseDigits(text);
    var digits := Unsigned(text);
    var zeros := DigitsSpell(digits);
    var m := DigitsValue(digits);
    if digits != text {
      assert text == [text[0]] + digits;
    } else {
      assert text[0] in digits;
    }
    assert text == digits ==> n == m && text == Zeros(zeros) + PrintNat(m);
  }

  lemma {:induction false} SpelledParses(text: Bytes, n: int)
    requires Numeral(text, n)
    ensures ParseNumber(text) == Some(n)
  {
    hide PrintNat, ParseNumber;
    var zeros: nat, m: nat :|
      || (n == m && text == Zeros(zeros) + PrintNat(m))
      || (n == m && text == [PLUS] + (Zeros(zeros) + PrintNat(m)))
      || (n == 0 - m && text == [MINUS] + (Zeros(zeros) + PrintNat(m)));
    NatReadsBack(m);
    ZerosAside(zeros, PrintNat(m));
    var digits := Zeros(zeros) + PrintNat(m);
    assert digits[0] in digits;
    ParseDigits(text);
    if text == digits {
      assert Unsigned(text) == digits;
    } else {
      assert text[1..] == digits;
    }
  }

  // --- On a line ---

  /** The text is no numeral. */
  ghost predicate NoNumeral(text: Bytes) { forall n: int :: !Numeral(text, n) }

  /** The line puts into a /N slot what is no numeral. */
  ghost predicate BadPut(t: Template, puts: seq<Put>) {
    exists j :: 0 <= j < |puts| && puts[j].slot < |t| && t[puts[j].slot].kind == Number && NoNumeral(puts[j].text)
  }

  predicate Misread(t: Template, p: Put) {
    p.slot < |t| && t[p.slot].kind == Number && ParseNumber(p.text).None?
  }

  predicate AnyMisread(t: Template, puts: seq<Put>) {
    exists j :: 0 <= j < |puts| && Misread(t, puts[j])
  }

  lemma {:induction false} MisreadIsBad(t: Template, puts: seq<Put>)
    ensures AnyMisread(t, puts) <==> BadPut(t, puts)
  {
    hide ParseNumber, NoNumeral;
    forall j | 0 <= j < |puts| ensures ParseNumber(puts[j].text).None? <==> NoNumeral(puts[j].text) {
      NoneIsNoNumeral(puts[j].text);
    }
  }

  lemma {:induction false} NoneIsNoNumeral(text: Bytes)
    ensures ParseNumber(text).None? <==> NoNumeral(text)
  {
    hide ParseNumber, Numeral;
    ParsesNumerals(text);
  }

  lemma AnyMisreadJoin(t: Template, p: seq<Put>, q: seq<Put>)
    ensures AnyMisread(t, p + q) <==> AnyMisread(t, p) || AnyMisread(t, q)
  {
    hide Misread;
    if AnyMisread(t, p) {
      var j :| 0 <= j < |p| && Misread(t, p[j]);
      assert (p + q)[j] == p[j];
    }
    if AnyMisread(t, q) {
      var j :| 0 <= j < |q| && Misread(t, q[j]);
      assert (p + q)[|p| + j] == q[j];
    }
  }

  /** How taking the head of the list ends: without a value, without a slot, with a text that
      is no number, or well. */
  lemma {:induction false} HeadEnds(t: Template, items: seq<Item>, slots: Slots, cursor: nat)
    requires Closed(items) && items[0].kind != Nothing && |t| == |slots|
    ensures var step := TakeItems(t, items, slots, cursor);
            if Used(t, items) == |items| then step.Halt? && step.error == ERROR_KEY_NEEDS_ARG
            else if TooMany(t, items[0], cursor) then step.Halt? && step.error == ERROR_TOO_MANY_ARGS
            else if AnyMisread(t, HeadPut(t, items, cursor)) then step.Halt? && step.error == ERROR_BAD_NUMBER
            else step.Go? && step.cursor == CursorAfter(t, items[0], cursor)
  {
    hide ParseNumber, Positionals, KeywordOf, Closed, AnyMisread;
    UsedClosed(t, items);
    var puts := HeadPut(t, items, cursor);
    if puts == [] {
      NoneMisread(t);
    } else {
      OneMisread(t, puts[0]);
      assert puts == [puts[0]];
    }
  }

  lemma NoneMisread(t: Template)
    ensures !AnyMisread(t, [])
  {
  }

  lemma OneMisread(t: Template, p: Put)
    ensures AnyMisread(t, [p]) <==> Misread(t, p)
  {
    hide Misread;
    assert [p][0] == p;
  }

  lemma UsedClosed(t: Template, items: seq<Item>)
    requires Closed(items) && items[0].kind != Nothing
    ensures |items| > 1 && (items[Used(t, items) - 1].kind == Nothing <==> Used(t, items) == |items|)
  {
    hide KeywordOf;
  }

  /** The matching loop ends with ERROR_BAD_NUMBER exactly when it meets a text that should be
      a number and is not. */
  lemma {:induction false} LoopMisreads(t: Template, items: seq<Item>, slots: Slots, cursor: nat)
    requires Closed(items) && |t| == |slots|
    ensures var r := LoopItems(t, items, slots, cursor);
            r.Refused? && r.error == ERROR_BAD_NUMBER <==> AnyMisread(t, Puts(t, items, cursor))
    decreases |items|
  {
    hide TakeItems, Used, HeadPut, CursorAfter, TooMany, AnyMisread;
    var item := items[0];
    NoneMisread(t);
    if item.kind == Equal {
      LoopMisreads(t, items[1..], slots, cursor);
    } else if item.kind != Nothing && item.kind != Error {
      HeadEnds(t, items, slots, cursor);
      var step := TakeItems(t, items, slots, cursor);
      var used := Used(t, items);
      if used < |items| && !TooMany(t, item, cursor) {
        AnyMisreadJoin(t, HeadPut(t, items, cursor), Puts(t, items[used..], CursorAfter(t, item, cursor)));
        if step.Go? { LoopMisreads(t, items[used..], step.slots, step.cursor); }
      }
    }
  }

  // --- Loans to /N slots ---

  /** Slot k of `w` is a /N slot and gets, from the end of the list, what is no numeral. */
  ghost predicate BadLoanAt(t: Template, w: seq<nat>, texts: seq<Bytes>, k: nat)
    requires k < |w| && k < |texts| && w[k] < |t|
  {
    t[w[k]].kind == Number && NoNumeral(texts[|texts| - 1 - k])
  }

  /** One of the first n slots of `w` does. */
  ghost predicate BadLoan(t: Template, w: seq<nat>, texts: seq<Bytes>, n: nat)
    requires n <= |w| && n <= |texts| && forall k :: 0 <= k < |w| ==> w[k] < |t|
  {
    exists k :: 0 <= k < n && BadLoanAt(t, w, texts, k)
  }

  predicate LoanFailsAt(t: Template, w: seq<nat>, texts: seq<Bytes>, k: nat)
    requires k < |w| && k < |texts| && w[k] < |t|
  {
    t[w[k]].kind == Number && ParseNumber(texts[|texts| - 1 - k]).None?
  }

  predicate LoanFails(t: Template, w: seq<nat>, texts: seq<Bytes>, n: nat)
    requires n <= |w| && n <= |texts| && forall k :: 0 <= k < |w| ==> w[k] < |t|
  {
    exists k :: 0 <= k < n && LoanFailsAt(t, w, texts, k)
  }

  lemma {:induction false} LoanFailsIff(t: Template, w: seq<nat>, texts: seq<Bytes>, n: nat)
    requires n <= |w| && n <= |texts| && forall k :: 0 <= k < |w| ==> w[k] < |t|
    ensures LoanFails(t, w, texts, n) <==> BadLoan(t, w, texts, n)
  {
    hide ParseNumber, NoNumeral;
    forall k | 0 <= k < n ensures LoanFailsAt(t, w, texts, k) <==> BadLoanAt(t, w, texts, k) {
      NoneIsNoNumeral(texts[|texts| - 1 - k]);
    }
  }

  lemma LoanShift(t: Template, i: nat, w: seq<nat>, texts: seq<Bytes>, k: nat)
    requires i < |t| && k < |w| && k + 1 < |texts| && w[k] < |t|
    ensures ([i] + w)[k + 1] == w[k]
    ensures LoanFailsAt(t, [i] + w, texts, k + 1) <==> LoanFailsAt(t, w, texts[..|texts| - 1], k)
  {
    hide ParseNumber;
  }

  lemma LoanStep(t: Template, i: nat, w: seq<nat>, texts: seq<Bytes>, n: nat)
    requires i < |t| && n <= |w| && n < |texts| && forall k :: 0 <= k < |w| ==> w[k] < |t|
    ensures forall k :: 0 <= k < |[i] + w| ==> ([i] + w)[k] < |t|
    ensures LoanFails(t, [i] + w, texts, n + 1) <==>
              (t[i].kind == Number && ParseNumber(texts[|texts| - 1]).None?)
              || LoanFails(t, w, texts[..|texts| - 1], n)
  {
    hide LoanFailsAt;
    var iw, less := [i] + w, texts[..|texts| - 1];
    FirstLoan(t, i, w, texts);
    forall k | 0 <= k < n
      ensures iw[k + 1] == w[k] && (LoanFailsAt(t, iw, texts, k + 1) <==> LoanFailsAt(t, w, less, k))
    {
      LoanShift(t, i, w, texts, k);
    }
    if LoanFails(t, iw, texts, n + 1) {
      var k :| 0 <= k < n + 1 && LoanFailsAt(t, iw, texts, k);
      if k > 0 { assert LoanFailsAt(t, w, less, k - 1); }
    }
    if LoanFails(t, w, less, n) {
      var k :| 0 <= k < n && LoanFailsAt(t, w, less, k);
      assert LoanFailsAt(t, iw, texts, k + 1);
    }
  }

  lemma FirstLoan(t: Template, i: nat, w: seq<nat>, texts: seq<Bytes>)
    requires i < |t| && texts != []
    ensures ([i] + w)[0] == i
    ensures LoanFailsAt(t, [i] + w, texts, 0) <==> t[i].kind == Number && ParseNumber(texts[|texts| - 1]).None?
  {
    hide ParseNumber;
  }

  lemma LendingList(t: Template, slots: Slots, m: nat, i: nat)
    requires m < i < |t| == |slots| && Borrows(t, slots, m, i)
    ensures var texts := slots[m].multi;
            && (Lending(t, slots, m, i).None? <==> t[i].kind == Number && ParseNumber(texts[|texts| - 1]).None?)
            && (Lending(t, slots, m, i).Some? ==> Lending(t, slots, m, i).value[m].multi == texts[..|texts| - 1])
  {
    hide ParseNumber;
  }

  /** Borrowing fails exactly when a /N slot is lent what is no number. */
  lemma {:induction false} BorrowFails(t: Template, slots: Slots, m: nat, i: nat)
    requires m < i <= |t| == |slots|
    ensures var w := Wanting(t, slots, i);
            BorrowFrom(t, slots, m, i).None? <==> LoanFails(t, w, slots[m].multi, Min(|w|, |slots[m].multi|))
    decreases |t| - i
  {
    hide Lending, LoanFails, AlreadyFilled, StoreBorrowed, ParseNumber;
    if i == |t| {
      NoLoan(t, [], slots[m].multi);
    } else if Borrows(t, slots, m, i) {
      LendingMoves(t, slots, m, i);
      LendingList(t, slots, m, i);
      var w := Wanting(t, slots, i + 1);
      LoanStep(t, i, w, slots[m].multi, Min(|w|, |slots[m].multi| - 1));
      if Lending(t, slots, m, i).Some? {
        var next := Lending(t, slots, m, i).value;
        WantingSame(t, slots, next, i + 1);
        BorrowFails(t, next, m, i + 1);
      }
    } else {
      BorrowFails(t, slots, m, i + 1);
      if slots[m].multi == [] {
        NoLoan(t, Wanting(t, slots, i), []);
        NoLoan(t, Wanting(t, slots, i + 1), []);
      }
    }
  }

  lemma NoLoan(t: Template, w: seq<nat>, texts: seq<Bytes>)
    requires forall k :: 0 <= k < |w| ==> w[k] < |t|
    ensures !LoanFails(t, w, texts, 0)
  {
  }

  // --- The whole line ---

  /** A required /N slot borrows what is no numeral. */
  ghost predicate LendsBad(t: Template, puts: seq<Put>) {
    var m := MultiIndex(t);
    m.Some? && BadLoan(t, Unmet(t, puts, m.value + 1), Texts(puts, m.value), Borrowing(t, puts, m.value))
  }

  /** Without /F, a match fails with ERROR_BAD_NUMBER if and only if the line puts into a /N
      slot a text that is no 32-bit numeral before anything else is wrong, or nothing is wrong
      in the loop and a required /N slot borrows such a text from the /M slot. */
  lemma {:induction false} BadNumberIff(t: Template, buf: Bytes, pos: nat)
    requires pos <= |buf| && FreeOfRest(t)
    ensures var puts := LinePuts(t, buf, pos);
            var r := MatchArgs(t, buf, pos);
            (r.Refused? && r.error == ERROR_BAD_NUMBER <==>
               BadPut(t, puts) || (Loop(t, buf, pos, Blank(t), 0).Matched? && LendsBad(t, puts)))
  {
    hide Loop, LoopItems, Puts, Tokens, Texts, HoldsLast, AnyMisread, BadPut, LoanFails, BadLoan, Unmet, BorrowFrom,
         AllFilled, Wanting, MultiIndex, Closed, FreeOfRest;
    var puts := LinePuts(t, buf, pos);
    LoopIsItems(t, buf, pos, Blank(t), 0);
    LoopMisreads(t, Tokens(buf, pos), Blank(t), 0);
    MisreadIsBad(t, puts);
    if Loop(t, buf, pos, Blank(t), 0).Matched? && MultiIndex(t).Some? {
      LoanOnLine(t, buf, pos, MultiIndex(t).value);
    }
  }

  lemma {:induction false} LoanOnLine(t: Template, buf: Bytes, pos: nat, m: nat)
    requires pos <= |buf| && FreeOfRest(t) && Loop(t, buf, pos, Blank(t), 0).Matched?
    requires m < |t| && t[m].kind == Multi
    ensures var puts := LinePuts(t, buf, pos);
            BorrowFrom(t, Loop(t, buf, pos, Blank(t), 0).slots, m, m + 1).None? <==>
            BadLoan(t, Unmet(t, puts, m + 1), Texts(puts, m), Borrowing(t, puts, m))
  {
    hide Loop, Puts, Tokens, Texts, HoldsLast, LoanFails, BadLoan, Unmet, BorrowFrom, Wanting, Closed, FreeOfRest;
    var puts := LinePuts(t, buf, pos);
    var slots := Loop(t, buf, pos, Blank(t), 0).slots;
    NothingLostIff(t, buf, pos);
    NoFlagPut(t, Tokens(buf, pos), 0);
    forall i | 0 <= i < |t| && t[i].IsFlag() ensures Texts(puts, i) == [] { TextsNone(puts, i); }
    BorrowFails(t, slots, m, m + 1);
    UnmetWants(t, slots, puts, m + 1);
    FilledIfPut(t[m].kind, slots[m], Texts(puts, m), t[m]);
    LoanFailsIff(t, Unmet(t, puts, m + 1), Texts(puts, m), Borrowing(t, puts, m));
  }

  /** A line that matches leaves in a /N slot the value of the last numeral put there. */
  lemma {:induction false} NumberHeld(t: Template, buf: Bytes, pos: nat, i: nat)
    requires pos <= |buf| && FreeOfRest(t) && Loop(t, buf, pos, Blank(t), 0).Matched?
    requires i < |t| && t[i].kind == Number && Texts(LinePuts(t, buf, pos), i) != []
    ensures var texts := Texts(LinePuts(t, buf, pos), i);
            var slot := Loop(t, buf, pos, Blank(t), 0).slots[i];
            slot.num.Some? && Numeral(texts[|texts| - 1], slot.num.value)
  {
    hide Loop, LinePuts, Texts, Numeral, ParseNumber, FreeOfRest;
    NothingLostIff(t, buf, pos);
    var texts := Texts(LinePuts(t, buf, pos), i);
    ParsesNumerals(texts[|texts| - 1]);
  }
}
