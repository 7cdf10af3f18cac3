// Printing an assignment as NAME="text", NAME=number and NAME items and matching the
// line again.

module ArgRoundTrip {
  import opened Guest
  import opened ArgReader
  import opened ArgMatch
  import opened ArgTokens
  import opened ArgBorrow
  import opened ArgPrint

  // --- Assignments and their printed form ---

  /** `name` can be written as a word and names slot i and no other. */
  ghost predicate Spells(t: Template, i: nat, name: Bytes) {
    && i < |t| && IsWord(name) && ToUpper(name) == name && name in t[i].names
    && forall j :: 0 <= j < |t| && j != i ==> name !in t[j].names
  }

  /** A slot holds what its kind can hold. */
  predicate WellTyped(kind: ArgKind, slot: Slot) {
    match kind
    case Number => slot == EMPTY.(num := slot.num)
                   && (slot.num.Some? ==> -0x8000_0000 <= slot.num.value <= 0x7fff_ffff)
    case Multi => slot == EMPTY.(multi := slot.multi)
    case Str => slot == EMPTY.(str := slot.str)
    case RestOfLine => slot == EMPTY.(str := slot.str)
    case _ => slot == EMPTY.(flag := slot.flag)
  }

  /** One value for every slot; each slot that has one has a name to print it under, and
      the required slots have one. */
  ghost predicate Assignment(t: Template, a: Slots) {
    && |a| == |t| && AllFilled(t, a)
    && forall i :: 0 <= i < |t| ==>
         WellTyped(t[i].kind, a[i]) && (a[i] != EMPTY ==> t[i].names != [] && Spells(t, i, t[i].names[0]))
  }

  function PrintItem(name: Bytes, value: Bytes): Bytes {
    ([SPACE] + name) + ([EQUALS] + value)
  }

  function PrintMulti(name: Bytes, values: seq<Bytes>): Bytes {
    if values == [] then [] else PrintItem(name, PrintQuoted(values[0])) + PrintMulti(name, values[1..])
  }

  function PrintSlot(arg: TemplateArg, slot: Slot): Bytes {
    if slot == EMPTY || arg.names == [] then []
    else if slot.str.Some? then PrintItem(arg.names[0], PrintQuoted(slot.str.value))
    else if slot.num.Some? then PrintItem(arg.names[0], PrintNumber(slot.num.value))
    else if slot.flag then [SPACE] + arg.names[0]
    else PrintMulti(arg.names[0], slot.multi)
  }

  function PrintAll(t: Template, a: Slots, order: seq<nat>): Bytes
    requires |a| == |t| && forall k :: 0 <= k < |order| ==> order[k] < |t|
  {
    if order == [] then [] else PrintSlot(t[order[0]], a[order[0]]) + PrintAll(t, a, order[1..])
  }

  /** `order` names every slot that has a value, once. */
  ghost predicate Orders(t: Template, a: Slots, order: seq<nat>)
    requires |a| == |t|
  {
    && (forall k :: 0 <= k < |order| ==> order[k] < |t|)
    && (forall j, k :: 0 <= j < k < |order| ==> order[j] != order[k])
    && (forall i :: 0 <= i < |t| && a[i] != EMPTY ==> i in order)
  }

  // --- Reading one printed item ---

  lemma {:induction false} KeywordFound(t: Template, i: nat, name: Bytes)
    requires Spells(t, i, name)
    ensures FindKeyword(t, name) == Some(i)
  {
    var r := FindKeyword(t, name);
    assert t[i] in t;
  }

  /** The line continues as if slot i had its flag flipped already. */
  lemma {:induction false} FlagRead(t: Template, i: nat, name: Bytes, pre: Bytes, post: Bytes, slots: Slots,
                                    cursor: nat)
    requires |slots| == |t| && Spells(t, i, name) && t[i].IsFlag() && Separated(post)
    ensures var text := [SPACE] + name;
            Loop(t, pre + text + post, |pre|, slots, cursor)
            == Loop(t, pre + text + post, |pre + text|, slots[i := Flip(t[i].kind, slots[i])], cursor)
  {
    hide ItemAt, FindKeyword, Flip;
    NameRead(pre, name, post);
    KeywordFound(t, i, name);
  }

  /** The line continues as if slot i had the value already. */
  lemma LoopTakesValue(t: Template, i: nat, buf: Bytes, pos: nat, item: Item, value: Item, slots: Slots, cursor: nat,
                       slot: Slot)
    requires |slots| == |t| && pos <= |buf| && i < |t| && !t[i].IsFlag() && t[i].kind != RestOfLine
    requires item == ItemAt(buf, pos) && item.kind == Unquoted && FindKeyword(t, item.text) == Some(i)
    requires value == ValueAt(buf, item.end) && value.kind != Nothing
    requires Store(t[i].kind, slots[i], value.text) == Some(slot)
    ensures Loop(t, buf, pos, slots, cursor) == Loop(t, buf, value.end, slots[i := slot], cursor)
  {
    hide ItemAt, ValueAt, FindKeyword, Store;
  }

  lemma {:induction false} QuotedRead(t: Template, i: nat, name: Bytes, v: Bytes, pre: Bytes, post: Bytes,
                                      slots: Slots, cursor: nat, slot: Slot)
    requires |slots| == |t| && Spells(t, i, name) && !t[i].IsFlag() && t[i].kind != RestOfLine
    requires Store(t[i].kind, slots[i], v) == Some(slot)
    ensures var text := PrintItem(name, PrintQuoted(v));
            Loop(t, pre + text + post, |pre|, slots, cursor)
            == Loop(t, pre + text + post, |pre + text|, slots[i := slot], cursor)
  {
    hide ItemAt, ValueAt, FindKeyword, Store, Loop, PrintQuoted;
    var text := PrintItem(name, PrintQuoted(v));
    var rest := [EQUALS] + PrintQuoted(v);
    var buf := pre + text + post;
    assert buf == pre + ([SPACE] + name) + (rest + post);
    NameRead(pre, name, rest + post);
    assert buf == (pre + ([SPACE] + name)) + rest + post;
    QuotedValueRead(pre + ([SPACE] + name), v, post);
    KeywordFound(t, i, name);
    var item := ItemAt(buf, |pre|);
    LoopTakesValue(t, i, buf, |pre|, item, ValueAt(buf, item.end), slots, cursor, slot);
  }

  lemma {:induction false} NumberRead(t: Template, i: nat, name: Bytes, n: int, pre: Bytes, post: Bytes, slots: Slots,
                                      cursor: nat)
    requires |slots| == |t| && Spells(t, i, name) && t[i].kind == Number && Separated(post)
    requires -0x8000_0000 <= n <= 0x7fff_ffff
    ensures var text := PrintItem(name, PrintNumber(n));
            Loop(t, pre + text + post, |pre|, slots, cursor)
            == Loop(t, pre + text + post, |pre + text|, slots[i := slots[i].(num := Some(n))], cursor)
  {
    hide ItemAt, ValueAt, FindKeyword, Loop, PrintNumber, ParseNumber;
    var text := PrintItem(name, PrintNumber(n));
    var rest := [EQUALS] + PrintNumber(n);
    var buf := pre + text + post;
    NumberIsWord(n);
    NumberReadsBack(n);
    assert buf == pre + ([SPACE] + name) + (rest + post);
    NameRead(pre, name, rest + post);
    assert buf == (pre + ([SPACE] + name)) + rest + post;
    WordValueRead(pre + ([SPACE] + name), PrintNumber(n), post);
    KeywordFound(t, i, name);
    var item := ItemAt(buf, |pre|);
    LoopTakesValue(t, i, buf, |pre|, item, ValueAt(buf, item.end), slots, cursor, slots[i].(num := Some(n)));
  }

  lemma {:induction false} MultiRead(t: Template, i: nat, name: Bytes, values: seq<Bytes>, pre: Bytes, post: Bytes,
                                     slots: Slots, cursor: nat)
    requires |slots| == |t| && Spells(t, i, name) && t[i].kind == Multi
    ensures var text := PrintMulti(name, values);
            Loop(t, pre + text + post, |pre|, slots, cursor)
            == Loop(t, pre + text + post, |pre + text|, slots[i := slots[i].(multi := slots[i].multi + values)], cursor)
    decreases |values|
  {
    hide Loop, PrintItem, Spells;
    SpellsSlot(t, i, name);
    var text := PrintMulti(name, values);
    if values == [] {
      assert slots[i].multi + values == slots[i].multi;
      assert slots[i := slots[i]] == slots;
      assert pre + text == pre;
    } else {
      var first := PrintItem(name, PrintQuoted(values[0]));
      var more := PrintMulti(name, values[1..]);
      var slot := slots[i].(multi := slots[i].multi + [values[0]]);
      assert pre + text + post == pre + first + (more + post) == (pre + first) + more + post;
      QuotedRead(t, i, name, values[0], pre, more + post, slots, cursor, slot);
      MultiRead(t, i, name, values[1..], pre + first, post, slots[i := slot], cursor);
      assert slots[i].multi + [values[0]] + values[1..] == slots[i].multi + values;
      assert slots[i := slot][i := slots[i].(multi := slots[i].multi + values)]
          == slots[i := slots[i].(multi := slots[i].multi + values)];
      assert pre + text == pre + first + more;
    }
  }

  lemma SpellsSlot(t: Template, i: nat, name: Bytes)
    requires Spells(t, i, name)
    ensures i < |t|
  {
  }

  /** A whole printed slot, read from where nothing has been put in it yet. */
  lemma {:induction false} SlotRead(t: Template, a: Slots, i: nat, pre: Bytes, post: Bytes, slots: Slots, cursor: nat)
    requires Assignment(t, a) && FreeOfRest(t) && i < |t| == |slots| && slots[i] == EMPTY && Separated(post)
    ensures var text := PrintSlot(t[i], a[i]);
            Loop(t, pre + text + post, |pre|, slots, cursor)
            == Loop(t, pre + text + post, |pre + text|, slots[i := a[i]], cursor)
  {
    hide Loop, PrintItem, PrintMulti, Spells, AllFilled;
    var text := PrintSlot(t[i], a[i]);
    assert t[i] in t;
    if a[i] == EMPTY {
      assert slots[i := a[i]] == slots && pre + text == pre;
    } else {
      var name := t[i].names[0];
      match t[i].kind {
        case Number => NumberRead(t, i, name, a[i].num.value, pre, post, slots, cursor);
        case Multi =>
          MultiRead(t, i, name, a[i].multi, pre, post, slots, cursor);
          assert EMPTY.multi + a[i].multi == a[i].multi;
        case Str => QuotedRead(t, i, name, a[i].str.value, pre, post, slots, cursor, a[i]);
        case _ => FlagRead(t, i, name, pre, post, slots, cursor);
      }
    }
  }

  lemma {:induction false} PrintSeparated(t: Template, a: Slots, order: seq<nat>, tail: Bytes)
    requires |a| == |t| && forall k :: 0 <= k < |order| ==> order[k] < |t|
    requires Separated(tail)
    ensures Separated(PrintAll(t, a, order) + tail)
  {
    hide PrintSlot, Separated;
    if order == [] {
      assert PrintAll(t, a, order) + tail == tail;
    } else {
      PrintSeparated(t, a, order[1..], tail);
      var i := order[0];
      var rest := PrintAll(t, a, order[1..]) + tail;
      SlotSeparated(t[i], a[i], rest);
      assert PrintAll(t, a, order) + tail == PrintSlot(t[i], a[i]) + rest;
    }
  }

  lemma SlotSeparated(arg: TemplateArg, slot: Slot, rest: Bytes)
    requires Separated(rest)
    ensures Separated(PrintSlot(arg, slot) + rest)
  {
    hide PrintQuoted, PrintNumber;
    var text := PrintSlot(arg, slot);
    if text == [] {
      assert text + rest == rest;
    } else {
      assert text[0] == SPACE;
    }
  }

  /** All printed slots, in whatever order, up to where the line ends. */
  lemma {:induction false} AllRead(t: Template, a: Slots, order: seq<nat>, pre: Bytes, tail: Bytes, slots: Slots,
                                   cursor: nat)
    requires Assignment(t, a) && FreeOfRest(t) && |slots| == |t| && Separated(tail)
    requires forall k :: 0 <= k < |order| ==> order[k] < |t| && slots[order[k]] == EMPTY
    requires forall j, k :: 0 <= j < k < |order| ==> order[j] != order[k]
    requires forall i :: 0 <= i < |t| && i !in order ==> slots[i] == a[i]
    ensures var text := PrintAll(t, a, order);
            Loop(t, pre + text + tail, |pre|, slots, cursor) == Loop(t, pre + text + tail, |pre + text|, a, cursor)
    decreases |order|
  {
    hide Loop, PrintSlot, Assignment, Separated, FreeOfRest;
    AssignmentSize(t, a);
    var text := PrintAll(t, a, order);
    if order == [] {
      assert slots == a && pre + text == pre;
    } else {
      var i := order[0];
      var first := PrintSlot(t[i], a[i]);
      var more := PrintAll(t, a, order[1..]);
      Joined(pre, first, more, tail);
      PrintSeparated(t, a, order[1..], tail);
      SlotRead(t, a, i, pre, more + tail, slots, cursor);
      StillToRead(|t|, a, order, slots);
      AllRead(t, a, order[1..], pre + first, tail, slots[i := a[i]], cursor);
    }
  }

  lemma Joined(pre: Bytes, first: Bytes, more: Bytes, tail: Bytes)
    ensures pre + (first + more) + tail == pre + first + (more + tail) == (pre + first) + more + tail
    ensures pre + (first + more) == (pre + first) + more
  {
  }

  /** After the first slot of the order, the others are as before. */
  lemma StillToRead(n: nat, a: Slots, order: seq<nat>, slots: Slots)
    requires n == |slots| == |a| && order != []
    requires forall k :: 0 <= k < |order| ==> order[k] < n && slots[order[k]] == EMPTY
    requires forall j, k :: 0 <= j < k < |order| ==> order[j] != order[k]
    requires forall i :: 0 <= i < n && i !in order ==> slots[i] == a[i]
    ensures var slots' := slots[order[0] := a[order[0]]];
            && (forall k :: 0 <= k < |order| - 1 ==> slots'[order[1..][k]] == EMPTY)
            && (forall i :: 0 <= i < n && i !in order[1..] ==> slots'[i] == a[i])
  {
    forall i | 0 <= i < n && i !in order[1..] ensures slots[order[0] := a[order[0]]][i] == a[i] {
      if i in order { assert i == order[0]; }
    }
  }

  lemma AssignmentSize(t: Template, a: Slots)
    requires Assignment(t, a)
    ensures |a| == |t|
  {
  }

  // --- The end of the match ---

  /** A required flag after a /M slot that has values: the match takes the flag for an
      unfilled string and gives it the last of them. */
  predicate Steals(t: Template, a: Slots)
    requires |a| == |t|
  {
    var m := MultiIndex(t);
    m.Some? && a[m.value].multi != [] && exists i :: m.value < i < |t| && t[i].required && t[i].IsFlag()
  }

  lemma WantsOnlyFlags(t: Template, a: Slots, i: nat)
    requires Assignment(t, a) && FreeOfRest(t) && i < |t|
    ensures Wants(t[i], a[i]) <==> t[i].required && t[i].IsFlag()
  {
    hide Spells;
    assert t[i] in t;
  }

  lemma {:induction false} WantingNone(t: Template, a: Slots, i: nat)
    requires i <= |t| == |a|
    ensures Wanting(t, a, i) == [] <==> forall k :: i <= k < |t| ==> !Wants(t[k], a[k])
    decreases |t| - i
  {
    if i < |t| { WantingNone(t, a, i + 1); }
  }

  /** The end of the match leaves a covering assignment alone exactly when no required
      flag steals a value. */
  lemma FinishKeeps(t: Template, a: Slots, end: nat)
    requires Assignment(t, a) && FreeOfRest(t)
    ensures Finish(t, a, end) == Matched(a, end) <==> !Steals(t, a)
  {
    hide BorrowFrom, Wanting, Assignment, MultiIndex;
    AssignmentSize(t, a);
    AssignmentFilled(t, a);
    forall i | 0 <= i < |t| ensures Wants(t[i], a[i]) <==> t[i].required && t[i].IsFlag() {
      WantsOnlyFlags(t, a, i);
    }
    if MultiIndex(t).Some? {
      var m := MultiIndex(t).value;
      WantingNone(t, a, m + 1);
      BorrowLends(t, a, m, m + 1);
      LentNeutral(t, a, BorrowFrom(t, a, m, m + 1).value, m, Wanting(t, a, m + 1));
    }
  }

  lemma AssignmentFilled(t: Template, a: Slots)
    requires Assignment(t, a)
    ensures AllFilled(t, a)
  {
  }

  lemma LentNeutral(t: Template, a: Slots, r: Slots, m: nat, w: seq<nat>)
    requires m < |a| == |r| && Increasing(w, m + 1, |a|)
    requires Lent(a, r, m, w, Min(|w|, |a[m].multi|))
    ensures r == a <==> w == [] || a[m].multi == []
  {
    var multi := a[m].multi;
    if w == [] || multi == [] {
      assert multi[..|multi|] == multi;
      assert forall i :: !AmongFirst(w, 0, i);
    }
  }

  /** Print and match again.  For every /F-free template, every assignment covering its
      required slots and every order of the slots, on a line of any kind around it: the
      match gives the assignment back, and stops where the printed text stops, if and
      only if no required /S or /T slot stands behind a /M slot that has values. */
  lemma {:induction false} PrintedLineMatches(t: Template, a: Slots, order: seq<nat>, pre: Bytes, tail: Bytes)
    requires Assignment(t, a) && FreeOfRest(t)
    requires Orders(t, a, order)
    requires tail == [] || tail[0] == NEWLINE || tail[0] == SEMICOLON
    ensures var text := PrintAll(t, a, order);
            MatchArgs(t, pre + text + tail, |pre|) == Matched(a, |pre + text|) <==> !Steals(t, a)
  {
    hide Loop, Finish, Assignment, PrintAll;
    AssignmentSize(t, a);
    var text := PrintAll(t, a, order);
    var buf := pre + text + tail;
    UnorderedAreEmpty(t, a, order);
    AllRead(t, a, order, pre, tail, Blank(t), 0);
    assert tail != [] ==> buf[|pre + text|] == tail[0];
    LoopStops(t, buf, |pre + text|, a);
    FinishKeeps(t, a, |pre + text|);
  }

  lemma UnorderedAreEmpty(t: Template, a: Slots, order: seq<nat>)
    requires |a| == |t| && Orders(t, a, order)
    ensures forall i :: 0 <= i < |t| && i !in order ==> Blank(t)[i] == a[i]
  {
  }

  lemma {:induction false} LoopStops(t: Template, buf: Bytes, pos: nat, slots: Slots)
    requires |slots| == |t| && pos <= |buf| && EndsLine(buf, pos)
    ensures Loop(t, buf, pos, slots, 0) == Matched(slots, pos)
  {
    hide Take;
    assert SkipBlanks(buf, pos) == pos;
  }

  /** The loop reads a printed line into its assignment, whatever happens to it at the end. */
  lemma {:induction false} PrintedLineLoops(t: Template, a: Slots, order: seq<nat>)
    requires Assignment(t, a) && FreeOfRest(t) && Orders(t, a, order)
    ensures var line := PrintAll(t, a, order);
            MatchArgs(t, line, 0) == Finish(t, a, |line|)
  {
    hide Loop, Finish, Assignment, PrintAll;
    AssignmentSize(t, a);
    var line := PrintAll(t, a, order);
    assert [] + line + [] == line && [] + line == line;
    UnorderedAreEmpty(t, a, order);
    AllRead(t, a, order, [], [], Blank(t), 0);
    LoopStops(t, line, |line|, a);
  }

  const FILES_AND_FLAG: Template := [TemplateArg([FROM], Multi, false, false), TemplateArg([TO], Switch, false, true)]

  const ONE_FILE: Slots := [EMPTY.(multi := [[120]]), EMPTY.(flag := true)]

  lemma OneFileAssigned()
    ensures Assignment(FILES_AND_FLAG, ONE_FILE) && Steals(FILES_AND_FLAG, ONE_FILE)
    ensures FreeOfRest(FILES_AND_FLAG) && Orders(FILES_AND_FLAG, ONE_FILE, [0, 1])
  {
    var t := FILES_AND_FLAG;
    assert MultiIndex(t) == Some(0);
    assert t[1].required && t[1].IsFlag();
    assert ToUpper(FROM) == FROM && ToUpper(TO) == TO;
    assert Spells(t, 0, FROM) && Spells(t, 1, TO);
    var order: seq<nat> := [0, 1];
    assert order[0] == 0 && order[1] == 1;
  }

  lemma OneFileStolen(pos: nat)
    ensures Finish(FILES_AND_FLAG, ONE_FILE, pos) == Matched([EMPTY, EMPTY.(str := Some([120]), flag := true)], pos)
  {
    var t, a := FILES_AND_FLAG, ONE_FILE;
    assert MultiIndex(t) == Some(0);
    var r := [EMPTY, EMPTY.(str := Some([120]), flag := true)];
    assert a[0].multi[..0] == [];
    assert a[0 := r[0]][1 := r[1]] == r;
    assert BorrowFrom(t, a, 0, 1) == Some(r);
  }

  lemma OneFilePrinted()
    ensures PrintAll(FILES_AND_FLAG, ONE_FILE, [0, 1])
         == [SPACE] + FROM + [EQUALS, QUOTE, 120, QUOTE] + [SPACE] + TO
  {
    hide PrintSlot;
    var t, a := FILES_AND_FLAG, ONE_FILE;
    OneFileSlots();
    assert PrintAll(t, a, []) == [];
    assert PrintAll(t, a, [1]) == [SPACE] + TO;
    assert [0, 1][1..] == [1];
  }

  lemma OneFileSlots()
    ensures PrintSlot(FILES_AND_FLAG[0], ONE_FILE[0]) == [SPACE] + FROM + [EQUALS, QUOTE, 120, QUOTE]
    ensures PrintSlot(FILES_AND_FLAG[1], ONE_FILE[1]) == [SPACE] + TO
  {
    assert Escape([]) == [] && Escape([120]) == [120];
    assert PrintMulti(FROM, []) == [];
  }

  /** ` FROM="x" TO` for `FROM/M,TO/A/S`: the flag takes the file away. */
  lemma {:induction false} RequiredFlagSteals()
    ensures Assignment(FILES_AND_FLAG, ONE_FILE) && Steals(FILES_AND_FLAG, ONE_FILE)
    ensures var line := [SPACE] + FROM + [EQUALS, QUOTE, 120, QUOTE] + [SPACE] + TO;
            && line == PrintAll(FILES_AND_FLAG, ONE_FILE, [0, 1])
            && MatchArgs(FILES_AND_FLAG, line, 0)
               == Matched([EMPTY, EMPTY.(str := Some([120]), flag := true)], |line|)
  {
    hide MatchArgs, Finish, Assignment, Steals, Orders, PrintAll;
    var t, a := FILES_AND_FLAG, ONE_FILE;
    OneFileAssigned();
    PrintedLineLoops(t, a, [0, 1]);
    OneFileStolen(|PrintAll(t, a, [0, 1])|);
    OneFilePrinted();
  }
}
