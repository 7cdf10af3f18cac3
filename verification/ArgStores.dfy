// Which slot every value of a command line goes into, and which values are still there
// when the line has been matched.

module ArgStores {
  import opened Guest
  import opened Pieces
  import opened ArgReader
  import opened ArgMatch
  import opened ArgTokens
  import opened ArgTemplate
  import opened ArgPrint

  /** One value on its way into a slot. */
  datatype Put = Put(slot: nat, text: Bytes)

  /** The values of a line in its order, each with the slot it goes into.  Only the items,
      the names and kinds of the template and the place of the cursor decide it: what the
      slots hold does not. */
  function Puts(t: Template, items: seq<Item>, cursor: nat): (puts: seq<Put>)
    requires Closed(items)
    ensures forall p <- puts :: p.slot < |t|
    decreases |items|
  {
    var item := items[0];
    match item.kind
    case Nothing => []
    case Error => []
    case Equal => Puts(t, items[1..], cursor)
    case _ =>
      var used := Used(t, items);
      if used == |items| || TooMany(t, items[0], cursor) then []
      else HeadPut(t, items, cursor) + Puts(t, items[used..], CursorAfter(t, items[0], cursor))
  }

  /** A bare word for which no slot is left. */
  predicate TooMany(t: Template, item: Item, cursor: nat) {
    KeywordOf(t, item).None? && cursor >= |Positionals(t, |t|)|
  }

  /** What the item at the head of the list puts: a keyword its value, a bare word itself. */
  function HeadPut(t: Template, items: seq<Item>, cursor: nat): (puts: seq<Put>)
    requires Closed(items) && items[0].kind != Nothing
    ensures forall p <- puts :: p.slot < |t|
  {
    var keyword := KeywordOf(t, items[0]);
    var positional := Positionals(t, |t|);
    if keyword.Some? then
      if t[keyword.value].IsFlag() then [] else [Put(keyword.value, items[Used(t, items) - 1].text)]
    else if cursor < |positional| then
      assert positional[cursor] in positional;
      [Put(positional[cursor], items[0].text)]
    else []
  }

  /** A bare word moves the cursor on, except at a /M slot. */
  function CursorAfter(t: Template, item: Item, cursor: nat): nat {
    var positional := Positionals(t, |t|);
    if KeywordOf(t, item).Some? || cursor >= |positional| then cursor
    else
      assert positional[cursor] in positional;
      if t[positional[cursor]].kind == Multi then cursor else cursor + 1
  }

  /** The texts put into slot i, in line order. */
  function Texts(puts: seq<Put>, i: nat): seq<Bytes> {
    if puts == [] then []
    else (if puts[0].slot == i then [puts[0].text] else []) + Texts(puts[1..], i)
  }

  lemma {:induction false} TextsJoin(p: seq<Put>, q: seq<Put>, i: nat)
    ensures Texts(p + q, i) == Texts(p, i) + Texts(q, i)
  {
    if p == [] {
      assert p + q == q;
    } else {
      hide Texts;
      var first, rest := p[0], p[1..];
      TextsJoin(rest, q, i);
      assert p == [first] + rest && p + q == [first] + (rest + q);
      TextsStep(first, rest, i);
      TextsStep(first, rest + q, i);
      Grouped(if first.slot == i then [first.text] else [], Texts(rest, i), Texts(q, i));
    }
  }

  lemma Grouped(a: seq<Bytes>, b: seq<Bytes>, c: seq<Bytes>)
    ensures a + (b + c) == a + b + c
  {
  }

  lemma {:induction false} TextsStep(first: Put, rest: seq<Put>, i: nat)
    ensures Texts([first] + rest, i) == (if first.slot == i then [first.text] else []) + Texts(rest, i)
  {
    assert ([first] + rest)[1..] == rest;
  }

  /** `slot'` is `slot` after these texts: a /M slot has all of them behind what it had,
      any other slot only the last. */
  predicate HoldsLast(kind: ArgKind, slot: Slot, slot': Slot, texts: seq<Bytes>) {
    match kind
    case Multi => slot'.multi == slot.multi + texts
    case Number => if texts == [] then slot'.num == slot.num
                   else slot'.num.Some? && slot'.num == ParseNumber(texts[|texts| - 1])
    case _ => slot'.str == if texts == [] then slot.str else Some(texts[|texts| - 1])
  }

  /** The slot holds these texts, every one of them and nothing else. */
  predicate HoldsAll(kind: ArgKind, slot: Slot, texts: seq<Bytes>) {
    match kind
    case Multi => slot.multi == texts
    case Number => if texts == [] then slot.num.None?
                   else |texts| == 1 && slot.num.Some? && slot.num == ParseNumber(texts[0])
    case _ => if texts == [] then slot.str.None? else |texts| == 1 && slot.str == Some(texts[0])
  }

  lemma HoldsLastThen(kind: ArgKind, a: Slot, b: Slot, c: Slot, p: seq<Bytes>, q: seq<Bytes>)
    requires HoldsLast(kind, a, b, p) && HoldsLast(kind, b, c, q)
    ensures HoldsLast(kind, a, c, p + q)
  {
    hide ParseNumber;
  }

  /** One item taken: the slots hold what it puts, and the cursor moves as said. */
  lemma {:induction false} TakenHolds(t: Template, items: seq<Item>, slots: Slots, cursor: nat, i: nat)
    requires Closed(items) && items[0].kind != Nothing && |t| == |slots| && i < |t|
    requires TakeItems(t, items, slots, cursor).Go?
    ensures var step := TakeItems(t, items, slots, cursor);
            && step.cursor == CursorAfter(t, items[0], cursor) && !TooMany(t, items[0], cursor)
            && HoldsLast(t[i].kind, slots[i], step.slots[i], Texts(HeadPut(t, items, cursor), i))
  {
    hide ParseNumber, Positionals, KeywordOf, Used, Closed;
    var puts := HeadPut(t, items, cursor);
    if puts == [] {
      assert Texts(puts, i) == [];
    } else {
      assert puts[1..] == [];
      assert Texts(puts, i) == if puts[0].slot == i then [puts[0].text] else [];
    }
  }

  /** A line that matches leaves in every slot the values that went there: all of them in a
      /M slot, the last one in any other. */
  lemma {:induction false} LoopHolds(t: Template, items: seq<Item>, slots: Slots, cursor: nat, i: nat)
    requires Closed(items) && |t| == |slots| && i < |t| && LoopItems(t, items, slots, cursor).Matched?
    ensures |LoopItems(t, items, slots, cursor).slots| == |t|
    ensures HoldsLast(t[i].kind, slots[i], LoopItems(t, items, slots, cursor).slots[i],
                      Texts(Puts(t, items, cursor), i))
    decreases |items|
  {
    hide TakeItems, Used, HeadPut, CursorAfter, HoldsLast, TooMany;
    var item := items[0];
    if item.kind == Equal {
      LoopHolds(t, items[1..], slots, cursor, i);
    } else if item.kind == Nothing {
      NothingPut(t[i].kind, slots[i]);
    } else if item.kind != Error {
      var step := TakeItems(t, items, slots, cursor);
      var rest := items[Used(t, items)..];
      TakenHolds(t, items, slots, cursor, i);
      LoopHolds(t, rest, step.slots, step.cursor, i);
      var last := LoopItems(t, rest, step.slots, step.cursor).slots;
      TextsJoin(HeadPut(t, items, cursor), Puts(t, rest, step.cursor), i);
      HoldsLastThen(t[i].kind, slots[i], step.slots[i], last[i], Texts(HeadPut(t, items, cursor), i),
                    Texts(Puts(t, rest, step.cursor), i));
    }
  }

  lemma NothingPut(kind: ArgKind, slot: Slot)
    ensures HoldsLast(kind, slot, slot, [])
  {
  }

  // --- On the line ---

  /** What goes where on the line from `pos` on, for a template matched from the start. */
  function LinePuts(t: Template, buf: Bytes, pos: nat): (puts: seq<Put>)
    requires pos <= |buf|
    ensures forall p <- puts :: p.slot < |t|
  {
    Puts(t, Tokens(buf, pos), 0)
  }

  /** Slots that hold every value the line put into them. */
  ghost predicate NothingLost(t: Template, slots: Slots, puts: seq<Put>)
    requires |slots| == |t|
  {
    forall i :: 0 <= i < |t| ==> HoldsAll(t[i].kind, slots[i], Texts(puts, i))
  }

  /** No slot but a /M slot is put into more than once. */
  ghost predicate PutOnce(t: Template, puts: seq<Put>) {
    forall i :: 0 <= i < |t| && t[i].kind != Multi ==> |Texts(puts, i)| <= 1
  }

  lemma HoldsAllIff(kind: ArgKind, slot: Slot, texts: seq<Bytes>)
    requires HoldsLast(kind, EMPTY, slot, texts)
    ensures HoldsAll(kind, slot, texts) <==> kind == Multi || |texts| <= 1
  {
    hide ParseNumber;
    assert [] + texts == texts;
  }

  /** Without /F, a line that gets through the matching loop loses no value if and only if
      no slot other than a /M slot is put into twice; in any case a slot put into keeps the
      last value. */
  lemma {:induction false} NothingLostIff(t: Template, buf: Bytes, pos: nat)
    requires pos <= |buf| && FreeOfRest(t) && Loop(t, buf, pos, Blank(t), 0).Matched?
    ensures var slots := Loop(t, buf, pos, Blank(t), 0).slots;
            && (NothingLost(t, slots, LinePuts(t, buf, pos)) <==> PutOnce(t, LinePuts(t, buf, pos)))
            && forall i :: 0 <= i < |t| ==> HoldsLast(t[i].kind, EMPTY, slots[i], Texts(LinePuts(t, buf, pos), i))
  {
    hide Loop, LoopItems, Tokens, Puts, Texts, HoldsLast, HoldsAll, Closed, FreeOfRest;
    LoopIsItems(t, buf, pos, Blank(t), 0);
    var slots := Loop(t, buf, pos, Blank(t), 0).slots;
    var puts := LinePuts(t, buf, pos);
    forall i | 0 <= i < |t|
      ensures HoldsLast(t[i].kind, EMPTY, slots[i], Texts(puts, i))
      ensures HoldsAll(t[i].kind, slots[i], Texts(puts, i)) <==> t[i].kind == Multi || |Texts(puts, i)| <= 1
    {
      LoopHolds(t, Tokens(buf, pos), Blank(t), 0, i);
      HoldsAllIff(t[i].kind, slots[i], Texts(puts, i));
    }
  }

  // --- Unfinished quotes ---

  /** The items with an unfinished quote taken for a finished one. */
  function Finished(items: seq<Item>): (r: seq<Item>)
    ensures |r| == |items|
  {
    seq(|items|, i requires 0 <= i < |items| => if items[i].kind == Error then items[i].(kind := Quoted) else items[i])
  }

  /** An unfinished quote ends its line: only Nothing comes after it. */
  predicate QuoteLast(items: seq<Item>) {
    Closed(items) && forall i :: 0 <= i < |items| && items[i].kind == Error ==> i == |items| - 2
  }

  predicate Unfinished(items: seq<Item>) { exists i :: 0 <= i < |items| && items[i].kind == Error }

  /** Read in order, the last item of the list is the value of a keyword. */
  predicate EndsInValue(t: Template, items: seq<Item>)
    requires Closed(items)
    decreases |items|
  {
    match items[0].kind
    case Nothing => false
    case Error => false
    case Equal => EndsInValue(t, items[1..])
    case _ =>
      var used := Used(t, items);
      used < |items| && ((used > 1 && used == |items| - 1) || EndsInValue(t, items[used..]))
  }

  lemma FinishedClosed(items: seq<Item>)
    requires Closed(items)
    ensures Closed(Finished(items))
    ensures items[0].kind != Error ==> Finished(items)[0] == items[0]
    ensures forall k :: 0 <= k < |items| ==> Finished(items)[k..] == Finished(items[k..])
  {
  }

  /** The head of the list takes the same items, finished or not. */
  lemma {:induction false} HeadFinished(t: Template, items: seq<Item>, slots: Slots, cursor: nat)
    requires Closed(items) && |t| == |slots| && items[0].kind != Nothing && items[0].kind != Error
    ensures Closed(Finished(items)) && Used(t, Finished(items)) == Used(t, items)
    ensures TakeItems(t, Finished(items), slots, cursor) == TakeItems(t, items, slots, cursor)
  {
    hide ParseNumber, Positionals, KeywordOf, Closed;
    FinishedClosed(items);
    ClosedNext(items);
    ClosedNext(Finished(items));
    assert Finished(items)[1..][0] == Finished(items)[1];
  }

  lemma ClosedNext(items: seq<Item>)
    requires Closed(items) && items[0].kind != Nothing
    ensures |items| > 1 && Closed(items[1..])
  {
  }

  /** Where the last item is a keyword's value, an unfinished quote there is as good as a
      finished one; anywhere else it is refused. */
  lemma {:induction false} LoopFinished(t: Template, items: seq<Item>, slots: Slots, cursor: nat)
    requires QuoteLast(items) && |t| == |slots|
    ensures Closed(Finished(items))
    ensures EndsInValue(t, items) ==> LoopItems(t, items, slots, cursor) == LoopItems(t, Finished(items), slots, cursor)
    ensures Unfinished(items) && !EndsInValue(t, items) ==> LoopItems(t, items, slots, cursor).Refused?
    decreases |items|
  {
    hide TakeItems, Used;
    FinishedClosed(items);
    var kind := items[0].kind;
    if kind == Equal {
      LoopFinished(t, items[1..], slots, cursor);
    } else if kind != Nothing && kind != Error {
      HeadFinished(t, items, slots, cursor);
      var used := Used(t, items);
      var step := TakeItems(t, items, slots, cursor);
      if step.Go? {
        LoopFinished(t, items[used..], step.slots, step.cursor);
      }
    }
  }

  lemma {:induction false} TokensQuoteLast(buf: Bytes, pos: nat)
    requires pos <= |buf|
    ensures QuoteLast(Tokens(buf, pos))
    decreases |buf| - pos
  {
    hide ItemAt, Closed;
    var item := ItemAt(buf, pos);
    ItemAdvances(buf, pos);
    if item.kind != Nothing {
      NothingStays(buf, pos);
      TokensQuoteLast(buf, item.end);
      TokensAhead(buf, pos);
      TokensAhead(buf, item.end);
      QuoteLastThen(item, Tokens(buf, item.end));
    }
  }

  lemma QuoteLastThen(item: Item, rest: seq<Item>)
    requires QuoteLast(rest) && (item.kind == Error ==> |rest| == 1)
    requires Closed([item] + rest)
    ensures QuoteLast([item] + rest)
  {
  }

  /** Without /F, a line with an unfinished quote gets through the matching loop if and only
      if the quote is the value of a keyword and the line gets through as if the quote were
      finished; the text up to the end of the line is then the value. */
  lemma {:induction false} UnfinishedQuoteIff(t: Template, buf: Bytes, pos: nat)
    requires pos <= |buf| && FreeOfRest(t) && Unfinished(Tokens(buf, pos))
    ensures var items := Tokens(buf, pos);
            var r := Loop(t, buf, pos, Blank(t), 0);
            && Closed(Finished(items))
            && var whole := LoopItems(t, Finished(items), Blank(t), 0);
               (r.Matched? <==> EndsInValue(t, items) && whole.Matched?) && (r.Matched? ==> r == whole)
  {
    hide Loop, LoopItems, Tokens, EndsInValue, Finished, Unfinished, QuoteLast, FreeOfRest;
    TokensQuoteLast(buf, pos);
    LoopIsItems(t, buf, pos, Blank(t), 0);
    QuoteLastClosed(Tokens(buf, pos));
    LoopFinished(t, Tokens(buf, pos), Blank(t), 0);
  }

  lemma QuoteLastClosed(items: seq<Item>)
    requires QuoteLast(items)
    ensures Closed(items)
  {
  }

  // --- FindArg ---

  /** FindArg tells what the word does on a command line.  Where it names a slot, the word
flips the slot's flag, or asks for a value and puts it there and nowhere else (a /F slot
      its raw text, quotes and all); where it is -1, the word itself goes to the first slot that takes bare words. */
  lemma {:induction false} FindArgFills(template: Bytes, t: Template, word: Bytes, v: Bytes)
    requires ParseTemplate(template) == Some(t) && IsWord(word)
    ensures FindArg(template, word) < |t|
    ensures var i := FindArg(template, word);
            i >= 0 && t[i].IsFlag() ==>
              Loop(t, word, 0, Blank(t), 0) == Matched(Blank(t)[i := EMPTY.(flag := true)], |word|)
    ensures var i := FindArg(template, word);
            i >= 0 && !t[i].IsFlag() ==> Loop(t, word, 0, Blank(t), 0) == Refused(ERROR_KEY_NEEDS_ARG, |word|)
    ensures var i := FindArg(template, word);
            var line := word + ([EQUALS] + PrintQuoted(v));
            i >= 0 && !t[i].IsFlag() && t[i].kind != RestOfLine ==>
              Loop(t, line, 0, Blank(t), 0) == OnlyIn(t, i, v, |line|)
    ensures var i := FindArg(template, word);
            var line := word + ([EQUALS] + PrintQuoted(v));
            i >= 0 && t[i].kind == RestOfLine ==>
              Loop(t, line, 0, Blank(t), 0) == OnlyIn(t, i, PrintQuoted(v), |line|)
    ensures FindArg(template, word) < 0 ==> var positional := Positionals(t, |t|);
            && (positional == [] ==> Loop(t, word, 0, Blank(t), 0) == Refused(ERROR_TOO_MANY_ARGS, |word|))
            && (positional != [] ==>
                  positional[0] < |t| && Loop(t, word, 0, Blank(t), 0) == OnlyIn(t, positional[0], word, |word|))
  {
    hide ParseTemplate, ItemAt, FindKeyword, Positionals, PrintQuoted, Store, OnlyIn, Loop;
    WordAlone(t, word);
    var i := FindArg(template, word);
    if i >= 0 && !t[i].IsFlag() {
      ValueFills(t, i, word, v);
    }
  }

  /** One value in slot i and nothing else, unless it should be a number and is not. */
  function OnlyIn(t: Template, i: nat, text: Bytes, pos: nat): Outcome
    requires i < |t|
  {
    var slot := Store(t[i].kind, EMPTY, text);
    if slot.None? then Refused(ERROR_BAD_NUMBER, pos) else Matched(Blank(t)[i := slot.value], pos)
  }

  lemma {:induction false} WordAlone(t: Template, word: Bytes)
    requires IsWord(word)
    ensures var keyword := FindKeyword(t, word);
            var r := Loop(t, word, 0, Blank(t), 0);
            var positional := Positionals(t, |t|);
            if keyword.Some? then
              r == if t[keyword.value].IsFlag() then Matched(Blank(t)[keyword.value := EMPTY.(flag := true)], |word|)
                   else Refused(ERROR_KEY_NEEDS_ARG, |word|)
            else if positional == [] then r == Refused(ERROR_TOO_MANY_ARGS, |word|)
            else positional[0] < |t| && r == OnlyIn(t, positional[0], word, |word|)
  {
    hide ItemAt, FindKeyword, Positionals, Store, LineEnd;
    assert word == [] + word + [];
    WordRead([], word, []);
    EndRead(word);
    WordIsLine(word, 0);
    assert word[0..|word|] == word;
    var positional := Positionals(t, |t|);
    if positional != [] { assert positional[0] in positional; }
    EndLoops(t, word);
  }

  lemma EndRead(buf: Bytes)
    ensures ItemAt(buf, |buf|) == Item(Nothing, [], |buf|, |buf|)
  {
  }

  lemma {:induction false} EndLoops(t: Template, buf: Bytes)
    ensures forall slots: Slots, cursor: nat :: |slots| == |t| ==>
              Loop(t, buf, |buf|, slots, cursor) == Matched(slots, |buf|)
  {
    hide ItemAt;
    EndRead(buf);
  }

  lemma {:induction false} WordIsLine(word: Bytes, i: nat)
    requires IsWord(word) && i <= |word|
    ensures LineEnd(word, i) == |word|
  {
    var end := LineEnd(word, i);
    if end < |word| { assert word[end] in word && IsDelimiter(NEWLINE); }
  }

  lemma {:induction false} ValueFills(t: Template, i: nat, word: Bytes, v: Bytes)
    requires IsWord(word) && FindKeyword(t, word) == Some(i) && i < |t| && !t[i].IsFlag()
    ensures var line := word + ([EQUALS] + PrintQuoted(v));
            Loop(t, line, 0, Blank(t), 0)
            == OnlyIn(t, i, if t[i].kind == RestOfLine then PrintQuoted(v) else v, |line|)
  {
    hide ItemAt, ValueAt, FindKeyword, Store, PrintQuoted, Positionals, LineEnd;
    var value := [EQUALS] + PrintQuoted(v);
    var line := word + value;
    assert line == [] + word + value == word + value + [];
    WordRead([], word, value);
    QuotedValueRead(word, v, []);
    QuotedIsLine(word, v);
    EndLoops(t, line);
  }

  /** The text between quotes holds no newline, so the rest of the line is all of it. */
  lemma {:induction false} QuotedIsLine(word: Bytes, v: Bytes)
    ensures var line := word + ([EQUALS] + PrintQuoted(v));
            LineEnd(line, |word| + 1) == |line| && line[|word| + 1..|line|] == PrintQuoted(v)
  {
    hide LineEnd, Escape;
    EscapedOnLine(v);
    var line := word + ([EQUALS] + PrintQuoted(v));
    var text := PrintQuoted(v);
    forall j | |word| + 1 <= j < |line| ensures line[j] != NEWLINE {
      assert line[j] == text[j - |word| - 1] && text[j - |word| - 1] in text;
    }
    OneLine(line, |word| + 1);
  }

  lemma {:induction false} OneLine(buf: Bytes, pos: nat)
    requires pos <= |buf| && forall j :: pos <= j < |buf| ==> buf[j] != NEWLINE
    ensures LineEnd(buf, pos) == |buf|
  {
    var end := LineEnd(buf, pos);
  }

  lemma {:induction false} EscapedOnLine(v: Bytes)
    ensures NEWLINE !in Escape(v)
  {
    if v != [] { EscapedOnLine(v[1..]); }
  }

  // --- On two short lines ---

  const A: Bytes := [65]
  const B: Bytes := [66]
  const X: Bytes := [120]
  const Y: Bytes := [121]

  /** A plain string slot. */
  function Plain(name: Bytes): TemplateArg { TemplateArg([name], Str, false, false) }

  lemma PlainNames(name: Bytes)
    requires name == A || name == B
    ensures ProperNames(Plain(name)) && ToUpper(name) == name && IsWord(name)
  {
  }

  const TWO: Template := [Plain(A), Plain(B)]

  lemma TwoParsed()
    ensures ParseTemplate(A + [COMMA] + B) == Some(TWO)
  {
    hide ParseTemplate, ProperNames;
    PlainNames(A);
    PlainNames(B);
    TemplateReadsBack(TWO);
    assert PrintParts(TWO) == [A, B];
    assert Join([A, B][1..], COMMA) == B;
  }

  lemma TwoFind()
    ensures FindKeyword(TWO, A) == Some(0) && FindKeyword(TWO, Y).None? && FreeOfRest(TWO)
    ensures Positionals(TWO, |TWO|) == [0, 1]
  {
    assert ToUpper(A) == A && ToUpper(Y) == [89];
    assert TWO[1..] == [Plain(B)] && TWO[1..][1..] == [];
    assert Positionals(TWO, 1) == [0];
  }

  const LINE: Bytes := A + [EQUALS] + X + [SPACE] + Y

  const ITEMS: seq<Item> := [
    Item(Unquoted, A, 0, 1), Item(Equal, [], 1, 2), Item(Unquoted, X, 2, 3), Item(Unquoted, Y, 4, 5),
    Item(Nothing, [], 5, 5)]

  lemma LineItems()
    ensures ItemAt(LINE, 0) == ITEMS[0] && ItemAt(LINE, 1) == ITEMS[1] && ItemAt(LINE, 2) == ITEMS[2]
    ensures ItemAt(LINE, 3) == ITEMS[3] && ItemAt(LINE, 5) == ITEMS[4]
  {
    hide ItemAt;
    PlainNames(A);
    assert LINE == [] + A + ([EQUALS] + X + [SPACE] + Y);
    WordRead([], A, [EQUALS] + X + [SPACE] + Y);
    assert LINE == A + [EQUALS] + (X + [SPACE] + Y);
    EqualRead(A, X + [SPACE] + Y);
    assert LINE == (A + [EQUALS]) + X + ([SPACE] + Y);
    WordRead(A + [EQUALS], X, [SPACE] + Y);
    assert LINE == (A + [EQUALS] + X) + ([SPACE] + Y) + [];
    NameRead(A + [EQUALS] + X, Y, []);
    EndRead(LINE);
  }

  lemma LineTokens()
    ensures Tokens(LINE, 0) == ITEMS
  {
    hide ItemAt;
    LineItems();
    assert Tokens(LINE, 5) == ITEMS[4..];
    assert Tokens(LINE, 3) == ITEMS[3..];
    assert Tokens(LINE, 2) == ITEMS[2..];
    assert Tokens(LINE, 1) == ITEMS[1..];
  }

  lemma LineTaken()
    ensures Closed(ITEMS) && Puts(TWO, ITEMS, 0) == [Put(0, X), Put(0, Y)]
    ensures LoopItems(TWO, ITEMS, Blank(TWO), 0) == Matched([EMPTY.(str := Some(Y)), EMPTY], 5)
  {
    hide FindKeyword, Positionals;
    TwoFind();
    var slots := [EMPTY.(str := Some(X)), EMPTY];
    assert Blank(TWO)[0 := slots[0]] == slots;
    assert Closed(ITEMS[3..]) && ITEMS[3..][1..] == ITEMS[4..];
    assert Used(TWO, ITEMS) == 3;
    assert TakeItems(TWO, ITEMS, Blank(TWO), 0) == Go(slots, 0, 3);
    assert TakeItems(TWO, ITEMS[3..], slots, 0) == Go([EMPTY.(str := Some(Y)), EMPTY], 1, 5);
    assert HeadPut(TWO, ITEMS, 0) == [Put(0, X)] && HeadPut(TWO, ITEMS[3..], 0) == [Put(0, Y)];
    assert Puts(TWO, ITEMS[4..], 1) == [];
    var last := [EMPTY.(str := Some(Y)), EMPTY];
    assert LoopItems(TWO, ITEMS[4..], last, 1) == Matched(last, 5);
    assert LoopItems(TWO, ITEMS[3..], slots, 0) == Matched(last, 5);
  }

  lemma NothingRequired(slots: Slots, pos: nat)
    requires |slots| == 2
    ensures Finish(TWO, slots, pos) == Matched(slots, pos)
  {
    assert MultiIndex(TWO).None?;
  }

  /** `A=x y` for the template `A,B`: y takes the place of x, and B stays empty. */
  lemma KeywordThenWord()
    ensures ParseTemplate(A + [COMMA] + B) == Some(TWO)
    ensures MatchArgs(TWO, LINE, 0) == Matched([EMPTY.(str := Some(Y)), EMPTY], |LINE|)
    ensures LinePuts(TWO, LINE, 0) == [Put(0, X), Put(0, Y)]
  {
    hide ParseTemplate, Loop, LoopItems, Tokens, Puts, Finish, Closed, FindKeyword, Positionals, FreeOfRest;
    TwoParsed();
    TwoFind();
    LineTokens();
    LineTaken();
    LoopIsItems(TWO, LINE, 0, Blank(TWO), 0);
    NothingRequired([EMPTY.(str := Some(Y)), EMPTY], |LINE|);
  }

  /** `A="x` for the template `A,B`: the unfinished quote is taken. */
  lemma UnfinishedTaken()
    ensures var line := A + [EQUALS] + [QUOTE] + X;
            && Unfinished(Tokens(line, 0))
            && MatchArgs(TWO, line, 0) == Matched([EMPTY.(str := Some(X)), EMPTY], |line|)
  {
    hide ItemAt, FindKeyword, Finish;
    var line := A + [EQUALS] + [QUOTE] + X;
    PlainNames(A);
    TwoFind();
    assert line == [] + A + ([EQUALS] + [QUOTE] + X);
    WordRead([], A, [EQUALS] + [QUOTE] + X);
    assert line == A + [EQUALS] + ([QUOTE] + X);
    EqualRead(A, [QUOTE] + X);
    OpenRead(line);
    EndRead(line);
    var slots := [EMPTY.(str := Some(X)), EMPTY];
    assert Blank(TWO)[0 := slots[0]] == slots;
    assert ValueAt(line, 1) == Item(Error, X, 2, 4);
    assert Loop(TWO, line, 4, slots, 0) == Matched(slots, 4);
    assert Tokens(line, 2)[0].kind == Error && Tokens(line, 1)[1].kind == Error && Tokens(line, 0)[2].kind == Error;
    NothingRequired(slots, 4);
  }

  lemma OpenRead(line: Bytes)
    requires line == A + [EQUALS] + [QUOTE] + X
    ensures ItemAt(line, 2) == Item(Error, X, 2, 4)
  {
    assert QuotedBody(line, 4) == Body(false, [], 4);
    assert QuotedBody(line, 3) == Body(false, X, 4);
  }
}
