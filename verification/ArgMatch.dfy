// Matching a command line against a ReadArgs template.

module ArgMatch {
  import opened Guest
  import opened ArgReader

  const ERROR_BAD_NUMBER: ErrorCode := 115
  const ERROR_REQUIRED_ARG_MISSING: ErrorCode := 116
  const ERROR_KEY_NEEDS_ARG: ErrorCode := 117
  const ERROR_TOO_MANY_ARGS: ErrorCode := 118
  const ERROR_UNMATCHED_QUOTES: ErrorCode := 119

  datatype ArgKind = Str | Switch | Toggle | Number | Multi | RestOfLine

  datatype TemplateArg = TemplateArg(names: seq<Bytes>, kind: ArgKind, keywordOnly: bool, required: bool)
  {
    predicate IsFlag() { kind == Switch || kind == Toggle }
  }

  type Template = seq<TemplateArg>

  datatype Slot = Slot(str: Option<Bytes>, num: Option<int>, flag: bool, multi: seq<Bytes>)

  const EMPTY: Slot := Slot(None, None, false, [])

  type Slots = seq<Slot>

  datatype Outcome = Matched(slots: Slots, pos: nat) | Refused(error: ErrorCode, pos: nat)

  // --- Words and numbers ---

  predicate IsDigit(b: byte) { 48 <= b <= 57 }

  predicate AllDigits(text: Bytes) { forall b <- text :: IsDigit(b) }

  function DigitsValue(text: Bytes): nat
    requires AllDigits(text)
  {
    if text == [] then 0
    else
      assert text[|text| - 1] in text;
      DigitsValue(text[..|text| - 1]) * 10 + (text[|text| - 1] as int - 48)
  }

  const PLUS: byte := 43
  const MINUS: byte := 45

  function InRange(n: int): Option<int> {
    if -0x8000_0000 <= n <= 0x7fff_ffff then Some(n) else None
  }

  /** A signed 32-bit decimal: an optional sign, then one or more digits. */
  function ParseNumber(text: Bytes): Option<int> {
    if text == [] then None
    else
      var signed := text[0] == PLUS || text[0] == MINUS;
      var digits := if signed then text[1..] else text;
      if digits == [] || !AllDigits(digits) then None
      else InRange(if text[0] == MINUS then 0 - DigitsValue(digits) else DigitsValue(digits))
  }

  // --- Slots ---

  /** The first slot one of whose names is `text`, case aside. */
  function FindKeyword(t: Template, text: Bytes): (r: Option<nat>)
    ensures r.Some? ==> r.value < |t| && ToUpper(text) in t[r.value].names
    ensures r.None? ==> forall a <- t :: ToUpper(text) !in a.names
    ensures r.Some? ==> forall i :: 0 <= i < r.value ==> ToUpper(text) !in t[i].names
  {
    if t == [] then None
    else if ToUpper(text) in t[0].names then Some(0)
    else match FindKeyword(t[1..], text)
      case Some(i) => Some(i + 1)
      case None =>
        assert forall a <- t :: a == t[0] || a in t[1..];
        None
  }

  predicate Positional(arg: TemplateArg) { !arg.keywordOnly && !arg.IsFlag() }

  /** The slots a bare word can fill, in template order, among the first n. */
  function Positionals(t: Template, n: nat): (r: seq<nat>)
    requires n <= |t|
    ensures forall i <- r :: i < n && Positional(t[i])
  {
    if n == 0 then [] else Positionals(t, n - 1) + if Positional(t[n - 1]) then [n - 1] else []
  }

  /** A slot with one more value in it, unless it is a number and the text is not. */
  function Store(kind: ArgKind, slot: Slot, text: Bytes): Option<Slot> {
    match kind
    case Number => if ParseNumber(text).Some? then Some(slot.(num := ParseNumber(text))) else None
    case Multi => Some(slot.(multi := slot.multi + [text]))
    case _ => Some(slot.(str := Some(text)))
  }

  function Flip(kind: ArgKind, slot: Slot): Slot {
    slot.(flag := kind == Switch || !slot.flag)
  }

  // --- One item ---

  datatype Step = Go(slots: Slots, cursor: nat, pos: nat) | Halt(error: ErrorCode, pos: nat)

  /** The value a slot takes from an item: its text, or all the rest of the line. */
  function ValueText(kind: ArgKind, buf: Bytes, item: Item): Bytes
    requires item.start <= |buf|
  {
    if kind == RestOfLine then buf[item.start..LineEnd(buf, item.start)] else item.text
  }

  function ValueEnd(kind: ArgKind, buf: Bytes, item: Item): nat
    requires item.start <= |buf|
  {
    if kind == RestOfLine then LineEnd(buf, item.start) else item.end
  }

  function StoreAt(t: Template, i: nat, slots: Slots, text: Bytes, cursor: nat, pos: nat): Step
    requires i < |t| == |slots|
  {
    var slot := Store(t[i].kind, slots[i], text);
    if slot.None? then Halt(ERROR_BAD_NUMBER, pos) else Go(slots[i := slot.value], cursor, pos)
  }

  /** A keyword: a flag flips in place, anything else takes the next item. */
  function TakeKeyword(t: Template, i: nat, buf: Bytes, item: Item, slots: Slots, cursor: nat): Step
    requires i < |t| == |slots| && item.end <= |buf|
  {
    if t[i].IsFlag() then Go(slots[i := Flip(t[i].kind, slots[i])], cursor, item.end)
    else
      var value := ValueAt(buf, item.end);
      if value.kind == Nothing then Halt(ERROR_KEY_NEEDS_ARG, value.end)
      else StoreAt(t, i, slots, ValueText(t[i].kind, buf, value), cursor, ValueEnd(t[i].kind, buf, value))
  }

  /** A bare word fills the slot at the cursor, which stays at a /M slot. */
  function TakePositional(t: Template, buf: Bytes, item: Item, slots: Slots, cursor: nat): Step
    requires |t| == |slots| && item.start <= |buf|
  {
    var positional := Positionals(t, |t|);
    if cursor >= |positional| then Halt(ERROR_TOO_MANY_ARGS, item.end)
    else
      var i := positional[cursor];
      assert i in positional;
      StoreAt(t, i, slots, ValueText(t[i].kind, buf, item),
              if t[i].kind == Multi then cursor else cursor + 1, ValueEnd(t[i].kind, buf, item))
  }

  /** The keyword an item names; a quoted item never does. */
  function KeywordOf(t: Template, item: Item): (r: Option<nat>)
    ensures r.Some? ==> r.value < |t|
  {
    if item.kind == Unquoted then FindKeyword(t, item.text) else None
  }

  function Take(t: Template, buf: Bytes, item: Item, slots: Slots, cursor: nat): Step
    requires |t| == |slots| && item.start <= item.end <= |buf|
  {
    var keyword := KeywordOf(t, item);
    if keyword.Some? then TakeKeyword(t, keyword.value, buf, item, slots, cursor)
    else TakePositional(t, buf, item, slots, cursor)
  }

  /** Taking an item moves the cursor on, never back; the line's length bounds it. */
  lemma TakeAdvances(t: Template, buf: Bytes, pos: nat, slots: Slots, cursor: nat)
    requires |t| == |slots| && pos <= |buf|
    requires ItemAt(buf, pos).kind == Unquoted || ItemAt(buf, pos).kind == Quoted
    ensures var step := Take(t, buf, ItemAt(buf, pos), slots, cursor);
            pos < step.pos <= |buf| && (step.Go? ==> |step.slots| == |t|)
  {
    hide FindKeyword, Store, LineEnd, ItemAt;
    var item := ItemAt(buf, pos);
    ItemAdvances(buf, pos);
    ItemStaysOnLine(buf, pos);
    var value := ItemAt(buf, item.end);
    ItemStaysOnLine(buf, item.end);
    ItemStaysOnLine(buf, value.end);
  }

  // --- The whole line ---

  function Loop(t: Template, buf: Bytes, pos: nat, slots: Slots, cursor: nat): (r: Outcome)
    requires |t| == |slots| && pos <= |buf|
    ensures r.pos <= |buf| && (r.Matched? ==> |r.slots| == |t|)
    decreases |buf| - pos
  {
    var item := ItemAt(buf, pos);
    ItemAdvances(buf, pos);
    match item.kind
    case Nothing => Matched(slots, item.end)
    case Error => Refused(ERROR_UNMATCHED_QUOTES, item.end)
    case Equal => Loop(t, buf, item.end, slots, cursor)
    case _ =>
      TakeAdvances(t, buf, pos, slots, cursor);
      match Take(t, buf, item, slots, cursor)
      case Halt(code, end) => Refused(code, end)
      case Go(slots', cursor', end) => Loop(t, buf, end, slots', cursor')
  }

  /** The slot that takes several values, if there is one. */
  function MultiIndex(t: Template): (r: Option<nat>)
    ensures r.Some? ==> r.value < |t| && t[r.value].kind == Multi
    ensures r.Some? ==> forall i :: 0 <= i < r.value ==> t[i].kind != Multi
    ensures r.None? ==> forall a <- t :: a.kind != Multi
  {
    if t == [] then None
    else if t[0].kind == Multi then Some(0)
    else match MultiIndex(t[1..])
      case Some(i) => Some(i + 1)
      case None =>
        assert forall a <- t :: a == t[0] || a in t[1..];
        None
  }

  predicate AlreadyFilled(arg: TemplateArg, slot: Slot) {
    if arg.kind == Number then slot.num.Some? else slot.str.Some?
  }

  /** The slot at i takes the last value of the /M slot m. */
  predicate Borrows(t: Template, slots: Slots, m: nat, i: nat)
    requires m < |t| == |slots| && i < |t|
  {
    t[i].required && t[i].kind != Multi && !AlreadyFilled(t[i], slots[i]) && slots[m].multi != []
  }

  /** A borrowed value goes into a number or, for every other kind, into the string. */
  function StoreBorrowed(kind: ArgKind, slot: Slot, text: Bytes): Option<Slot> {
    if kind == Number then Store(Number, slot, text) else Some(slot.(str := Some(text)))
  }

  /** Slots i and later borrow in template order; None when a number cannot be read. */
  function BorrowFrom(t: Template, slots: Slots, m: nat, i: nat): (r: Option<Slots>)
    requires m < i <= |t| == |slots|
    ensures r.Some? ==> |r.value| == |t|
    decreases |t| - i
  {
    if i == |t| then Some(slots)
    else if !Borrows(t, slots, m, i) then BorrowFrom(t, slots, m, i + 1)
    else
      var multi := slots[m].multi;
      var slot := StoreBorrowed(t[i].kind, slots[i], multi[|multi| - 1]);
      if slot.None? then None
      else BorrowFrom(t, slots[m := slots[m].(multi := multi[..|multi| - 1])][i := slot.value], m, i + 1)
  }

  predicate Filled(arg: TemplateArg, slot: Slot) {
    match arg.kind
    case Switch => true
    case Toggle => true
    case Multi => slot.multi != []
    case Number => slot.num.Some?
    case _ => slot.str.Some?
  }

  predicate AllFilled(t: Template, slots: Slots)
    requires |t| == |slots|
  {
    forall i :: 0 <= i < |t| && t[i].required ==> Filled(t[i], slots[i])
  }

  /** The end of a match: borrowing, then the required slots. */
  function Finish(t: Template, slots: Slots, pos: nat): Outcome
    requires |t| == |slots|
  {
    var m := MultiIndex(t);
    var borrowed := if m.Some? then BorrowFrom(t, slots, m.value, m.value + 1) else Some(slots);
    if borrowed.None? then Refused(ERROR_BAD_NUMBER, pos)
    else if !AllFilled(t, borrowed.value) then Refused(ERROR_REQUIRED_ARG_MISSING, pos)
    else Matched(borrowed.value, pos)
  }

  function Blank(t: Template): Slots { seq(|t|, i => EMPTY) }

  /** What match_args makes of the line from `pos` on. */
  function MatchArgs(t: Template, buf: Bytes, pos: nat): Outcome
    requires pos <= |buf|
  {
    match Loop(t, buf, pos, Blank(t), 0)
    case Refused(code, end) => Refused(code, end)
    case Matched(slots, end) => Finish(t, slots, end)
  }

  // --- The matcher as it runs ---

  method RunMatchArgs(reader: Reader, t: Template) returns (r: Outcome)
    requires reader.Valid()
    modifies reader
    ensures reader.Valid() && reader.pos == r.pos
    ensures r == MatchArgs(t, reader.buf, old(reader.pos))
  {
    hide FindKeyword, Finish, Store, LineEnd;
    var slots := Blank(t);
    var positional := Positionals(t, |t|);
    var cursor := 0;
    while true
      invariant reader.Valid() && |slots| == |t|
      invariant Loop(t, reader.buf, reader.pos, slots, cursor) == Loop(t, reader.buf, old(reader.pos), Blank(t), 0)
      decreases |reader.buf| - reader.pos
    {
      ghost var start := reader.pos;
      ghost var before := slots;
      ItemAdvances(reader.buf, start);
      var kind, text := reader.ReadItem();
      if kind == Nothing {
        break;
      }
      if kind == Error {
        return Refused(ERROR_UNMATCHED_QUOTES, reader.pos);
      }
      if kind == Equal {
        continue;
      }
      TakeAdvances(t, reader.buf, start, slots, cursor);
      var step := TakeItem(reader, t, positional, kind, text, slots, cursor, start);
      if step.Halt? {
        return Refused(step.error, reader.pos);
      }
      slots, cursor := step.slots, step.cursor;
    }
    r := FinishMatch(t, slots, reader.pos);
  }

  /** Puts the item just read, and the value it may need, into its slot. */
  method TakeItem(reader: Reader, t: Template, positional: seq<nat>, kind: Kind, text: Bytes, slots: Slots,
                  cursor: nat, ghost start: nat) returns (step: Step)
    requires reader.Valid() && |slots| == |t| && start <= |reader.buf|
    requires positional == Positionals(t, |t|)
    requires ItemAt(reader.buf, start) == Item(kind, text, reader.lastItemStart, reader.pos)
    modifies reader
    ensures reader.Valid()
    ensures step == Take(t, reader.buf, ItemAt(reader.buf, start), slots, cursor) && reader.pos == step.pos
  {
    hide FindKeyword, LineEnd, ItemAt, Store, Positionals;
    ItemStaysOnLine(reader.buf, start);
    var matched := if kind == Unquoted then FindKeyword(t, text) else None;
    if matched.Some? {
      var i := matched.value;
      if t[i].IsFlag() {
        return Go(slots[i := Flip(t[i].kind, slots[i])], cursor, reader.pos);
      }
      ghost var from := reader.pos;
      ItemStaysOnLine(reader.buf, from);
      ItemStaysOnLine(reader.buf, ItemAt(reader.buf, from).end);
      var vk, vtext := reader.ReadValue();
      if vk == Nothing {
        return Halt(ERROR_KEY_NEEDS_ARG, reader.pos);
      }
      if t[i].kind == RestOfLine {
        vtext := reader.RestOfLineFromLastItem();
      }
      return StoreAt(t, i, slots, vtext, cursor, reader.pos);
    }
    if cursor >= |positional| {
      return Halt(ERROR_TOO_MANY_ARGS, reader.pos);
    }
    var i := positional[cursor];
    assert i in positional;
    var value := text;
    if t[i].kind == RestOfLine {
      value := reader.RestOfLineFromLastItem();
    }
    step := StoreAt(t, i, slots, value, if t[i].kind == Multi then cursor else cursor + 1, reader.pos);
  }

  /** Borrowing and the check of the required slots. */
  method FinishMatch(t: Template, found: Slots, pos: nat) returns (r: Outcome)
    requires |found| == |t|
    ensures r == Finish(t, found, pos) && r.pos == pos
  {
    hide MultiIndex, ParseNumber;
    var slots := found;
    var m := MultiIndex(t);
    if m.Some? {
      var i := m.value + 1;
      while i < |t|
        invariant m.value < i <= |t| == |slots|
        invariant BorrowFrom(t, slots, m.value, i) == BorrowFrom(t, found, m.value, m.value + 1)
      {
        if Borrows(t, slots, m.value, i) {
          var multi := slots[m.value].multi;
          var slot := StoreBorrowed(t[i].kind, slots[i], multi[|multi| - 1]);
          if slot.None? {
            return Refused(ERROR_BAD_NUMBER, pos);
          }
          slots := slots[m.value := slots[m.value].(multi := multi[..|multi| - 1])][i := slot.value];
        }
        i := i + 1;
      }
    }
    var j := 0;
    while j < |t|
      invariant 0 <= j <= |t|
      invariant forall i :: 0 <= i < j && t[i].required ==> Filled(t[i], slots[i])
    {
      if t[j].required && !Filled(t[j], slots[j]) {
        return Refused(ERROR_REQUIRED_ARG_MISSING, pos);
      }
      j := j + 1;
    }
    r := Matched(slots, pos);
  }
}
