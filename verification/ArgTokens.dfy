// A command line as the list of its items, and what that list alone decides.

module ArgTokens {
  import opened Guest
  import opened ArgReader
  import opened ArgMatch

  /** The items from `pos` on, up to and including the Nothing that ends them. */
  function Tokens(buf: Bytes, pos: nat): (items: seq<Item>)
    requires pos <= |buf|
    ensures Closed(items)
    decreases |buf| - pos
  {
    var item := ItemAt(buf, pos);
    ItemAdvances(buf, pos);
    if item.kind == Nothing then [item] else [item] + Tokens(buf, item.end)
  }

  /** Nothing ends the list and occurs nowhere else in it. */
  predicate Closed(items: seq<Item>) {
    && items != [] && items[|items| - 1].kind == Nothing
    && forall i :: 0 <= i < |items| - 1 ==> items[i].kind != Nothing
  }

  /** What ReadValue finds at the head of a list, and how many items it used. */
  function ValueIndex(items: seq<Item>): (n: nat)
    requires Closed(items)
    ensures n < |items|
  {
    if items[0].kind == Equal then 1 else 0
  }

  predicate FreeOfRest(t: Template) { forall a <- t :: a.kind != RestOfLine }

  /** The matching loop on items.  `LoopIsItems` shows it is the loop on the line. */
  function LoopItems(t: Template, items: seq<Item>, slots: Slots, cursor: nat): Outcome
    requires |t| == |slots| && Closed(items)
    decreases |items|
  {
    var item := items[0];
    match item.kind
    case Nothing => Matched(slots, item.end)
    case Error => Refused(ERROR_UNMATCHED_QUOTES, item.end)
    case Equal => LoopItems(t, items[1..], slots, cursor)
    case _ =>
      var used := Used(t, items);
      var step := TakeItems(t, items, slots, cursor);
      if step.Halt? then Refused(step.error, step.pos)
      else LoopItems(t, items[used..], step.slots, step.cursor)
  }

  /** How many items the head of the list takes: itself, and a keyword's value. */
  function Used(t: Template, items: seq<Item>): (n: nat)
    requires Closed(items) && items[0].kind != Nothing
    ensures 0 < n <= |items|
    ensures n == |items| ==> items[n - 1].kind == Nothing
  {
    var keyword := KeywordOf(t, items[0]);
    if keyword.Some? && !t[keyword.value].IsFlag() then 2 + ValueIndex(items[1..]) else 1
  }

  function TakeItems(t: Template, items: seq<Item>, slots: Slots, cursor: nat): (step: Step)
    requires |t| == |slots| && Closed(items) && items[0].kind != Nothing
    ensures step.Go? ==> |step.slots| == |t| && Used(t, items) < |items|
  {
    var keyword := KeywordOf(t, items[0]);
    if keyword.Some? then
      var i := keyword.value;
      if t[i].IsFlag() then Go(slots[i := Flip(t[i].kind, slots[i])], cursor, items[0].end)
      else
        var value := items[Used(t, items) - 1];
        if value.kind == Nothing then Halt(ERROR_KEY_NEEDS_ARG, value.end)
        else StoreAt(t, i, slots, value.text, cursor, value.end)
    else
      var positional := Positionals(t, |t|);
      if cursor >= |positional| then Halt(ERROR_TOO_MANY_ARGS, items[0].end)
      else
        var i := positional[cursor];
        assert i in positional;
        StoreAt(t, i, slots, items[0].text, if t[i].kind == Multi then cursor else cursor + 1, items[0].end)
  }

  lemma {:induction false} TakeIsItems(t: Template, buf: Bytes, pos: nat, slots: Slots, cursor: nat)
    requires |t| == |slots| && pos <= |buf| && FreeOfRest(t)
    requires ItemAt(buf, pos).kind == Unquoted || ItemAt(buf, pos).kind == Quoted
    ensures var items := Tokens(buf, pos);
            var step := Take(t, buf, ItemAt(buf, pos), slots, cursor);
            && step == TakeItems(t, items, slots, cursor)
            && (step.Go? ==> step.pos <= |buf| && items[Used(t, items)..] == Tokens(buf, step.pos))
  {
    hide FindKeyword, ItemAt, Store, Tokens, Closed;
    var item := ItemAt(buf, pos);
    TokensAhead(buf, pos);
    var next := ItemAt(buf, item.end);
    TokensAhead(buf, item.end);
    if next.kind != Nothing {
      TokensAhead(buf, next.end);
      Shifted(Tokens(buf, pos), item, Tokens(buf, item.end), next, Tokens(buf, next.end));
    }
  }

  /** The items from a position: the first one, and those after it. */
  lemma {:induction false} TokensAhead(buf: Bytes, pos: nat)
    requires pos <= |buf|
    ensures var item := ItemAt(buf, pos);
            && item.end <= |buf| && Tokens(buf, pos) != [] && Tokens(buf, pos)[0] == item
            && (if item.kind == Nothing then |Tokens(buf, pos)| == 1
               else Tokens(buf, pos)[1..] == Tokens(buf, item.end) && |Tokens(buf, pos)| >= 2
                    && Tokens(buf, pos)[1] == ItemAt(buf, item.end))
  {
    hide ItemAt;
    ItemAdvances(buf, pos);
  }

  lemma Shifted(all: seq<Item>, first: Item, rest: seq<Item>, second: Item, last: seq<Item>)
    requires |all| >= 2 && |rest| >= 2 && all[1..] == rest && rest[1..] == last
    ensures all[2] == rest[1] && all[2..] == last
    ensures |all| > 2 ==> all[3..] == last[1..]
  {
  }

  /** Without /F, the loop depends on the line only through its items. */
  lemma {:induction false} LoopIsItems(t: Template, buf: Bytes, pos: nat, slots: Slots, cursor: nat)
    requires |t| == |slots| && pos <= |buf| && FreeOfRest(t)
    ensures Loop(t, buf, pos, slots, cursor) == LoopItems(t, Tokens(buf, pos), slots, cursor)
    decreases |buf| - pos
  {
    hide Take, TakeItems, Used, ItemAt;
    var item := ItemAt(buf, pos);
    ItemAdvances(buf, pos);
    if item.kind == Equal {
      assert Tokens(buf, pos)[1..] == Tokens(buf, item.end);
      LoopIsItems(t, buf, item.end, slots, cursor);
    } else if item.kind == Unquoted || item.kind == Quoted {
      TakeIsItems(t, buf, pos, slots, cursor);
      TakeAdvances(t, buf, pos, slots, cursor);
      var step := Take(t, buf, item, slots, cursor);
      if step.Go? {
        LoopIsItems(t, buf, step.pos, step.slots, step.cursor);
      }
    }
  }
}
