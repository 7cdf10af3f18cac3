// What the flags of a line come to.

module ArgSwitches {
  import opened Guest
  import opened ArgReader
  import opened ArgMatch
  import opened ArgTokens

  /** How often a line names the flag i, keywords' values aside. */
  function Mentions(t: Template, items: seq<Item>, i: nat): nat
    requires Closed(items)
    decreases |items|
  {
    match items[0].kind
    case Nothing => 0
    case Error => 0
    case Equal => Mentions(t, items[1..], i)
    case _ =>
      var used := Used(t, items);
      if used == |items| then 0
      else (if KeywordOf(t, items[0]) == Some(i) then 1 else 0) + Mentions(t, items[used..], i)
  }

  /** The flag of a slot that had `before`, after n mentions: a /S slot's is set by any, a /T
      slot's changes with each, and no other slot's changes. */
  predicate FlagAfter(kind: ArgKind, before: bool, n: nat, after: bool) {
    after == match kind
             case Switch => before || n > 0
             case Toggle => before != (n % 2 == 1)
             case _ => before
  }

  lemma FlagThen(kind: ArgKind, a: bool, b: bool, c: bool, m: nat, n: nat)
    requires FlagAfter(kind, a, m, b) && FlagAfter(kind, b, n, c)
    ensures FlagAfter(kind, a, m + n, c)
  {
  }

  lemma {:induction false} TakenFlag(t: Template, items: seq<Item>, slots: Slots, cursor: nat, i: nat)
    requires Closed(items) && items[0].kind != Nothing && |t| == |slots| && i < |t|
    requires TakeItems(t, items, slots, cursor).Go?
    ensures FlagAfter(t[i].kind, slots[i].flag, if KeywordOf(t, items[0]) == Some(i) then 1 else 0,
                      TakeItems(t, items, slots, cursor).slots[i].flag)
  {
    hide ParseNumber, Positionals, KeywordOf, Used, Closed;
  }

  lemma {:induction false} LoopFlag(t: Template, items: seq<Item>, slots: Slots, cursor: nat, i: nat)
    requires Closed(items) && |t| == |slots| && i < |t| && LoopItems(t, items, slots, cursor).Matched?
    ensures |LoopItems(t, items, slots, cursor).slots| == |t|
    ensures FlagAfter(t[i].kind, slots[i].flag, Mentions(t, items, i), LoopItems(t, items, slots, cursor).slots[i].flag)
    decreases |items|
  {
    hide TakeItems, Used, FlagAfter, KeywordOf;
    var item := items[0];
    if item.kind == Equal {
      LoopFlag(t, items[1..], slots, cursor, i);
    } else if item.kind == Nothing {
      NoMention(t[i].kind, slots[i].flag);
    } else if item.kind != Error {
      TakenFlag(t, items, slots, cursor, i);
      var step := TakeItems(t, items, slots, cursor);
      var rest := items[Used(t, items)..];
      LoopFlag(t, rest, step.slots, step.cursor, i);
      FlagThen(t[i].kind, slots[i].flag, step.slots[i].flag, LoopItems(t, rest, step.slots, step.cursor).slots[i].flag,
               if KeywordOf(t, item) == Some(i) then 1 else 0, Mentions(t, rest, i));
    }
  }

  lemma NoMention(kind: ArgKind, flag: bool)
    ensures FlagAfter(kind, flag, 0, flag)
  {
  }

  lemma {:induction false} BorrowKeepsFlags(t: Template, slots: Slots, m: nat, i: nat, k: nat)
    requires m < i <= |t| == |slots| && k < |t| && BorrowFrom(t, slots, m, i).Some?
    ensures BorrowFrom(t, slots, m, i).value[k].flag == slots[k].flag
    decreases |t| - i
  {
    hide ParseNumber, AlreadyFilled;
    if i < |t| {
      if Borrows(t, slots, m, i) {
        var multi := slots[m].multi;
        var slot := StoreBorrowed(t[i].kind, slots[i], multi[|multi| - 1]).value;
        BorrowKeepsFlags(t, slots[m := slots[m].(multi := multi[..|multi| - 1])][i := slot], m, i + 1, k);
      } else {
        BorrowKeepsFlags(t, slots, m, i + 1, k);
      }
    }
  }

  /** Without /F, a line that matches leaves a /S flag set if and only if it names the flag, a
      /T flag if and only if it names it an odd number of times, and no other slot a flag. */
  lemma {:induction false} FlagsCounted(t: Template, buf: Bytes, pos: nat, i: nat)
    requires pos <= |buf| && FreeOfRest(t) && i < |t| && MatchArgs(t, buf, pos).Matched?
    ensures |MatchArgs(t, buf, pos).slots| == |t|
    ensures var n := Mentions(t, Tokens(buf, pos), i);
            MatchArgs(t, buf, pos).slots[i].flag ==
            (if t[i].kind == Switch then n > 0 else t[i].kind == Toggle && n % 2 == 1)
  {
    hide Loop, LoopItems, Tokens, BorrowFrom, AllFilled, MultiIndex, Closed, FreeOfRest, Mentions;
    LoopIsItems(t, buf, pos, Blank(t), 0);
    LoopFlag(t, Tokens(buf, pos), Blank(t), 0, i);
    if MultiIndex(t).Some? {
      var m := MultiIndex(t).value;
      BorrowKeepsFlags(t, Loop(t, buf, pos, Blank(t), 0).slots, m, m + 1, i);
    }
  }
}
