// Where a match leaves the cursor, and which templates can never be given too much.

module ArgProgress {
  import opened Guest
  import opened ArgReader
  import opened ArgMatch

  lemma {:induction false} LoopEndsAtNothing(t: Template, buf: Bytes, pos: nat, slots: Slots, cursor: nat)
    requires |t| == |slots| && pos <= |buf|
    ensures var r := Loop(t, buf, pos, slots, cursor);
            pos <= r.pos <= |buf| && (r.Matched? ==> ItemAt(buf, r.pos) == Item(Nothing, [], r.pos, r.pos))
    decreases |buf| - pos
  {
    hide Take, ItemAt;
    var item := ItemAt(buf, pos);
    ItemAdvances(buf, pos);
    NothingStays(buf, pos);
    if item.kind == Equal {
      LoopEndsAtNothing(t, buf, item.end, slots, cursor);
    } else if item.kind == Unquoted || item.kind == Quoted {
      TakeAdvances(t, buf, pos, slots, cursor);
      var step := Take(t, buf, item, slots, cursor);
      if step.Go? {
        LoopEndsAtNothing(t, buf, step.pos, step.slots, step.cursor);
      }
    }
  }

  /** The cursor never moves back, and after a match there is nothing left: whatever
      template comes next, it sees an empty line and leaves the cursor where it is. */
  lemma NextReadSeesEmptyLine(t: Template, buf: Bytes, pos: nat, t': Template)
    requires pos <= |buf|
    ensures var r := MatchArgs(t, buf, pos);
            && pos <= r.pos <= |buf|
            && (r.Matched? ==> MatchArgs(t', buf, r.pos) == Finish(t', Blank(t'), r.pos))
  {
    hide ItemAt, Take, AllFilled, BorrowFrom;
    LoopEndsAtNothing(t, buf, pos, Blank(t), 0);
  }

  lemma {:induction false} PositionalListed(t: Template, n: nat, m: nat) returns (c: nat)
    requires m < n <= |t| && Positional(t[m])
    ensures c < |Positionals(t, n)| && Positionals(t, n)[c] == m
  {
    if n - 1 == m {
      c := |Positionals(t, n - 1)|;
    } else {
      c := PositionalListed(t, n - 1, m);
    }
  }

  lemma {:induction false} LoopNeverTooMany(t: Template, buf: Bytes, pos: nat, slots: Slots, cursor: nat, c: nat)
    requires |t| == |slots| && pos <= |buf|
    requires cursor <= c < |Positionals(t, |t|)|
    requires Positionals(t, |t|)[c] < |t| && t[Positionals(t, |t|)[c]].kind == Multi
    ensures var r := Loop(t, buf, pos, slots, cursor);
            r.Refused? ==> r.error != ERROR_TOO_MANY_ARGS
    decreases |buf| - pos
  {
    hide ItemAt, FindKeyword, ParseNumber, Positionals;
    var item := ItemAt(buf, pos);
    ItemAdvances(buf, pos);
    if item.kind == Equal {
      LoopNeverTooMany(t, buf, item.end, slots, cursor, c);
    } else if item.kind == Unquoted || item.kind == Quoted {
      TakeAdvances(t, buf, pos, slots, cursor);
      StepKeepsCursor(t, buf, item, slots, cursor, c);
      var step := Take(t, buf, item, slots, cursor);
      if step.Go? {
        LoopNeverTooMany(t, buf, step.pos, step.slots, step.cursor, c);
      }
    }
  }

  lemma {:induction false} StepKeepsCursor(t: Template, buf: Bytes, item: Item, slots: Slots, cursor: nat, c: nat)
    requires |t| == |slots| && item.start <= item.end <= |buf|
    requires cursor <= c < |Positionals(t, |t|)|
    requires Positionals(t, |t|)[c] < |t| && t[Positionals(t, |t|)[c]].kind == Multi
    ensures var step := Take(t, buf, item, slots, cursor);
            if step.Halt? then step.error != ERROR_TOO_MANY_ARGS else step.cursor <= c
  {
    hide FindKeyword, ParseNumber, ItemAt;
  }

  /** A /M slot that bare words can reach takes any number of them. */
  lemma MultiNeverTooMany(t: Template, m: nat, buf: Bytes, pos: nat)
    requires m < |t| && t[m].kind == Multi && !t[m].keywordOnly && pos <= |buf|
    ensures var r := MatchArgs(t, buf, pos);
            r.Refused? ==> r.error != ERROR_TOO_MANY_ARGS
  {
    hide Loop;
    var c := PositionalListed(t, |t|, m);
    LoopNeverTooMany(t, buf, pos, Blank(t), 0, c);
  }
}
