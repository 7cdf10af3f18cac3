// `FROM=x` and `FROM x` are the same command line.

module ArgEquals {
  import opened Guest
  import opened ArgReader
  import opened ArgMatch
  import opened ArgTokens

  /** The `=` at j has no other `=` beside it in the list. */
  predicate SingleEqual(items: seq<Item>, j: nat) {
    && j + 1 < |items| && items[j].kind == Equal
    && (j > 0 ==> items[j - 1].kind != Equal)
    && items[j + 1].kind != Equal
  }

  function Without(items: seq<Item>, j: nat): seq<Item>
    requires j < |items|
  {
    items[..j] + items[j + 1..]
  }

  lemma WithoutTail(items: seq<Item>, j: nat)
    requires 0 < j < |items|
    ensures Without(items, j)[1..] == Without(items[1..], j - 1)
    ensures Without(items, j) == [items[0]] + Without(items[1..], j - 1)
  {
  }

  lemma WithoutClosed(items: seq<Item>, j: nat)
    requires Closed(items) && j + 1 < |items|
    ensures Closed(Without(items, j))
  {
  }

  /** A list that only loses an item further on starts alike. */
  lemma HeadWithout(t: Template, items: seq<Item>, j: nat, slots: Slots, cursor: nat)
    requires Closed(items) && SingleEqual(items, j) && j > 0 && |t| == |slots|
    requires items[0].kind == Unquoted || items[0].kind == Quoted
    ensures Closed(Without(items, j))
    ensures var items' := Without(items, j);
            && TakeItems(t, items', slots, cursor) == TakeItems(t, items, slots, cursor)
            && (TakeItems(t, items, slots, cursor).Go? ==>
                  var used := Used(t, items);
                  if j < used then items'[Used(t, items')..] == items[used..]
                  else Used(t, items') == used && SingleEqual(items[used..], j - used)
                       && items'[used..] == Without(items[used..], j - used))
  {
    hide FindKeyword, KeywordOf, Store, Positionals, Without, Closed;
    WithoutClosed(items, j);
    UsedWithout(t, items, j);
    var used := Used(t, items);
    WithoutAt(items, j, 0);
    WithoutAt(items, j, if j < used then used - 2 else used - 1);
    WithoutFrom(items, j, used);
  }

  lemma WithoutAt(items: seq<Item>, j: nat, i: nat)
    requires j < |items| && i < |items| - 1
    ensures |Without(items, j)| == |items| - 1
    ensures Without(items, j)[i] == if i < j then items[i] else items[i + 1]
  {
  }

  lemma NoneBefore(items: seq<Item>)
    requires items != []
    ensures Without(items, 0) == items[1..]
  {
  }

  lemma WithoutFrom(items: seq<Item>, j: nat, k: nat)
    requires j < |items| && k <= |items|
    ensures k <= j ==> Without(items, j)[k..] == Without(items[k..], j - k)
    ensures j < k ==> Without(items, j)[k - 1..] == items[k..]
  {
  }

  /** The head takes one item fewer when the `=` taken out was its own. */
  lemma UsedWithout(t: Template, items: seq<Item>, j: nat)
    requires Closed(items) && SingleEqual(items, j) && j > 0 && items[0].kind != Nothing
    ensures Closed(Without(items, j)) && Without(items, j)[0] == items[0]
    ensures Used(t, Without(items, j)) == if j < Used(t, items) then Used(t, items) - 1 else Used(t, items)
    ensures j < Used(t, items) ==> j + 1 < Used(t, items)
  {
    hide KeywordOf, Without, Closed;
    WithoutClosed(items, j);
    WithoutAt(items, j, 0);
    ClosedHas(items);
    ClosedHas(Without(items, j));
    WithoutAt(items, j, 1);
  }

  lemma ClosedHas(items: seq<Item>)
    requires Closed(items)
    ensures items != [] && (items[0].kind != Nothing ==> |items| > 1 && Closed(items[1..]))
  {
  }

  /** Taking out a single `=` changes neither the slots, nor the error, nor the position. */
  lemma {:induction false} LoopWithout(t: Template, items: seq<Item>, j: nat, slots: Slots, cursor: nat)
    requires Closed(items) && SingleEqual(items, j) && |t| == |slots|
    ensures Closed(Without(items, j))
    ensures LoopItems(t, Without(items, j), slots, cursor) == LoopItems(t, items, slots, cursor)
    decreases |items|
  {
    hide TakeItems, Used, Without;
    WithoutClosed(items, j);
    NoneBefore(items);
    WithoutAt(items, j, 0);
    if j == 0 {
    } else if items[0].kind == Equal {
      WithoutTail(items, j);
      LoopWithout(t, items[1..], j - 1, slots, cursor);
    } else if items[0].kind == Unquoted || items[0].kind == Quoted {
      HeadWithout(t, items, j, slots, cursor);
      var step := TakeItems(t, items, slots, cursor);
      var used := Used(t, items);
      if step.Go? && used <= j {
        LoopWithout(t, items[used..], j - used, step.slots, step.cursor);
      }
    }
  }

  // --- On the line itself ---

  /** An item that ends at or before i is read the same whatever separator stands at i. */
  lemma ItemBefore(buf: Bytes, buf': Bytes, i: nat, pos: nat)
    requires i < |buf| && buf[i] == EQUALS && buf' == buf[i := SPACE] && pos <= |buf|
    requires ItemAt(buf, pos).end <= i && ItemAt(buf, pos).kind != Nothing
    ensures ItemAt(buf', pos) == ItemAt(buf, pos)
  {
    hide SkipBlanks, WordEnd, QuotedBody;
    var item := ItemAt(buf, pos);
    ItemAdvances(buf, pos);
    BlanksBefore(buf, buf', i, pos);
    if item.kind == Unquoted {
      WordBefore(buf, buf', i, item.start);
      assert buf'[item.start..item.end] == buf[item.start..item.end];
    } else if item.kind == Quoted || item.kind == Error {
      BodyBefore(buf, buf', i, item.start + 1);
    }
  }

  lemma {:induction false} BlanksBefore(buf: Bytes, buf': Bytes, i: nat, pos: nat)
    requires i < |buf| && buf' == buf[i := SPACE] && pos <= |buf| && SkipBlanks(buf, pos) < i
    ensures SkipBlanks(buf', pos) == SkipBlanks(buf, pos)
    decreases |buf| - pos
  {
    if pos < |buf| && IsBlank(buf[pos]) { BlanksBefore(buf, buf', i, pos + 1); }
  }

  lemma {:induction false} WordBefore(buf: Bytes, buf': Bytes, i: nat, pos: nat)
    requires i < |buf| && buf[i] == EQUALS && buf' == buf[i := SPACE] && pos <= i
    ensures WordEnd(buf', pos) == WordEnd(buf, pos)
    decreases |buf| - pos
  {
    if pos < i && !IsDelimiter(buf[pos]) { WordBefore(buf, buf', i, pos + 1); }
  }

  lemma {:induction false} BodyBefore(buf: Bytes, buf': Bytes, i: nat, pos: nat)
    requires i < |buf| && buf[i] == EQUALS && buf' == buf[i := SPACE] && pos <= |buf|
    requires QuotedBody(buf, pos).end <= i
    ensures QuotedBody(buf', pos) == QuotedBody(buf, pos)
    decreases |buf| - pos
  {
    if pos < |buf| && buf[pos] != NEWLINE && buf[pos] != QUOTE {
      if buf[pos] == STAR && pos + 1 < |buf| && Escaped(buf[pos + 1]).Some? {
        BodyBefore(buf, buf', i, pos + 2);
      } else {
        BodyBefore(buf, buf', i, pos + 1);
      }
    }
  }

  /** An item looked for past i does not depend on what stands at i. */
  lemma ItemAfter(buf: Bytes, buf': Bytes, i: nat, pos: nat)
    requires i < |buf| && buf' == buf[i := SPACE] && i < pos <= |buf|
    ensures ItemAt(buf', pos) == ItemAt(buf, pos)
  {
    hide SkipBlanks, WordEnd, QuotedBody;
    BlanksAfter(buf, buf', i, pos);
    var item := ItemAt(buf, pos);
    if item.kind == Unquoted {
      WordAfter(buf, buf', i, item.start);
      assert buf'[item.start..item.end] == buf[item.start..item.end];
    } else if item.kind == Quoted || item.kind == Error {
      BodyAfter(buf, buf', i, item.start + 1);
    }
  }

  lemma {:induction false} BlanksAfter(buf: Bytes, buf': Bytes, i: nat, pos: nat)
    requires i < |buf| && buf' == buf[i := SPACE] && i < pos <= |buf|
    ensures SkipBlanks(buf', pos) == SkipBlanks(buf, pos)
    decreases |buf| - pos
  {
    if pos < |buf| && IsBlank(buf[pos]) { BlanksAfter(buf, buf', i, pos + 1); }
  }

  lemma {:induction false} WordAfter(buf: Bytes, buf': Bytes, i: nat, pos: nat)
    requires i < |buf| && buf' == buf[i := SPACE] && i < pos <= |buf|
    ensures WordEnd(buf', pos) == WordEnd(buf, pos)
    decreases |buf| - pos
  {
    if pos < |buf| && !IsDelimiter(buf[pos]) { WordAfter(buf, buf', i, pos + 1); }
  }

  lemma {:induction false} BodyAfter(buf: Bytes, buf': Bytes, i: nat, pos: nat)
    requires i < |buf| && buf' == buf[i := SPACE] && i < pos <= |buf|
    ensures QuotedBody(buf', pos) == QuotedBody(buf, pos)
    decreases |buf| - pos
  {
    if pos < |buf| && buf[pos] != NEWLINE && buf[pos] != QUOTE {
      if buf[pos] == STAR && pos + 1 < |buf| && Escaped(buf[pos + 1]).Some? {
        BodyAfter(buf, buf', i, pos + 2);
      } else {
        BodyAfter(buf, buf', i, pos + 1);
      }
    }
  }

  lemma {:induction false} TokensAfter(buf: Bytes, buf': Bytes, i: nat, pos: nat)
    requires i < |buf| && buf' == buf[i := SPACE] && i < pos <= |buf|
    ensures Tokens(buf', pos) == Tokens(buf, pos)
    decreases |buf| - pos
  {
    hide ItemAt;
    ItemAfter(buf, buf', i, pos);
    ItemAdvances(buf, pos);
    var item := ItemAt(buf, pos);
    if item.kind != Nothing { TokensAfter(buf, buf', i, item.end); }
  }

  lemma {:induction false} BlanksThrough(buf: Bytes, i: nat, pos: nat)
    requires pos <= i < |buf| && forall k :: pos <= k <= i ==> IsBlank(buf[k])
    ensures SkipBlanks(buf, pos) == SkipBlanks(buf, i + 1)
    decreases i - pos
  {
    if pos < i { BlanksThrough(buf, i, pos + 1); }
  }

  /** With the `=` blanked, looking for an item in front of it finds the one behind it. */
  lemma ItemAcross(buf: Bytes, buf': Bytes, i: nat, pos: nat)
    requires i < |buf| && buf' == buf[i := SPACE] && pos <= |buf|
    requires ItemAt(buf, pos).kind == Equal && ItemAt(buf, pos).start == i
    ensures ItemAt(buf', pos) == ItemAt(buf', i + 1)
  {
    assert SkipBlanks(buf, pos) == i;
    assert forall k :: pos <= k <= i ==> IsBlank(buf'[k]);
    BlanksThrough(buf', i, pos);
  }

  lemma {:induction false} TokensBlankedHere(buf: Bytes, buf': Bytes, pos: nat)
    requires pos <= |buf| && ItemAt(buf, pos).kind == Equal
    requires ItemAt(buf, pos).start < |buf| && buf' == buf[ItemAt(buf, pos).start := SPACE]
    ensures Tokens(buf', pos) == Tokens(buf, pos)[1..]
  {
    hide ItemAt, Tokens;
    var i := ItemAt(buf, pos).start;
    EqualAt(buf, pos);
    ItemAcross(buf, buf', i, pos);
    TokensTail(buf, pos);
    TokensAfter(buf, buf', i, i + 1);
    TokensFrom(buf', pos, i + 1);
  }

  lemma {:induction false} TokensTail(buf: Bytes, pos: nat)
    requires pos <= |buf| && ItemAt(buf, pos).kind != Nothing
    ensures Tokens(buf, pos)[1..] == Tokens(buf, ItemAt(buf, pos).end)
  {
    hide ItemAt;
    ItemAdvances(buf, pos);
  }

  lemma {:induction false} TokensHead(buf: Bytes, pos: nat)
    requires pos <= |buf|
    ensures var item := ItemAt(buf, pos);
            && pos <= item.end <= |buf|
            && (item.kind != Nothing ==> pos < item.end)
            && Tokens(buf, pos) == if item.kind == Nothing then [item] else [item] + Tokens(buf, item.end)
  {
    hide ItemAt;
    ItemAdvances(buf, pos);
  }

  /** Blanking the `=` of item j takes item j out of the list and leaves the rest. */
  lemma {:induction false} TokensBlanked(buf: Bytes, buf': Bytes, pos: nat, j: nat)
    requires pos <= |buf| && j + 1 < |Tokens(buf, pos)| && Tokens(buf, pos)[j].kind == Equal
    requires Tokens(buf, pos)[j].start < |buf| && buf' == buf[Tokens(buf, pos)[j].start := SPACE]
    ensures Tokens(buf', pos) == Without(Tokens(buf, pos), j)
    decreases |buf| - pos
  {
    hide ItemAt, Without, Tokens, Closed;
    TokensHead(buf, pos);
    var items := Tokens(buf, pos);
    var item := ItemAt(buf, pos);
    var i := items[j].start;
    ItemAdvances(buf, pos);
    if j == 0 {
      TokensBlankedHere(buf, buf', pos);
      NoneBefore(items);
    } else {
      TokensTail(buf, pos);
      TokensOrdered(buf, item.end, j - 1);
      EqualByte(buf, item.end, j - 1);
      ItemBefore(buf, buf', i, pos);
      TokensBlanked(buf, buf', item.end, j - 1);
      WithoutTail(items, j);
      TokensHead(buf, pos);
      TokensHead(buf', pos);
    }
  }

  lemma EqualAt(buf: Bytes, pos: nat)
    requires pos <= |buf| && ItemAt(buf, pos).kind == Equal
    ensures ItemAt(buf, pos).start < |buf| && buf[ItemAt(buf, pos).start] == EQUALS
    ensures ItemAt(buf, pos).end == ItemAt(buf, pos).start + 1
  {
  }

  lemma {:induction false} TokensFrom(buf: Bytes, pos: nat, pos': nat)
    requires pos <= |buf| && pos' <= |buf| && ItemAt(buf, pos) == ItemAt(buf, pos')
    ensures Tokens(buf, pos) == Tokens(buf, pos')
  {
    hide ItemAt;
    ItemAdvances(buf, pos);
    ItemAdvances(buf, pos');
  }

  lemma {:induction false} TokensOrdered(buf: Bytes, pos: nat, j: nat)
    requires pos <= |buf| && j < |Tokens(buf, pos)|
    ensures pos <= Tokens(buf, pos)[j].start
    decreases j
  {
    hide ItemAt;
    var item := ItemAt(buf, pos);
    ItemAdvances(buf, pos);
    if j > 0 {
      assert Tokens(buf, pos)[1..] == Tokens(buf, item.end);
      TokensOrdered(buf, item.end, j - 1);
    }
  }

  lemma {:induction false} EqualByte(buf: Bytes, pos: nat, j: nat)
    requires pos <= |buf| && j < |Tokens(buf, pos)| && Tokens(buf, pos)[j].kind == Equal
    ensures Tokens(buf, pos)[j].start < |buf| && buf[Tokens(buf, pos)[j].start] == EQUALS
    decreases j
  {
    hide ItemAt;
    var item := ItemAt(buf, pos);
    ItemAdvances(buf, pos);
    if j > 0 {
      assert Tokens(buf, pos)[1..] == Tokens(buf, item.end);
      EqualByte(buf, item.end, j - 1);
    } else {
      EqualAt(buf, pos);
    }
  }

  /** For every template without /F: replacing an `=` that stands alone between two items
      (or before the first, or after the last) by a space changes nothing, whatever the
      items are: same slots or same error, same final cursor. */
  lemma EqualsIsSpace(t: Template, buf: Bytes, pos: nat, j: nat)
    requires pos <= |buf| && FreeOfRest(t) && SingleEqual(Tokens(buf, pos), j)
    ensures Tokens(buf, pos)[j].start < |buf|
    ensures MatchArgs(t, buf[Tokens(buf, pos)[j].start := SPACE], pos) == MatchArgs(t, buf, pos)
  {
    hide Tokens, Loop, LoopItems, Finish;
    EqualByte(buf, pos, j);
    var items := Tokens(buf, pos);
    var buf' := buf[items[j].start := SPACE];
    TokensBlanked(buf, buf', pos, j);
    LoopWithout(t, items, j, Blank(t), 0);
    LoopIsItems(t, buf, pos, Blank(t), 0);
    LoopIsItems(t, buf', pos, Blank(t), 0);
  }
}
