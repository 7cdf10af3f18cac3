// The ReadArgs tokenizer: what one item of a command line is, and the Reader that
// walks the line.

module ArgReader {
  import opened Guest

  const QUOTE: byte := 34
  const STAR: byte := 42
  const SEMICOLON: byte := 59
  const EQUALS: byte := 61
  const ESC: byte := 0x1b

  datatype Kind = Nothing | Equal | Unquoted | Quoted | Error

  /** One item: its text with escapes undone, where it starts once blanks are skipped,
      and where the next one is looked for. */
  datatype Item = Item(kind: Kind, text: Bytes, start: nat, end: nat)

  predicate IsBlank(b: byte) { b == SPACE || b == TAB }

  /** Ends an unquoted word. */
  predicate IsDelimiter(b: byte) {
    IsBlank(b) || b == NEWLINE || b == SEMICOLON || b == EQUALS
  }

  function SkipBlanks(buf: Bytes, pos: nat): (n: nat)
    requires pos <= |buf|
    ensures pos <= n <= |buf|
    ensures forall i :: pos <= i < n ==> IsBlank(buf[i])
    ensures n < |buf| ==> !IsBlank(buf[n])
    decreases |buf| - pos
  {
    if pos < |buf| && IsBlank(buf[pos]) then SkipBlanks(buf, pos + 1) else pos
  }

  function WordEnd(buf: Bytes, pos: nat): (n: nat)
    requires pos <= |buf|
    ensures pos <= n <= |buf|
    ensures forall i :: pos <= i < n ==> !IsDelimiter(buf[i])
    ensures n < |buf| ==> IsDelimiter(buf[n])
    decreases |buf| - pos
  {
    if pos < |buf| && !IsDelimiter(buf[pos]) then WordEnd(buf, pos + 1) else pos
  }

  /** The byte `*c` stands for inside quotes. */
  function Escaped(c: byte): Option<byte> {
    if c == QUOTE then Some(QUOTE)
    else if c == 110 || c == 78 then Some(NEWLINE)
    else if c == 101 || c == 69 then Some(ESC)
    else if c == STAR then Some(STAR)
    else None
  }

  datatype Body = Body(closed: bool, text: Bytes, end: nat)

  /** What follows an opening quote: the text up to the closing one, or up to the end of
      the line when there is none. */
  function QuotedBody(buf: Bytes, pos: nat): (body: Body)
    requires pos <= |buf|
    ensures pos <= body.end <= |buf|
    ensures body.closed ==> body.end > pos
    decreases |buf| - pos
  {
    if pos >= |buf| || buf[pos] == NEWLINE then Body(false, [], pos)
    else if buf[pos] == QUOTE then Body(true, [], pos + 1)
    else if buf[pos] == STAR && pos + 1 < |buf| && Escaped(buf[pos + 1]).Some? then
      var rest := QuotedBody(buf, pos + 2);
      rest.(text := [Escaped(buf[pos + 1]).value] + rest.text)
    else
      var rest := QuotedBody(buf, pos + 1);
      rest.(text := [buf[pos]] + rest.text)
  }

  /** One step into a quoted item, before it ends. */
  lemma QuotedStep(buf: Bytes, pos: nat)
    requires pos < |buf| && buf[pos] != NEWLINE
    ensures buf[pos] == QUOTE ==> QuotedBody(buf, pos) == Body(true, [], pos + 1)
    ensures buf[pos] != QUOTE ==>
              var e := if buf[pos] == STAR && pos + 1 < |buf| then Escaped(buf[pos + 1]) else None;
              var rest := QuotedBody(buf, if e.Some? then pos + 2 else pos + 1);
              QuotedBody(buf, pos)
              == rest.(text := [if e.Some? then e.value else buf[pos]] + rest.text)
  {
    hide Escaped;
  }

  predicate EndsLine(buf: Bytes, pos: nat)
    requires pos <= |buf|
  {
    pos == |buf| || buf[pos] == NEWLINE || buf[pos] == SEMICOLON
  }

  function ItemAt(buf: Bytes, pos: nat): (item: Item)
    requires pos <= |buf|
    ensures pos <= item.start <= item.end <= |buf|
  {
    var start := SkipBlanks(buf, pos);
    if EndsLine(buf, start) then Item(Nothing, [], start, start)
    else if buf[start] == EQUALS then Item(Equal, [], start, start + 1)
    else if buf[start] == QUOTE then
      var body := QuotedBody(buf, start + 1);
      Item(if body.closed then Quoted else Error, body.text, start, body.end)
    else
      var end := WordEnd(buf, start);
      Item(Unquoted, buf[start..end], start, end)
  }

  /** A value may be set off from its keyword by one `=`. */
  function ValueAt(buf: Bytes, pos: nat): (item: Item)
    requires pos <= |buf|
    ensures pos <= item.start <= item.end <= |buf|
  {
    var item := ItemAt(buf, pos);
    if item.kind == Equal then ItemAt(buf, item.end) else item
  }

  function LineEnd(buf: Bytes, pos: nat): (n: nat)
    requires pos <= |buf|
    ensures pos <= n <= |buf|
    ensures forall i :: pos <= i < n ==> buf[i] != NEWLINE
    ensures n < |buf| ==> buf[n] == NEWLINE
    decreases |buf| - pos
  {
    if pos < |buf| && buf[pos] != NEWLINE then LineEnd(buf, pos + 1) else pos
  }

  /** Every item but Nothing moves past where it was looked for. */
  lemma ItemAdvances(buf: Bytes, pos: nat)
    requires pos <= |buf|
    ensures ItemAt(buf, pos).kind != Nothing ==> pos < ItemAt(buf, pos).end
  {
    var start := SkipBlanks(buf, pos);
    if start < |buf| {
      assert !IsBlank(buf[start]);
    }
  }

  /** Nothing is found again and again, and an unfinished quote leaves nothing behind. */
  lemma NothingStays(buf: Bytes, pos: nat)
    requires pos <= |buf|
    ensures var item := ItemAt(buf, pos);
            (item.kind == Nothing ==> ItemAt(buf, item.end) == Item(Nothing, [], item.end, item.end))
            && (item.kind == Error ==> ItemAt(buf, item.end) == Item(Nothing, [], item.end, item.end))
  {
    var item := ItemAt(buf, pos);
    if item.kind == Error {
      UnclosedAtLineEnd(buf, item.start + 1);
    }
  }

  lemma {:induction false} UnclosedAtLineEnd(buf: Bytes, pos: nat)
    requires pos <= |buf|
    ensures var body := QuotedBody(buf, pos);
            !body.closed ==> body.end == |buf| || buf[body.end] == NEWLINE
    decreases |buf| - pos
  {
    if pos < |buf| && buf[pos] != NEWLINE && buf[pos] != QUOTE {
      if buf[pos] == STAR && pos + 1 < |buf| && Escaped(buf[pos + 1]).Some? {
        UnclosedAtLineEnd(buf, pos + 2);
      } else {
        UnclosedAtLineEnd(buf, pos + 1);
      }
    }
  }

  /** No item reaches across the end of its line. */
  lemma {:induction false} BodyStaysOnLine(buf: Bytes, pos: nat)
    requires pos <= |buf|
    ensures QuotedBody(buf, pos).end <= LineEnd(buf, pos)
    decreases |buf| - pos
  {
    if pos < |buf| && buf[pos] != NEWLINE && buf[pos] != QUOTE {
      if buf[pos] == STAR && pos + 1 < |buf| && Escaped(buf[pos + 1]).Some? {
        assert buf[pos + 1] != NEWLINE;
        BodyStaysOnLine(buf, pos + 2);
      } else {
        BodyStaysOnLine(buf, pos + 1);
      }
    }
  }

  /** The raw rest of the line from an item's start reaches at least to the item's end,
      so taking it never moves the cursor back. */
  lemma {:induction false} ItemStaysOnLine(buf: Bytes, pos: nat)
    requires pos <= |buf|
    ensures ItemAt(buf, pos).end <= LineEnd(buf, ItemAt(buf, pos).start)
  {
    var item := ItemAt(buf, pos);
    if item.kind == Quoted || item.kind == Error {
      BodyStaysOnLine(buf, item.start + 1);
    } else if item.kind == Unquoted {
      assert forall i :: item.start <= i < item.end ==> buf[i] != NEWLINE;
    }
  }

  class Reader {
    const buf: Bytes
    var pos: nat
    /** Where the item read last starts, for /F. */
    var lastItemStart: nat

    ghost predicate Valid()
      reads this
    {
      lastItemStart <= pos <= |buf|
    }

    constructor (buf: Bytes, pos: nat)
      ensures Valid() && this.buf == buf
      ensures this.pos == if pos <= |buf| then pos else |buf|
    {
      this.buf := buf;
      this.pos := if pos <= |buf| then pos else |buf|;
      this.lastItemStart := if pos <= |buf| then pos else |buf|;
    }

    method SkipWs()
      requires pos <= |buf|
      modifies this`pos
      ensures pos == SkipBlanks(buf, old(pos))
    {
      while pos < |buf| && IsBlank(buf[pos])
        invariant pos <= |buf|
        invariant SkipBlanks(buf, pos) == SkipBlanks(buf, old(pos))
      {
        pos := pos + 1;
      }
    }

    method ReadItem() returns (kind: Kind, text: Bytes)
      requires Valid()
      modifies this
      ensures Valid()
      ensures var item := ItemAt(buf, old(pos));
              kind == item.kind && text == item.text && lastItemStart == item.start && pos == item.end
    {
      hide SkipBlanks;
      SkipWs();
      lastItemStart := pos;
      if pos >= |buf| || buf[pos] == NEWLINE || buf[pos] == SEMICOLON {
        return Nothing, [];
      }
      if buf[pos] == EQUALS {
        pos := pos + 1;
        return Equal, [];
      }
      if buf[pos] == QUOTE {
        pos := pos + 1;
        var closed;
        closed, text := ReadQuoted();
        return if closed then Quoted else Error, text;
      }
      text := ReadWord();
      kind := Unquoted;
    }

    method ReadQuoted() returns (closed: bool, text: Bytes)
      requires pos <= |buf|
      modifies this`pos
      ensures Body(closed, text, pos) == QuotedBody(buf, old(pos))
    {
      text := [];
      ghost var whole := QuotedBody(buf, pos);
      while pos < |buf| && buf[pos] != NEWLINE
        invariant pos <= |buf|
        invariant QuotedBody(buf, pos).closed == whole.closed && QuotedBody(buf, pos).end == whole.end
        invariant text + QuotedBody(buf, pos).text == whole.text
        decreases |buf| - pos
      {
        hide Escaped, QuotedBody;
        QuotedStep(buf, pos);
        var c := buf[pos];
        if c == QUOTE {
          pos := pos + 1;
          return true, text;
        }
        var escaped := if c == STAR && pos + 1 < |buf| then Escaped(buf[pos + 1]) else None;
        if escaped.Some? {
          text := text + [escaped.value];
          pos := pos + 2;
        } else {
          text := text + [c];
          pos := pos + 1;
        }
      }
      closed := false;
    }

    method ReadWord() returns (text: Bytes)
      requires pos <= |buf|
      modifies this`pos
      ensures pos == WordEnd(buf, old(pos)) && text == buf[old(pos)..pos]
    {
      text := [];
      while pos < |buf| && !IsDelimiter(buf[pos])
        invariant old(pos) <= pos <= |buf|
        invariant WordEnd(buf, pos) == WordEnd(buf, old(pos))
        invariant text == buf[old(pos)..pos]
      {
        text := text + [buf[pos]];
        pos := pos + 1;
      }
    }

    method ReadValue() returns (kind: Kind, text: Bytes)
      requires Valid()
      modifies this
      ensures Valid()
      ensures var item := ValueAt(buf, old(pos));
              kind == item.kind && text == item.text && lastItemStart == item.start && pos == item.end
    {
      kind, text := ReadItem();
      if kind == Equal {
        kind, text := ReadItem();
      }
    }

    method RestOfLineFromLastItem() returns (text: Bytes)
      requires Valid()
      modifies this`pos
      ensures pos == LineEnd(buf, lastItemStart) && text == buf[lastItemStart..pos]
    {
      var end := lastItemStart;
      while end < |buf| && buf[end] != NEWLINE
        invariant lastItemStart <= end <= |buf|
        invariant LineEnd(buf, end) == LineEnd(buf, lastItemStart)
      {
        end := end + 1;
      }
      text := buf[lastItemStart..end];
      pos := end;
    }
  }
}
