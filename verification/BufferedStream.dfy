// Buffered reads with one character of pushback, and the plain stream they refine.

module BufferedStream {
  import opened Guest

  /** End of stream or error. */
  const ENDSTREAMCH := -1

  const ERROR_INVALID_LOCK: ErrorCode := 211

  /** One handle: what the host has, how much of it was read, the pushed-back character
      and the character last read. */
  datatype Stream = Stream(data: Bytes, pos: nat, pushed: Option<int>, last: Option<int>)
  {
    ghost predicate Valid() {
      pos <= |data|
    }

    /** What is still to be read. */
    function Rest(): (r: seq<int>)
      requires Valid()
    {
      (if pushed.Some? then [pushed.value] else []) + Chars(data[pos..])
    }
  }

  function Chars(b: Bytes): (r: seq<int>)
    ensures |r| == |b| && forall i :: 0 <= i < |b| ==> r[i] == b[i]
  {
    seq(|b|, i requires 0 <= i < |b| => b[i] as int)
  }

  // --- The calls, on one handle ---

  datatype Read = Read(c: int, stream: Stream)

  function GetC(s: Stream): (r: Read)
    requires s.Valid()
    ensures r.stream.Valid() && r.stream.data == s.data
  {
    if s.pushed.Some? then Read(s.pushed.value, s.(pushed := None, last := s.pushed))
    else if s.pos < |s.data| then Read(s.data[s.pos], s.(pos := s.pos + 1, last := Some(s.data[s.pos] as int)))
    else Read(ENDSTREAMCH, s.(last := Some(ENDSTREAMCH)))
  }

  datatype Pushed = Pushed(ok: bool, stream: Stream)

  function UnGetC(s: Stream, ch: int): (r: Pushed)
    requires s.Valid()
    ensures r.stream.Valid() && r.stream.data == s.data
  {
    if s.pushed.Some? then Pushed(false, s)
    else if ch != ENDSTREAMCH then Pushed(true, s.(pushed := Some(ch)))
    else Pushed(true, s.(pushed := if s.last.Some? then s.last else Some(ENDSTREAMCH)))
  }

  datatype Line = Line(text: seq<int>, stream: Stream)

  /** Up to `room` characters, stopping after a newline or before the end. */
  function GetLine(s: Stream, room: nat): (r: Line)
    requires s.Valid()
    ensures r.stream.Valid() && r.stream.data == s.data && |r.text| <= room
    decreases room
  {
    if room == 0 then Line([], s)
    else
      var got := GetC(s);
      if got.c == ENDSTREAMCH then Line([], got.stream)
      else if got.c == NEWLINE as int then Line([got.c], got.stream)
      else
        var more := GetLine(got.stream, room - 1);
        Line([got.c] + more.text, more.stream)
  }

  // --- Reading pops what is left ---

  /** Whatever was pushed, reading takes the first of what is left, or reports the end. */
  lemma GetCPops(s: Stream)
    requires s.Valid()
    ensures s.Rest() == [] ==> GetC(s).c == ENDSTREAMCH && GetC(s).stream.Rest() == []
    ensures s.Rest() != [] ==> GetC(s).c == s.Rest()[0] && GetC(s).stream.Rest() == s.Rest()[1..]
  {
    var r := GetC(s).stream;
    if s.pushed.Some? {
      assert r.Rest() == s.Rest()[1..];
    } else if s.pos < |s.data| {
      assert s.data[s.pos..] == [s.data[s.pos]] + r.data[r.pos..];
      assert r.Rest() == s.Rest()[1..];
    }
  }

  /** A push goes through exactly when none is pending, and then is what is read next. */
  lemma UnGetCPushes(s: Stream, ch: int)
    requires s.Valid()
    ensures var r := UnGetC(s, ch);
            && r.ok == s.pushed.None?
            && (!r.ok ==> r.stream == s)
            && (r.ok && ch != ENDSTREAMCH ==> r.stream.Rest() == [ch] + s.Rest())
            && (r.ok && ch == ENDSTREAMCH ==>
                  r.stream.Rest() == [if s.last.Some? then s.last.value else ENDSTREAMCH] + s.Rest())
  {
    assert s.pushed.None? ==> s.Rest() == Chars(s.data[s.pos..]);
  }

  // --- Refinement of a stream position ---

  datatype Call = FGetC | UnGetLast | FGets(capacity: nat)

  /** The plain stream: a position, whether the last read was taken back, and whether the
      last read reported the end. */
  datatype Position = Position(at: nat, back: bool, ended: bool)

  datatype Reply = Got(c: int) | Took(ok: bool) | Text(text: seq<int>)

  function Abstract(s: Stream): (p: Position)
    requires s.Valid()
  {
    Position(if s.pushed.Some? && s.pushed.value != ENDSTREAMCH && s.pos > 0 then s.pos - 1 else s.pos,
             s.pushed.Some?, s.last == Some(ENDSTREAMCH))
  }

  /** The last character read is the one before the position; at the end it may be the end. */
  ghost predicate Before(s: Stream, c: Option<int>) {
    && s.Valid() && c.Some?
    && (if c.value == ENDSTREAMCH then s.pos == |s.data| else s.pos > 0 && s.data[s.pos - 1] as int == c.value)
  }

  /** At least one character was asked for, and only it can have been pushed back. */
  ghost predicate Warm(s: Stream)
    ensures Warm(s) ==> s.Valid()
  {
    && Before(s, s.last)
    && (s.pushed.Some? ==> s.pushed == s.last)
  }

  datatype Step = Step(reply: Reply, stream: Stream)

  function Do(s: Stream, call: Call): (r: Step)
    requires s.Valid()
    ensures r.stream.Valid() && r.stream.data == s.data
  {
    match call
    case FGetC => var g := GetC(s); Step(Got(g.c), g.stream)
    case UnGetLast => var u := UnGetC(s, ENDSTREAMCH); Step(Took(u.ok), u.stream)
    case FGets(n) => var l := GetLine(s, if n == 0 then 0 else n - 1); Step(Text(l.text), l.stream)
  }

  /** The line at a position, at most `room` long: up to and with the first newline. */
  function LineAt(data: Bytes, at: nat, room: nat): (r: seq<int>)
    requires at <= |data|
    ensures |r| <= room && at + |r| <= |data|
    decreases room
  {
    if room == 0 || at == |data| then []
    else if data[at] == NEWLINE then [NEWLINE as int]
    else [data[at] as int] + LineAt(data, at + 1, room - 1)
  }

  lemma {:induction false} LineIsSlice(data: Bytes, at: nat, room: nat)
    requires at <= |data|
    ensures LineAt(data, at, room) == Chars(data[at..at + |LineAt(data, at, room)|])
    decreases room
  {
    if room > 0 && at < |data| && data[at] != NEWLINE {
      LineIsSlice(data, at + 1, room - 1);
    }
  }

  /** A line ran out of data: it is short and no newline ends it. */
  predicate RanOut(text: seq<int>, room: nat) {
    |text| < room && (text == [] || text[|text| - 1] != NEWLINE as int)
  }

  datatype PlainStep = PlainStep(reply: Reply, p: Position)

  /** One step of the plain stream. */
  function PlainDo(data: Bytes, p: Position, call: Call): (r: PlainStep)
    requires p.at <= |data|
    ensures r.p.at <= |data|
  {
    match call
    case FGetC =>
      if p.at < |data| then PlainStep(Got(data[p.at] as int), Position(p.at + 1, false, false))
      else PlainStep(Got(ENDSTREAMCH), Position(p.at, false, true))
    case UnGetLast =>
      PlainStep(Took(!p.back), p.(back := true, at := if p.back || p.ended || p.at == 0 then p.at else p.at - 1))
    case FGets(n) =>
      if n < 2 then PlainStep(Text([]), p)
      else
        var text := LineAt(data, p.at, n - 1);
        PlainStep(Text(text), Position(p.at + |text|, false, RanOut(text, n - 1)))
  }

  lemma GetCAt(s: Stream)
    requires s.Valid() && (s.pushed.Some? ==> Before(s, s.pushed))
    ensures var r := GetC(s);
            var at := Abstract(s).at;
            && at <= |s.data| && Warm(r.stream) && r.stream.pushed.None?
            && r.c == (if at < |s.data| then s.data[at] as int else ENDSTREAMCH)
            && Abstract(r.stream) == Position(if at < |s.data| then at + 1 else at, false, at == |s.data|)
  {
  }

  lemma {:induction false} GetLineAt(s: Stream, room: nat)
    requires s.Valid() && (s.pushed.Some? ==> Before(s, s.pushed))
    ensures var r := GetLine(s, room);
            && Abstract(s).at <= |s.data| && r.text == LineAt(s.data, Abstract(s).at, room)
            && (if room == 0 then r.stream == s
               else Warm(r.stream) && r.stream.pushed.None?
                    && Abstract(r.stream) == Position(Abstract(s).at + |r.text|, false, RanOut(r.text, room)))
    decreases room
  {
    hide GetC, Abstract, Warm, Before;
    AbstractInData(s);
    if room > 0 {
      GetCAt(s);
      var got := GetC(s);
      if got.c != ENDSTREAMCH && got.c != NEWLINE as int {
        GetLineAt(got.stream, room - 1);
        var more := GetLine(got.stream, room - 1).text;
        assert GetLine(s, room).text == [got.c] + more;
        RanOutLater(got.c, more, room);
      }
    }
  }

  lemma RanOutLater(c: int, more: seq<int>, room: nat)
    requires room > 0 && c != NEWLINE as int
    ensures RanOut([c] + more, room) == (|more| + 1 < room && RanOut(more, room - 1))
  {
  }

  lemma AbstractInData(s: Stream)
    requires s.Valid()
    ensures Abstract(s).at <= |s.data|
  {
  }

  /** Every call on a warm stream is a step of the plain stream, and leaves it warm. */
  lemma StepRefines(s: Stream, call: Call)
    requires Warm(s)
    ensures var r := Do(s, call);
            Warm(r.stream) && PlainDo(s.data, Abstract(s), call) == PlainStep(r.reply, Abstract(r.stream))
  {
    hide LineAt, GetLine, RanOut;
    match call
    case FGetC => GetCAt(s);
    case UnGetLast =>
    case FGets(n) => GetLineAt(s, if n == 0 then 0 else n - 1);
  }

  // --- Whole runs ---

  function Run(s: Stream, calls: seq<Call>): (r: seq<Step>)
    requires s.Valid()
    ensures |r| == |calls| && forall i :: 0 <= i < |r| ==> r[i].stream.Valid() && r[i].stream.data == s.data
    decreases |calls|
  {
    if calls == [] then [] else [Do(s, calls[0])] + Run(Do(s, calls[0]).stream, calls[1..])
  }

  function Final(s: Stream, run: seq<Step>): Stream {
    if run == [] then s else run[|run| - 1].stream
  }

  /** What was delivered after one more reply, less what it took back; taking back the
      end takes back nothing. */
  function Balance(sofar: seq<int>, last: Option<int>, reply: Reply): seq<int> {
    match reply
    case Got(c) => if c == ENDSTREAMCH then sofar else sofar + [c]
    case Took(ok) => if ok && last != Some(ENDSTREAMCH) && sofar != [] then sofar[..|sofar| - 1] else sofar
    case Text(t) => sofar + t
  }

  function Net(sofar: seq<int>, s: Stream, run: seq<Step>): seq<int>
    decreases |run|
  {
    if run == [] then sofar
    else Net(Balance(sofar, s.last, run[0].reply), run[0].stream, run[1..])
  }

  lemma CharsGrow(data: Bytes, at: nat, n: nat)
    requires at + n <= |data|
    ensures Chars(data[..at]) + Chars(data[at..at + n]) == Chars(data[..at + n])
  {
  }

  lemma CharsShrink(data: Bytes, at: nat)
    requires 0 < at <= |data|
    ensures var sofar := Chars(data[..at]);
            sofar != [] && sofar[..|sofar| - 1] == Chars(data[..at - 1])
  {
  }

  /** One step of the plain stream moves the balance along with the position. */
  lemma PlainBalance(data: Bytes, p: Position, last: Option<int>, call: Call)
    requires p.at <= |data| && p.ended == (last == Some(ENDSTREAMCH))
    ensures Balance(Chars(data[..p.at]), last, PlainDo(data, p, call).reply)
            == Chars(data[..PlainDo(data, p, call).p.at])
  {
    hide LineAt, RanOut, Chars;
    match call
    case FGetC =>
      if p.at < |data| { OneGrows(data, p.at); }
    case UnGetLast =>
      if p.at > 0 { CharsShrink(data, p.at); }
    case FGets(n) =>
      if n >= 2 {
        var text := LineAt(data, p.at, n - 1);
        LineIsSlice(data, p.at, n - 1);
        CharsGrow(data, p.at, |text|);
      }
  }

  lemma OneGrows(data: Bytes, at: nat)
    requires at < |data|
    ensures Chars(data[..at]) + [data[at] as int] == Chars(data[..at + 1])
  {
  }

  lemma BalanceStep(s: Stream, call: Call)
    requires Warm(s)
    ensures Balance(Chars(s.data[..Abstract(s).at]), s.last, Do(s, call).reply)
            == Chars(s.data[..Abstract(Do(s, call).stream).at])
  {
    hide Warm, Do, PlainDo, Balance, Chars;
    StepRefines(s, call);
    AbstractInData(s);
    PlainBalance(s.data, Abstract(s), s.last, call);
  }

  /** However reads and take-backs are mixed, what a run delivered on balance is the
      stream up to its position. */
  lemma {:induction false} NetIsPrefix(s: Stream, calls: seq<Call>)
    requires Warm(s)
    ensures var run := Run(s, calls);
            && Warm(Final(s, run))
            && Net(Chars(s.data[..Abstract(s).at]), s, run) == Chars(s.data[..Abstract(Final(s, run)).at])
    decreases |calls|
  {
    hide Warm, Abstract, Do, Balance;
    if calls != [] {
      StepRefines(s, calls[0]);
      BalanceStep(s, calls[0]);
      var first := Do(s, calls[0]);
      assert Run(s, calls)[1..] == Run(first.stream, calls[1..]);
      NetIsPrefix(first.stream, calls[1..]);
    }
  }

  // --- From the start, and lines only ---

  predicate Reads(call: Call) {
    call.FGetC? || (call.FGets? && call.capacity >= 2)
  }

  function Opened(data: Bytes): (s: Stream)
    ensures s.Valid() && s.Rest() == Chars(data)
  {
    assert data[0..] == data;
    Stream(data, 0, None, None)
  }

  /** A first read of an opened stream warms it up. */
  lemma FirstReadRefines(data: Bytes, call: Call)
    requires Reads(call)
    ensures var s := Opened(data);
            var r := Do(s, call);
            && Warm(r.stream)
            && PlainDo(data, Position(0, false, false), call) == PlainStep(r.reply, Abstract(r.stream))
            && Balance([], s.last, r.reply) == Chars(data[..Abstract(r.stream).at])
  {
    hide LineAt, GetLine, GetC, RanOut, Abstract, Warm;
    var s := Opened(data);
    OpenedAt(data);
    if call.FGets? {
      LineIsSlice(data, 0, call.capacity - 1);
    }
    if call.FGetC? {
      GetCAt(s);
    } else {
      GetLineAt(s, call.capacity - 1);
    }
  }

  /** From the start: after a first read, any mix of calls delivers, on balance, a prefix
      of the data. */
  lemma {:induction false} RunDeliversPrefix(data: Bytes, first: Call, calls: seq<Call>)
    requires Reads(first)
    ensures var run := Run(Opened(data), [first] + calls);
            Net([], Opened(data), run) == Chars(data[..Abstract(Final(Opened(data), run)).at])
  {
    hide Warm, Abstract, Do, Balance;
    var s := Opened(data);
    var start := Do(s, first);
    FirstReadRefines(data, first);
    var run := Run(s, [first] + calls);
    assert ([first] + calls)[1..] == calls;
    assert run[0] == start && run[1..] == Run(start.stream, calls);
    NetIsPrefix(start.stream, calls);
    assert Final(s, run) == Final(start.stream, run[1..]);
    assert Net([], s, run) == Net(Balance([], s.last, start.reply), start.stream, run[1..]);
  }

  ghost predicate AllLines(calls: seq<Call>) {
    forall i :: 0 <= i < |calls| ==> calls[i].FGets? && calls[i].capacity >= 2
  }

  /** A newline ends the text it is in. */
  ghost predicate NewlineOnlyLast(text: seq<int>) {
    forall i :: 0 <= i < |text| && text[i] == NEWLINE as int ==> i == |text| - 1
  }

  /** Lines, a newline only ever ends one, and one is empty only if all was delivered. */
  ghost predicate ProperLines(run: seq<Step>, all: bool) {
    forall i :: 0 <= i < |run| ==>
      && run[i].reply.Text? && NewlineOnlyLast(run[i].reply.text)
      && (run[i].reply.text == [] ==> all)
  }

  function Concat(run: seq<Step>): seq<int> {
    if run == [] then [] else (match run[0].reply case Text(t) => t case _ => []) + Concat(run[1..])
  }

  lemma {:induction false} LineNewlines(data: Bytes, at: nat, room: nat)
    requires at <= |data|
    ensures NewlineOnlyLast(LineAt(data, at, room))
    ensures room > 0 ==> (LineAt(data, at, room) == [] <==> at == |data|)
    decreases room
  {
    if room > 0 && at < |data| && data[at] != NEWLINE {
      LineNewlines(data, at + 1, room - 1);
    }
  }

  /** Successive lines concatenate back to the data from where they started, a newline only
      ever ends one, and one is empty exactly when everything was delivered before it. */
  lemma {:induction false} LinesConcatenate(s: Stream, calls: seq<Call>)
    requires s.Valid() && (s.pushed.Some? ==> Before(s, s.pushed)) && AllLines(calls)
    ensures var run := Run(s, calls);
            var at' := Abstract(Final(s, run)).at;
            && Abstract(s).at <= at' <= |s.data|
            && Concat(run) == Chars(s.data[Abstract(s).at..at'])
            && ProperLines(run, at' == |s.data|)
    decreases |calls|
  {
    hide GetLine, LineAt, NewlineOnlyLast, Before, Abstract, Do, ProperLines, Chars;
    AbstractInData(s);
    NoLines(Abstract(s).at == |s.data|);
    if calls != [] {
      LineStep(s, calls[0]);
      var first := Do(s, calls[0]);
      LinesConcatenate(first.stream, calls[1..]);
      var run := Run(s, calls);
      assert run[1..] == Run(first.stream, calls[1..]);
      CharsJoin(s.data, Abstract(s).at, Abstract(first.stream).at, Abstract(Final(s, run)).at);
      MoreLines(first, run[1..], Abstract(Final(s, run)).at == |s.data|);
      assert run == [first] + run[1..];
    }
  }

  lemma MoreLines(first: Step, run: seq<Step>, all: bool)
    requires first.reply.Text? && NewlineOnlyLast(first.reply.text) && (first.reply.text == [] ==> all)
    requires ProperLines(run, all)
    ensures ProperLines([first] + run, all)
  {
  }

  lemma NoLines(all: bool)
    ensures ProperLines([], all)
  {
  }

  lemma LineStep(s: Stream, call: Call)
    requires s.Valid() && (s.pushed.Some? ==> Before(s, s.pushed)) && call.FGets? && call.capacity >= 2
    ensures var r := Do(s, call);
            && (r.stream.pushed.Some? ==> Before(r.stream, r.stream.pushed))
            && r.reply.Text? && NewlineOnlyLast(r.reply.text)
            && Abstract(s).at <= Abstract(r.stream).at <= |s.data|
            && r.reply.text == Chars(s.data[Abstract(s).at..Abstract(r.stream).at])
            && (r.reply.text == [] ==> Abstract(r.stream).at == |s.data|)
  {
    hide GetLine, LineAt, NewlineOnlyLast, Before, Abstract;
    AbstractInData(s);
    GetLineAt(s, call.capacity - 1);
    LineNewlines(s.data, Abstract(s).at, call.capacity - 1);
    LineIsSlice(s.data, Abstract(s).at, call.capacity - 1);
    WarmPushed(Do(s, call).stream);
  }

  lemma WarmPushed(s: Stream)
    requires Warm(s)
    ensures s.pushed.Some? ==> Before(s, s.pushed)
  {
  }

  lemma CharsJoin(data: Bytes, at: nat, mid: nat, end: nat)
    requires at <= mid <= end <= |data|
    ensures Chars(data[at..mid]) + Chars(data[mid..end]) == Chars(data[at..end])
  {
  }

  /** Lines read from the start until one comes back empty are the whole stream. */
  lemma {:induction false} LinesAreTheStream(data: Bytes, calls: seq<Call>)
    requires AllLines(calls) && calls != []
    requires var run := Run(Opened(data), calls); run[|run| - 1].reply == Text([])
    ensures Concat(Run(Opened(data), calls)) == Chars(data)
  {
    hide Do, Abstract, Concat, Run;
    var s := Opened(data);
    var run := Run(s, calls);
    LinesConcatenate(s, calls);
    OpenedAt(data);
    assert data[0..|data|] == data;
  }

  lemma OpenedAt(data: Bytes)
    ensures Abstract(Opened(data)).at == 0
  {
  }

  /** Taking back the last character before any was read plants an end of stream in
      front of the data: the next read reports the end, rightly only when there was nothing
      to read; the one after it starts the data. */
  lemma ColdTakeBack(s: Stream)
    requires s.Valid() && s.pushed.None? && s.last.None?
    ensures var back := UnGetC(s, ENDSTREAMCH);
            var next := GetC(back.stream);
            && back.ok && next.c == ENDSTREAMCH
            && (next.c == GetC(s).c <==> s.pos == |s.data|)
            && GetC(next.stream).c == GetC(s).c
  {
  }

  // --- The calls as they run ---

  datatype HostFile = HostFile(data: Bytes, pos: nat)

  class DosState {
    /** The command line, which reads of the current input take first. */
    const inputBuf: Bytes
    const currentInput: Option<nat>
    var inputPos: nat
    /** How much of the current input's file was read before the command line. */
    ghost const skipped: nat
    var handles: map<nat, HostFile>
    var ungetcBuf: map<nat, int>
    var lastGetc: map<nat, int>
    var ioErr: int

    ghost predicate Valid()
      reads this`handles, this`inputPos
    {
      && (forall h <- handles :: handles[h].pos <= |handles[h].data|)
      && inputPos <= |inputBuf|
      && (currentInput.Some? ==>
            var file := FileOf(handles, currentInput.value);
            skipped <= file.pos && (inputPos < |inputBuf| ==> file.pos == skipped))
    }

    /** An unknown handle reads as an empty file. */
    static function FileOf(handles: map<nat, HostFile>, h: nat): HostFile {
      if h in handles then handles[h] else HostFile([], 0)
    }

    function Entry(m: map<nat, int>, h: nat): Option<int> {
      if h in m then Some(m[h]) else None
    }

    /** What a handle reads from: its file, and for the current input the command line and
        then its file. */
    ghost function Source(h: nat): (s: Stream)
      requires Valid()
      reads this`handles, this`inputPos
      ensures s.Valid() && s.pushed.None? && s.last.None?
    {
      var file := FileOf(handles, h);
      if currentInput == Some(h) then
        Stream(inputBuf + file.data[skipped..], inputPos + (file.pos - skipped), None, None)
      else Stream(file.data, file.pos, None, None)
    }

    /** That, with the pushed-back character and the one last read. */
    ghost function View(h: nat): (s: Stream)
      requires Valid()
      reads this
      ensures s.Valid()
    {
      Source(h).(pushed := Entry(ungetcBuf, h), last := Entry(lastGetc, h))
    }

    constructor (handles: map<nat, HostFile>, inputBuf: Bytes, inputPos: nat, currentInput: Option<nat>)
      requires forall h <- handles :: handles[h].pos <= |handles[h].data|
      requires inputPos <= |inputBuf|
      ensures Valid() && this.handles == handles && forall h :: View(h).pushed.None? && View(h).last.None?
      ensures currentInput.Some? ==>
                var file := FileOf(handles, currentInput.value);
                View(currentInput.value) == Stream(inputBuf + file.data[file.pos..], inputPos, None, None)
    {
      this.handles, this.inputBuf, this.inputPos, this.currentInput := handles, inputBuf, inputPos, currentInput;
      this.skipped := if currentInput.Some? then FileOf(handles, currentInput.value).pos else 0;
      ungetcBuf, lastGetc, ioErr := map[], map[], 0;
    }

    /** The next byte: the rest of the command line first when this is the current input. */
    method ReadBufferedByte(h: nat) returns (b: Option<byte>)
      requires Valid()
      modifies this`inputPos, this`handles
      ensures Valid() && handles.Keys == old(handles.Keys)
      ensures var s := old(Source(h));
              && b == (if s.pos < |s.data| then Some(s.data[s.pos]) else None)
              && Source(h) == (if s.pos < |s.data| then s.(pos := s.pos + 1) else s)
      ensures forall o: nat :: o != h ==> Source(o) == old(Source(o))
    {
      if currentInput == Some(h) && inputPos < |inputBuf| {
        inputPos := inputPos + 1;
        return Some(inputBuf[inputPos - 1]);
      }
      b := None;
      if h in handles && handles[h].pos < |handles[h].data| {
        var f := handles[h];
        b := Some(f.data[f.pos]);
        handles := handles[h := f.(pos := f.pos + 1)];
      }
    }

    method FGetC(h: nat) returns (c: int)
      requires Valid()
      modifies this
      ensures Valid() && handles.Keys == old(handles.Keys)
      ensures c == GetC(old(View(h))).c && View(h) == GetC(old(View(h))).stream
      ensures forall o: nat :: o != h ==> View(o) == old(View(o))
      ensures ioErr == if old(View(h).pushed.Some? || View(h).pos < |View(h).data|) then old(ioErr)
                       else if h in handles then 0 else ERROR_INVALID_LOCK
    {
      hide Source, Valid;
      if h in ungetcBuf {
        c := ungetcBuf[h];
        ungetcBuf := ungetcBuf - {h};
      } else {
        var b := ReadBufferedByte(h);
        if b.Some? {
          c := b.value;
        } else {
          c := ENDSTREAMCH;
          ioErr := if h in handles then 0 else ERROR_INVALID_LOCK;
        }
      }
      lastGetc := lastGetc[h := c];
    }

    method UnGetCharacter(h: nat, ch: int) returns (ok: bool)
      requires Valid()
      modifies this`ungetcBuf
      ensures Valid() && ok == UnGetC(old(View(h)), ch).ok && View(h) == UnGetC(old(View(h)), ch).stream
      ensures forall o: nat :: o != h ==> View(o) == old(View(o))
    {
      hide Source, Valid;
      if h in ungetcBuf {
        return false;
      }
      var value := if ch == ENDSTREAMCH then (if h in lastGetc then lastGetc[h] else ENDSTREAMCH) else ch;
      ungetcBuf := ungetcBuf[h := value];
      ok := true;
    }

    /** A line into a guest buffer, with its terminator; false is the null result. */
    method FGetsInto(h: nat, buf: array<byte>, capacity: nat) returns (some: bool)
      requires Valid() && capacity <= buf.Length
      modifies this, buf
      ensures Valid()
      ensures capacity == 0 ==> !some && buf[..] == old(buf[..]) && View(h) == old(View(h))
      ensures capacity > 0 ==>
                var line := GetLine(old(View(h)), capacity - 1);
                && View(h) == line.stream && some == (line.text != [])
                && buf[..|line.text|] == AsBytes(line.text) && buf[|line.text|] == 0
                && buf[|line.text| + 1..] == old(buf[..])[|line.text| + 1..]
      ensures forall o: nat :: o != h ==> View(o) == old(View(o))
    {
      hide GetC, GetLine, Stored, LineSoFar;
      if capacity == 0 {
        return false;
      }
      var n := 0;
      ghost var whole := GetLine(View(h), capacity - 1);
      ghost var text: seq<int> := [];
      ghost var was := buf[..];
      StoredNone(was);
      SoFarNone(View(h), capacity - 1);
      while n < capacity - 1
        invariant Valid() && 0 <= n <= capacity - 1 && |text| == n
        invariant LineSoFar(whole, text, View(h), capacity - 1 - n)
        invariant Stored(buf[..], was, text)
        invariant forall o: nat :: o != h ==> View(o) == old(View(o))
      {
        ghost var s := View(h);
        var c := FGetC(h);
        SoFarMore(whole, text, s, capacity - 1 - n);
        if c == ENDSTREAMCH {
          break;
        }
        StoredMore(buf[..], was, text, c);
        buf[n] := Low8(c);
        text := text + [c];
        n := n + 1;
        if c == NEWLINE as int {
          break;
        }
      }
      SoFarAll(whole, text, View(h), capacity - 1 - n);
      StoredEnd(buf[..], was, text);
      buf[n] := 0;
      some := n > 0;
    }
  }

  /** A character stored as one byte. */
  function Low8(c: int): (b: byte)
    ensures (c - b) % 256 == 0
  {
    c % 256
  }

  function AsBytes(text: seq<int>): (b: Bytes)
    ensures |b| == |text|
  {
    seq(|text|, i requires 0 <= i < |text| => Low8(text[i]))
  }

  // --- What the line loop keeps ---

  ghost predicate Stored(buf: Bytes, was: Bytes, text: seq<int>) {
    |text| <= |buf| == |was| && buf[..|text|] == AsBytes(text) && buf[|text|..] == was[|text|..]
  }

  lemma StoredNone(was: Bytes)
    ensures Stored(was, was, [])
  {
  }

  lemma StoredMore(buf: Bytes, was: Bytes, text: seq<int>, c: int)
    requires Stored(buf, was, text) && |text| < |buf|
    ensures Stored(buf[|text| := Low8(c)], was, text + [c])
  {
    hide Low8;
    var buf' := buf[|text| := Low8(c)];
    assert buf'[..|text| + 1] == buf[..|text|] + [Low8(c)];
    assert AsBytes(text + [c]) == AsBytes(text) + [Low8(c)];
    assert forall i :: |text| < i < |buf| ==> buf'[i] == buf[|text|..][i - |text|] == was[i];
  }

  lemma StoredEnd(buf: Bytes, was: Bytes, text: seq<int>)
    requires Stored(buf, was, text) && |text| < |buf|
    ensures var buf' := buf[|text| := 0];
            buf'[..|text|] == AsBytes(text) && buf'[|text|] == 0 && buf'[|text| + 1..] == was[|text| + 1..]
  {
    hide AsBytes;
    assert buf[|text| := 0][..|text|] == buf[..|text|];
    assert forall i :: |text| < i < |buf| ==> buf[i] == buf[|text|..][i - |text|] == was[i];
  }

  /** What was read so far, and what is still to come, make the whole line, unless the
      line is already over. */
  ghost predicate LineSoFar(whole: Line, text: seq<int>, s: Stream, room: nat) {
    s.Valid() && whole.text == text + GetLine(s, room).text && whole.stream == GetLine(s, room).stream
  }

  lemma {:induction false} SoFarNone(s: Stream, room: nat)
    requires s.Valid()
    ensures LineSoFar(GetLine(s, room), [], s, room)
  {
  }

  ghost predicate LineOver(whole: Line, text: seq<int>, s: Stream) {
    whole.text == text && whole.stream == s
  }

  lemma SoFarMore(whole: Line, text: seq<int>, s: Stream, room: nat)
    requires LineSoFar(whole, text, s, room) && room > 0
    ensures var got := GetC(s);
            if got.c == ENDSTREAMCH then LineOver(whole, text, got.stream)
            else if got.c == NEWLINE as int then LineOver(whole, text + [got.c], got.stream)
            else LineSoFar(whole, text + [got.c], got.stream, room - 1)
  {
    hide GetC;
    var got := GetC(s);
    if got.c != ENDSTREAMCH && got.c != NEWLINE as int {
      var more := GetLine(got.stream, room - 1);
      assert text + ([got.c] + more.text) == text + [got.c] + more.text;
    }
  }

  lemma SoFarAll(whole: Line, text: seq<int>, s: Stream, room: nat)
    requires LineOver(whole, text, s) || (room == 0 && LineSoFar(whole, text, s, room))
    ensures LineOver(whole, text, s)
  {
  }
}
