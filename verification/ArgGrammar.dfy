// The rules of the command line and of templates, said byte by byte.

module ArgGrammar {
  import opened Guest
  import opened Pieces
  import opened ArgReader
  import opened ArgMatch
  import opened ArgTokens
  import opened ArgTemplate
  import opened ArgStores

  // --- Items ---

  /** A space or a tab. */
  predicate Blank(b: byte) { b == 32 || b == 9 }

  /** A blank, a newline, `;` or `=`. */
  predicate Ends(b: byte) { Blank(b) || b == 10 || b == 59 || b == 61 }

  /** The item at a place: blanks are passed over; the end of the buffer, a newline or `;` is
      nothing; `=` stands alone; a double quote opens a quoted item; and anything else is a
      word up to the next blank, newline, `;` or `=`. */
  lemma {:induction false} ItemIs(buf: Bytes, pos: nat)
    requires pos <= |buf|
    ensures var item := ItemAt(buf, pos);
            var s := item.start;
            && pos <= s <= item.end <= |buf|
            && (forall i :: pos <= i < s ==> Blank(buf[i])) && (s < |buf| ==> !Blank(buf[s]))
            && (item.kind == Nothing <==> s == |buf| || buf[s] == 10 || buf[s] == 59)
            && (item.kind == Equal <==> s < |buf| && buf[s] == 61)
            && (item.kind == Quoted || item.kind == Error <==> s < |buf| && buf[s] == 34)
            && (item.kind == Unquoted ==>
                  && item.text == buf[s..item.end] && item.text != []
                  && (forall i :: s <= i < item.end ==> !Ends(buf[i]))
                  && (item.end == |buf| || Ends(buf[item.end])))
  {
    var item := ItemAt(buf, pos);
    ItemAdvances(buf, pos);
    if item.kind == Unquoted { assert !IsDelimiter(buf[item.start]); }
  }

  /** A quoted item is closed if and only if a quote that no star escapes comes before the end
      of the line; up to a byte that is no quote, star or newline it is taken as it stands. */
  lemma PlainQuoted(buf: Bytes, pos: nat)
    requires pos <= |buf|
    ensures pos == |buf| || buf[pos] == 10 ==> QuotedBody(buf, pos) == Body(false, [], pos)
    ensures pos < |buf| && buf[pos] == 34 ==> QuotedBody(buf, pos) == Body(true, [], pos + 1)
    ensures pos < |buf| && buf[pos] != 34 && buf[pos] != 42 && buf[pos] != 10 ==>
              var rest := QuotedBody(buf, pos + 1);
              QuotedBody(buf, pos) == rest.(text := [buf[pos]] + rest.text)
  {
  }

  lemma {:induction false} LineDone(t: Template, buf: Bytes, pos: nat, slots: Slots, cursor: nat)
    requires |t| == |slots| && pos <= |buf|
    ensures var e := LineEnd(buf, pos); Loop(t, buf, e, slots, cursor) == Matched(slots, e)
  {
    hide LineEnd, Take, QuotedBody, WordEnd;
  }

  /** A word for a /F slot takes everything from its first byte to the end of the line, and the
      line is done. */
  lemma {:induction false} RestTaken(t: Template, buf: Bytes, pos: nat, slots: Slots, cursor: nat)
    requires |t| == |slots| && pos <= |buf|
    requires var item := ItemAt(buf, pos);
             (item.kind == Unquoted || item.kind == Quoted) && KeywordOf(t, item).None?
    requires cursor < |Positionals(t, |t|)| && Positionals(t, |t|)[cursor] < |t|
    requires t[Positionals(t, |t|)[cursor]].kind == RestOfLine
    ensures var i, start := Positionals(t, |t|)[cursor], ItemAt(buf, pos).start;
            var e := LineEnd(buf, start);
            Loop(t, buf, pos, slots, cursor)
            == Matched(slots[i := slots[i].(str := Some(buf[start..e]))], e)
  {
    hide ItemAt, LineEnd, Positionals, KeywordOf;
    var item := ItemAt(buf, pos);
    var i := Positionals(t, |t|)[cursor];
    ItemAdvances(buf, pos);
    ItemStaysOnLine(buf, pos);
    var raw := buf[item.start..LineEnd(buf, item.start)];
    LineDone(t, buf, item.start, slots[i := slots[i].(str := Some(raw))], cursor + 1);
  }

  /** A quoted word names no slot, whatever it says. */
  lemma QuotedNamesNothing(t: Template, item: Item)
    requires item.kind == Quoted
    ensures KeywordOf(t, item).None?
  {
  }

  // --- Slots for bare words ---

  /** In increasing order. */
  predicate Rising(r: seq<nat>) { forall i, j :: 0 <= i < j < |r| ==> r[i] < r[j] }

  /** Bare words can fill the slots that are neither /K nor /S nor /T, in template order. */
  lemma {:induction false} PositionalsAre(t: Template, n: nat)
    requires n <= |t|
    ensures Rising(Positionals(t, n))
    ensures forall i: nat :: i in Positionals(t, n) <==>
              i < n && !t[i].keywordOnly && t[i].kind != Switch && t[i].kind != Toggle
  {
    PositionalsRise(t, n);
    PositionalsHold(t, n);
  }

  lemma RisingMore(r: seq<nat>, x: nat)
    requires Rising(r) && forall y <- r :: y < x
    ensures Rising(r + [x])
  {
    var all := r + [x];
    forall i, j | 0 <= i < j < |all| ensures all[i] < all[j] {
      if j == |r| { assert r[i] in r; }
    }
  }

  lemma {:induction false} PositionalsRise(t: Template, n: nat)
    requires n <= |t|
    ensures Rising(Positionals(t, n))
  {
    hide Rising;
    if n == 0 {
      NoneRising();
    } else {
      PositionalsRise(t, n - 1);
      var before := Positionals(t, n - 1);
      if Positional(t[n - 1]) {
        RisingMore(before, n - 1);
      } else {
        assert before + [] == before;
      }
    }
  }

  lemma NoneRising()
    ensures Rising([])
  {
  }

  lemma {:induction false} PositionalsHold(t: Template, n: nat)
    requires n <= |t|
    ensures forall i: nat :: i in Positionals(t, n) <==>
              i < n && !t[i].keywordOnly && t[i].kind != Switch && t[i].kind != Toggle
  {
    if n > 0 {
      PositionalsHold(t, n - 1);
      var before := Positionals(t, n - 1);
      var last: seq<nat> := if Positional(t[n - 1]) then [n - 1] else [];
      assert Positionals(t, n) == before + last;
      forall i: nat
        ensures i in Positionals(t, n) <==>
                  i < n && !t[i].keywordOnly && t[i].kind != Switch && t[i].kind != Toggle
      {
        assert i in before + last <==> i in before || i in last;
        assert i in last <==> i == n - 1 && Positional(t[n - 1]);
        assert i in before <==> i < n - 1 && !t[i].keywordOnly && t[i].kind != Switch && t[i].kind != Toggle;
      }
    }
  }

  /** No word that is not quoted names slot i. */
  predicate Unnamed(t: Template, items: seq<Item>, i: nat) {
    forall k :: 0 <= k < |items| ==> KeywordOf(t, items[k]) != Some(i)
  }

  /** A /K slot gets nothing from a line that does not name it. */
  lemma {:induction false} KeywordOnly(t: Template, items: seq<Item>, cursor: nat, i: nat)
    requires Closed(items) && i < |t| && t[i].keywordOnly && Unnamed(t, items, i)
    ensures Texts(Puts(t, items, cursor), i) == []
    decreases |items|
  {
    hide Used, HeadPut, CursorAfter, TooMany, KeywordOf;
    var item := items[0];
    if item.kind == Equal {
      KeywordOnly(t, items[1..], cursor, i);
    } else if item.kind != Nothing && item.kind != Error {
      var used := Used(t, items);
      if used < |items| && !TooMany(t, item, cursor) {
        HeadNotPut(t, items, cursor, i);
        KeywordOnly(t, items[used..], CursorAfter(t, item, cursor), i);
        TextsJoin(HeadPut(t, items, cursor), Puts(t, items[used..], CursorAfter(t, item, cursor)), i);
      }
    }
  }

  lemma {:induction false} HeadNotPut(t: Template, items: seq<Item>, cursor: nat, i: nat)
    requires Closed(items) && items[0].kind != Nothing && i < |t| && t[i].keywordOnly
    requires KeywordOf(t, items[0]) != Some(i)
    ensures Texts(HeadPut(t, items, cursor), i) == []
  {
    hide Used, KeywordOf, Positionals;
    PositionalsAre(t, |t|);
    var positional := Positionals(t, |t|);
    if cursor < |positional| { assert positional[cursor] in positional; }
    var puts := HeadPut(t, items, cursor);
    if puts != [] { assert puts == [puts[0]] && puts[1..] == []; }
  }

  // --- Modifiers ---

  /** A modifier is one letter, large or small. */
  predicate IsLetter(modifier: Bytes, large: byte) {
    |modifier| == 1 && (modifier[0] == large || modifier[0] as int == large as int + 32)
  }

  /** The letters that say what kind of slot it is. */
  predicate KindLetter(modifier: Bytes) {
    IsLetter(modifier, 83) || IsLetter(modifier, 84) || IsLetter(modifier, 78) || IsLetter(modifier, 77)
    || IsLetter(modifier, 70)
  }

  predicate AnyLetter(modifiers: seq<Bytes>, large: byte) {
    exists k :: 0 <= k < |modifiers| && IsLetter(modifiers[k], large)
  }

  /** The kind that S, T, N, M or F stands for. */
  predicate LetterOf(kind: ArgKind, modifier: Bytes) {
    match kind
    case Switch => IsLetter(modifier, 83)
    case Toggle => IsLetter(modifier, 84)
    case Number => IsLetter(modifier, 78)
    case Multi => IsLetter(modifier, 77)
    case RestOfLine => IsLetter(modifier, 70)
    case Str => false
  }

  ghost predicate KindFrom(m: Mods, modifiers: seq<Bytes>, kind: ArgKind) {
    if m.kindSet then kind == m.kind && forall k :: 0 <= k < |modifiers| ==> !KindLetter(modifiers[k])
    else if kind == Str then forall k :: 0 <= k < |modifiers| ==> !KindLetter(modifiers[k])
    else exists k :: 0 <= k < |modifiers| && OnlyKind(modifiers, k, kind)
  }

  /** Modifier k gives the kind, and no other one gives any. */
  ghost predicate OnlyKind(modifiers: seq<Bytes>, k: nat, kind: ArgKind)
    requires k < |modifiers|
  {
    LetterOf(kind, modifiers[k]) && forall j :: 0 <= j < |modifiers| && j != k ==> !KindLetter(modifiers[j])
  }

  /** What modifiers mean: each is A, K or a kind's letter, at most one of them gives a kind,
      and that kind is not taken already. */
  ghost predicate Mean(m: Mods, modifiers: seq<Bytes>, haveMulti: bool, haveRest: bool, r: Mods) {
    && (forall k :: 0 <= k < |modifiers| ==>
          IsLetter(modifiers[k], 65) || IsLetter(modifiers[k], 75) || KindLetter(modifiers[k]))
    && KindFrom(m, modifiers, r.kind)
    && (r.kindSet <==> m.kindSet || r.kind != Str)
    && (r.required <==> m.required || AnyLetter(modifiers, 65))
    && (r.keywordOnly <==> m.keywordOnly || AnyLetter(modifiers, 75))
    && (m.kindSet || !((r.kind == Multi && haveMulti) || (r.kind == RestOfLine && haveRest)))
  }

  lemma OneModifierMeans(m: Mods, modifier: Bytes, haveMulti: bool, haveRest: bool)
    ensures var r := Modify(m, modifier, haveMulti, haveRest);
            if IsLetter(modifier, 65) then r == Some(m.(required := true))
            else if IsLetter(modifier, 75) then r == Some(m.(keywordOnly := true))
            else if KindLetter(modifier) && !m.kindSet then
              exists kind: ArgKind :: LetterOf(kind, modifier)
                && r == if (kind == Multi && haveMulti) || (kind == RestOfLine && haveRest) then None
                        else Some(m.(kind := kind, kindSet := true))
            else r.None?
  {
    if KindLetter(modifier) && !m.kindSet {
      var kind := KindOf(Upper(modifier[0])).value;
      assert LetterOf(kind, modifier);
    }
  }

  lemma LetterIsOne(modifier: Bytes, a: ArgKind, b: ArgKind)
    requires LetterOf(a, modifier) && LetterOf(b, modifier)
    ensures a == b && KindLetter(modifier) && a != Str && !IsLetter(modifier, 65) && !IsLetter(modifier, 75)
  {
  }

  lemma AnyLetterFirst(first: Bytes, rest: seq<Bytes>, large: byte)
    ensures AnyLetter([first] + rest, large) <==> IsLetter(first, large) || AnyLetter(rest, large)
  {
    hide IsLetter;
    var all := [first] + rest;
    assert all[0] == first && forall k :: 0 <= k < |rest| ==> all[k + 1] == rest[k];
    if AnyLetter(rest, large) {
      var k :| 0 <= k < |rest| && IsLetter(rest[k], large);
      assert IsLetter(all[k + 1], large);
    }
  }

  ghost predicate NoKind(modifiers: seq<Bytes>) { forall k :: 0 <= k < |modifiers| ==> !KindLetter(modifiers[k]) }

  lemma NoKindFirst(first: Bytes, rest: seq<Bytes>)
    ensures NoKind([first] + rest) <==> !KindLetter(first) && NoKind(rest)
  {
    hide KindLetter;
    var all := [first] + rest;
    assert all[0] == first && forall k :: 0 <= k < |rest| ==> all[k + 1] == rest[k];
  }

  lemma OnlyKindFirst(first: Bytes, rest: seq<Bytes>, k: nat, kind: ArgKind)
    requires !KindLetter(first) && k < |rest|
    ensures OnlyKind([first] + rest, k + 1, kind) <==> OnlyKind(rest, k, kind)
  {
    hide KindLetter, LetterOf;
    var all := [first] + rest;
    assert all[0] == first && forall j :: 0 <= j < |rest| ==> all[j + 1] == rest[j];
    if OnlyKind(all, k + 1, kind) {
      forall j | 0 <= j < |rest| && j != k ensures !KindLetter(rest[j]) { assert !KindLetter(all[j + 1]); }
    }
  }

  lemma KindFromFirst(m: Mods, first: Bytes, rest: seq<Bytes>, kind: ArgKind)
    requires !KindLetter(first)
    ensures KindFrom(m, [first] + rest, kind) <==> KindFrom(m, rest, kind)
  {
    hide KindLetter, LetterOf, OnlyKind;
    NoKindFirst(first, rest);
    if !m.kindSet && kind != Str {
      if k :| 0 <= k < |rest| && OnlyKind(rest, k, kind) {
        OnlyKindFirst(first, rest, k, kind);
      }
      if k :| 0 <= k < |[first] + rest| && OnlyKind([first] + rest, k, kind) {
        if k == 0 { OnlyIsKind([first] + rest, 0, kind); }
        OnlyKindFirst(first, rest, k - 1, kind);
      }
    }
  }

  lemma OnlyIsKind(modifiers: seq<Bytes>, k: nat, kind: ArgKind)
    requires k < |modifiers| && OnlyKind(modifiers, k, kind)
    ensures KindLetter(modifiers[k])
  {
    LetterKind(modifiers[k], kind);
  }

  lemma LetterKind(modifier: Bytes, kind: ArgKind)
    requires LetterOf(kind, modifier)
    ensures KindLetter(modifier)
  {
  }

  lemma KindFromLetter(m: Mods, first: Bytes, rest: seq<Bytes>, kind: ArgKind)
    requires KindLetter(first) && !m.kindSet
    ensures KindFrom(m, [first] + rest, kind) <==> LetterOf(kind, first) && NoKind(rest)
  {
    hide KindLetter, LetterOf;
    var all := [first] + rest;
    assert all[0] == first && forall k :: 0 <= k < |rest| ==> all[k + 1] == rest[k];
    if LetterOf(kind, first) && NoKind(rest) {
      StrHasNone(kind, first);
      assert OnlyKind(all, 0, kind);
    }
    if KindFrom(m, all, kind) && kind != Str {
      var k :| 0 <= k < |all| && OnlyKind(all, k, kind);
      if k > 0 { assert KindLetter(all[0]); }
    }
  }

  lemma StrHasNone(kind: ArgKind, modifier: Bytes)
    requires LetterOf(kind, modifier)
    ensures kind != Str
  {
  }

  lemma NoKindMeans(m: Mods, modifiers: seq<Bytes>, kind: ArgKind)
    requires m.kindSet && m.kind != Str
    ensures KindFrom(m, modifiers, kind) <==> kind == m.kind && NoKind(modifiers)
  {
    hide KindLetter;
  }

  /** The first modifier, and what the others mean after it. */
  lemma MeanFirst(m: Mods, first: Bytes, rest: seq<Bytes>, haveMulti: bool, haveRest: bool, r: Mods)
    requires m.kindSet <==> m.kind != Str
    ensures Mean(m, [first] + rest, haveMulti, haveRest, r) <==>
              var next := Modify(m, first, haveMulti, haveRest);
              next.Some? && Mean(next.value, rest, haveMulti, haveRest, r)
  {
    hide KindLetter, LetterOf, IsLetter, Modify, KindFrom, AnyLetter;
    OneModifierMeans(m, first, haveMulti, haveRest);
    AnyLetterFirst(first, rest, 65);
    AnyLetterFirst(first, rest, 75);
    LettersFirst(first, rest);
    LettersApart(first);
    if !KindLetter(first) {
      KindFromFirst(m, first, rest, r.kind);
      if IsLetter(first, 65) {
        SameKindFrom(m, m.(required := true), rest, r.kind);
      } else if IsLetter(first, 75) {
        SameKindFrom(m, m.(keywordOnly := true), rest, r.kind);
      }
    } else if !m.kindSet {
      KindFromLetter(m, first, rest, r.kind);
      KindCase(m, first, rest, haveMulti, haveRest, r);
    } else {
      NoKindMeans(m, [first] + rest, r.kind);
      NoKindFirst(first, rest);
    }
  }

  lemma SameKindFrom(m: Mods, m': Mods, modifiers: seq<Bytes>, kind: ArgKind)
    requires m.kindSet == m'.kindSet && m.kind == m'.kind
    ensures KindFrom(m, modifiers, kind) <==> KindFrom(m', modifiers, kind)
  {
  }

  lemma LettersApart(modifier: Bytes)
    ensures !(IsLetter(modifier, 65) && IsLetter(modifier, 75))
    ensures KindLetter(modifier) ==> !IsLetter(modifier, 65) && !IsLetter(modifier, 75)
  {
  }

  ghost predicate Letters(modifiers: seq<Bytes>) {
    forall k :: 0 <= k < |modifiers| ==>
      IsLetter(modifiers[k], 65) || IsLetter(modifiers[k], 75) || KindLetter(modifiers[k])
  }

  lemma LettersFirst(first: Bytes, rest: seq<Bytes>)
    ensures Letters([first] + rest) <==>
              (IsLetter(first, 65) || IsLetter(first, 75) || KindLetter(first)) && Letters(rest)
  {
    hide IsLetter, KindLetter;
    var all := [first] + rest;
    assert all[0] == first && forall k :: 0 <= k < |rest| ==> all[k + 1] == rest[k];
  }

  lemma KindCase(m: Mods, first: Bytes, rest: seq<Bytes>, haveMulti: bool, haveRest: bool, r: Mods)
    requires KindLetter(first) && !m.kindSet && m.kind == Str
    requires KindFrom(m, [first] + rest, r.kind) <==> LetterOf(r.kind, first) && NoKind(rest)
    requires AnyLetter([first] + rest, 65) == AnyLetter(rest, 65)
    requires AnyLetter([first] + rest, 75) == AnyLetter(rest, 75)
    requires Letters([first] + rest) == Letters(rest)
    ensures Mean(m, [first] + rest, haveMulti, haveRest, r) <==>
              var next := Modify(m, first, haveMulti, haveRest);
              next.Some? && Mean(next.value, rest, haveMulti, haveRest, r)
  {
    hide IsLetter, KindLetter, AnyLetter, Modify, LetterOf, KindFrom;
    OneModifierMeans(m, first, haveMulti, haveRest);
    LettersApart(first);
    var next := Modify(m, first, haveMulti, haveRest);
    var kind: ArgKind :| LetterOf(kind, first)
      && next == if (kind == Multi && haveMulti) || (kind == RestOfLine && haveRest) then None
                 else Some(m.(kind := kind, kindSet := true));
    StrHasNone(kind, first);
    if LetterOf(r.kind, first) { LetterIsOne(first, kind, r.kind); }
    if next.Some? { NoKindMeans(next.value, rest, r.kind); }
  }

  lemma {:induction false} ModifiersMean(m: Mods, modifiers: seq<Bytes>, haveMulti: bool, haveRest: bool, r: Mods)
    requires m.kindSet <==> m.kind != Str
    ensures ModifyAll(m, modifiers, haveMulti, haveRest) == Some(r) <==> Mean(m, modifiers, haveMulti, haveRest, r)
    decreases |modifiers|
  {
    hide Mean, Modify;
    if modifiers == [] {
      NoModifiers(m, haveMulti, haveRest, r);
    } else {
      var first, rest := modifiers[0], modifiers[1..];
      assert modifiers == [first] + rest;
      MeanFirst(m, first, rest, haveMulti, haveRest, r);
      var next := Modify(m, first, haveMulti, haveRest);
      if next.Some? {
        ModifiedKind(m, first, haveMulti, haveRest);
        ModifiersMean(next.value, rest, haveMulti, haveRest, r);
      }
    }
  }

  lemma ModifiedKind(m: Mods, modifier: Bytes, haveMulti: bool, haveRest: bool)
    requires m.kindSet <==> m.kind != Str
    ensures var r := Modify(m, modifier, haveMulti, haveRest);
            r.Some? ==> (r.value.kindSet <==> r.value.kind != Str)
  {
  }

  lemma NoModifiers(m: Mods, haveMulti: bool, haveRest: bool, r: Mods)
    requires m.kindSet <==> m.kind != Str
    ensures Mean(m, [], haveMulti, haveRest, r) <==> r == m
  {
  }

  // --- Parts ---

  /** What one part of a template means: before the first slash its names, apart at `=`, in
      capitals and none of them empty, unless there is nothing; after it the modifiers, apart
      at slashes. */
  ghost predicate PartMeans(part: Bytes, haveMulti: bool, haveRest: bool, arg: TemplateArg) {
    var pieces := Cut(part, SLASH);
    && (pieces[0] == [] ==> arg.names == [])
    && (pieces[0] != [] ==>
          var names := Cut(pieces[0], EQUALS);
          && |arg.names| == |names|
          && forall k :: 0 <= k < |names| ==> names[k] != [] && arg.names[k] == ToUpper(names[k]))
    && Mean(PLAIN, pieces[1..], haveMulti, haveRest,
            Mods(arg.kind, arg.kind != Str, arg.keywordOnly, arg.required))
  }

  /** A part is accepted exactly for what it means; one that means nothing is refused. */
  lemma {:induction false} PartIff(part: Bytes, haveMulti: bool, haveRest: bool, arg: TemplateArg)
    ensures ParsePart(part, haveMulti, haveRest) == Some(arg) <==> PartMeans(part, haveMulti, haveRest, arg)
  {
    hide Cut, Mean, ModifyAll, ToUpper;
    var pieces := Cut(part, SLASH);
    var m := Mods(arg.kind, arg.kind != Str, arg.keywordOnly, arg.required);
    ModifiersMean(PLAIN, pieces[1..], haveMulti, haveRest, m);
    var r := ModifyAll(PLAIN, pieces[1..], haveMulti, haveRest);
    if r.Some? {
      ModifiersMean(PLAIN, pieces[1..], haveMulti, haveRest, r.value);
      MeanKindSet(PLAIN, pieces[1..], haveMulti, haveRest, r.value);
    }
    if pieces[0] != [] {
      NamesIff(Cut(pieces[0], EQUALS), arg.names);
    }
  }

  lemma MeanKindSet(m: Mods, modifiers: seq<Bytes>, haveMulti: bool, haveRest: bool, r: Mods)
    requires Mean(m, modifiers, haveMulti, haveRest, r) && !m.kindSet
    ensures r.kindSet <==> r.kind != Str
  {
  }

  lemma NamesIff(pieces: seq<Bytes>, names: seq<Bytes>)
    ensures [] !in UpperAll(pieces) && names == UpperAll(pieces) <==>
              |names| == |pieces| && forall k :: 0 <= k < |pieces| ==> pieces[k] != [] && names[k] == ToUpper(pieces[k])
  {
    var upper := UpperAll(pieces);
    forall k | 0 <= k < |pieces| ensures upper[k] == [] <==> pieces[k] == [] { }
    if [] !in upper {
      forall k | 0 <= k < |pieces| ensures pieces[k] != [] { assert upper[k] in upper; }
    }
  }

  /** One of the first k slots is of this kind. */
  ghost predicate Earlier(t: Template, k: nat, kind: ArgKind)
    requires k <= |t|
  {
    exists j :: 0 <= j < k && t[j].kind == kind
  }

  /** Part k means slot k, what is before it having its /M and its /F. */
  ghost predicate PartAt(parts: seq<Bytes>, haveMulti: bool, haveRest: bool, t: Template, k: nat)
    requires k < |parts| == |t|
  {
    PartMeans(parts[k], haveMulti || Earlier(t, k, Multi), haveRest || Earlier(t, k, RestOfLine), t[k])
  }

  ghost predicate PartsMean(parts: seq<Bytes>, haveMulti: bool, haveRest: bool, t: Template) {
    |t| == |parts| && forall k :: 0 <= k < |parts| ==> PartAt(parts, haveMulti, haveRest, t, k)
  }

  lemma EarlierFirst(arg: TemplateArg, rest: Template, k: nat, kind: ArgKind)
    requires k <= |rest|
    ensures Earlier([arg] + rest, k + 1, kind) <==> arg.kind == kind || Earlier(rest, k, kind)
  {
    var all := [arg] + rest;
    assert all[0] == arg && forall j :: 0 <= j < |rest| ==> all[j + 1] == rest[j];
    if Earlier(rest, k, kind) {
      var j :| 0 <= j < k && rest[j].kind == kind;
      assert all[j + 1].kind == kind;
    }
  }

  lemma PartAtFirst(part: Bytes, parts: seq<Bytes>, haveMulti: bool, haveRest: bool, arg: TemplateArg, rest: Template)
    requires |parts| == |rest|
    ensures PartAt([part] + parts, haveMulti, haveRest, [arg] + rest, 0) <==> PartMeans(part, haveMulti, haveRest, arg)
  {
    hide PartMeans;
    NoneEarlier([arg] + rest, Multi);
    NoneEarlier([arg] + rest, RestOfLine);
  }

  lemma PartAtNext(part: Bytes, parts: seq<Bytes>, haveMulti: bool, haveRest: bool, arg: TemplateArg, rest: Template,
                   k: nat)
    requires k < |parts| == |rest|
    ensures PartAt([part] + parts, haveMulti, haveRest, [arg] + rest, k + 1) <==>
              PartAt(parts, haveMulti || arg.kind == Multi, haveRest || arg.kind == RestOfLine, rest, k)
  {
    hide PartMeans, Earlier;
    EarlierFirst(arg, rest, k, Multi);
    EarlierFirst(arg, rest, k, RestOfLine);
    assert ([part] + parts)[k + 1] == parts[k] && ([arg] + rest)[k + 1] == rest[k];
  }

  lemma PartsFirst(part: Bytes, parts: seq<Bytes>, haveMulti: bool, haveRest: bool, arg: TemplateArg, rest: Template)
    ensures PartsMean([part] + parts, haveMulti, haveRest, [arg] + rest) <==>
              PartMeans(part, haveMulti, haveRest, arg)
              && PartsMean(parts, haveMulti || arg.kind == Multi, haveRest || arg.kind == RestOfLine, rest)
  {
    hide PartMeans, PartAt;
    var allParts, all := [part] + parts, [arg] + rest;
    var haveMulti', haveRest' := haveMulti || arg.kind == Multi, haveRest || arg.kind == RestOfLine;
    if |rest| == |parts| {
      PartAtFirst(part, parts, haveMulti, haveRest, arg, rest);
      forall k | 0 <= k < |parts|
        ensures PartAt(allParts, haveMulti, haveRest, all, k + 1) <==> PartAt(parts, haveMulti', haveRest', rest, k)
      {
        PartAtNext(part, parts, haveMulti, haveRest, arg, rest, k);
      }
      forall k | 0 < k < |allParts|
        ensures PartAt(allParts, haveMulti, haveRest, all, k) <==> PartAt(parts, haveMulti', haveRest', rest, k - 1)
      {
        PartAtNext(part, parts, haveMulti, haveRest, arg, rest, k - 1);
      }
    }
  }

  lemma NoneEarlier(t: Template, kind: ArgKind)
    ensures !Earlier(t, 0, kind)
  {
  }

  lemma {:induction false} PartsIff(parts: seq<Bytes>, haveMulti: bool, haveRest: bool, t: Template)
    ensures ParseParts(parts, haveMulti, haveRest) == Some(t) <==> PartsMean(parts, haveMulti, haveRest, t)
    decreases |parts|
  {
    hide ParsePart, PartMeans, PartsMean;
    if parts == [] || t == [] {
      NoParts(parts, haveMulti, haveRest, t);
    } else {
      assert parts == [parts[0]] + parts[1..] && t == [t[0]] + t[1..];
      PartIff(parts[0], haveMulti, haveRest, t[0]);
      PartsFirst(parts[0], parts[1..], haveMulti, haveRest, t[0], t[1..]);
      PartsIff(parts[1..], haveMulti || t[0].kind == Multi, haveRest || t[0].kind == RestOfLine, t[1..]);
      var arg := ParsePart(parts[0], haveMulti, haveRest);
      if arg.Some? {
        var kind := arg.value.kind;
        var rest := ParseParts(parts[1..], haveMulti || kind == Multi, haveRest || kind == RestOfLine);
        if rest.Some? {
          assert ([arg.value] + rest.value)[0] == arg.value && ([arg.value] + rest.value)[1..] == rest.value;
        }
      }
    }
  }

  lemma {:induction false} NoParts(parts: seq<Bytes>, haveMulti: bool, haveRest: bool, t: Template)
    requires parts == [] || t == []
    ensures ParseParts(parts, haveMulti, haveRest) == Some(t) <==> PartsMean(parts, haveMulti, haveRest, t)
  {
    hide ParsePart, PartMeans;
    if parts != [] {
      var arg := ParsePart(parts[0], haveMulti, haveRest);
      if arg.Some? {
        var kind := arg.value.kind;
        var rest := ParseParts(parts[1..], haveMulti || kind == Multi, haveRest || kind == RestOfLine);
        if rest.Some? { assert |[arg.value] + rest.value| > 0; }
      }
    }
  }

  /** A template is accepted exactly for the slots its parts mean, apart at commas, one /M and
      one /F at most; a template with a part that means nothing is refused. */
  lemma {:induction false} TemplateIff(text: Bytes, t: Template)
    ensures ParseTemplate(text) == Some(t) <==>
              if text == [] then t == [] else PartsMean(Cut(text, COMMA), false, false, t)
  {
    hide ParseParts, PartsMean;
    if text != [] { PartsIff(Cut(text, COMMA), false, false, t); }
  }
}
