// ReadArgs templates: NAME[=ALIAS...][/mod...],...

module ArgTemplate {
  import opened Guest
  import opened Pieces
  import opened ArgReader
  import opened ArgMatch

  const COMMA: byte := 44

  /** The modifiers of one slot read so far. */
  datatype Mods = Mods(kind: ArgKind, kindSet: bool, keywordOnly: bool, required: bool)

  /** The kind a modifier letter asks for. */
  function KindOf(letter: byte): Option<ArgKind> {
    if letter == 83 then Some(Switch)
    else if letter == 84 then Some(Toggle)
    else if letter == 78 then Some(Number)
    else if letter == 77 then Some(Multi)
    else if letter == 70 then Some(RestOfLine)
    else None
  }

  function Modify(m: Mods, modifier: Bytes, haveMulti: bool, haveRest: bool): Option<Mods> {
    if |modifier| != 1 then None
    else
      var letter := Upper(modifier[0]);
      var kind := KindOf(letter);
      if letter == 65 then Some(m.(required := true))
      else if letter == 75 then Some(m.(keywordOnly := true))
      else if kind.None? || m.kindSet then None
      else if (kind.value == Multi && haveMulti) || (kind.value == RestOfLine && haveRest) then None
      else Some(m.(kind := kind.value, kindSet := true))
  }

  function ModifyAll(m: Mods, modifiers: seq<Bytes>, haveMulti: bool, haveRest: bool): Option<Mods>
    decreases modifiers
  {
    if modifiers == [] then Some(m)
    else match Modify(m, modifiers[0], haveMulti, haveRest)
      case None => None
      case Some(m') => ModifyAll(m', modifiers[1..], haveMulti, haveRest)
  }

  function UpperAll(names: seq<Bytes>): seq<Bytes> {
    seq(|names|, i requires 0 <= i < |names| => ToUpper(names[i]))
  }

  const PLAIN := Mods(Str, false, false, false)

  function ParsePart(part: Bytes, haveMulti: bool, haveRest: bool): Option<TemplateArg> {
    var pieces := Cut(part, SLASH);
    var names := if pieces[0] == [] then [] else UpperAll(Cut(pieces[0], EQUALS));
    if [] in names then None
    else match ModifyAll(PLAIN, pieces[1..], haveMulti, haveRest)
      case None => None
      case Some(m) => Some(TemplateArg(names, m.kind, m.keywordOnly, m.required))
  }

  function ParseParts(parts: seq<Bytes>, haveMulti: bool, haveRest: bool): Option<Template> {
    if parts == [] then Some([])
    else match ParsePart(parts[0], haveMulti, haveRest)
      case None => None
      case Some(arg) =>
        match ParseParts(parts[1..], haveMulti || arg.kind == Multi, haveRest || arg.kind == RestOfLine)
        case None => None
        case Some(rest) => Some([arg] + rest)
  }

  /** None is ERROR_BAD_TEMPLATE. */
  function ParseTemplate(template: Bytes): Option<Template> {
    if template == [] then Some([]) else ParseParts(Cut(template, COMMA), false, false)
  }

  /** The slots parsed so far in front of what the rest of the parts give. */
  function Prepend(out: Template, rest: Option<Template>): Option<Template> {
    match rest case None => None case Some(more) => Some(out + more)
  }

  lemma PrependOne(out: Template, arg: TemplateArg, rest: Option<Template>)
    ensures Prepend(out, Prepend([arg], rest)) == Prepend(out + [arg], rest)
  {
    if rest.Some? { assert out + ([arg] + rest.value) == (out + [arg]) + rest.value; }
  }

  method RunParseTemplate(template: Bytes) returns (r: Option<Template>)
    ensures r == ParseTemplate(template)
  {
    hide ParsePart, Cut;
    if template == [] {
      return Some([]);
    }
    var out, haveMulti, haveRest := [], false, false;
    var parts := Cut(template, COMMA);
    var k := 0;
    assert parts[0..] == parts;
    assert forall t: Template :: [] + t == t;
    while k < |parts|
      invariant 0 <= k <= |parts|
      invariant ParseTemplate(template) == Prepend(out, ParseParts(parts[k..], haveMulti, haveRest))
    {
      assert parts[k..][1..] == parts[k + 1..];
      var arg := RunParsePart(parts[k], haveMulti, haveRest);
      if arg.None? {
        return None;
      }
      haveMulti := haveMulti || arg.value.kind == Multi;
      haveRest := haveRest || arg.value.kind == RestOfLine;
      PrependOne(out, arg.value, ParseParts(parts[k + 1..], haveMulti, haveRest));
      out := out + [arg.value];
      k := k + 1;
    }
    assert parts[k..] == [] && out + [] == out;
    r := Some(out);
  }

  method RunParsePart(part: Bytes, haveMulti: bool, haveRest: bool) returns (r: Option<TemplateArg>)
    ensures r == ParsePart(part, haveMulti, haveRest)
  {
    hide Modify, Cut, UpperAll;
    var pieces := Cut(part, SLASH);
    var names := [];
    if pieces[0] != [] {
      names := UpperAll(Cut(pieces[0], EQUALS));
      if [] in names {
        return None;
      }
    }
    var m := PLAIN;
    var k := 1;
    while k < |pieces|
      invariant 1 <= k <= |pieces|
      invariant ModifyAll(m, pieces[k..], haveMulti, haveRest) == ModifyAll(PLAIN, pieces[1..], haveMulti, haveRest)
    {
      assert pieces[k..][1..] == pieces[k + 1..];
      var next := Modify(m, pieces[k], haveMulti, haveRest);
      if next.None? {
        return None;
      }
      m := next.value;
      k := k + 1;
    }
    r := Some(TemplateArg(names, m.kind, m.keywordOnly, m.required));
  }

  // --- What every accepted template keeps ---

  /** At most one slot is of this kind. */
  ghost predicate AtMostOne(t: Template, kind: ArgKind) {
    forall i, j :: 0 <= i < j < |t| ==> !(t[i].kind == kind && t[j].kind == kind)
  }

  /** Names are non-empty, in capitals and hold no separator. */
  ghost predicate ProperName(name: Bytes) {
    name != [] && ToUpper(name) == name && EQUALS !in name && SLASH !in name && COMMA !in name
  }

  ghost predicate ProperNames(arg: TemplateArg) {
    forall name <- arg.names :: ProperName(name)
  }

  lemma {:induction false} ModifyKind(m: Mods, modifiers: seq<Bytes>, haveMulti: bool, haveRest: bool)
    requires m.kindSet || m.kind == Str
    ensures var r := ModifyAll(m, modifiers, haveMulti, haveRest);
            r.Some? ==> r.value.kind == m.kind
                        || ((r.value.kind == Multi ==> !haveMulti) && (r.value.kind == RestOfLine ==> !haveRest))
    decreases |modifiers|
  {
    if modifiers != [] {
      var m' := Modify(m, modifiers[0], haveMulti, haveRest);
      if m'.Some? { ModifyKind(m'.value, modifiers[1..], haveMulti, haveRest); }
    }
  }

  lemma UpperKeepsOut(text: Bytes, b: byte)
    requires b !in text && !(65 <= b <= 90) && !(97 <= b <= 122)
    ensures b !in ToUpper(text) && ToUpper(ToUpper(text)) == ToUpper(text)
  {
    forall i | 0 <= i < |text| ensures ToUpper(text)[i] != b { assert text[i] in text; }
  }

  lemma PartProper(part: Bytes, haveMulti: bool, haveRest: bool)
    requires COMMA !in part
    ensures var r := ParsePart(part, haveMulti, haveRest);
            r.Some? ==> ProperNames(r.value)
                        && (r.value.kind == Multi ==> !haveMulti) && (r.value.kind == RestOfLine ==> !haveRest)
  {
    hide ModifyAll, Cut;
    var r := ParsePart(part, haveMulti, haveRest);
    var pieces := Cut(part, SLASH);
    ModifyKind(PLAIN, pieces[1..], haveMulti, haveRest);
    PiecesKeepOut(part, SLASH, COMMA);
    assert pieces[0] in pieces;
    var parts := Cut(pieces[0], EQUALS);
    PiecesKeepOut(pieces[0], EQUALS, COMMA);
    PiecesKeepOut(pieces[0], EQUALS, SLASH);
    if r.Some? {
      forall name | name in r.value.names ensures ProperName(name) {
        var i :| 0 <= i < |parts| && UpperAll(parts)[i] == name;
        assert parts[i] in parts;
        UpperKeepsOut(parts[i], COMMA);
        UpperKeepsOut(parts[i], SLASH);
        UpperKeepsOut(parts[i], EQUALS);
      }
    }
  }

  lemma {:induction false} PartsProper(parts: seq<Bytes>, haveMulti: bool, haveRest: bool)
    requires forall p <- parts :: COMMA !in p
    ensures var r := ParseParts(parts, haveMulti, haveRest);
            r.Some? ==>
              && |r.value| == |parts|
              && AtMostOne(r.value, Multi) && AtMostOne(r.value, RestOfLine)
              && (haveMulti ==> forall a <- r.value :: a.kind != Multi)
              && (haveRest ==> forall a <- r.value :: a.kind != RestOfLine)
              && (forall a <- r.value :: ProperNames(a))
    decreases |parts|
  {
    hide ParsePart, ProperNames;
    if parts != [] {
      PartProper(parts[0], haveMulti, haveRest);
      var arg := ParsePart(parts[0], haveMulti, haveRest);
      if arg.Some? {
        PartsProper(parts[1..], haveMulti || arg.value.kind == Multi, haveRest || arg.value.kind == RestOfLine);
      }
    }
  }

  /** An accepted template has one slot for each comma-separated part, at most one /M
      and one /F, and proper names. */
  lemma {:induction false} TemplateProper(template: Bytes)
    ensures var r := ParseTemplate(template);
            r.Some? ==>
              (template != [] ==> |r.value| == |Cut(template, COMMA)|) && ProperTemplate(r.value)
  {
    hide ParseParts, ProperNames;
    if template != [] {
      PartsProper(Cut(template, COMMA), false, false);
    }
  }

  // --- Writing a template ---

  function Letter(kind: ArgKind): seq<Bytes> {
    match kind
    case Str => []
    case Switch => [[83]]
    case Toggle => [[84]]
    case Number => [[78]]
    case Multi => [[77]]
    case RestOfLine => [[70]]
  }

  function PrintMods(arg: TemplateArg): seq<Bytes> {
    Letter(arg.kind) + (if arg.keywordOnly then [[75]] else []) + (if arg.required then [[65]] else [])
  }

  function PrintNames(names: seq<Bytes>): Bytes {
    if names == [] then [] else Join(names, EQUALS)
  }

  function PrintPart(arg: TemplateArg): Bytes {
    Join([PrintNames(arg.names)] + PrintMods(arg), SLASH)
  }

  function PrintParts(t: Template): seq<Bytes> {
    seq(|t|, i requires 0 <= i < |t| => PrintPart(t[i]))
  }

  function PrintTemplate(t: Template): Bytes {
    if t == [] then [] else Join(PrintParts(t), COMMA)
  }

  lemma {:induction false} ModsRead(arg: TemplateArg, haveMulti: bool, haveRest: bool)
    requires !(arg.kind == Multi && haveMulti) && !(arg.kind == RestOfLine && haveRest)
    ensures ModifyAll(PLAIN, PrintMods(arg), haveMulti, haveRest)
         == Some(Mods(arg.kind, arg.kind != Str, arg.keywordOnly, arg.required))
  {
    hide ModifyAll;
    var kind := Letter(arg.kind);
    var keyword: seq<Bytes> := if arg.keywordOnly then [[75]] else [];
    var required: seq<Bytes> := if arg.required then [[65]] else [];
    var m0 := PLAIN.(kind := arg.kind, kindSet := arg.kind != Str);
    var m1 := m0.(keywordOnly := arg.keywordOnly);
    OneModifier(PLAIN, kind, keyword + required, haveMulti, haveRest, m0);
    OneModifier(m0, keyword, required, haveMulti, haveRest, m1);
    OneModifier(m1, required, [], haveMulti, haveRest, m1.(required := arg.required));
    assert PrintMods(arg) == kind + (keyword + required) && required + [] == required;
    NoModifier(m1.(required := arg.required), haveMulti, haveRest);
  }

  lemma {:induction false} OneModifier(m: Mods, one: seq<Bytes>, rest: seq<Bytes>, haveMulti: bool, haveRest: bool,
                                       m': Mods)
    requires if one == [] then m' == m else |one| == 1 && Modify(m, one[0], haveMulti, haveRest) == Some(m')
    ensures ModifyAll(m, one + rest, haveMulti, haveRest) == ModifyAll(m', rest, haveMulti, haveRest)
  {
    hide Modify;
    if one == [] {
      assert one + rest == rest;
    } else {
      assert (one + rest)[1..] == rest;
    }
  }

  lemma {:induction false} NoModifier(m: Mods, haveMulti: bool, haveRest: bool)
    ensures ModifyAll(m, [], haveMulti, haveRest) == Some(m)
  {
  }

  lemma ModsPlain(arg: TemplateArg, b: byte)
    requires b == SLASH || b == COMMA
    ensures forall p <- PrintMods(arg) :: b !in p
  {
  }

  lemma {:induction false} NamesRead(names: seq<Bytes>)
    requires names != [] && forall name <- names :: ProperName(name)
    ensures var text := PrintNames(names);
            text != [] && SLASH !in text && COMMA !in text && UpperAll(Cut(text, EQUALS)) == names && [] !in names
  {
    hide Join, Cut, ToUpper;
    JoinCuts(names, EQUALS);
    JoinKeepsOut(names, EQUALS, SLASH);
    JoinKeepsOut(names, EQUALS, COMMA);
    assert names[0] in names;
    JoinNonEmpty(names, EQUALS);
    assert forall i :: 0 <= i < |names| ==> names[i] in names;
  }

  lemma {:induction false} PartReads(arg: TemplateArg, haveMulti: bool, haveRest: bool)
    requires ProperNames(arg)
    requires !(arg.kind == Multi && haveMulti) && !(arg.kind == RestOfLine && haveRest)
    ensures ParsePart(PrintPart(arg), haveMulti, haveRest) == Some(arg) && COMMA !in PrintPart(arg)
  {
    hide Join, Cut, UpperAll, ModifyAll, PrintMods, ProperName, PrintNames;
    var pieces := [PrintNames(arg.names)] + PrintMods(arg);
    NamesPlain(arg);
    ModsPlain(arg, SLASH);
    ModsPlain(arg, COMMA);
    JoinCuts(pieces, SLASH);
    JoinKeepsOut(pieces, SLASH, COMMA);
    ModsRead(arg, haveMulti, haveRest);
    assert pieces[1..] == PrintMods(arg);
    if arg.names != [] { NamesRead(arg.names); }
  }

  lemma NamesPlain(arg: TemplateArg)
    requires ProperNames(arg)
    ensures var text := PrintNames(arg.names);
            SLASH !in text && COMMA !in text && (text == [] <==> arg.names == [])
  {
    hide Join;
    if arg.names != [] { NamesRead(arg.names); }
  }

  /** A template that can be written: proper names, at most one /M and one /F. */
  ghost predicate ProperTemplate(t: Template) {
    AtMostOne(t, Multi) && AtMostOne(t, RestOfLine) && forall a <- t :: ProperNames(a)
  }

  lemma {:induction false} PartsRead(t: Template, haveMulti: bool, haveRest: bool)
    requires ProperTemplate(t)
    requires haveMulti ==> forall a <- t :: a.kind != Multi
    requires haveRest ==> forall a <- t :: a.kind != RestOfLine
    ensures ParseParts(PrintParts(t), haveMulti, haveRest) == Some(t)
    ensures forall p <- PrintParts(t) :: COMMA !in p
    decreases |t|
  {
    hide ParsePart, PrintPart, ProperNames;
    if t != [] {
      assert t[0] in t && forall a <- t[1..] :: a in t;
      PartReads(t[0], haveMulti, haveRest);
      PartsRead(t[1..], haveMulti || t[0].kind == Multi, haveRest || t[0].kind == RestOfLine);
      assert PrintParts(t)[1..] == PrintParts(t[1..]);
      assert [t[0]] + t[1..] == t;
    }
  }

  /** One slot with no name and no modifier: its text is that of no slot at all. */
  const NAMELESS: Template := [TemplateArg([], Str, false, false)]

  /** The slots that some template text asks for are exactly the proper ones other than the
      single nameless slot, and the written form of such a template reads back as it. */
  lemma {:induction false} TemplateReadsBack(t: Template)
    ensures ProperTemplate(t) && t != NAMELESS ==> ParseTemplate(PrintTemplate(t)) == Some(t)
    ensures (exists text :: ParseTemplate(text) == Some(t)) <==> ProperTemplate(t) && t != NAMELESS
  {
    hide ParseParts, ProperNames, PrintParts, Cut, ParseTemplate;
    if ProperTemplate(t) && t != NAMELESS {
      PrintedReads(t);
    }
    if text :| ParseTemplate(text) == Some(t) {
      TemplateProper(text);
      NotNameless(text);
    }
  }

  lemma {:induction false} PrintedReads(t: Template)
    requires ProperTemplate(t) && t != NAMELESS
    ensures ParseTemplate(PrintTemplate(t)) == Some(t)
  {
    hide ParseParts, ProperNames, Cut, PrintPart;
    if t != [] {
      PartsRead(t, false, false);
      JoinCuts(PrintParts(t), COMMA);
      PrintedIsEmpty(t);
    }
  }

  lemma PrintedIsEmpty(t: Template)
    requires t != [] && t != NAMELESS && forall a <- t :: ProperNames(a)
    ensures PrintTemplate(t) != []
  {
    hide PrintNames, ProperNames;
    assert t[0] in t;
    if |t| == 1 {
      NamesPlain(t[0]);
    }
  }

  lemma {:induction false} NotNameless(text: Bytes)
    ensures ParseTemplate(text) != Some(NAMELESS)
  {
    hide ParsePart;
    if text != [] {
      var parts := Cut(text, COMMA);
      if ParseParts(parts, false, false) == Some(NAMELESS) {
        OnePart(parts);
        OnlyPiece(text, COMMA);
        NamelessPart(text);
      }
    }
  }

  lemma {:induction false} OnePart(parts: seq<Bytes>)
    requires ParseParts(parts, false, false) == Some(NAMELESS)
    ensures |parts| == 1 && ParsePart(parts[0], false, false) == Some(NAMELESS[0])
  {
    hide ParsePart;
    var arg := ParsePart(parts[0], false, false).value;
    assert ParseParts(parts[1..], arg.kind == Multi, arg.kind == RestOfLine).value == [];
  }

  /** A part with text has a name or a modifier. */
  lemma {:induction false} NamelessPart(part: Bytes)
    requires ParsePart(part, false, false) == Some(NAMELESS[0])
    ensures part == []
  {
    var pieces := Cut(part, SLASH);
    if pieces[0] != [] {
      assert false;
    } else if |pieces| > 1 {
      ModifierShows(PLAIN, pieces[1..]);
    } else {
      OnlyPiece(part, SLASH);
    }
  }

  lemma {:induction false} ModifierShows(m: Mods, modifiers: seq<Bytes>)
    requires m.kindSet <==> m.kind != Str
    ensures var r := ModifyAll(m, modifiers, false, false);
            r.Some? && (modifiers != [] || m.kind != Str || m.keywordOnly || m.required) ==>
              r.value.kind != Str || r.value.keywordOnly || r.value.required
    decreases |modifiers|
  {
    if modifiers != [] {
      var m' := Modify(m, modifiers[0], false, false);
      if m'.Some? { ModifierShows(m'.value, modifiers[1..]); }
    }
  }

  // --- FindArg ---

  function FindArg(template: Bytes, keyword: Bytes): int {
    match ParseTemplate(template)
    case None => -1
    case Some(t) => match FindKeyword(t, keyword) case None => -1 case Some(i) => i
  }
}
