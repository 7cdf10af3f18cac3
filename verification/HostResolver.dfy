// The volume and assign manager behind the scanner: path syntax, names of volumes and
// assigns, the current directory and the walk that ignores case.  Its answers are
// consistent with its listings, which is what AnchorRun assumes of a host.

module HostResolver {
  import opened Guest
  import opened Pieces
  import opened HostTree
  import opened AnchorModel
  import opened AnchorWalk

  // --- Path syntax ---

  /** What stands before the colon, if there is one, and the components after it; an empty
      component is a step to the parent. */
  datatype Parsed = Parsed(volume: Option<Bytes>, components: seq<Bytes>)

  /** A slash at the end closes the last component and adds none. */
  function Components(rest: Bytes): seq<Bytes> {
    var parts := Cut(rest, SLASH);
    if parts[|parts| - 1] == [] then parts[..|parts| - 1] else parts
  }

  function ParsePath(path: Bytes): (r: Option<Parsed>)
    ensures r.Some? && r.value.volume.Some? ==> COLON !in r.value.volume.value
  {
    var parts := Cut(path, COLON);
    if |parts| > 2 then None
    else if |parts| == 2 then
      assert parts[0] in parts;
      Some(Parsed(Some(parts[0]), Components(parts[1])))
    else Some(Parsed(None, Components(parts[0])))
  }

  /** The names that are left when the steps to the parent are taken; None above the root. */
  function ApplyParents(components: seq<Bytes>, stack: seq<Bytes>): Option<seq<Bytes>>
    decreases |components|
  {
    if components == [] then Some(stack)
    else if components[0] != [] then ApplyParents(components[1..], stack + [components[0]])
    else if stack == [] then None
    else ApplyParents(components[1..], stack[..|stack| - 1])
  }

  // --- The walk ---

  predicate SameName(a: Bytes, b: Bytes) { ToUpper(a) == ToUpper(b) }

  function FindExact(es: seq<Entry>, name: Bytes): Option<Entry> {
    if es == [] then None
    else if es[0].name == name then Some(es[0])
    else FindExact(es[1..], name)
  }

  /** The first in byte order of the names that differ only in case. */
  function FindFolded(es: seq<Entry>, name: Bytes): Option<Entry> {
    if es == [] then None
    else
      var rest := FindFolded(es[1..], name);
      if SameName(es[0].name, name) && (rest.None? || !Precedes(rest.value.name, es[0].name)) then Some(es[0])
      else rest
  }

  function FindName(es: seq<Entry>, name: Bytes): Option<Entry> {
    if FindExact(es, name).Some? then FindExact(es, name) else FindFolded(es, name)
  }

  /** Where a walk ends, and the names on the way as the host spells them. */
  datatype Walked = Walked(node: Node, matched: seq<Bytes>)

  function WalkDown(base: Node, named: seq<Bytes>): Option<Walked>
    decreases |named|
  {
    if named == [] then Some(Walked(base, []))
    else if ListError(base).Some? then None
    else match FindName(base.entries, named[0])
      case None => None
      case Some(e) =>
        match WalkDown(e.node, named[1..])
        case None => None
        case Some(w) => Some(Walked(w.node, [e.name] + w.matched))
  }

  /** The number of the directory a walk started from, and where it ended: with the matched
      names, which object of the host it is. */
  datatype Reached = Reached(base: nat, node: Node, matched: seq<Bytes>)

  /** The first directory of an assign from which the whole walk succeeds. */
  function FirstReached(bases: seq<Node>, named: seq<Bytes>): Option<Reached> {
    if bases == [] then None
    else match WalkDown(bases[0], named)
      case Some(w) => Some(Reached(0, w.node, w.matched))
      case None =>
        match FirstReached(bases[1..], named)
        case None => None
        case Some(r) => Some(r.(base := r.base + 1))
  }

  // --- Names and the current directory ---

  /** A volume or an assign, and the host directories it stands for in search order. */
  datatype Volume = Volume(name: Bytes, bases: seq<Node>)

  /** The volumes, the assigns, and the directories behind any other name. */
  datatype Vfs = Vfs(volumes: seq<Volume>, assigns: seq<Volume>, auto: Bytes -> seq<Node>, cwd: Bytes)

  function FindVolume(volumes: seq<Volume>, name: Bytes): Option<Volume> {
    if volumes == [] then None
    else if SameName(volumes[0].name, name) then Some(volumes[0])
    else FindVolume(volumes[1..], name)
  }

  function FindConfigured(vfs: Vfs, name: Bytes): Option<Volume> {
    var volume := FindVolume(vfs.volumes, name);
    if volume.Some? then volume else FindVolume(vfs.assigns, name)
  }

  /** A name as it is configured, or as it is given. */
  function Canonical(vfs: Vfs, name: Bytes): Bytes {
    match FindConfigured(vfs, name) case Some(v) => v.name case None => name
  }

  function Bases(vfs: Vfs, name: Bytes): seq<Node> {
    match FindConfigured(vfs, name) case Some(v) => v.bases case None => vfs.auto(name)
  }

  function VolumeOf(vfs: Vfs, path: Bytes): Option<Bytes> {
    match ParsePath(path)
    case None => None
    case Some(parsed) =>
      if parsed.volume.Some? && parsed.volume.value != [] then Some(Canonical(vfs, parsed.volume.value)) else None
  }

  /** The volume a path starts in: its own, or the current directory's. */
  function LeadingName(vfs: Vfs, parsed: Parsed): Option<Bytes> {
    if parsed.volume.Some? && parsed.volume.value != [] then Some(Canonical(vfs, parsed.volume.value))
    else VolumeOf(vfs, vfs.cwd)
  }

  function EffectiveComponents(vfs: Vfs, parsed: Parsed): seq<Bytes> {
    if parsed.volume.Some? then parsed.components
    else match ParsePath(vfs.cwd)
      case None => parsed.components
      case Some(cwd) => cwd.components + parsed.components
  }

  function JoinNames(names: seq<Bytes>): Bytes {
    if names == [] then [] else Join(names, SLASH)
  }

  /** What a path leads to: an object of the host, by the volume or assign, the number of
      its directory and the names below that. */
  datatype Resolved = Resolved(volume: Bytes, base: nat, node: Node, matched: seq<Bytes>)
  {
    /** The spelling a lock records, which leaves out the number of the directory. */
    function Path(): Bytes { volume + [COLON] + JoinNames(matched) }
  }

  function ResolveNames(vfs: Vfs, volume: Bytes, named: seq<Bytes>): Option<Resolved> {
    match FirstReached(Bases(vfs, volume), named)
    case None => None
    case Some(r) => Some(Resolved(volume, r.base, r.node, r.matched))
  }

  function ResolveParsed(vfs: Vfs, parsed: Parsed): Option<Resolved> {
    var name := LeadingName(vfs, parsed);
    var named := ApplyParents(EffectiveComponents(vfs, parsed), []);
    if name.None? || named.None? then None else ResolveNames(vfs, name.value, named.value)
  }

  function ResolveCwd(vfs: Vfs): Option<Resolved> {
    match ParsePath(vfs.cwd)
    case None => None
    case Some(parsed) => if parsed.volume.None? then None else ResolveParsed(vfs, parsed)
  }

  /** While the current directory is a file, every path without a colon leads to it. */
  function Resolve(vfs: Vfs, path: Bytes): Option<Resolved> {
    match ParsePath(path)
    case None => None
    case Some(parsed) =>
      if parsed.volume.Some? then ResolveParsed(vfs, parsed)
      else match ResolveCwd(vfs)
        case None => None
        case Some(cwd) => if cwd.node.Dir? then ResolveParsed(vfs, parsed) else Some(cwd)
  }

  /** The host as MatchFirst and MatchNext use it. */
  function VfsHost(vfs: Vfs, parse: Bytes -> Option<Pattern>, hidden: Bytes -> bool): Host {
    Host(
      path => match Resolve(vfs, path) case Some(r) => Some(r.node) case None => None,
      path => match Resolve(vfs, path) case Some(r) => r.Path() case None => path,
      parse, hidden, vfs.cwd)
  }

  // --- Directories whose names can stand in a path ---

  ghost predicate FileName(name: Bytes) { name != [] && SLASH !in name && COLON !in name }

  /** Every name in the tree can be a component, and no directory has one twice. */
  ghost predicate Named(node: Node)
    decreases node
  {
    node.Dir? ==> ProperNames(node.entries) && forall e <- node.entries :: FileName(e.name) && Named(e.node)
  }

  /** No directory of the tree has two names that differ only in case. */
  ghost predicate CaseApart(node: Node)
    decreases node
  {
    node.Dir? ==>
      && (forall i, j :: 0 <= i < j < |node.entries| ==> !SameName(node.entries[i].name, node.entries[j].name))
      && (forall e <- node.entries :: CaseApart(e.node))
  }

  ghost predicate AllNamed(vfs: Vfs) {
    forall name, base :: base in Bases(vfs, name) ==> Named(base)
  }

  /** Each name stands for one directory, or for several without case twins. */
  ghost predicate Steady(vfs: Vfs) {
    forall name, base :: base in Bases(vfs, name) && |Bases(vfs, name)| > 1 ==> CaseApart(base)
  }

  // --- A child's path ---

  lemma {:induction false} CutExtends(s: Bytes, more: Bytes, sep: byte)
    requires sep !in more
    ensures var n := |Cut(s, sep)| - 1;
            Cut(s + more, sep) == Cut(s, sep)[..n] + [Cut(s, sep)[n] + more]
  {
    if s == [] {
      assert s + more == more;
      CutWhole(more, sep);
      assert Cut(s, sep) == [[]];
    } else {
      hide Cut, Onto;
      assert s == [s[0]] + s[1..] && s + more == [s[0]] + (s[1..] + more);
      CutExtends(s[1..], more, sep);
      CutStep(s[0], s[1..], sep);
      CutStep(s[0], s[1..] + more, sep);
      OntoExtends(s[0], Cut(s[1..], sep), more, sep);
    }
  }

  lemma OntoExtends(first: byte, pieces: seq<Bytes>, more: Bytes, sep: byte)
    requires pieces != []
    ensures var n, all := |pieces| - 1, Onto(first, pieces, sep);
            Onto(first, pieces[..n] + [pieces[n] + more], sep)
            == all[..|all| - 1] + [all[|all| - 1] + more]
  {
    if |pieces| == 1 {
      assert [first] + (pieces[0] + more) == [first] + pieces[0] + more;
    }
  }

  /** The last piece ends as the whole does. */
  lemma {:induction false} LastPiece(s: Bytes, sep: byte)
    requires s != []
    ensures var last := Cut(s, sep)[|Cut(s, sep)| - 1];
            if s[|s| - 1] == sep then last == [] else last != [] && last[|last| - 1] == s[|s| - 1]
  {
    hide Cut;
    if s[|s| - 1] == sep {
      CutContinues(s, [], sep);
    } else {
      var init, end := s[..|s| - 1], [s[|s| - 1]];
      assert s == init + end;
      CutExtends(init, end, sep);
    }
  }

  lemma ComponentsOfChild(rest: Bytes, name: Bytes)
    requires rest == [] || rest[|rest| - 1] == SLASH
    requires FileName(name)
    ensures Components(rest + (name + [SLASH])) == Components(rest) + [name]
  {
    hide Cut;
    CutContinues(rest, name + [SLASH], SLASH);
    assert name + [SLASH] == name + [SLASH] + [];
    CutFirst(name, [], SLASH);
    CutWhole([], SLASH);
    var parts := Cut(rest, SLASH);
    assert parts[..|parts| - 1] + ([name] + [[]]) == (parts[..|parts| - 1] + [name]) + [[]];
  }

  /** Under a path that ends in a separator, a name is one component more. */
  lemma ParseChild(p: Bytes, name: Bytes)
    requires EndsWithSep(p) && FileName(name) && ParsePath(p).Some?
    ensures var parsed := ParsePath(p).value;
            ParsePath(p + (name + [SLASH])) == Some(parsed.(components := parsed.components + [name]))
  {
    hide Cut, Components;
    var more := name + [SLASH];
    var parts := Cut(p, COLON);
    CutExtends(p, more, COLON);
    LastPiece(p, COLON);
    ComponentsOfChild(parts[|parts| - 1], name);
  }

  lemma {:induction false} ParentsThen(components: seq<Bytes>, stack: seq<Bytes>, name: Bytes)
    requires name != []
    ensures ApplyParents(components + [name], stack) ==
            match ApplyParents(components, stack) case None => None case Some(named) => Some(named + [name])
    decreases |components|
  {
    if components == [] {
      assert components + [name] == [name] && [name][1..] == [];
    } else {
      assert (components + [name])[1..] == components[1..] + [name];
      if components[0] != [] {
        ParentsThen(components[1..], stack + [components[0]], name);
      } else if stack != [] {
        ParentsThen(components[1..], stack[..|stack| - 1], name);
      }
    }
  }

  lemma {:induction false} ExactFound(es: seq<Entry>, e: Entry)
    requires e in es && ProperNames(es)
    ensures FindExact(es, e.name) == Some(e)
  {
    if es[0] != e {
      var i :| 0 <= i < |es| && es[i] == e;
      assert es[1..][i - 1] == e;
      assert ProperNames(es[1..]);
      ExactFound(es[1..], e);
    }
  }

  /** A walk that goes one name further: from where the walk ended, or not at all. */
  lemma {:induction false} WalkThen(base: Node, named: seq<Bytes>, name: Bytes)
    ensures WalkDown(base, named).None? ==> WalkDown(base, named + [name]).None?
    ensures WalkDown(base, named).Some? ==>
              var r := WalkDown(base, named).value;
              ListError(r.node).None? && FindName(r.node.entries, name).Some? ==>
                var e := FindName(r.node.entries, name).value;
                WalkDown(base, named + [name]) == Some(Walked(e.node, r.matched + [e.name]))
    decreases |named|
  {
    hide FindName;
    if named == [] {
      assert named + [name] == [name] && [name][1..] == [];
      if ListError(base).None? && FindName(base.entries, name).Some? {
        var e := FindName(base.entries, name).value;
        assert WalkDown(e.node, []) == Some(Walked(e.node, []));
        assert [e.name] + [] == [] + [e.name];
      }
    } else {
      assert (named + [name])[1..] == named[1..] + [name] && (named + [name])[0] == named[0];
      if ListError(base).None? && FindName(base.entries, named[0]).Some? {
        var e := FindName(base.entries, named[0]).value;
        WalkThen(e.node, named[1..], name);
        if WalkDown(e.node, named[1..]).Some? {
          NameAppended(e.name, WalkDown(e.node, named[1..]).value.matched);
        }
      }
    }
  }

  lemma NameAppended(first: Bytes, matched: seq<Bytes>)
    ensures forall last: Bytes :: [first] + (matched + [last]) == [first] + matched + [last]
  {
  }

  lemma {:induction false} FirstThen(bases: seq<Node>, named: seq<Bytes>, e: Entry)
    requires FirstReached(bases, named).Some?
    requires var r := FirstReached(bases, named).value;
             ListError(r.node).None? && FindName(r.node.entries, e.name) == Some(e)
    ensures var r := FirstReached(bases, named).value;
            FirstReached(bases, named + [e.name]) == Some(Reached(r.base, e.node, r.matched + [e.name]))
  {
    hide FindName, WalkDown;
    WalkThen(bases[0], named, e.name);
    if WalkDown(bases[0], named).None? {
      FirstThen(bases[1..], named, e);
    }
  }

  lemma {:induction false} FoundIsEntry(es: seq<Entry>, name: Bytes)
    ensures FindExact(es, name).Some? ==> FindExact(es, name).value in es && FindExact(es, name).value.name == name
    ensures FindFolded(es, name).Some? ==>
              FindFolded(es, name).value in es && SameName(FindFolded(es, name).value.name, name)
  {
    if es != [] { FoundIsEntry(es[1..], name); }
  }

  /** What a walk in a tree of proper names comes to. */
  lemma {:induction false} WalkNamed(base: Node, named: seq<Bytes>)
    requires Named(base) && WalkDown(base, named).Some?
    ensures var r := WalkDown(base, named).value;
            && Named(r.node) && |r.matched| == |named|
            && (forall m <- r.matched :: FileName(m))
            && (forall i :: 0 <= i < |named| ==> SameName(r.matched[i], named[i]))
    decreases |named|
  {
    hide FindExact, FindFolded, FileName;
    if named != [] {
      FoundIsEntry(base.entries, named[0]);
      var e := FindName(base.entries, named[0]).value;
      WalkNamed(e.node, named[1..]);
      var r, rest := WalkDown(base, named).value, WalkDown(e.node, named[1..]).value;
      forall i | 0 <= i < |named| ensures SameName(r.matched[i], named[i]) {
        if i > 0 { assert r.matched[i] == rest.matched[i - 1] && named[i] == named[1..][i - 1]; }
      }
    }
  }

  lemma {:induction false} FirstNamed(bases: seq<Node>, named: seq<Bytes>)
    requires (forall b <- bases :: Named(b)) && FirstReached(bases, named).Some?
    ensures var r := FirstReached(bases, named).value;
            && Named(r.node) && |r.matched| == |named|
            && (forall m <- r.matched :: FileName(m))
            && (forall i :: 0 <= i < |named| ==> SameName(r.matched[i], named[i]))
  {
    hide WalkDown, FileName, SameName, Named;
    if WalkDown(bases[0], named).Some? {
      WalkNamed(bases[0], named);
    } else {
      FirstNamed(bases[1..], named);
    }
  }

  /** The names of a path, when it has one. */
  lemma ResolvedNode(vfs: Vfs, parsed: Parsed)
    requires AllNamed(vfs) && ResolveParsed(vfs, parsed).Some?
    ensures Named(ResolveParsed(vfs, parsed).value.node)
  {
    hide ApplyParents, FirstReached, Named, FileName, SameName, LeadingName, Bases;
    FirstNamed(Bases(vfs, LeadingName(vfs, parsed).value), ApplyParents(EffectiveComponents(vfs, parsed), []).value);
  }

  lemma {:induction false} ChildParsed(vfs: Vfs, parsed: Parsed, e: Entry)
    requires AllNamed(vfs) && ResolveParsed(vfs, parsed).Some? && FileName(e.name)
    requires var node := ResolveParsed(vfs, parsed).value.node;
             ListError(node).None? && e in node.entries
    ensures var child := ResolveParsed(vfs, parsed.(components := parsed.components + [e.name]));
            child.Some? && child.value.node == e.node
  {
    hide ApplyParents, FirstReached, FindExact, FindFolded, Bases, LeadingName;
    ResolvedNode(vfs, parsed);
    var cs := EffectiveComponents(vfs, parsed);
    ChildEffective(vfs, parsed, e.name);
    ChildLeads(vfs, parsed, e.name);
    ParentsThen(cs, [], e.name);
    ExactFound(ResolveParsed(vfs, parsed).value.node.entries, e);
    FirstThen(Bases(vfs, LeadingName(vfs, parsed).value), ApplyParents(cs, []).value, e);
  }

  lemma ChildEffective(vfs: Vfs, parsed: Parsed, name: Bytes)
    ensures EffectiveComponents(vfs, parsed.(components := parsed.components + [name]))
         == EffectiveComponents(vfs, parsed) + [name]
  {
    hide ParsePath;
    if parsed.volume.None? && ParsePath(vfs.cwd).Some? {
      var cwd := ParsePath(vfs.cwd).value.components;
      assert cwd + (parsed.components + [name]) == (cwd + parsed.components) + [name];
    }
  }

  lemma ChildLeads(vfs: Vfs, parsed: Parsed, name: Bytes)
    ensures LeadingName(vfs, parsed.(components := parsed.components + [name])) == LeadingName(vfs, parsed)
  {
  }

  lemma {:induction false} ChildResolves(vfs: Vfs, p: Bytes, e: Entry)
    requires AllNamed(vfs) && EndsWithSep(p) && Resolve(vfs, p).Some?
    requires var node := Resolve(vfs, p).value.node;
             ListError(node).None? && e in node.entries
    ensures var child := Resolve(vfs, p + (e.name + [SLASH]));
            child.Some? && child.value.node == e.node
  {
    hide ParsePath, ResolveParsed, Named, ResolveCwd;
    var parsed := ParsePath(p).value;
    ResolvedNode(vfs, parsed);
    EntryNamed(ResolveParsed(vfs, parsed).value.node, e);
    ParseChild(p, e.name);
    ChildParsed(vfs, parsed, e);
  }

  lemma {:induction false} EntryNamed(node: Node, e: Entry)
    requires Named(node) && node.Dir? && e in node.entries
    ensures FileName(e.name)
  {
  }

  // --- A path as the volume spells it ---

  lemma UpperKeeps(a: Bytes, b: Bytes)
    requires SameName(a, b)
    ensures |a| == |b| && (COLON !in a ==> COLON !in b)
  {
    assert |ToUpper(a)| == |ToUpper(b)|;
    forall i | 0 <= i < |b| && COLON !in a ensures b[i] != COLON {
      assert ToUpper(a)[i] == ToUpper(b)[i] && a[i] in a;
    }
  }

  lemma {:induction false} FoundVolume(volumes: seq<Volume>, a: Bytes, b: Bytes)
    ensures FindVolume(volumes, a).Some? ==> SameName(FindVolume(volumes, a).value.name, a)
    ensures SameName(b, a) ==> FindVolume(volumes, b) == FindVolume(volumes, a)
  {
    if volumes != [] { FoundVolume(volumes[1..], a, b); }
  }

  lemma CanonicalAgain(vfs: Vfs, name: Bytes)
    requires name != [] && COLON !in name
    ensures var c := Canonical(vfs, name);
            c != [] && COLON !in c && Canonical(vfs, c) == c
  {
    hide SameName, FindVolume;
    FoundVolume(vfs.volumes, name, Canonical(vfs, name));
    FoundVolume(vfs.assigns, name, Canonical(vfs, name));
    if FindConfigured(vfs, name).Some? {
      SameNameBack(name, Canonical(vfs, name));
      UpperKeeps(name, Canonical(vfs, name));
    }
  }

  lemma SameNameBack(a: Bytes, b: Bytes)
    requires SameName(b, a)
    ensures SameName(a, b)
  {
  }

  /** A volume and file names after it, with or without a slash at the end. */
  lemma SpelledParses(volume: Bytes, names: seq<Bytes>)
    requires COLON !in volume && forall m <- names :: FileName(m)
    ensures var path := volume + [COLON] + JoinNames(names);
            && ParsePath(path) == Some(Parsed(Some(volume), names))
            && EnsureTrailingSep(path) == (if names == [] then path else path + [SLASH])
            && ParsePath(EnsureTrailingSep(path)) == Some(Parsed(Some(volume), names))
  {
    hide Cut, Components;
    var rest := JoinNames(names);
    NamesJoined(names);
    CutFirst(volume, rest, COLON);
    CutWhole(rest, COLON);
    if names != [] {
      var path := volume + [COLON] + rest;
      assert path[|path| - 1] == rest[|rest| - 1];
      assert path + [SLASH] == volume + [COLON] + (rest + [SLASH]);
      CutFirst(volume, rest + [SLASH], COLON);
      CutWhole(rest + [SLASH], COLON);
    }
  }

  lemma {:induction false} NamesJoined(names: seq<Bytes>)
    requires forall m <- names :: FileName(m)
    ensures var rest := JoinNames(names);
            && COLON !in rest && Components(rest) == names
            && (names != [] ==> rest != [] && rest[|rest| - 1] != SLASH && rest[|rest| - 1] != COLON
                                && Components(rest + [SLASH]) == names)
  {
    hide Cut, Join;
    if names == [] {
      CutWhole([], SLASH);
    } else {
      var rest := Join(names, SLASH);
      JoinCuts(names, SLASH);
      JoinKeepsOut(names, SLASH, COLON);
      CutTrailing(rest, SLASH);
      assert names[0] in names && names[|names| - 1] in names;
      JoinNonEmpty(names, SLASH);
      assert rest[|rest| - 1] in rest;
      LastPiece(rest, SLASH);
      assert (names + [[]])[..|names|] == names;
    }
  }

  lemma {:induction false} NamesStay(names: seq<Bytes>, stack: seq<Bytes>)
    requires forall m <- names :: m != []
    ensures ApplyParents(names, stack) == Some(stack + names)
  {
    if names == [] {
      assert stack + names == stack;
    } else {
      assert names[0] in names && forall m <- names[1..] :: m in names;
      NamesStay(names[1..], stack + [names[0]]);
      assert stack + [names[0]] + names[1..] == stack + names;
    }
  }

  /** The names a walk has matched lead to the same place. */
  lemma {:induction false} WalkAgain(base: Node, named: seq<Bytes>)
    requires Named(base) && WalkDown(base, named).Some?
    ensures WalkDown(base, WalkDown(base, named).value.matched) == WalkDown(base, named)
    decreases |named|
  {
    hide FindExact, FindFolded, FileName;
    if named != [] {
      FoundIsEntry(base.entries, named[0]);
      var e := FindName(base.entries, named[0]).value;
      WalkAgain(e.node, named[1..]);
      ExactFound(base.entries, e);
      var matched := WalkDown(e.node, named[1..]).value.matched;
      assert ([e.name] + matched)[1..] == matched;
    }
  }

  lemma {:induction false} FoldedAlike(es: seq<Entry>, a: Bytes, b: Bytes)
    requires SameName(a, b)
    ensures FindFolded(es, a) == FindFolded(es, b)
  {
    hide Precedes;
    if es != [] { FoldedAlike(es[1..], a, b); }
  }

  /** Without case twins an exact name is found by any spelling. */
  lemma {:induction false} OnlySpelling(es: seq<Entry>, e: Entry)
    requires e in es && forall i, j :: 0 <= i < j < |es| ==> !SameName(es[i].name, es[j].name)
    ensures FindFolded(es, e.name) == Some(e)
  {
    hide Precedes;
    FoundIsEntry(es, e.name);
    if es[0] == e {
      FoundIsEntry(es[1..], e.name);
    } else {
      var i :| 0 <= i < |es| && es[i] == e;
      assert es[1..][i - 1] == e;
      assert !SameName(es[0].name, es[i].name);
      OnlySpelling(es[1..], e);
    }
  }

  lemma {:induction false} FoundAlike(es: seq<Entry>, a: Bytes, b: Bytes)
    requires SameName(a, b) && forall i, j :: 0 <= i < j < |es| ==> !SameName(es[i].name, es[j].name)
    ensures FindName(es, a) == FindName(es, b)
  {
    hide FindExact, FindFolded;
    FoldedAlike(es, a, b);
    FoundIsEntry(es, a);
    FoundIsEntry(es, b);
    if FindExact(es, a).Some? { OnlySpelling(es, FindExact(es, a).value); }
    if FindExact(es, b).Some? { OnlySpelling(es, FindExact(es, b).value); }
  }

  lemma {:induction false} WalkAlike(base: Node, a: seq<Bytes>, b: seq<Bytes>)
    requires CaseApart(base) && |a| == |b| && forall i :: 0 <= i < |a| ==> SameName(a[i], b[i])
    ensures WalkDown(base, a) == WalkDown(base, b)
    decreases |a|
  {
    hide FindName, SameName;
    if a != [] && ListError(base).None? {
      FoundAlike(base.entries, a[0], b[0]);
      if FindName(base.entries, a[0]).Some? {
        var e := FindName(base.entries, a[0]).value;
        FoundIn(base.entries, a[0]);
        assert forall i :: 0 <= i < |a| - 1 ==> a[1..][i] == a[i + 1] && b[1..][i] == b[i + 1];
        WalkAlike(e.node, a[1..], b[1..]);
      }
    }
  }

  lemma FoundIn(es: seq<Entry>, name: Bytes)
    ensures FindName(es, name).Some? ==> FindName(es, name).value in es
  {
    hide FindExact, FindFolded;
    FoundIsEntry(es, name);
  }

  lemma {:induction false} FirstAlike(bases: seq<Node>, a: seq<Bytes>, b: seq<Bytes>)
    requires forall base <- bases :: CaseApart(base)
    requires |a| == |b| && forall i :: 0 <= i < |a| ==> SameName(a[i], b[i])
    ensures FirstReached(bases, a) == FirstReached(bases, b)
  {
    hide WalkDown, CaseApart, SameName;
    if bases != [] {
      WalkAlike(bases[0], a, b);
      FirstAlike(bases[1..], a, b);
    }
  }

  /** The directory a walk is found in is the first from which it succeeds. */
  lemma {:induction false} FirstIsFirst(bases: seq<Node>, named: seq<Bytes>)
    ensures var r := FirstReached(bases, named);
            if r.None? then forall i :: 0 <= i < |bases| ==> WalkDown(bases[i], named).None?
            else r.value.base < |bases|
                 && WalkDown(bases[r.value.base], named) == Some(Walked(r.value.node, r.value.matched))
                 && forall i :: 0 <= i < r.value.base ==> WalkDown(bases[i], named).None?
  {
    hide WalkDown;
    if bases != [] { FirstIsFirst(bases[1..], named); }
  }

  /** The matched names lead to the same object if and only if no earlier directory has them;
      otherwise they lead into an earlier one. */
  lemma {:induction false} FirstAgain(bases: seq<Node>, named: seq<Bytes>)
    requires (forall b <- bases :: Named(b)) && FirstReached(bases, named).Some?
    ensures var r := FirstReached(bases, named).value;
            var again := FirstReached(bases, r.matched);
            && again.Some? && again.value.base <= r.base < |bases|
            && (again == Some(r) <==> forall i :: 0 <= i < r.base ==> WalkDown(bases[i], r.matched).None?)
            && (again == Some(r) <==> again.value.base == r.base)
  {
    hide WalkDown, FirstReached, Named;
    FirstIsFirst(bases, named);
    var r := FirstReached(bases, named).value;
    FirstIsFirst(bases, r.matched);
    WalkAgain(bases[r.base], named);
  }

  lemma LeadingProper(vfs: Vfs, parsed: Parsed)
    requires parsed.volume.Some? ==> COLON !in parsed.volume.value
    requires LeadingName(vfs, parsed).Some?
    ensures var name := LeadingName(vfs, parsed).value;
            name != [] && COLON !in name && Canonical(vfs, name) == name
  {
    hide Canonical, Components, Cut;
    if parsed.volume.Some? && parsed.volume.value != [] {
      CanonicalAgain(vfs, parsed.volume.value);
    } else {
      CanonicalAgain(vfs, ParsePath(vfs.cwd).value.volume.value);
    }
  }

  /** No directory the assign searches earlier has the recorded names. */
  ghost predicate FirstHolder(vfs: Vfs, r: Resolved) {
    forall i :: 0 <= i < r.base && i < |Bases(vfs, r.volume)| ==> WalkDown(Bases(vfs, r.volume)[i], r.matched).None?
  }

  /** The spelling of what was found among the directories of a proper name. */
  lemma {:induction false} SpelledResolves(vfs: Vfs, parsed: Parsed)
    requires AllNamed(vfs) && ResolveParsed(vfs, parsed).Some?
    requires parsed.volume.Some? ==> COLON !in parsed.volume.value
    ensures var r := ResolveParsed(vfs, parsed).value;
            Resolve(vfs, EnsureTrailingSep(r.Path())) == Resolve(vfs, r.Path())
            == ResolveNames(vfs, r.volume, r.matched)
  {
    hide ApplyParents, FirstReached, Bases, Canonical, ParsePath, Named, SameName, EnsureTrailingSep;
    LeadingProper(vfs, parsed);
    var name := LeadingName(vfs, parsed).value;
    var named := ApplyParents(EffectiveComponents(vfs, parsed), []).value;
    FirstNamed(Bases(vfs, name), named);
    var matched := FirstReached(Bases(vfs, name), named).value.matched;
    SpelledParses(name, matched);
    NamesStay(matched, []);
    assert [] + matched == matched;
  }

  /** The spelling a lock records leads to the object of the lock if and only if no directory
      searched earlier has the names; if one has, it leads into such a directory. */
  lemma {:induction false} SpellingResolves(vfs: Vfs, parsed: Parsed)
    requires AllNamed(vfs) && ResolveParsed(vfs, parsed).Some?
    requires parsed.volume.Some? ==> COLON !in parsed.volume.value
    ensures var r := ResolveParsed(vfs, parsed).value;
            var again := Resolve(vfs, EnsureTrailingSep(r.Path()));
            && again.Some? && again.value.volume == r.volume && again.value.base <= r.base
            && (again == Some(r) <==> FirstHolder(vfs, r))
            && (again == Some(r) <==> again.value.base == r.base)
  {
    hide ApplyParents, FirstReached, Bases, Named, WalkDown, Resolve, EnsureTrailingSep, LeadingName;
    SpelledResolves(vfs, parsed);
    FirstAgain(Bases(vfs, LeadingName(vfs, parsed).value), ApplyParents(EffectiveComponents(vfs, parsed), []).value);
  }

  /** The same for the lock on any path. */
  lemma {:induction false} SelfResolvesIff(vfs: Vfs, p: Bytes)
    requires AllNamed(vfs) && Resolve(vfs, p).Some?
    ensures var r := Resolve(vfs, p).value;
            var again := Resolve(vfs, EnsureTrailingSep(r.Path()));
            && again.Some? && again.value.volume == r.volume && again.value.base <= r.base
            && (again == Some(r) <==> FirstHolder(vfs, r))
            && (again == Some(r) <==> again.value.base == r.base)
  {
    hide ResolveParsed, EnsureTrailingSep, FirstHolder, AllNamed;
    var parsed := ParsePath(p).value;
    if parsed.volume.Some? || ResolveCwd(vfs).value.node.Dir? {
      SpellingResolves(vfs, parsed);
    } else {
      SpellingResolves(vfs, ParsePath(vfs.cwd).value);
    }
  }

  /** Every lock's spelling leads to the object of the lock. */
  ghost predicate AllFirstHolders(vfs: Vfs) {
    forall p :: Resolve(vfs, p).Some? ==> FirstHolder(vfs, Resolve(vfs, p).value)
  }

  lemma {:induction false} SteadyParsed(vfs: Vfs, parsed: Parsed)
    requires AllNamed(vfs) && Steady(vfs) && ResolveParsed(vfs, parsed).Some?
    ensures FirstHolder(vfs, ResolveParsed(vfs, parsed).value)
  {
    hide ApplyParents, FirstReached, Bases, Named, WalkDown, LeadingName, CaseApart, SameName, FileName;
    var bases := Bases(vfs, LeadingName(vfs, parsed).value);
    var named := ApplyParents(EffectiveComponents(vfs, parsed), []).value;
    FirstNamed(bases, named);
    FirstAgain(bases, named);
    if |bases| > 1 { FirstAlike(bases, FirstReached(bases, named).value.matched, named); }
  }

  /** Without case twins behind an assign of several directories that is so everywhere. */
  lemma {:induction false} SteadyHolds(vfs: Vfs)
    requires AllNamed(vfs) && Steady(vfs)
    ensures AllFirstHolders(vfs)
  {
    hide ResolveParsed, FirstHolder, AllNamed, Steady;
    forall p | Resolve(vfs, p).Some? ensures FirstHolder(vfs, Resolve(vfs, p).value) {
      var parsed := ParsePath(p).value;
      if parsed.volume.Some? || ResolveCwd(vfs).value.node.Dir? {
        SteadyParsed(vfs, parsed);
      } else {
        SteadyParsed(vfs, ParsePath(vfs.cwd).value);
      }
    }
  }

  /** Whatever volumes, assigns and current directory: lookups agree with listings; and the
      spelling of every path leads to the object of the path if and only if no assign has the
      names in a directory it searches earlier, which makes the host coherent. */
  lemma VfsCoherent(vfs: Vfs, parse: Bytes -> Option<Pattern>, hidden: Bytes -> bool)
    requires AllNamed(vfs)
    ensures ChildrenCoherent(VfsHost(vfs, parse, hidden))
    ensures AllFirstHolders(vfs) <==>
              forall p :: Resolve(vfs, p).Some? ==>
                Resolve(vfs, EnsureTrailingSep(Resolve(vfs, p).value.Path())) == Resolve(vfs, p)
    ensures AllFirstHolders(vfs) ==> Coherent(VfsHost(vfs, parse, hidden))
    ensures Steady(vfs) ==> AllFirstHolders(vfs)
  {
    hide Resolve, AllNamed, Steady, EnsureTrailingSep, FirstHolder;
    var host := VfsHost(vfs, parse, hidden);
    forall p, e: Entry
      | EndsWithSep(p) && host.lookup(p).Some? && ListError(host.lookup(p).value).None?
        && e in host.lookup(p).value.entries && e.IsDir()
      ensures host.lookup(p + (e.name + [SLASH])) == Some(e.node)
    {
      ChildResolves(vfs, p, e);
    }
    forall p | Resolve(vfs, p).Some?
      ensures var r := Resolve(vfs, p);
              Resolve(vfs, EnsureTrailingSep(r.value.Path())) == r <==> FirstHolder(vfs, r.value)
    {
      SelfResolvesIff(vfs, p);
    }
    if Steady(vfs) { SteadyHolds(vfs); }
  }

  /** A path that starts with the name of a volume leads where it does whatever the assigns
      are; with any other name in front, an assign of that name decides. */
  lemma {:induction false} VolumesFirst(vfs: Vfs, path: Bytes, name: Bytes, assigns: seq<Volume>, bases: seq<Node>)
    requires ParsePath(path).Some? && ParsePath(path).value.volume == Some(name) && name != []
    ensures FindVolume(vfs.volumes, name).Some? ==> Resolve(vfs.(assigns := assigns), path) == Resolve(vfs, path)
    ensures FindVolume(vfs.volumes, name).None? ==>
              var vfs' := vfs.(assigns := [Volume(name, bases)] + assigns);
              Bases(vfs', name) == bases && Canonical(vfs', name) == name
  {
    hide SameName, FindVolume, ParsePath, ApplyParents, FirstReached;
    if FindVolume(vfs.volumes, name).Some? {
      var canonical := Canonical(vfs, name);
      FoundVolume(vfs.volumes, name, canonical);
      assert Bases(vfs.(assigns := assigns), canonical) == Bases(vfs, canonical);
    } else {
      FoundFirst(name, bases, assigns);
    }
  }

  lemma {:induction false} FoundFirst(name: Bytes, bases: seq<Node>, more: seq<Volume>)
    ensures FindVolume([Volume(name, bases)] + more, name) == Some(Volume(name, bases))
  {
  }

  // --- The current directory as the place of a bare pattern ---

  /** One slash more after a piece: a step to the parent where the path ends in a separator,
      and nothing anywhere else. */
  lemma {:induction false} ComponentsSlash(rest: Bytes)
    ensures Components(rest + [SLASH]) ==
            if rest == [] || rest[|rest| - 1] == SLASH then Components(rest) + [[]] else Components(rest)
  {
    hide Cut;
    CutTrailing(rest, SLASH);
    if rest == [] {
      CutWhole([], SLASH);
    } else {
      LastPiece(rest, SLASH);
    }
    assert (Cut(rest, SLASH) + [[]])[..|Cut(rest, SLASH)|] == Cut(rest, SLASH);
    var parts := Cut(rest, SLASH);
    assert parts == parts[..|parts| - 1] + [parts[|parts| - 1]];
  }

  lemma {:induction false} ParseSlash(p: Bytes)
    requires p != [] && ParsePath(p).Some?
    ensures var q := ParsePath(p).value;
            ParsePath(p + [SLASH]) ==
            Some(if EndsWithSep(p) then q.(components := q.components + [[]]) else q)
  {
    hide Cut, Components;
    CutExtends(p, [SLASH], COLON);
    LastPiece(p, COLON);
    var parts := Cut(p, COLON);
    ComponentsSlash(parts[|parts| - 1]);
  }

  lemma {:induction false} ParentLast(components: seq<Bytes>, stack: seq<Bytes>)
    ensures ApplyParents(components + [[]], stack) ==
            match ApplyParents(components, stack)
            case None => None
            case Some(named) => if named == [] then None else Some(named[..|named| - 1])
    decreases |components|
  {
    if components == [] {
      assert components + [[]] == [[]] && (components + [[]])[1..] == [];
    } else {
      assert (components + [[]])[1..] == components[1..] + [[]];
      if components[0] != [] {
        ParentLast(components[1..], stack + [components[0]]);
      } else if stack != [] {
        ParentLast(components[1..], stack[..|stack| - 1]);
      }
    }
  }

  /** The current directory names its volume; Vfs accepts no other. */
  predicate CwdRooted(vfs: Vfs) {
    ParsePath(vfs.cwd).Some? && ParsePath(vfs.cwd).value.volume.Some? && VolumeOf(vfs, vfs.cwd).Some?
  }

  /** The names that lead from the volume to the current directory. */
  function CwdNames(vfs: Vfs): Option<seq<Bytes>>
    requires CwdRooted(vfs)
  {
    ApplyParents(ParsePath(vfs.cwd).value.components, [])
  }

  /** What the path of the current directory leads to without its last name: nothing when it
      has none. */
  function CwdParent(vfs: Vfs): Option<Resolved>
    requires CwdRooted(vfs)
  {
    var named := CwdNames(vfs);
    if named.None? || named.value == [] then None
    else ResolveNames(vfs, VolumeOf(vfs, vfs.cwd).value, named.value[..|named.value| - 1])
  }

  /** A bare pattern looks for matches in `cwd/`.  However the current directory is spelled,
      that is the current directory if its spelling does not end in a separator; if it does,
      it is the parent, or nothing at the root of the volume. */
  lemma {:induction false} BarePatternDirectory(vfs: Vfs)
    requires CwdRooted(vfs)
    ensures Resolve(vfs, vfs.cwd + [SLASH]) == if EndsWithSep(vfs.cwd) then CwdParent(vfs) else Resolve(vfs, vfs.cwd)
  {
    hide ParsePath, ResolveNames, Canonical;
    RootedNotEmpty(vfs);
    ParseSlash(vfs.cwd);
    ParentLast(ParsePath(vfs.cwd).value.components, []);
  }

  lemma {:induction false} RootedNotEmpty(vfs: Vfs)
    requires CwdRooted(vfs)
    ensures vfs.cwd != []
  {
    if vfs.cwd == [] { CutWhole([], COLON); }
  }

  /** So a bare pattern looks in an existing current directory if and only if its spelling does
      not end in a separator. */
  lemma {:induction false} BarePatternInCwd(vfs: Vfs)
    requires AllNamed(vfs) && CwdRooted(vfs) && Resolve(vfs, vfs.cwd).Some?
    ensures Resolve(vfs, vfs.cwd + [SLASH]) == Resolve(vfs, vfs.cwd) <==> !EndsWithSep(vfs.cwd)
  {
    hide ParsePath, FirstReached, Bases, Canonical, Named, FileName, SameName, ApplyParents;
    BarePatternDirectory(vfs);
    if EndsWithSep(vfs.cwd) && CwdParent(vfs).Some? {
      var volume, named := VolumeOf(vfs, vfs.cwd).value, CwdNames(vfs).value;
      FirstNamed(Bases(vfs, volume), named);
      FirstNamed(Bases(vfs, volume), named[..|named| - 1]);
    }
  }

  /** The spelling that CurrentDir stores ends in a separator only at the root. */
  lemma {:induction false} StoredSpelling(volume: Bytes, names: seq<Bytes>)
    requires COLON !in volume && forall m <- names :: FileName(m)
    ensures EndsWithSep(volume + [COLON] + JoinNames(names)) <==> names == []
  {
    hide ParsePath, JoinNames;
    SpelledParses(volume, names);
    var path := volume + [COLON] + JoinNames(names);
    assert EnsureTrailingSep(path) != path <==> !EndsWithSep(path);
    assert path + [SLASH] != path;
  }

  /** At the root a wildcard pattern without a volume or a directory finds nothing. */
  lemma {:induction false} BarePatternAtRoot(
    vfs: Vfs, parse: Bytes -> Option<Pattern>, hidden: Bytes -> bool, sys: Sys, id: nat, pat: Bytes, g: Grant)
    requires CwdRooted(vfs) && EndsWithSep(vfs.cwd) && CwdNames(vfs) == Some([])
    requires SplitPoint(pat) == 0 && parse(pat).Some? && parse(pat).value.wild && id in sys.aps
    ensures MatchFirst(VfsHost(vfs, parse, hidden), sys, pat, id, g) == Called(sys, Failed(ERROR_OBJECT_NOT_FOUND))
  {
    hide Resolve, CwdRooted;
    BarePatternDirectory(vfs);
    assert pat[0..] == pat;
  }

  /** A volume S: with one directory w, and the current directory spelled `S:w/`. */
  const W: Bytes := [119]
  const SUB: Node := Dir([], None)
  const TOP: Node := Dir([Entry(W, SUB)], None)
  const SLASHED: Vfs := Vfs([Volume([83], [TOP])], [], name => [], [83] + [COLON] + W + [SLASH])

  lemma SlashedParses()
    ensures ParsePath(SLASHED.cwd) == Some(Parsed(Some([83]), [W]))
  {
    hide ParsePath;
    SpelledParses([83], [W]);
    assert JoinNames([W]) == W;
  }

  lemma SlashedWalks()
    ensures FirstReached([TOP], [W]) == Some(Reached(0, SUB, [W]))
    ensures FirstReached([TOP], []) == Some(Reached(0, TOP, []))
    ensures Bases(SLASHED, [83]) == [TOP] && Canonical(SLASHED, [83]) == [83]
  {
    assert FindName(TOP.entries, W) == Some(Entry(W, SUB));
    assert [W][1..] == [];
    assert WalkDown(SUB, []) == Some(Walked(SUB, []));
    assert [W] + [] == [W];
    assert WalkDown(TOP, [W]) == Some(Walked(SUB, [W]));
    assert [TOP][0] == TOP && WalkDown(TOP, []) == Some(Walked(TOP, []));
  }

  /** There a pattern that takes every name finds w itself, in the parent. */
  lemma {:induction false} BarePatternInParent(sys: Sys, pat: Bytes, g: Grant)
    requires SplitPoint(pat) == 0 && 1 in sys.aps && sys.aps[1].strlen == 0 && g.lock.Some? && g.chain.Some?
    ensures Resolve(SLASHED, SLASHED.cwd) == Some(Resolved([83], 0, SUB, [W]))
    ensures Resolve(SLASHED, SLASHED.cwd + [SLASH]) == Some(Resolved([83], 0, TOP, []))
    ensures var host := VfsHost(SLASHED, c => Some(Pattern(name => true, true)), name => false);
            MatchFirst(host, sys, pat, 1, g).report == Found(W, true, W, true)
  {
    hide ParsePath, FirstReached, Bases, Canonical, Resolve;
    SlashedResolves();
    var host := VfsHost(SLASHED, c => Some(Pattern(name => true, true)), name => false);
    TopListed(host.Keep(Pattern(name => true, true)));
    assert pat[0..] == pat;
    assert host.lookup(SLASHED.cwd + [SLASH]) == Some(TOP);
  }

  lemma SlashedResolves()
    ensures Resolve(SLASHED, SLASHED.cwd) == Some(Resolved([83], 0, SUB, [W]))
    ensures Resolve(SLASHED, SLASHED.cwd + [SLASH]) == Some(Resolved([83], 0, TOP, []))
  {
    hide ParsePath, FirstReached, Bases, Canonical;
    SlashedParses();
    SlashedWalks();
    BarePatternDirectory(SLASHED);
    NamesStay([W], []);
    assert [] + [W] == [W] && [W][..0] == [];
  }

  lemma TopListed(keep: Bytes -> bool)
    requires keep(W)
    ensures Listing(TOP, keep) == [Entry(W, SUB)]
  {
    var e := Entry(W, SUB);
    assert [e][1..] == [];
    assert Filter([e], keep) == [e];
    assert Sort([]) == [];
    assert Insert(e, []) == [e];
  }

  // --- Case twins behind an assign ---

  const TWINS: Node := Dir([Entry([70, 70], File), Entry([70, 102], Dir([Entry([83], File)], None))], None)

  const SINGLE: Node := Dir([Entry([70, 102], Dir([Entry([83], Dir([], None))], None))], None)

  /** An assign X: that searches a directory with FF and Ff, and then one with Ff. */
  const TWIN_ASSIGN: Vfs := Vfs([], [Volume([88], [TWINS, SINGLE])], name => [], [88, COLON])

  lemma TwinWalks()
    ensures FirstReached([TWINS, SINGLE], [[102, 102], [83]]) == Some(Reached(1, Dir([], None), [[70, 102], [83]]))
    ensures FirstReached([TWINS, SINGLE], [[70, 102], [83]]) == Some(Reached(0, File, [[70, 102], [83]]))
  {
    TwinNames();
    assert [[102, 102], [83]][1..] == [[83]] && [[70, 102], [83]][1..] == [[83]] && [[83]][1..] == [];
    assert WalkDown(Dir([], None), []) == Some(Walked(Dir([], None), []));
    assert WalkDown(File, []) == Some(Walked(File, []));
    assert WalkDown(File, [[83]]).None? && WalkDown(TWINS, [[102, 102], [83]]).None?;
    assert SINGLE.entries[0].node == Dir([Entry([83], Dir([], None))], None);
    assert [[83]] + [] == [[83]] && [[70, 102]] + [[83]] == [[70, 102], [83]];
    assert WalkDown(SINGLE.entries[0].node, [[83]]) == Some(Walked(Dir([], None), [[83]]));
    assert [TWINS, SINGLE][1..] == [SINGLE];
  }

  lemma TwinNames()
    ensures FindName(TWINS.entries, [102, 102]) == Some(TWINS.entries[0])
    ensures FindName(TWINS.entries, [70, 102]) == Some(TWINS.entries[1])
    ensures FindName(SINGLE.entries, [102, 102]) == Some(SINGLE.entries[0])
    ensures FindName([Entry([83], File)], [83]) == Some(Entry([83], File))
    ensures FindName([Entry([83], Dir([], None))], [83]) == Some(Entry([83], Dir([], None)))
  {
    assert ToUpper([102, 102]) == [70, 70] && ToUpper([70, 102]) == [70, 70] && ToUpper([70, 70]) == [70, 70];
  }

  lemma TwinBases(name: Bytes)
    ensures Bases(TWIN_ASSIGN, name) == [TWINS, SINGLE] || Bases(TWIN_ASSIGN, name) == []
  {
    hide SameName;
    var volumes := TWIN_ASSIGN.assigns;
    assert volumes[1..] == [];
    assert FindVolume(volumes[1..], name).None?;
  }

  lemma TwinNamed()
    ensures Named(TWINS) && Named(SINGLE) && AllNamed(TWIN_ASSIGN)
  {
    assert Named(File) && Named(Dir([], None));
    assert FileName([70, 70]) && FileName([70, 102]) && FileName([83]);
    assert Named(Dir([Entry([83], File)], None)) && Named(Dir([Entry([83], Dir([], None))], None));
    forall name, base | base in Bases(TWIN_ASSIGN, name) ensures Named(base) {
      TwinBases(name);
      var bases := [TWINS, SINGLE];
      assert base == bases[0] || base == bases[1];
    }
  }

  /** `X:ff/S` leads to the directory of the second place.  The lock on it says `X:Ff/S`, and
      that leads to the file of the first. */
  lemma {:induction false} TwinsDisagree(parse: Bytes -> Option<Pattern>, hidden: Bytes -> bool)
    ensures AllNamed(TWIN_ASSIGN) && !SelfCoherent(VfsHost(TWIN_ASSIGN, parse, hidden))
  {
    hide FirstReached, EnsureTrailingSep, AllNamed, ParsePath, ApplyParents;
    TwinNamed();
    TwinWalks();
    var typed, spelled: seq<Bytes> := [[102, 102], [83]], [[70, 102], [83]];
    TwinParsed(typed);
    TwinParsed(spelled);
    var p := [88] + [COLON] + JoinNames(typed);
    var host := VfsHost(TWIN_ASSIGN, parse, hidden);
    assert host.lookup(p) == Some(Dir([], None));
    assert host.qualify(p) == [88] + [COLON] + JoinNames(spelled);
    assert host.lookup(EnsureTrailingSep(host.qualify(p))) == Some(File);
  }

  lemma {:induction false} TwinParsed(names: seq<Bytes>)
    requires |names| == 2 && forall m <- names :: FileName(m)
    ensures ApplyParents(names, []) == Some(names)
    ensures var path := [88] + [COLON] + JoinNames(names);
            ParsePath(path) == ParsePath(EnsureTrailingSep(path)) == Some(Parsed(Some([88]), names))
  {
    hide ParsePath, EnsureTrailingSep, ApplyParents;
    SpelledParses([88], names);
    NamesStay(names, []);
    assert [] + names == names;
  }
}
