// What a path means to the volume and assign manager, said without the manager's own steps.

module HostPaths {
  import opened Guest
  import opened Pieces
  import opened HostTree
  import opened AnchorModel
  import opened HostResolver

  // --- One name ---

  /** The entry a name finds: the one spelled so; else of those that differ only in case the
      first in byte order; none if there is neither. */
  lemma {:induction false} FindNameIs(es: seq<Entry>, name: Bytes)
    ensures FindName(es, name).None? <==> forall e <- es :: !SameName(e.name, name)
    ensures FindName(es, name).Some? ==>
              var e := FindName(es, name).value;
              && e in es && SameName(e.name, name)
              && ((exists x <- es :: x.name == name) ==> e.name == name)
              && (e.name != name ==> forall x <- es :: SameName(x.name, name) ==> !Precedes(x.name, e.name))
  {
    hide FindExact, FindFolded, Precedes;
    ExactIs(es, name);
    FoldedIs(es, name);
    FoundIsEntry(es, name);
  }

  lemma {:induction false} ExactIs(es: seq<Entry>, name: Bytes)
    ensures FindExact(es, name).Some? <==> exists x <- es :: x.name == name
  {
    if es != [] {
      ExactIs(es[1..], name);
      assert forall x <- es :: x == es[0] || x in es[1..];
    }
  }

  lemma {:induction false} FoldedIs(es: seq<Entry>, name: Bytes)
    ensures FindFolded(es, name).None? <==> forall e <- es :: !SameName(e.name, name)
    ensures FindFolded(es, name).Some? ==>
              forall x <- es :: SameName(x.name, name) ==> !Precedes(x.name, FindFolded(es, name).value.name)
  {
    hide Precedes, SameName;
    if es != [] {
      FoldedIs(es[1..], name);
      assert forall x <- es :: x == es[0] || x in es[1..];
      var rest := FindFolded(es[1..], name);
      PrecedesTotal(es[0].name, es[0].name);
      if rest.Some? {
        forall x | x in es && SameName(x.name, name) ensures !Precedes(x.name, FindFolded(es, name).value.name) {
          PrecedesTotal(rest.value.name, es[0].name);
          PrecedesTransitive(x.name, rest.value.name, es[0].name);
        }
      }
    }
  }

  // --- A walk ---

  /** The names lead from one object to another, each as the host spells it. */
  ghost predicate Leads(base: Node, names: seq<Bytes>, node: Node)
    decreases |names|
  {
    if names == [] then node == base
    else base.Dir? && base.denied.None?
         && exists e <- base.entries :: e.name == names[0] && Leads(e.node, names[1..], node)
  }

  /** A walk ends at an object of the host and records the names that lead there. */
  lemma {:induction false} WalkLeads(base: Node, named: seq<Bytes>)
    requires WalkDown(base, named).Some?
    ensures Leads(base, WalkDown(base, named).value.matched, WalkDown(base, named).value.node)
    decreases |named|
  {
    hide FindName;
    if named != [] {
      FindNameIs(base.entries, named[0]);
      var e := FindName(base.entries, named[0]).value;
      WalkLeads(e.node, named[1..]);
      var w := WalkDown(base, named).value;
      assert w.matched[1..] == WalkDown(e.node, named[1..]).value.matched;
      assert e in base.entries && e.name == w.matched[0];
    }
  }

  // --- Names of volumes ---

  /** What a path leads to is recorded under the name as it is configured, if it is. */
  lemma {:induction false} VolumeRecorded(vfs: Vfs, parsed: Parsed)
    requires ResolveParsed(vfs, parsed).Some? && parsed.volume.Some? && parsed.volume.value != []
    ensures var r := ResolveParsed(vfs, parsed).value;
            var typed := parsed.volume.value;
            && ((exists v :: (v in vfs.volumes || v in vfs.assigns) && SameName(v.name, typed)) ==>
                  SameName(r.volume, typed) && exists v :: (v in vfs.volumes || v in vfs.assigns) && v.name == r.volume)
            && ((forall v :: v in vfs.volumes || v in vfs.assigns ==> !SameName(v.name, typed)) ==> r.volume == typed)
  {
    hide ApplyParents, FirstReached, Bases, FindVolume, SameName;
    FindVolumeIs(vfs.volumes, parsed.volume.value);
    FindVolumeIs(vfs.assigns, parsed.volume.value);
  }

  lemma {:induction false} FindVolumeIs(volumes: seq<Volume>, name: Bytes)
    ensures FindVolume(volumes, name).None? <==> forall v <- volumes :: !SameName(v.name, name)
    ensures FindVolume(volumes, name).Some? ==>
              FindVolume(volumes, name).value in volumes && SameName(FindVolume(volumes, name).value.name, name)
  {
    hide SameName;
    if volumes != [] {
      FindVolumeIs(volumes[1..], name);
      assert forall v <- volumes :: v == volumes[0] || v in volumes[1..];
    }
  }

  /** A name that is neither a volume nor an assign stands for what the fallback directory has
      under it. */
  lemma {:induction false} AutoBases(vfs: Vfs, name: Bytes)
    requires forall v :: v in vfs.volumes || v in vfs.assigns ==> !SameName(v.name, name)
    ensures Bases(vfs, name) == vfs.auto(name)
  {
    hide SameName, FindVolume;
    FindVolumeIs(vfs.volumes, name);
    FindVolumeIs(vfs.assigns, name);
  }

  // --- Joining ---

  /** A name joined to a path is one component more, with a separator put between them where
      there is none. */
  lemma {:induction false} JoinParses(p: Bytes, name: Bytes)
    requires p != [] && FileName(name) && ParsePath(p).Some?
    ensures ParsePath(JoinAmiga(p, name)) ==
            Some(ParsePath(p).value.(components := ParsePath(p).value.components + [name]))
  {
    hide ParsePath, Components;
    NameComponents(name);
    if EndsWithSep(p) {
      ParseJoin(p, name);
    } else {
      ParseSlash(p);
      ParseJoin(p + [SLASH], name);
      assert p + [SLASH] + name == (p + [SLASH]) + name;
    }
  }

  lemma {:induction false} NameComponents(name: Bytes)
    requires FileName(name)
    ensures COLON !in name && Components(name) == [name]
  {
    hide Cut;
    CutWhole(name, SLASH);
  }

  // --- Paths without a volume ---

  lemma NoColonParses(p: Bytes)
    requires COLON !in p
    ensures ParsePath(p) == Some(Parsed(None, Components(p)))
  {
    hide Cut, Components;
    CutWhole(p, COLON);
  }

  lemma {:induction false} ComponentsJoin(a: Bytes, p: Bytes)
    requires a == [] || a[|a| - 1] == SLASH
    ensures Components(a + p) == Components(a) + Components(p)
  {
    hide Cut;
    CutContinues(a, p, SLASH);
    var first, more := Cut(a, SLASH), Cut(p, SLASH);
    var all := first[..|first| - 1] + more;
    assert all[|all| - 1] == more[|more| - 1];
    assert all[..|all| - 1] == first[..|first| - 1] + more[..|more| - 1];
  }

  /** A path without a colon behind one that ends in a separator adds its components. */
  lemma {:induction false} ParseJoin(q: Bytes, p: Bytes)
    requires EndsWithSep(q) && COLON !in p && ParsePath(q).Some?
    ensures ParsePath(q + p) == Some(ParsePath(q).value.(components := ParsePath(q).value.components + Components(p)))
  {
    hide Cut, Components;
    CutExtends(q, p, COLON);
    LastPiece(q, COLON);
    var parts := Cut(q, COLON);
    ComponentsJoin(parts[|parts| - 1], p);
  }

  /** A path without a colon is taken from the current directory: it is the path of the current
      directory with it behind, or, while the current directory is a file, that file. */
  lemma {:induction false} RelativePath(vfs: Vfs, p: Bytes)
    requires COLON !in p && CwdRooted(vfs) && Resolve(vfs, vfs.cwd).Some?
    ensures Resolve(vfs, p) ==
            if Resolve(vfs, vfs.cwd).value.node.File? then Resolve(vfs, vfs.cwd)
            else Resolve(vfs, (if EndsWithSep(vfs.cwd) then vfs.cwd else vfs.cwd + [SLASH]) + p)
  {
    hide ParsePath, Components, ResolveNames, Canonical, ApplyParents;
    RootedNotEmpty(vfs);
    NoColonParses(p);
    if EndsWithSep(vfs.cwd) {
      ParseJoin(vfs.cwd, p);
    } else {
      ParseSlash(vfs.cwd);
      ParseJoin(vfs.cwd + [SLASH], p);
    }
  }

  /** A path that begins with a colon is taken from the root of the current volume. */
  lemma {:induction false} RootPath(vfs: Vfs, volume: Bytes, rest: Bytes, p: Bytes)
    requires CwdRooted(vfs) && vfs.cwd == volume + [COLON] + rest && volume != [] && COLON !in volume
    requires COLON !in p
    ensures Resolve(vfs, [COLON] + p) == Resolve(vfs, volume + [COLON] + p)
  {
    hide Cut, Components, ResolveNames, Canonical, ApplyParents;
    CutFirst(volume, rest, COLON);
    CutFirst(volume, p, COLON);
    CutFirst([], p, COLON);
    assert [] + [COLON] + p == [COLON] + p;
    CutWhole(p, COLON);
  }

  // --- Steps to the parent ---

  /** A name followed by a step to the parent is no step at all, where the name stands for
      nothing else; a step with no name before it leads nowhere. */
  lemma {:induction false} ParentUndoes(before: seq<Bytes>, name: Bytes, more: seq<Bytes>)
    requires name != []
    ensures ApplyParents(before + [name, []] + more, []) == ApplyParents(before + more, [])
    ensures ApplyParents([[]] + more, []).None?
  {
    UndoneFrom(before, name, more, []);
  }

  lemma {:induction false} UndoneFrom(before: seq<Bytes>, name: Bytes, more: seq<Bytes>, stack: seq<Bytes>)
    requires name != []
    ensures ApplyParents(before + [name, []] + more, stack) == ApplyParents(before + more, stack)
    decreases |before|
  {
    var all := before + [name, []] + more;
    if before == [] {
      assert all[0] == name && all[1..] == [[]] + more && ([[]] + more)[1..] == more;
      assert (stack + [name])[..|stack|] == stack;
      assert before + more == more;
    } else {
      assert all[1..] == before[1..] + [name, []] + more;
      assert (before + more)[1..] == before[1..] + more;
      if before[0] != [] {
        UndoneFrom(before[1..], name, more, stack + [before[0]]);
      } else if stack != [] {
        UndoneFrom(before[1..], name, more, stack[..|stack| - 1]);
      }
    }
  }
}
