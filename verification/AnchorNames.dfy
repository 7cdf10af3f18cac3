// The name AnchorPath reports for an object that a pattern without wildcards names.

module AnchorNames {
  import opened Guest
  import opened Pieces
  import opened HostTree
  import opened AnchorModel
  import opened HostResolver

  function Slashes(n: nat): (r: Bytes)
    ensures |r| == n && forall i :: 0 <= i < n ==> r[i] == SLASH
  {
    seq(n, i => SLASH)
  }

  lemma {:induction false} ColonSplits(volume: Bytes, rest: Bytes)
    requires COLON !in volume
    ensures AfterColon(volume + [COLON] + rest) == rest
  {
    var path := volume + [COLON] + rest;
    if volume == [] {
      assert path[0] == COLON && path[1..] == rest;
    } else {
      assert volume[0] in volume && forall b <- volume[1..] :: b in volume;
      assert path[1..] == volume[1..] + [COLON] + rest;
      ColonSplits(volume[1..], rest);
    }
  }

  lemma {:induction false} NoColon(path: Bytes)
    requires COLON !in path
    ensures AfterColon(path) == []
  {
    if path != [] {
      assert path[0] in path && forall b <- path[1..] :: b in path;
      NoColon(path[1..]);
    }
  }

  lemma {:induction false} SlashesDropped(rest: Bytes, n: nat)
    ensures LastComponent(rest + Slashes(n)) == LastComponent(rest)
    decreases n
  {
    if n == 0 {
      assert rest + Slashes(0) == rest;
    } else {
      var path := rest + Slashes(n);
      assert path[..|path| - 1] == rest + Slashes(n - 1);
      SlashesDropped(rest, n - 1);
    }
  }

  lemma {:induction false} TailIsName(prefix: Bytes, name: Bytes)
    requires prefix == [] || prefix[|prefix| - 1] == SLASH
    requires SLASH !in name
    ensures TailAfterSlash(prefix + name) == name
    decreases |name|
  {
    if name == [] {
      assert prefix + name == prefix;
    } else {
      var n := |name| - 1;
      assert name[n] in name && forall b <- name[..n] :: b in name;
      assert (prefix + name)[..|prefix + name| - 1] == prefix + name[..n];
      TailIsName(prefix, name[..n]);
      assert name[..n] + [name[n]] == name;
    }
  }

  /** The last component of what stands after the first colon, slashes at its end aside. */
  lemma {:induction false} NameAtEnd(volume: Bytes, dirs: Bytes, name: Bytes, n: nat)
    requires COLON !in volume && (dirs == [] || dirs[|dirs| - 1] == SLASH)
    requires name != [] && SLASH !in name
    ensures AnchorDisplayName(volume + [COLON] + (dirs + name + Slashes(n))) == name
  {
    hide AfterColon, LastComponent, TailAfterSlash;
    ColonSplits(volume, dirs + name + Slashes(n));
    SlashesDropped(dirs + name, n);
    LastIsTail(dirs + name);
    assert (dirs + name)[|dirs + name| - 1] == name[|name| - 1] && name[|name| - 1] in name;
    TailIsName(dirs, name);
  }

  lemma {:induction false} LastIsTail(rest: Bytes)
    requires rest != [] && rest[|rest| - 1] != SLASH
    ensures LastComponent(rest) == TailAfterSlash(rest)
  {
  }

  /** The root of a volume: nothing but slashes after the first colon. */
  ghost predicate IsRoot(path: Bytes) {
    exists volume: Bytes, n: nat :: COLON !in volume && path == volume + [COLON] + Slashes(n)
  }

  /** The place of a byte in a string. */
  lemma {:induction false} FirstOf(path: Bytes, b: byte) returns (before: Bytes, after: Bytes)
    requires b in path
    ensures path == before + [b] + after && b !in before
  {
    if path[0] == b {
      before, after := [], path[1..];
    } else {
      before, after := FirstOf(path[1..], b);
      before := [path[0]] + before;
    }
  }

  /** A path that is not all slashes has a last component. */
  lemma {:induction false} Peeled(rest: Bytes) returns (dirs: Bytes, name: Bytes, n: nat)
    ensures rest == dirs + name + Slashes(n) && SLASH !in name
    ensures dirs == [] || dirs[|dirs| - 1] == SLASH
    ensures name == [] ==> dirs == []
    decreases |rest|
  {
    if rest == [] {
      dirs, name, n := [], [], 0;
      assert rest == dirs + name + Slashes(n);
    } else {
      var last, init := rest[|rest| - 1], rest[..|rest| - 1];
      if last == SLASH {
        dirs, name, n := Peeled(init);
        n := n + 1;
        assert Slashes(n) == Slashes(n - 1) + [SLASH];
        assert rest == init + [SLASH];
      } else {
        dirs, name := LastPart(init);
        name := name + [last];
        n := 0;
        assert rest == init + [last] && name + Slashes(0) == name;
        assert rest == dirs + name + Slashes(n);
      }
    }
  }

  lemma {:induction false} LastPart(rest: Bytes) returns (dirs: Bytes, name: Bytes)
    ensures rest == dirs + name && SLASH !in name && (dirs == [] || dirs[|dirs| - 1] == SLASH)
    decreases |rest|
  {
    if rest == [] || rest[|rest| - 1] == SLASH {
      dirs, name := rest, [];
    } else {
      dirs, name := LastPart(rest[..|rest| - 1]);
      name := name + [rest[|rest| - 1]];
    }
  }

  /** The name is empty exactly for the root of a volume and for a path without a colon. */
  lemma {:induction false} EmptyNameIff(path: Bytes)
    ensures AnchorDisplayName(path) == [] <==> IsRoot(path) || COLON !in path
  {
    hide AfterColon, LastComponent;
    if COLON !in path {
      NoColon(path);
      NothingLast();
    } else {
      var volume, rest := FirstOf(path, COLON);
      var dirs, name, n := Peeled(rest);
      if name == [] {
        assert rest == Slashes(n) && [] + Slashes(n) == Slashes(n);
        ColonSplits(volume, rest);
        SlashesDropped([], n);
        NothingLast();
        assert IsRoot(path);
      } else {
        NameAtEnd(volume, dirs, name, n);
        NotRoot(path, volume, dirs, name, n);
      }
    }
  }

  lemma NothingLast()
    ensures LastComponent([]) == []
  {
  }

  lemma {:induction false} NotRoot(path: Bytes, volume: Bytes, dirs: Bytes, name: Bytes, n: nat)
    requires COLON !in volume && path == volume + [COLON] + (dirs + name + Slashes(n))
    requires name != [] && AnchorDisplayName(path) == name
    ensures !IsRoot(path)
  {
    hide LastComponent, AfterColon;
    if IsRoot(path) {
      var v: Bytes, k: nat :| COLON !in v && path == v + [COLON] + Slashes(k);
      ColonSplits(v, Slashes(k));
      assert [] + Slashes(k) == Slashes(k);
      SlashesDropped([], k);
      NothingLast();
    }
  }

  // --- What MatchFirst reports ---

  /** MatchFirst with a pattern without wildcards that finds something reports its name: the
      last one of the path as the volume spells it, and nothing for the root. */
  lemma {:induction false} LiteralName(vfs: Vfs, parse: Bytes -> Option<Pattern>, hidden: Bytes -> bool,
                                       sys: Sys, pat: Bytes, id: nat, g: Grant)
    requires AllNamed(vfs) && id in sys.aps && g.lock.Some? && g.chain.Some?
    requires var parsed := parse(SplitPattern(VfsHost(vfs, parse, hidden), pat).component);
             parsed.Some? && !parsed.value.wild
    requires Resolve(vfs, pat).Some?
    ensures var r := Resolve(vfs, pat).value;
            var called := MatchFirst(VfsHost(vfs, parse, hidden), sys, pat, id, g);
            called.report == Found(if r.matched == [] then [] else r.matched[|r.matched| - 1],
                                   r.node.Dir?, pat, Fits(sys.aps[id].strlen, pat))
  {
    hide Resolve, SplitPattern, AnchorDisplayName, AllNamed, MatchFirst;
    var host := VfsHost(vfs, parse, hidden);
    var r := Resolve(vfs, pat).value;
    assert host.lookup(pat) == Some(r.node) && host.qualify(pat) == r.Path();
    SpelledName(vfs, pat);
    LiteralReport(host, sys, pat, id, g);
  }

  lemma LiteralReport(host: Host, sys: Sys, pat: Bytes, id: nat, g: Grant)
    requires id in sys.aps && g.lock.Some? && g.chain.Some? && host.lookup(pat).Some?
    requires var parsed := host.parse(SplitPattern(host, pat).component); parsed.Some? && !parsed.value.wild
    ensures MatchFirst(host, sys, pat, id, g).report
         == Found(AnchorDisplayName(host.qualify(pat)), host.lookup(pat).value.Dir?, pat, Fits(sys.aps[id].strlen, pat))
  {
    hide SplitPattern, AnchorDisplayName, StoreDisplay, Fits;
  }

  lemma {:induction false} SpelledName(vfs: Vfs, pat: Bytes)
    requires AllNamed(vfs) && Resolve(vfs, pat).Some?
    ensures var r := Resolve(vfs, pat).value;
            AnchorDisplayName(r.Path()) == if r.matched == [] then [] else r.matched[|r.matched| - 1]
  {
    hide AnchorDisplayName, Resolve, AllNamed, FileName, JoinNames;
    var r := Resolve(vfs, pat).value;
    ResolvedNames(vfs, pat);
    if r.matched == [] {
      NoNames();
      assert r.volume + [COLON] + [] == r.volume + [COLON] + Slashes(0);
      assert IsRoot(r.Path());
      EmptyNameIff(r.Path());
    } else {
      var n := |r.matched| - 1;
      assert r.matched[n] in r.matched;
      FileNameParts(r.matched[n]);
      var dirs := JoinedLast(r.matched);
      NameAtEnd(r.volume, dirs, r.matched[n], 0);
      assert dirs + r.matched[n] + Slashes(0) == dirs + r.matched[n];
    }
  }

  lemma NoNames()
    ensures JoinNames([]) == []
  {
  }

  lemma FileNameParts(name: Bytes)
    requires FileName(name)
    ensures name != [] && SLASH !in name
  {
  }

  lemma {:induction false} JoinedLast(names: seq<Bytes>) returns (dirs: Bytes)
    requires names != []
    ensures JoinNames(names) == dirs + names[|names| - 1] && (dirs == [] || dirs[|dirs| - 1] == SLASH)
  {
    if |names| == 1 {
      dirs := [];
      assert [] + names[0] == names[0];
    } else {
      dirs := JoinedLast(names[1..]);
      var rest := dirs;
      dirs := names[0] + [SLASH] + rest;
      assert JoinNames(names) == names[0] + [SLASH] + (rest + names[|names| - 1]);
    }
  }

  lemma {:induction false} ResolvedNames(vfs: Vfs, pat: Bytes)
    requires AllNamed(vfs) && Resolve(vfs, pat).Some?
    ensures var r := Resolve(vfs, pat).value;
            COLON !in r.volume && forall m <- r.matched :: FileName(m)
  {
    hide ResolveParsed, AllNamed, FileName;
    var parsed := ParsePath(pat).value;
    if parsed.volume.Some? || ResolveCwd(vfs).value.node.Dir? {
      ParsedNames(vfs, parsed);
    } else {
      ParsedNames(vfs, ParsePath(vfs.cwd).value);
    }
  }

  lemma {:induction false} ParsedNames(vfs: Vfs, parsed: Parsed)
    requires AllNamed(vfs) && ResolveParsed(vfs, parsed).Some?
    requires parsed.volume.Some? ==> COLON !in parsed.volume.value
    ensures var r := ResolveParsed(vfs, parsed).value;
            COLON !in r.volume && forall m <- r.matched :: FileName(m)
  {
    hide ApplyParents, FirstReached, Bases, Canonical, Named, FileName, SameName, LeadingName;
    LeadingProper(vfs, parsed);
    FirstNamed(Bases(vfs, LeadingName(vfs, parsed).value), ApplyParents(EffectiveComponents(vfs, parsed), []).value);
  }
}
