// The state of MatchFirst/MatchNext/MatchEnd and what one call does to it,
// as functions.  AnchorCalls.dfy has the calls themselves, proved against these.

module AnchorModel {
  import opened Guest
  import opened HostTree

  const ERROR_NO_MORE_ENTRIES: ErrorCode := 232
  const ERROR_BUFFER_OVERFLOW: ErrorCode := 303

  /** `ap_Flags` is kept as the set of its one bits. */
  type Flags = set<nat>
  const APF_ITSWILD: nat := 2
  const APF_DODIR: nat := 4
  const APF_DIDDIR: nat := 8
  const APF_DIR_CHANGED: nat := 64

  /** `struct AnchorPath`: `ap_Base`, `ap_Last`, `ap_Flags`, `ap_Strlen`, the name
      and kind in `ap_Info`, and the caller's `ap_Buf`. */
  datatype AnchorPath = AnchorPath(
    base: nat, last: nat, flags: Flags, strlen: nat, infoName: Bytes, infoIsDir: bool, buf: Bytes)

  /** `struct AChain`: `an_Parent`, `an_Lock` and the name and kind in `an_Info`. */
  datatype AChain = AChain(parent: nat, lock: nat, infoName: Bytes, infoIsDir: bool)

  /** One directory being scanned.  An entry's `node` is what read_dir saw; a call
      asks it only whether it is a directory. */
  datatype Level = Level(
    achain: nat, lock: nat, path: Bytes, display: Bytes, selfName: Bytes, entries: seq<Entry>, cursor: nat)

  /** The live state of one AnchorPath; `keep` is the pattern with sidecars hidden. */
  datatype Scan = Scan(keep: Bytes -> bool, levels: seq<Level>, pending: Option<Entry>, directSelf: bool)
  {
    function Top(): Level
      requires levels != []
    {
      levels[|levels| - 1]
    }

    /** Where a descent goes: the matched object itself, or a child of the top level. */
    function ChildPath(name: Bytes): Bytes
      requires levels != []
    {
      if directSelf then EnsureTrailingSep(Top().path) else JoinAmiga(Top().path, name + [SLASH])
    }

    function ChildDisplay(name: Bytes): Bytes
      requires levels != []
    {
      if directSelf then EnsureTrailingSep(Top().display) else JoinAmiga(Top().display, name + [SLASH])
    }
  }

  datatype Pattern = Pattern(accepts: Bytes -> bool, wild: bool)

  /** The host: path resolution, the qualified spelling a lock records, the pattern
      compiler, the current directory and the sidecar names listings hide. */
  datatype Host = Host(
    lookup: Bytes -> Option<Node>,
    qualify: Bytes -> Bytes,
    parse: Bytes -> Option<Pattern>,
    hidden: Bytes -> bool,
    cwd: Bytes)
  {
    function Keep(pattern: Pattern): Bytes -> bool {
      name => !hidden(name) && pattern.accepts(name)
    }
    /** The pattern `#?`. */
    function KeepAll(): Bytes -> bool {
      name => !hidden(name)
    }
  }

  /** What the guest heap hands out during one call: a lock structure and an AChain,
      or nothing when it is full. */
  datatype Grant = Grant(lock: Option<nat>, chain: Option<nat>)

  /** All the state the three calls share. */
  datatype Sys = Sys(
    aps: map<nat, AnchorPath>, chains: map<nat, AChain>, locks: set<nat>, scans: map<nat, Scan>)

  /** The part of it one MatchNext works on. */
  datatype View = View(ap: AnchorPath, scan: Scan, chains: map<nat, AChain>, locks: set<nat>)

  /** What one call tells its caller. */
  datatype Report =
    | Found(name: Bytes, isDir: bool, display: Bytes, fits: bool)
    | Left(name: Bytes, display: Bytes, fits: bool)
    | Failed(error: ErrorCode)
  {
    function Code(): int {
      match this
      case Failed(code) => code
      case _ => if fits then 0 else ERROR_BUFFER_OVERFLOW
    }
  }

  // --- Paths ---

  predicate EndsWithSep(path: Bytes) {
    path != [] && (path[|path| - 1] == COLON || path[|path| - 1] == SLASH)
  }

  function EnsureTrailingSep(path: Bytes): Bytes {
    if EndsWithSep(path) then path else path + [SLASH]
  }

  function JoinAmiga(dir: Bytes, name: Bytes): Bytes {
    if dir == [] || EndsWithSep(dir) then dir + name else dir + [SLASH] + name
  }

  /** One past the last `:` or `/`, or 0. */
  function SplitPoint(pat: Bytes): (n: nat)
    ensures n <= |pat|
  {
    if pat == [] then 0
    else if EndsWithSep(pat) then |pat|
    else SplitPoint(pat[..|pat| - 1])
  }

  function AfterColon(path: Bytes): Bytes {
    if path == [] then [] else if path[0] == COLON then path[1..] else AfterColon(path[1..])
  }

  function LastComponent(path: Bytes): Bytes {
    if path == [] then []
    else if path[|path| - 1] == SLASH then LastComponent(path[..|path| - 1])
    else TailAfterSlash(path)
  }

  function TailAfterSlash(path: Bytes): Bytes {
    if path == [] || path[|path| - 1] == SLASH then []
    else TailAfterSlash(path[..|path| - 1]) + [path[|path| - 1]]
  }

  /** The name AnchorPath reports for a matched object; empty for a volume root. */
  function AnchorDisplayName(path: Bytes): Bytes {
    LastComponent(AfterColon(path))
  }

  // --- Reporting ---

  predicate Fits(strlen: nat, display: Bytes) {
    strlen == 0 || |display| < strlen
  }

  /** `ap_Buf` after a display path is stored in it. */
  function StoreDisplay(buf: Bytes, strlen: nat, display: Bytes): (r: Bytes)
    requires strlen <= |buf|
  {
    if strlen == 0 then buf
    else if |display| < strlen then display + [0] + buf[|display| + 1..]
    else display[..strlen - 1] + buf[strlen - 1..]
  }

  function NoteAp(ap: AnchorPath, name: Bytes, isDir: bool, display: Bytes): AnchorPath {
    var stored := if ap.strlen <= |ap.buf| then StoreDisplay(ap.buf, ap.strlen, display) else ap.buf;
    ap.(infoName := name, infoIsDir := isDir, buf := stored)
  }

  function NoteChain(chains: map<nat, AChain>, achain: nat, name: Bytes, isDir: bool): map<nat, AChain> {
    if achain in chains then chains[achain := chains[achain].(infoName := name, infoIsDir := isDir)] else chains
  }

  // --- MatchNext ---

  /** A MatchNext on one view, and a call on the whole state, with what it reports. */
  datatype Step = Step(v: View, report: Report)
  datatype Called = Called(sys: Sys, report: Report)

  datatype Entering = Stayed(v: View) | Entered(v: View) | Refused(v: View, error: ErrorCode)

  /** The first step of MatchNext: descend into the last reported entry if it is a
      directory and the caller has set APF_DODIR. */
  function Enter(host: Host, v: View, g: Grant): Entering
    requires v.scan.levels != []
  {
    var scan := v.scan.(pending := None);
    if v.scan.pending.None? || !v.scan.pending.value.IsDir() || APF_DODIR !in v.ap.flags then
      Stayed(v.(scan := scan))
    else
      var name := v.scan.pending.value.name;
      var path := v.scan.ChildPath(name);
      var taken := v.(scan := scan.(directSelf := false));
      if host.lookup(path).None? || g.lock.None? then
        Refused(taken, ERROR_OBJECT_NOT_FOUND)
      else if g.chain.None? then
        Refused(taken.(locks := v.locks + {g.lock.value}), ERROR_NO_FREE_STORE)
      else
        Entered(Descend(host, v, g.lock.value, g.chain.value))
  }

  /** Pushes a level for the pending directory. */
  function Descend(host: Host, v: View, lock: nat, chain: nat): View
    requires v.scan.levels != [] && v.scan.pending.Some?
    requires host.lookup(v.scan.ChildPath(v.scan.pending.value.name)).Some?
  {
    var name := v.scan.pending.value.name;
    var path := v.scan.ChildPath(name);
    var level := Level(chain, lock, path, v.scan.ChildDisplay(name), name,
                       Listing(host.lookup(path).value, v.scan.keep), 0);
    View(
      v.ap.(last := chain, flags := v.ap.flags - {APF_DODIR} + {APF_DIR_CHANGED}),
      Scan(v.scan.keep, v.scan.levels + [level], None, false),
      v.chains[chain := AChain(v.scan.Top().achain, lock, [], false)],
      v.locks + {lock})
  }

  /** The second step: report the next entry of the top level, or leave that level. */
  function Settle(v: View, entered: bool): Step
    requires v.scan.levels != []
  {
    if v.scan.Top().cursor < |v.scan.Top().entries| then ReportEntry(v, entered)
    else if |v.scan.levels| == 1 then Step(v, Failed(ERROR_NO_MORE_ENTRIES))
    else LeaveTop(v)
  }

  function ReportEntry(v: View, entered: bool): Step
    requires v.scan.levels != [] && v.scan.Top().cursor < |v.scan.Top().entries|
  {
    var levels := v.scan.levels;
    var top := v.scan.Top();
    var e := top.entries[top.cursor];
    var display := JoinAmiga(top.display, e.name);
    var fits := Fits(v.ap.strlen, display);
    var ap := NoteAp(v.ap, e.name, e.IsDir(), display);
    Step(
      View(
        if fits && !entered then ap.(flags := ap.flags - {APF_DIR_CHANGED}) else ap,
        v.scan.(levels := levels[|levels| - 1 := top.(cursor := top.cursor + 1)],
                pending := if fits then Some(e) else v.scan.pending),
        NoteChain(v.chains, top.achain, e.name, e.IsDir()),
        v.locks),
      Found(e.name, e.IsDir(), display, fits))
  }

  function LeaveTop(v: View): Step
    requires |v.scan.levels| > 1
  {
    var levels := v.scan.levels;
    var top := v.scan.Top();
    var parent := levels[|levels| - 2];
    var fits := Fits(v.ap.strlen, top.display);
    var ap := NoteAp(v.ap.(last := parent.achain), top.selfName, true, top.display);
    Step(
      View(
        if fits then ap.(flags := ap.flags + {APF_DIDDIR, APF_DIR_CHANGED}) else ap,
        v.scan.(levels := levels[..|levels| - 1], pending := if fits then None else v.scan.pending),
        NoteChain(v.chains, parent.achain, top.selfName, true),
        v.locks - {top.lock}),
      Left(top.selfName, top.display, fits))
  }

  function Next(host: Host, v: View, g: Grant): Step
    requires v.scan.levels != []
  {
    match Enter(host, v, g)
    case Refused(v', code) => Step(v', Failed(code))
    case Stayed(v') => Settle(v', false)
    case Entered(v') => Settle(v', true)
  }

  function ViewOf(sys: Sys, id: nat): View
    requires id in sys.aps && id in sys.scans
  {
    View(sys.aps[id], sys.scans[id], sys.chains, sys.locks)
  }

  function WithView(sys: Sys, id: nat, v: View): Sys {
    Sys(sys.aps[id := v.ap], v.chains, v.locks, sys.scans[id := v.scan])
  }

  /** MatchNext on the AnchorPath at `id`. */
  function MatchNext(host: Host, sys: Sys, id: nat, g: Grant): Called
    requires id in sys.aps
    requires id in sys.scans ==> sys.scans[id].levels != []
  {
    if id !in sys.scans then Called(sys, Failed(ERROR_NO_MORE_ENTRIES))
    else
      var step := Next(host, ViewOf(sys, id), g);
      Called(WithView(sys, id, step.v), step.report)
  }

  // --- MatchFirst and MatchEnd ---

  /** The directory a pattern is scanned in, that directory as the caller spelled it,
      and the final component. */
  datatype Split = Split(dir: Bytes, display: Bytes, component: Bytes)

  function SplitPattern(host: Host, pat: Bytes): Split {
    var n := SplitPoint(pat);
    if n == 0 then Split(host.cwd + [SLASH], [], pat) else Split(pat[..n], pat[..n], pat[n..])
  }

  /** Records the first match of a fresh scan, unless its path overflows `ap_Buf`. */
  function Begin(sys: Sys, id: nat, level: Level, first: Entry, shown: Bytes, scan: Scan, wild: bool)
    : Called
    requires id in sys.aps
  {
    var ap := NoteAp(sys.aps[id], first.name, first.IsDir(), shown);
    var chains := sys.chains[level.achain := AChain(0, level.lock, first.name, first.IsDir())];
    var locks := sys.locks + {level.lock};
    var fits := Fits(ap.strlen, shown);
    var report := Found(first.name, first.IsDir(), shown, fits);
    if !fits then
      Called(sys.(aps := sys.aps[id := ap], chains := chains, locks := locks), report)
    else
      var flags := if wild then ap.flags + {APF_ITSWILD} else ap.flags;
      Called(
        Sys(sys.aps[id := ap.(base := level.achain, last := level.achain, flags := flags)],
            chains, locks, sys.scans[id := scan]),
        report)
  }

  function DirectScan(host: Host, pat: Bytes, node: Node, lock: nat, chain: nat): Scan {
    var path := host.qualify(pat);
    var name := AnchorDisplayName(path);
    Scan(host.KeepAll(), [Level(chain, lock, path, pat, name, [], 0)], Some(Entry(name, node)), true)
  }

  function WildScan(dir: Bytes, display: Bytes, keep: Bytes -> bool, entries: seq<Entry>, lock: nat, chain: nat): Scan
    requires entries != []
  {
    Scan(keep, [Level(chain, lock, dir, display, AnchorDisplayName(dir), entries, 1)], Some(entries[0]), false)
  }

  /** MatchFirst with pattern `pat` on the AnchorPath at `id`. */
  function MatchFirst(host: Host, sys: Sys, pat: Bytes, id: nat, g: Grant): Called
    requires id in sys.aps
  {
    var split := SplitPattern(host, pat);
    var parsed := host.parse(split.component);
    if parsed.None? then
      Called(sys, Failed(ERROR_BAD_TEMPLATE))
    else
      var target := host.lookup(if parsed.value.wild then split.dir else pat);
      if target.None? || g.lock.None? then
        Called(sys, Failed(ERROR_OBJECT_NOT_FOUND))
      else if !parsed.value.wild then
        if g.chain.None? then
          Called(sys.(locks := sys.locks + {g.lock.value}), Failed(ERROR_NO_FREE_STORE))
        else
          var scan := DirectScan(host, pat, target.value, g.lock.value, g.chain.value);
          Begin(sys, id, scan.levels[0], scan.pending.value, pat, scan, false)
      else
        var keep := host.Keep(parsed.value);
        var entries := Listing(target.value, keep);
        if ListError(target.value).Some? then
          Called(sys, Failed(ListError(target.value).value))
        else if entries == [] then
          Called(sys, Failed(ERROR_NO_MORE_ENTRIES))
        else if g.chain.None? then
          Called(sys.(locks := sys.locks + {g.lock.value}), Failed(ERROR_NO_FREE_STORE))
        else
          var scan := WildScan(split.dir, split.display, keep, entries, g.lock.value, g.chain.value);
          Begin(sys, id, scan.levels[0], entries[0], JoinAmiga(split.display, entries[0].name), scan, true)
  }

  function LevelLocks(levels: seq<Level>): set<nat> {
    set i | 0 <= i < |levels| :: levels[i].lock
  }

  /** MatchEnd on the AnchorPath at `id`. */
  function MatchEnd(sys: Sys, id: nat): Sys {
    if id !in sys.scans then sys
    else sys.(locks := sys.locks - LevelLocks(sys.scans[id].levels), scans := sys.scans - {id})
  }
}
