// The host directory tree a scan walks, and the filtered, byte-ordered listing
// of one directory.

module HostTree {
  import opened Guest

  /** A host object.  `denied` is the code read_dir fails with, if it does. */
  datatype Node =
    | File
    | Dir(entries: seq<Entry>, denied: Option<ErrorCode>)

  datatype Entry = Entry(name: Bytes, node: Node) {
    predicate IsDir() { node.Dir? }
  }

  /** A directory's names are file names: none holds a slash, none occurs twice. */
  ghost predicate ProperNames(es: seq<Entry>) {
    && (forall e <- es :: SLASH !in e.name)
    && (forall i, j :: 0 <= i < j < |es| ==> es[i].name != es[j].name)
  }

  ghost predicate ProperTree(node: Node)
    decreases node
  {
    node.Dir? ==> ProperNames(node.entries) && forall e <- node.entries :: ProperTree(e.node)
  }

  /** What read_dir on a plain file maps to. */
  const ERROR_ACTION_NOT_KNOWN: ErrorCode := 209

  function ListError(node: Node): Option<ErrorCode> {
    match node
    case File => Some(ERROR_ACTION_NOT_KNOWN)
    case Dir(_, denied) => denied
  }

  /** Byte order on names. */
  predicate Precedes(a: Bytes, b: Bytes) {
    if a == [] || b == [] then a == [] && b != []
    else a[0] < b[0] || (a[0] == b[0] && Precedes(a[1..], b[1..]))
  }

  lemma {:induction false} PrecedesTransitive(a: Bytes, b: Bytes, c: Bytes)
    ensures Precedes(a, b) && Precedes(b, c) ==> Precedes(a, c)
    ensures !Precedes(a, b) && !Precedes(b, c) ==> !Precedes(a, c)
  {
    if a != [] && b != [] && c != [] {
      PrecedesTransitive(a[1..], b[1..], c[1..]);
    }
  }

  lemma {:induction false} PrecedesTotal(a: Bytes, b: Bytes)
    ensures !(Precedes(a, b) && Precedes(b, a))
    ensures !Precedes(a, b) && !Precedes(b, a) ==> a == b
  {
    if a != [] && b != [] && a[0] == b[0] {
      PrecedesTotal(a[1..], b[1..]);
      assert a == [a[0]] + a[1..] && b == [b[0]] + b[1..];
    }
  }

  /** The names agree up to n, and there the first one ends or has the smaller byte. */
  ghost predicate LessAt(a: Bytes, b: Bytes, n: nat) {
    n <= |a| && n < |b| && a[..n] == b[..n] && (n == |a| || a[n] < b[n])
  }

  lemma {:induction false} PrecedesIff(a: Bytes, b: Bytes)
    ensures Precedes(a, b) <==> exists n: nat :: LessAt(a, b, n)
  {
    if a == [] || b == [] {
      if a == [] && b != [] { assert LessAt(a, b, 0); }
    } else {
      PrecedesIff(a[1..], b[1..]);
      if a[0] < b[0] { assert LessAt(a, b, 0); }
      if n: nat :| LessAt(a[1..], b[1..], n) {
        if a[0] == b[0] {
          assert a[..n + 1] == [a[0]] + a[1..][..n] && b[..n + 1] == [b[0]] + b[1..][..n];
          assert LessAt(a, b, n + 1);
        }
      }
      if n: nat :| LessAt(a, b, n) && n > 0 {
        assert a[0] == a[..n][0] == b[..n][0] == b[0];
        assert a[1..][..n - 1] == a[..n][1..] && b[1..][..n - 1] == b[..n][1..];
        assert LessAt(a[1..], b[1..], n - 1);
      }
    }
  }

  function Filter(es: seq<Entry>, keep: Bytes -> bool): seq<Entry> {
    if es == [] then []
    else (if keep(es[0].name) then [es[0]] else []) + Filter(es[1..], keep)
  }

  function Insert(e: Entry, es: seq<Entry>): seq<Entry> {
    if es == [] || !Precedes(es[0].name, e.name) then [e] + es
    else [es[0]] + Insert(e, es[1..])
  }

  function Sort(es: seq<Entry>): seq<Entry> {
    if es == [] then [] else Insert(es[0], Sort(es[1..]))
  }

  /** The entries of a directory that `keep` accepts, in byte order; nothing for
      an object read_dir refuses. */
  function Listing(node: Node, keep: Bytes -> bool): seq<Entry> {
    if ListError(node).Some? then [] else Sort(Filter(node.entries, keep))
  }

  ghost predicate Ordered(es: seq<Entry>) {
    forall i, j :: 0 <= i < j < |es| ==> !Precedes(es[j].name, es[i].name)
  }

  lemma {:induction false} InsertOrders(e: Entry, es: seq<Entry>)
    requires Ordered(es)
    ensures Ordered(Insert(e, es))
    ensures multiset(Insert(e, es)) == multiset{e} + multiset(es)
  {
    hide Precedes, Ordered;
    OneOrdered(e);
    if es == [] {
      assert [e] + es == [e];
    } else if !Precedes(es[0].name, e.name) {
      InsertedFirst(e, es);
    } else {
      assert es == [es[0]] + es[1..];
      TailOrdered(es);
      InsertOrders(e, es[1..]);
      var t := Insert(e, es[1..]);
      forall x | x in t ensures !Precedes(x.name, es[0].name) {
        assert x in multiset(t);
        InsertedLater(e, es, x);
      }
      HeadOrdered(es[0], t);
    }
  }

  lemma OneOrdered(e: Entry)
    ensures Ordered([e])
  {
  }

  lemma TailOrdered(es: seq<Entry>)
    requires Ordered(es) && es != []
    ensures Ordered(es[1..])
  {
    hide Precedes;
  }

  lemma HeadOrdered(e: Entry, es: seq<Entry>)
    requires Ordered(es) && forall x | x in es :: !Precedes(x.name, e.name)
    ensures Ordered([e] + es)
  {
    hide Precedes;
  }

  lemma InsertedFirst(e: Entry, es: seq<Entry>)
    requires Ordered(es) && es != [] && !Precedes(es[0].name, e.name)
    ensures Ordered([e] + es)
  {
    hide Precedes;
    var r := [e] + es;
    forall i, j | 0 <= i < j < |r| ensures !Precedes(r[j].name, r[i].name) {
      if i == 0 && j > 1 {
        PrecedesTransitive(es[j - 1].name, es[0].name, e.name);
      }
    }
  }

  lemma InsertedLater(e: Entry, es: seq<Entry>, x: Entry)
    requires Ordered(es) && es != [] && Precedes(es[0].name, e.name)
    requires x == e || x in multiset(es[1..])
    ensures !Precedes(x.name, es[0].name)
  {
    hide Precedes;
    if x == e {
      PrecedesTotal(es[0].name, e.name);
    } else {
      var k :| 0 <= k < |es[1..]| && es[1..][k] == x;
      assert es[k + 1] == x;
    }
  }

  lemma {:induction false} SortOrders(es: seq<Entry>)
    ensures Ordered(Sort(es))
    ensures multiset(Sort(es)) == multiset(es)
  {
    if es != [] {
      SortOrders(es[1..]);
      InsertOrders(es[0], Sort(es[1..]));
      assert es == [es[0]] + es[1..];
    }
  }

  lemma {:induction false} FilterKeeps(es: seq<Entry>, keep: Bytes -> bool, e: Entry)
    ensures multiset(Filter(es, keep))[e] == if keep(e.name) then multiset(es)[e] else 0
  {
    if es != [] {
      FilterKeeps(es[1..], keep, e);
      assert es == [es[0]] + es[1..];
    }
  }

  /** A listing holds each accepted entry exactly as often as the directory does,
      holds nothing else, and is in byte order. */
  lemma ListingIsOrderedSelection(node: Node, keep: Bytes -> bool)
    requires ListError(node).None?
    ensures Ordered(Listing(node, keep))
    ensures forall e :: multiset(Listing(node, keep))[e] ==
                        if keep(e.name) then multiset(node.entries)[e] else 0
  {
    SortOrders(Filter(node.entries, keep));
    forall e: Entry
      ensures multiset(Listing(node, keep))[e] ==
              if keep(e.name) then multiset(node.entries)[e] else 0
    {
      FilterKeeps(node.entries, keep, e);
    }
  }

  lemma ListingMember(node: Node, keep: Bytes -> bool, e: Entry)
    requires e in Listing(node, keep)
    ensures node.Dir? && e in node.entries && keep(e.name)
  {
    ListingIsOrderedSelection(node, keep);
    assert e in multiset(Listing(node, keep));
    assert e in multiset(node.entries);
  }

  /** The size of a subtree, the measure a walk over listings decreases. */
  function Weight(node: Node): nat
    decreases node
  {
    match node
    case File => 1
    case Dir(entries, _) => 1 + TotalWeight(entries)
  }

  function TotalWeight(es: seq<Entry>): nat
    decreases es
  {
    if es == [] then 0 else 1 + Weight(es[0].node) + TotalWeight(es[1..])
  }

  lemma {:induction false} InsertWeight(e: Entry, es: seq<Entry>)
    ensures TotalWeight(Insert(e, es)) == 1 + Weight(e.node) + TotalWeight(es)
  {
    if es != [] && Precedes(es[0].name, e.name) {
      InsertWeight(e, es[1..]);
    }
  }

  lemma {:induction false} SortWeight(es: seq<Entry>)
    ensures TotalWeight(Sort(es)) == TotalWeight(es)
  {
    if es != [] {
      SortWeight(es[1..]);
      InsertWeight(es[0], Sort(es[1..]));
    }
  }

  lemma {:induction false} FilterWeight(es: seq<Entry>, keep: Bytes -> bool)
    ensures TotalWeight(Filter(es, keep)) <= TotalWeight(es)
  {
    if es != [] {
      FilterWeight(es[1..], keep);
      if keep(es[0].name) {
        assert Filter(es, keep) == [es[0]] + Filter(es[1..], keep);
        assert Filter(es, keep)[1..] == Filter(es[1..], keep);
      } else {
        assert Filter(es, keep) == Filter(es[1..], keep);
      }
    }
  }

  lemma {:induction false} ListingWeight(node: Node, keep: Bytes -> bool)
    ensures TotalWeight(Listing(node, keep)) < Weight(node)
  {
    if ListError(node).None? {
      SortWeight(Filter(node.entries, keep));
      FilterWeight(node.entries, keep);
    }
  }

  lemma {:induction false} FilterSnoc(es: seq<Entry>, keep: Bytes -> bool, e: Entry)
    ensures Filter(es + [e], keep) == Filter(es, keep) + if keep(e.name) then [e] else []
  {
    if es != [] {
      assert (es + [e])[1..] == es[1..] + [e];
      FilterSnoc(es[1..], keep, e);
    }
  }

  lemma FilterNone(keep: Bytes -> bool)
    ensures Filter([], keep) == []
  {
  }

  /** Lists a directory the way the source does: keep what matches, then sort. */
  method ListAndFilter(node: Node, keep: Bytes -> bool) returns (code: int, out: seq<Entry>)
    ensures code == (match ListError(node) case Some(c) => c case None => 0)
    ensures out == Listing(node, keep)
  {
    hide Sort, Filter;
    match ListError(node) {
      case Some(c) => return c, [];
      case None =>
    }
    out := [];
    FilterNone(keep);
    var i := 0;
    while i < |node.entries|
      invariant 0 <= i <= |node.entries|
      invariant out == Filter(node.entries[..i], keep)
    {
      var dirent := node.entries[i];
      FilterSnoc(node.entries[..i], keep, dirent);
      assert node.entries[..i + 1] == node.entries[..i] + [dirent];
      if keep(dirent.name) {
        out := out + [dirent];
      }
      i := i + 1;
    }
    assert node.entries[..i] == node.entries;
    code, out := 0, Sort(out);
  }
}
