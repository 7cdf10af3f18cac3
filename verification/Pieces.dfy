// Byte strings cut at a separator and put together again.

module Pieces {
  import opened Guest

  /** The pieces between separators; one more than there are separators. */
  function Cut(s: Bytes, sep: byte): (pieces: seq<Bytes>)
    ensures pieces != []
    ensures forall p <- pieces :: sep !in p
  {
    if s == [] then [[]]
    else
      var rest := Cut(s[1..], sep);
      if s[0] == sep then [[]] + rest
      else
        assert rest[0] in rest;
        [[s[0]] + rest[0]] + rest[1..]
  }

  function Join(pieces: seq<Bytes>, sep: byte): Bytes
    requires pieces != []
  {
    if |pieces| == 1 then pieces[0] else pieces[0] + [sep] + Join(pieces[1..], sep)
  }

  lemma {:induction false} CutWhole(s: Bytes, sep: byte)
    requires sep !in s
    ensures Cut(s, sep) == [s]
  {
    if s != [] {
      assert s[0] in s && forall x <- s[1..] :: x in s;
      CutWhole(s[1..], sep);
      assert [s[0]] + s[1..] == s;
    }
  }

  lemma {:induction false} CutFirst(first: Bytes, rest: Bytes, sep: byte)
    requires sep !in first
    ensures Cut(first + [sep] + rest, sep) == [first] + Cut(rest, sep)
  {
    var s := first + [sep] + rest;
    if first == [] {
      assert s[1..] == rest;
    } else {
      assert first[0] in first && forall x <- first[1..] :: x in first;
      CutFirst(first[1..], rest, sep);
      assert s[1..] == first[1..] + [sep] + rest;
      assert [first[0]] + first[1..] == first;
    }
  }

  /** Pieces without the separator come back from between separators. */
  lemma {:induction false} JoinCuts(pieces: seq<Bytes>, sep: byte)
    requires pieces != [] && forall p <- pieces :: sep !in p
    ensures Cut(Join(pieces, sep), sep) == pieces
  {
    hide Cut;
    if |pieces| == 1 {
      CutWhole(pieces[0], sep);
    } else {
      JoinCuts(pieces[1..], sep);
      CutFirst(pieces[0], Join(pieces[1..], sep), sep);
      assert [pieces[0]] + pieces[1..] == pieces;
    }
  }

  lemma {:induction false} PiecesKeepOut(s: Bytes, sep: byte, b: byte)
    requires b !in s
    ensures forall p <- Cut(s, sep) :: b !in p
  {
    if s != [] {
      PiecesKeepOut(s[1..], sep, b);
      assert s[0] in s && forall x <- s[1..] :: x in s;
    }
  }

  lemma {:induction false} JoinKeepsOut(pieces: seq<Bytes>, sep: byte, b: byte)
    requires pieces != [] && b != sep && forall p <- pieces :: b !in p
    ensures b !in Join(pieces, sep)
  {
    if |pieces| > 1 { JoinKeepsOut(pieces[1..], sep, b); }
  }

  lemma {:induction false} JoinNonEmpty(pieces: seq<Bytes>, sep: byte)
    requires pieces != [] && pieces[0] != []
    ensures Join(pieces, sep) != []
  {
  }

  lemma {:induction false} OnlyPiece(s: Bytes, sep: byte)
    requires |Cut(s, sep)| == 1
    ensures Cut(s, sep) == [s]
  {
    if s != [] {
      OnlyPiece(s[1..], sep);
      assert [s[0]] + s[1..] == s;
    }
  }

  /** The pieces when one more byte stands in front. */
  function Onto(first: byte, pieces: seq<Bytes>, sep: byte): (r: seq<Bytes>)
    requires pieces != []
    ensures r != []
  {
    if first == sep then [[]] + pieces else [[first] + pieces[0]] + pieces[1..]
  }

  lemma {:induction false} CutStep(first: byte, rest: Bytes, sep: byte)
    ensures Cut([first] + rest, sep) == Onto(first, Cut(rest, sep), sep)
  {
    assert ([first] + rest)[1..] == rest;
  }

  lemma OntoKeeps(first: byte, pieces: seq<Bytes>, more: seq<Bytes>, sep: byte)
    requires |pieces| > 1 || (pieces != [] && first == sep)
    requires more != []
    ensures var all := Onto(first, pieces, sep);
            && all[|all| - 1] == pieces[|pieces| - 1]
            && Onto(first, pieces[..|pieces| - 1] + more, sep) == all[..|all| - 1] + more
  {
  }

  /** What follows a separator is cut on its own. */
  lemma {:induction false} CutContinues(s: Bytes, more: Bytes, sep: byte)
    requires s == [] || s[|s| - 1] == sep
    ensures Cut(s, sep)[|Cut(s, sep)| - 1] == []
    ensures Cut(s + more, sep) == Cut(s, sep)[..|Cut(s, sep)| - 1] + Cut(more, sep)
    decreases |s|
  {
    if s == [] {
      assert s + more == more;
      assert Cut([], sep) == [[]];
    } else {
      hide Cut, Onto;
      assert s == [s[0]] + s[1..] && s + more == [s[0]] + (s[1..] + more);
      CutContinues(s[1..], more, sep);
      CutStep(s[0], s[1..], sep);
      CutStep(s[0], s[1..] + more, sep);
      if s[0] != sep {
        assert s[1..][|s| - 2] == sep;
        CutMany(s[1..], sep);
      }
      OntoKeeps(s[0], Cut(s[1..], sep), Cut(more, sep), sep);
    }
  }

  lemma {:induction false} CutMany(s: Bytes, sep: byte)
    ensures |Cut(s, sep)| == 1 <==> sep !in s
  {
    if sep !in s {
      CutWhole(s, sep);
    } else if |Cut(s, sep)| == 1 {
      assert Cut(s, sep)[0] in Cut(s, sep);
      OnlyPiece(s, sep);
    }
  }

  /** A separator at the end adds an empty piece. */
  lemma {:induction false} CutTrailing(s: Bytes, sep: byte)
    ensures Cut(s + [sep], sep) == Cut(s, sep) + [[]]
  {
    if s == [] {
      assert s + [sep] == [sep] && [sep][1..] == [];
      assert Cut([], sep) == [[]];
      assert Cut([sep], sep) == [[]] + [[]];
    } else {
      assert (s + [sep])[1..] == s[1..] + [sep];
      CutTrailing(s[1..], sep);
    }
  }
}
