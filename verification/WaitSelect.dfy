// The fd_sets of WaitSelect in guest memory, and the answer it writes to them.

module WaitSelect {
  import opened Guest
  import opened SocketTable
  import opened FdBits

  // --- fd_set: 256 bits in eight longwords ---

  const FD_SETSIZE := 256

  predicate InSet(words: seq<bv32>, fd: int)
    requires |words| == 8
  {
    0 <= fd < FD_SETSIZE && HasBit(words[fd / 32], fd % 32)
  }

  /** Descriptor 32k + b is bit b of longword k. */
  lemma InSetAt(words: seq<bv32>, k: nat, b: nat)
    requires |words| == 8 && k < 8 && b < 32
    ensures InSet(words, 32 * k + b) <==> HasBit(words[k], b)
  {
    hide HasBit;
    assert (32 * k + b) / 32 == k && (32 * k + b) % 32 == b;
  }

  function Members(words: seq<bv32>): set<int>
    requires |words| == 8
  {
    set fd | 0 <= fd < FD_SETSIZE && InSet(words, fd)
  }

  /** An fd_set in guest memory, or the null pointer. */
  type FdSet = a: array?<bv32> | a == null || a.Length == 8 witness null

  ghost function Given(words: FdSet): set<int>
    reads words
  {
    if words == null then {} else Members(words[..])
  }

  method FdTest(words: FdSet, fd: i32) returns (isIn: bool)
    ensures isIn <==> fd as int in Given(words)
  {
    isIn := words != null && InSet(words[..], fd);
  }

  method FdZero(words: FdSet)
    modifies words
    ensures Given(words) == {}
  {
    hide HasBit;
    if words != null {
      var i := 0;
      while i < 8
        invariant 0 <= i <= 8 && forall k :: 0 <= k < i ==> words[k] == 0
      {
        words[i] := 0;
        i := i + 1;
      }
      forall fd | 0 <= fd < FD_SETSIZE ensures !InSet(words[..], fd) {
        NoBits(fd % 32);
      }
    }
  }

  method FdAdd(words: FdSet, fd: i32)
    requires words != null && 0 <= fd < FD_SETSIZE
    modifies words
    ensures Given(words) == old(Given(words)) + {fd as int}
  {
    hide HasBit, Bit;
    ghost var was := words[..];
    words[fd / 32] := Either(words[fd / 32], Bit(fd % 32));
    forall g ensures InSet(words[..], g) <==> g == fd || InSet(was, g) {
      if 0 <= g < FD_SETSIZE {
        AddedBit(was[fd / 32], fd % 32, g % 32);
        assert g / 32 == fd / 32 && g % 32 == fd % 32 ==> g == fd;
      }
    }
  }

  // --- What the caller asks for ---

  datatype Which = Reading | Writing | Excepting

  /** The members of the three sets. */
  datatype Sets = Sets(read: set<int>, write: set<int>, except: set<int>)
  {
    function Of(which: Which): set<int> {
      match which case Reading => read case Writing => write case Excepting => except
    }

    function Size(): nat { |read| + |write| + |except| }
  }

  datatype Interest = Interest(fd: i32, read: bool, write: bool, except: bool)
  {
    predicate Wants(which: Which) {
      match which case Reading => read case Writing => write case Excepting => except
    }
  }

  datatype Polled = Polled(watched: map<i32, Revents>, armed: map<i32, Revents>) | PollFailed(errno: int)

  const NOTHING := Revents(false, false, false, false, false, false)

  function Answer(watched: map<i32, Revents>, fd: i32): Revents {
    if fd in watched then watched[fd] else NOTHING
  }

  /** What makes a descriptor ready in each of the three sets. */
  predicate Ready(which: Which, r: Revents) {
    match which
    case Reading => r.readable || r.hungUp || r.failed
    case Writing => r.writable || r.failed
    case Excepting => r.urgent
  }

  /** The open descriptors of a set below the bound that are ready. */
  ghost function ReadyOnes(asked: set<int>, which: Which, t: Table, nfds: i32, watched: map<i32, Revents>): set<int> {
    set fd: i32 | fd as int in asked && fd < nfds && fd in t.sockets && Ready(which, Answer(watched, fd)) :: fd as int
  }

  /** What the loop over the interests picks for one set. */
  function Picked(interests: seq<Interest>, which: Which, watched: map<i32, Revents>): set<int> {
    if interests == [] then {}
    else
      var last := interests[|interests| - 1];
      Picked(interests[..|interests| - 1], which, watched)
      + (if last.Wants(which) && Ready(which, Answer(watched, last.fd)) then {last.fd as int} else {})
  }

  ghost predicate Ascending(interests: seq<Interest>) {
    forall j, k :: 0 <= j < k < |interests| ==> interests[j].fd < interests[k].fd
  }

  lemma {:induction false} PickedIn(interests: seq<Interest>, which: Which, watched: map<i32, Revents>, x: int)
    ensures x in Picked(interests, which, watched) <==>
            exists i :: 0 <= i < |interests| && interests[i].fd == x && interests[i].Wants(which)
                        && Ready(which, Answer(watched, interests[i].fd))
  {
    hide Ready, Answer;
    if interests != [] {
      var n := |interests| - 1;
      PickedIn(interests[..n], which, watched, x);
      assert interests == interests[..n] + [interests[n]];
    }
  }

  lemma {:induction false} PickedNext(interests: seq<Interest>, k: nat, which: Which, watched: map<i32, Revents>)
    requires k < |interests| && Ascending(interests)
    ensures var fd := interests[k].fd as int;
            var before := Picked(interests[..k], which, watched);
            && fd !in before
            && Picked(interests[..k + 1], which, watched) ==
               if interests[k].Wants(which) && Ready(which, Answer(watched, interests[k].fd))
               then before + {fd} else before
  {
    hide Ready, Answer;
    assert interests[..k + 1][..k] == interests[..k];
    PickedIn(interests[..k], which, watched, interests[k].fd);
  }

  ghost predicate AsAsked(i: Interest, sets: Sets) {
    && i.read == (i.fd as int in sets.read) && i.write == (i.fd as int in sets.write)
    && i.except == (i.fd as int in sets.except)
  }

  ghost predicate Listed(interests: seq<Interest>, fd: i32) {
    exists i :: 0 <= i < |interests| && interests[i].fd == fd
  }

  /** An open descriptor below the bound that is in some set. */
  ghost predicate Interests(fd: i32, t: Table, nfds: int, sets: Sets) {
    0 <= fd < nfds && fd in t.sockets && fd as int in sets.read + sets.write + sets.except
  }

  /** The list holds, in order, just the descriptors of interest. */
  ghost predicate Interesting(interests: seq<Interest>, t: Table, nfds: int, sets: Sets) {
    && Ascending(interests)
    && (forall i :: 0 <= i < |interests| ==> AsAsked(interests[i], sets) && Interests(interests[i].fd, t, nfds, sets))
    && (forall fd: i32 :: Interests(fd, t, nfds, sets) ==> Listed(interests, fd))
  }

  ghost predicate InRange(sets: Sets) {
    forall x <- sets.read + sets.write + sets.except :: 0 <= x < FD_SETSIZE
  }

  /** Picking from the interests picks exactly the ready ones of a set. */
  lemma {:induction false} PickedReady(interests: seq<Interest>, which: Which, t: Table, nfds: i32, sets: Sets,
                                       watched: map<i32, Revents>)
    requires Interesting(interests, t, nfds, sets) && InRange(sets)
    ensures Picked(interests, which, watched) == ReadyOnes(sets.Of(which), which, t, nfds, watched)
  {
    hide Ready, Answer, Picked;
    var ready := ReadyOnes(sets.Of(which), which, t, nfds, watched);
    forall x ensures x in Picked(interests, which, watched) <==> x in ready {
      PickedIn(interests, which, watched, x);
      if x in ready {
        assert x in sets.Of(which);
        assert x in sets.read + sets.write + sets.except;
        assert Interests(x, t, nfds, sets);
      }
    }
  }
}
