/**
 * The initial credential pool: the `RES_NINJA_TOKENS` value split on the
 * path separator, then copied and shuffled once (`shuffle`).
 */
module TokenPool {
  import opened Results

  /** `s.split(sep)` with an explicit separator: every separator ends a piece. */
  function Split(s: string, sep: char): (parts: seq<string>)
    ensures |parts| >= 1
    ensures forall i :: 0 <= i < |parts| ==> sep !in parts[i]
    ensures Join(parts, sep) == s
    decreases |s|
  {
    if s == [] then [""]
    else
      var rest := Split(s[1..], sep);
      if s[0] == sep then [""] + rest
      else
        assert Join(rest, sep) == s[1..];
        JoinConsFirst(rest, sep, s[0]);
        [[s[0]] + rest[0]] + rest[1..]
  }

  /** `sep.join(parts)`. */
  function Join(parts: seq<string>, sep: char): (s: string)
    requires |parts| >= 1
    decreases |parts|
  {
    if |parts| == 1 then parts[0] else parts[0] + [sep] + Join(parts[1..], sep)
  }

  lemma JoinConsFirst(parts: seq<string>, sep: char, c: char)
    requires |parts| >= 1
    ensures Join([[c] + parts[0]] + parts[1..], sep) == [c] + Join(parts, sep)
  {
    var p := [[c] + parts[0]] + parts[1..];
    assert p[1..] == parts[1..];
  }

  /** Splitting what `Join` built gives the pieces back, when no piece holds the separator. */
  lemma {:induction false} SplitJoin(parts: seq<string>, sep: char)
    requires |parts| >= 1
    requires forall i :: 0 <= i < |parts| ==> sep !in parts[i]
    ensures Split(Join(parts, sep), sep) == parts
    decreases |parts|, |parts[0]|
  {
    if |parts| == 1 {
      SplitWithoutSep(parts[0], sep);
    } else if parts[0] == [] {
      SplitJoin(parts[1..], sep);
      SplitJoinEmptyFirst(parts, sep);
    } else {
      var tail := [parts[0][1..]] + parts[1..];
      assert forall i :: 0 <= i < |tail| ==> sep !in tail[i] by {
        assert forall i :: 1 <= i < |tail| ==> tail[i] == parts[i];
      }
      assert sep !in parts[0];
      SplitJoin(tail, sep);
      SplitJoinConsFirst(parts, sep);
    }
  }

  /** The step of `SplitJoin` for an empty first piece: the joined text starts with the separator. */
  lemma SplitJoinEmptyFirst(parts: seq<string>, sep: char)
    requires |parts| >= 2 && parts[0] == []
    requires Split(Join(parts[1..], sep), sep) == parts[1..]
    ensures Split(Join(parts, sep), sep) == parts
  {
    var rest := Join(parts[1..], sep);
    assert Join(parts, sep) == [sep] + rest;
    assert ([sep] + rest)[1..] == rest;
  }

  /** The step of `SplitJoin` for a first piece starting with `c`: `c` goes back on the first piece. */
  lemma SplitJoinConsFirst(parts: seq<string>, sep: char)
    requires |parts| >= 2 && parts[0] != [] && parts[0][0] != sep
    requires Split(Join([parts[0][1..]] + parts[1..], sep), sep) == [parts[0][1..]] + parts[1..]
    ensures Split(Join(parts, sep), sep) == parts
  {
    var c := parts[0][0];
    var tail := [parts[0][1..]] + parts[1..];
    assert parts[0] == [c] + parts[0][1..];
    assert tail[1..] == parts[1..];
    var rest := Join(tail, sep);
    assert Join(parts, sep) == [c] + rest;
    assert ([c] + rest)[1..] == rest;
    assert parts == [[c] + tail[0]] + tail[1..];
  }

  lemma {:induction false} SplitWithoutSep(s: string, sep: char)
    requires sep !in s
    ensures Split(s, sep) == [s]
    decreases |s|
  {
    if s != [] {
      SplitWithoutSep(s[1..], sep);
      assert [s[0]] + s[1..] == s;
    }
  }

  /**
   * The pool as the default argument of `get` builds it, before shuffling.
   * An unset variable reads as "", which splits into one empty token.
   */
  function PoolFromEnv(value: Option<string>, sep: char): (pool: seq<string>)
    ensures |pool| >= 1
    ensures value.None? ==> pool == [""]
    ensures Join(pool, sep) == value.GetOr("")
  {
    Split(value.GetOr(""), sep)
  }

  /** A valid sequence of draws for shuffling `n` elements: `draws[i]` is `randbelow(i + 1)`. */
  ghost predicate ValidDraws(draws: seq<nat>, n: nat) {
    |draws| == n && forall i :: 0 <= i < n ==> draws[i] <= i
  }

  /** `s` with the elements at `i` and `j` exchanged. */
  function Swap<T>(s: seq<T>, i: nat, j: nat): (r: seq<T>)
    requires i < |s| && j < |s|
    ensures |r| == |s| && r[i] == s[j] && r[j] == s[i]
    ensures forall k :: 0 <= k < |s| && k != i && k != j ==> r[k] == s[k]
    ensures multiset(r) == multiset(s)
  {
    s[i := s[j]][j := s[i]]
  }

  /**
   * The Fisher-Yates passes of `random.shuffle` for positions i - 1 down to 1:
   * position p is exchanged with position `draws[p]`.
   */
  function ShuffleSteps<T>(s: seq<T>, draws: seq<nat>, i: nat): (r: seq<T>)
    requires i <= |s| && ValidDraws(draws, |s|)
    ensures |r| == |s|
    ensures multiset(r) == multiset(s)
    decreases i
  {
    if i <= 1 then s else ShuffleSteps(Swap(s, i - 1, draws[i - 1]), draws, i - 1)
  }

  /** Every element of the input is still there after shuffling, and nothing else. */
  lemma {:induction false} ShuffleKeepsElements<T>(s: seq<T>, draws: seq<nat>, x: T)
    requires ValidDraws(draws, |s|)
    ensures x in ShuffleSteps(s, draws, |s|) <==> x in s
  {
    var r := ShuffleSteps(s, draws, |s|);
    assert multiset(r) == multiset(s);
    assert x in r <==> x in multiset(r);
    assert x in s <==> x in multiset(s);
  }

  /**
   * `shuffle(alist)`: a new list holding a permutation of `alist`; the
   * caller's list is left as it was.
   */
  method Shuffle<T>(alist: array<T>, draws: seq<nat>) returns (blist: array<T>)
    requires ValidDraws(draws, alist.Length)
    ensures fresh(blist)
    ensures blist[..] == ShuffleSteps(alist[..], draws, alist.Length)
    ensures multiset(blist[..]) == multiset(alist[..])
    ensures alist[..] == old(alist[..])
  {
    blist := new T[alist.Length](k requires 0 <= k < alist.Length reads alist => alist[k]);
    assert blist[..] == alist[..];
    var i := alist.Length;
    while i > 1
      invariant 0 <= i <= alist.Length
      invariant blist.Length == alist.Length
      invariant ShuffleSteps(blist[..], draws, i) == ShuffleSteps(alist[..], draws, alist.Length)
    {
      var j := draws[i - 1];
      ghost var before := blist[..];
      var t := blist[i - 1];
      blist[i - 1] := blist[j];
      blist[j] := t;
      assert blist[..] == Swap(before, i - 1, j);
      i := i - 1;
    }
  }
}
