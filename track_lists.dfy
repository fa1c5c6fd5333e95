/** Operations on ordered lists of ids, shared by both revisions of the
    playlist and tag code: the array filter that drops one id (MongoDB's
    $pull does the same), MongoDB's $addToSet, $push with $position, the
    remove-then-insert "move", and the membership test a reorder request
    must pass. */
module TrackLists {

  /** No element occurs more than once. */
  ghost predicate NoDups<T(!new)>(s: seq<T>) {
    forall x :: multiset(s)[x] <= 1
  }

  /** `r` can be obtained from `s` by deleting elements: the elements of
      `r` occur in `s` in the same relative order. */
  ghost predicate SubseqOf<T>(r: seq<T>, s: seq<T>)
    decreases |s|
  {
    r == [] || (s != [] && ((r[0] == s[0] && SubseqOf(r[1..], s[1..])) || SubseqOf(r, s[1..])))
  }

  function Min(a: nat, b: nat): nat {
    if a <= b then a else b
  }

  /** `s` with every occurrence of `x` filtered out (`filter(id => id !== x)`,
      and MongoDB's $pull). Its properties are the lemmas below. */
  function Without<T(==)>(s: seq<T>, x: T): seq<T> {
    if s == [] then []
    else if s[0] == x then Without(s[1..], x)
    else [s[0]] + Without(s[1..], x)
  }

  /** MongoDB's $addToSet of one element: appended at the end when absent,
      otherwise the array is left as it is. */
  function AddToSet<T(==,!new)>(s: seq<T>, x: T): (r: seq<T>)
    ensures x in r
    ensures s <= r && |r| <= |s| + 1
    ensures multiset(r) == multiset(s)[x := if x in s then multiset(s)[x] else 1]
    ensures NoDups(s) ==> NoDups(r)
  {
    if x in s then s else s + [x]
  }

  /** MongoDB's $push of one element with a non-negative $position `p`:
      inserted before index `p`, or appended when `p` is past the end. */
  function InsertAt<T>(s: seq<T>, x: T, p: nat): (r: seq<T>)
    ensures |r| == |s| + 1
    ensures r[Min(p, |s|)] == x
    ensures r[..Min(p, |s|)] + r[Min(p, |s|) + 1..] == s
    ensures multiset(r) == multiset(s) + multiset{x}
  {
    if p < |s| then
      assert s == s[..p] + s[p..];
      s[..p] + [x] + s[p..]
    else s + [x]
  }

  /** The two updates of a track move: pull every occurrence of `x`, then
      push it back at position `p` of what remains. */
  function Move<T(==)>(s: seq<T>, x: T, p: nat): seq<T> {
    InsertAt(Without(s, x), x, p)
  }

  /** The acceptance test of a reorder request: the submitted list has the
      stored list's length and each of its ids is in the stored list. */
  predicate SameTracks<T(==)>(stored: seq<T>, submitted: seq<T>) {
    |submitted| == |stored| && forall i :: 0 <= i < |submitted| ==> submitted[i] in stored
  }

  // ---------------------------------------------------------------- Without

  /** Filtering removes every occurrence of `x`, and every other element
      keeps its count; so the list does not grow, and a list without `x`
      is left as it is. */
  lemma {:induction false} WithoutCounts<T>(s: seq<T>, x: T)
    ensures multiset(Without(s, x)) == multiset(s)[x := 0]
    ensures |Without(s, x)| <= |s|
    ensures x !in s ==> Without(s, x) == s
    decreases |s|
  {
    if s != [] {
      WithoutCounts(s[1..], x);
      assert s == [s[0]] + s[1..];
      assert multiset(s) == multiset{s[0]} + multiset(s[1..]);
    }
  }

  lemma {:induction false} WithoutIsSubseq<T>(s: seq<T>, x: T)
    ensures SubseqOf(Without(s, x), s)
    decreases |s|
  {
    if s != [] {
      WithoutIsSubseq(s[1..], x);
      if s[0] != x {
        assert Without(s, x) == [s[0]] + Without(s[1..], x);
        assert (Without(s, x))[1..] == Without(s[1..], x);
      } else {
        var r := Without(s[1..], x);
        assert Without(s, x) == r;
      }
    }
  }

  /** Filtering distributes over concatenation, so relative order is kept. */
  lemma {:induction false} WithoutAppend<T>(a: seq<T>, b: seq<T>, x: T)
    ensures Without(a + b, x) == Without(a, x) + Without(b, x)
    decreases |a|
  {
    if a == [] {
      assert a + b == b;
    } else {
      WithoutAppend(a[1..], b, x);
      assert (a + b)[1..] == a[1..] + b;
      assert (a + b)[0] == a[0];
    }
  }

  /** Removing twice is the same as removing once, and removing never
      leaves an occurrence behind. */
  lemma WithoutIdempotent<T>(s: seq<T>, x: T)
    ensures x !in Without(s, x)
    ensures Without(Without(s, x), x) == Without(s, x)
  {
    WithoutCounts(s, x);
    assert multiset(Without(s, x))[x] == 0;
    WithoutCounts(Without(s, x), x);
  }

  /** Pulling an element just appended to a list without it gives back the list. */
  lemma {:induction false} WithoutAppended<T>(s: seq<T>, x: T)
    requires x !in s
    ensures Without(s + [x], x) == s
  {
    WithoutCounts(s, x);
    WithoutAppend(s, [x], x);
    assert Without([x], x) == Without([x][1..], x);
    assert [x][1..] == [];
  }

  lemma WithoutKeepsNoDups<T(!new)>(s: seq<T>, x: T)
    requires NoDups(s)
    ensures NoDups(Without(s, x))
  {
    WithoutCounts(s, x);
  }

  // ------------------------------------------------------------------- Move

  /** Pulling an id just pushed into a list without it gives back the list. */
  lemma {:induction false} WithoutInsertAt<T>(t: seq<T>, x: T, p: nat)
    requires x !in t
    ensures Without(InsertAt(t, x, p), x) == t
  {
    if p < |t| {
      var l, r := t[..p], t[p..];
      assert t == l + r;
      assert x !in l && x !in r;
      assert InsertAt(t, x, p) == (l + [x]) + r;
      WithoutAppend(l + [x], r, x);
      WithoutAppend(l, [x], x);
      WithoutCounts(l, x);
      WithoutCounts(r, x);
      assert Without([x], x) == [] by { assert [x][1..] == []; }
      assert Without(l + [x], x) == l;
    } else {
      WithoutAppended(t, x);
    }
  }

  /** After a move, `x` occurs exactly once and sits at position `p` (at the
      end when `p` is past the end of the pulled list); every other id keeps
      its count and its relative order. */
  lemma {:induction false} MoveProperties<T>(s: seq<T>, x: T, p: nat)
    ensures multiset(Move(s, x, p)) == multiset(s)[x := 1]
    ensures Move(s, x, p)[Min(p, |Without(s, x)|)] == x
    ensures Without(Move(s, x, p), x) == Without(s, x)
  {
    var t := Without(s, x);
    WithoutCounts(s, x);
    assert multiset(t)[x] == 0;
    WithoutInsertAt(t, x, p);
    assert multiset(Move(s, x, p)) == multiset(t) + multiset{x};
  }

  /** A move keeps a duplicate-free list duplicate-free. */
  lemma MoveKeepsNoDups<T(!new)>(s: seq<T>, x: T, p: nat)
    requires NoDups(s)
    ensures NoDups(Move(s, x, p))
  {
    MoveProperties(s, x, p);
    forall y ensures multiset(Move(s, x, p))[y] <= 1 {
      assert multiset(Move(s, x, p))[y] == multiset(s)[x := 1][y];
    }
  }

  /** Moving an id that occurs once is a permutation of the list. */
  lemma MoveOfPresentIsPermutation<T>(s: seq<T>, x: T, p: nat)
    requires multiset(s)[x] == 1
    ensures multiset(Move(s, x, p)) == multiset(s)
    ensures |Move(s, x, p)| == |s|
  {
    MoveProperties(s, x, p);
    assert multiset(s)[x := 1] == multiset(s);
    assert |multiset(Move(s, x, p))| == |multiset(s)|;
  }

  /** Moving an id that is not in the list inserts it. */
  lemma MoveOfAbsentInserts<T>(s: seq<T>, x: T, p: nat)
    requires x !in s
    ensures Move(s, x, p) == InsertAt(s, x, p)
    ensures |Move(s, x, p)| == |s| + 1
  {
    WithoutCounts(s, x);
  }

  /** Moving B to position 0 in [A, B, C] gives [B, A, C]. */
  lemma MoveExample()
    ensures Move(["A", "B", "C"], "B", 0) == ["B", "A", "C"]
  {
    assert Without(["A", "B", "C"], "B") == ["A", "C"] by {
      var s := ["A", "B", "C"];
      assert s[1..] == ["B", "C"] && s[1..][1..] == ["C"] && s[1..][1..][1..] == [];
    }
  }

  // --------------------------------------------------------------- AddToSet

  lemma AddToSetIdempotent<T(!new)>(s: seq<T>, x: T)
    ensures AddToSet(AddToSet(s, x), x) == AddToSet(s, x)
  {
  }

  // ---------------------------------------------------------------- Reorder

  /** Every permutation of the stored list passes the reorder check. */
  lemma ReorderAcceptsPermutations<T>(stored: seq<T>, submitted: seq<T>)
    requires multiset(submitted) == multiset(stored)
    ensures SameTracks(stored, submitted)
  {
    assert |multiset(submitted)| == |multiset(stored)|;
    forall i | 0 <= i < |submitted| ensures submitted[i] in stored {
      assert submitted[i] in multiset(submitted);
    }
  }

  /** A submitted list of another length fails the reorder check. */
  lemma ReorderRejectsLengthChange<T>(stored: seq<T>, submitted: seq<T>)
    requires |submitted| != |stored|
    ensures !SameTracks(stored, submitted)
  {
  }

  /** For duplicate-free lists the reorder check holds exactly for
      permutations. */
  lemma ReorderCheckIsPermutation<T(!new)>(stored: seq<T>, submitted: seq<T>)
    requires NoDups(stored) && NoDups(submitted)
    ensures SameTracks(stored, submitted) <==> multiset(submitted) == multiset(stored)
  {
    if SameTracks(stored, submitted) {
      var a, b := multiset(submitted), multiset(stored);
      forall x ensures a[x] <= b[x] {
        if x in a {
          var i :| 0 <= i < |submitted| && submitted[i] == x;
          assert x in stored;
          assert x in b;
        }
      }
      assert a <= b;
      var c := b - a;
      assert a + c == b;
      assert |a + c| == |a| + |c|;
      assert |a| == |submitted| == |stored| == |b|;
      assert |c| == 0;
      assert c == multiset{};
    }
    if multiset(submitted) == multiset(stored) {
      ReorderAcceptsPermutations(stored, submitted);
    }
  }

  /** The check alone lets a list with a repeated id through, and that
      list drops one of the stored ids. */
  lemma ReorderCheckAdmitsRepeats()
    ensures SameTracks(["a", "b"], ["a", "a"])
    ensures multiset(["a", "a"]) != multiset(["a", "b"])
  {
    assert multiset(["a", "a"])["b"] == 0;
  }
}
