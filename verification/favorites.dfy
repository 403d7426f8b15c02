/**
  The favourites list of the popular-movies screen (components/movies.tsx).

  The screen keeps an ordered list of movie ids. Toggling an id removes every copy of it
  when it is present and appends it at the end otherwise.
 */
module Favorites {

  /** `prev.filter((id) => id !== movieId)`: every element except `x`, in order. */
  function RemoveAll(s: seq<int>, x: int): (r: seq<int>)
    ensures x !in r
    ensures forall y :: y != x ==> (y in r <==> y in s)
    ensures |r| <= |s|
    ensures x !in s ==> r == s
  {
    if |s| == 0 then []
    else if s[0] == x then RemoveAll(s[1..], x)
    else [s[0]] + RemoveAll(s[1..], x)
  }

  /** The updater passed to `setFavorites` by `toggleFavorite(movieId)`. */
  function Toggle(favs: seq<int>, id: int): (r: seq<int>)
    ensures id in r <==> id !in favs
    ensures forall y :: y != id ==> (y in r <==> y in favs)
  {
    if id in favs then RemoveAll(favs, id) else favs + [id]
  }

  /** `favorites.includes(movie.id)`: whether a card is shown as a favourite. */
  predicate IsFavorite(favs: seq<int>, id: int)
  {
    id in favs
  }

  /** No id occurs twice. */
  predicate NoDuplicates(s: seq<int>)
  {
    forall i, j :: 0 <= i < j < |s| ==> s[i] != s[j]
  }

  /** `a` can be obtained from `b` by deleting elements, without reordering the rest. */
  ghost predicate IsSubsequence(a: seq<int>, b: seq<int>)
    decreases |b|
  {
    if |a| == 0 then true
    else if |b| == 0 then false
    else (a[0] == b[0] && IsSubsequence(a[1..], b[1..])) || IsSubsequence(a, b[1..])
  }

  // ---------------------------------------------------------------------------
  // Properties of removal

  /** Removal keeps the surviving entries in their original relative order. */
  lemma {:induction false} RemoveAllIsSubsequence(s: seq<int>, x: int)
    ensures IsSubsequence(RemoveAll(s, x), s)
  {
    if |s| > 0 {
      RemoveAllIsSubsequence(s[1..], x);
      var r := RemoveAll(s, x);
      if s[0] != x {
        assert r[0] == s[0] && r[1..] == RemoveAll(s[1..], x);
      } else {
        assert r == RemoveAll(s[1..], x);
      }
    }
  }

  /** Removal deletes every copy of `x` and keeps every other occurrence. */
  lemma {:induction false} RemoveAllMultiset(s: seq<int>, x: int)
    ensures multiset(RemoveAll(s, x)) == multiset(s)[x := 0]
  {
    if |s| > 0 {
      RemoveAllMultiset(s[1..], x);
      assert s == [s[0]] + s[1..];
      assert multiset(s) == multiset{s[0]} + multiset(s[1..]);
    }
  }

  /** Deleting elements can only lower multiplicities. */
  lemma {:induction false} SubsequenceMultiset(a: seq<int>, b: seq<int>)
    requires IsSubsequence(a, b)
    ensures multiset(a) <= multiset(b)
    decreases |b|
  {
    if |a| > 0 {
      assert b == [b[0]] + b[1..];
      if a[0] == b[0] && IsSubsequence(a[1..], b[1..]) {
        SubsequenceMultiset(a[1..], b[1..]);
        assert a == [a[0]] + a[1..];
      } else {
        SubsequenceMultiset(a, b[1..]);
      }
    }
  }

  /** Cancelling a common head on both sides of a multiset equation that erases `x`. */
  lemma MultisetCancelHead(h: int, rest: seq<int>, t: seq<int>, x: int)
    requires h != x
    requires multiset([h] + rest) == multiset([h] + t)[x := 0]
    ensures multiset(rest) == multiset(t)[x := 0]
  {
    assert multiset([h] + rest) == multiset{h} + multiset(rest);
    assert multiset([h] + t) == multiset{h} + multiset(t);
    forall y
      ensures multiset(rest)[y] == multiset(t)[x := 0][y]
    {
      assert multiset([h] + rest)[y] == multiset([h] + t)[x := 0][y];
    }
  }

  /**
    `RemoveAll` is the only order-preserving sub-list of `s` that holds every element other
    than `x` as often as `s` does and no `x`: an independent characterisation of the filter.
   */
  lemma {:induction false} RemoveAllUnique(s: seq<int>, x: int, r: seq<int>)
    requires IsSubsequence(r, s)
    requires multiset(r) == multiset(s)[x := 0]
    ensures r == RemoveAll(s, x)
    decreases |s|
  {
    if |s| > 0 {
      var h, t := s[0], s[1..];
      assert s == [h] + t;
      assert multiset(s) == multiset{h} + multiset(t);
      if h == x {
        assert multiset(t)[x := 0] == multiset(s)[x := 0];
        if |r| > 0 {
          assert r[0] in multiset(r);
          assert IsSubsequence(r, t);
        }
        RemoveAllUnique(t, x, r);
      } else {
        assert multiset(r)[h] == multiset(t)[h] + 1;
        assert |r| > 0;
        if r[0] == h && IsSubsequence(r[1..], t) {
          assert r == [h] + r[1..];
          MultisetCancelHead(h, r[1..], t, x);
          RemoveAllUnique(t, x, r[1..]);
        } else {
          SubsequenceMultiset(r, t);
          assert false;
        }
      }
    }
  }

  // ---------------------------------------------------------------------------
  // Properties of the toggle

  /** Toggling an absent id appends it: every earlier entry keeps its value and position. */
  lemma ToggleAbsentAppends(favs: seq<int>, id: int)
    requires id !in favs
    ensures |Toggle(favs, id)| == |favs| + 1
    ensures Toggle(favs, id)[..|favs|] == favs
    ensures Toggle(favs, id)[|favs|] == id
  {
  }

  /**
    Toggling a present id removes every occurrence of it, keeps every other occurrence,
    and keeps the survivors in their relative order.
   */
  lemma TogglePresentRemoves(favs: seq<int>, id: int)
    requires id in favs
    ensures id !in Toggle(favs, id)
    ensures multiset(Toggle(favs, id)) == multiset(favs)[id := 0]
    ensures IsSubsequence(Toggle(favs, id), favs)
    ensures |Toggle(favs, id)| < |favs|
  {
    RemoveAllMultiset(favs, id);
    RemoveAllIsSubsequence(favs, id);
    var r := Toggle(favs, id);
    assert |multiset(r)| == |multiset(favs)| - multiset(favs)[id];
  }

  /** Removal preserves the absence of duplicates. */
  lemma {:induction false} RemoveAllNoDuplicates(s: seq<int>, x: int)
    requires NoDuplicates(s)
    ensures NoDuplicates(RemoveAll(s, x))
  {
    if |s| > 0 {
      assert NoDuplicates(s[1..]);
      RemoveAllNoDuplicates(s[1..], x);
      if s[0] != x {
        var r := RemoveAll(s, x);
        assert s[0] !in s[1..];
        assert s[0] !in RemoveAll(s[1..], x);
        assert r == [s[0]] + RemoveAll(s[1..], x);
      }
    }
  }

  /** A duplicate-free favourites list stays duplicate-free. */
  lemma ToggleNoDuplicates(favs: seq<int>, id: int)
    requires NoDuplicates(favs)
    ensures NoDuplicates(Toggle(favs, id))
  {
    if id in favs {
      RemoveAllNoDuplicates(favs, id);
    }
  }

  /** Toggling an absent id twice gives back exactly the original list. */
  lemma ToggleAbsentTwice(favs: seq<int>, id: int)
    requires id !in favs
    ensures Toggle(Toggle(favs, id), id) == favs
  {
    RemoveAllAppended(favs, id);
  }

  /** Removing `x` from a list that only gained `x` at its end restores the list. */
  lemma {:induction false} RemoveAllAppended(s: seq<int>, x: int)
    requires x !in s
    ensures RemoveAll(s + [x], x) == s
  {
    if |s| == 0 {
      assert RemoveAll([x], x) == RemoveAll([], x);
    } else {
      assert (s + [x])[1..] == s[1..] + [x];
      RemoveAllAppended(s[1..], x);
      assert s == [s[0]] + s[1..];
    }
  }

  /** Toggling twice always restores whether the id is a favourite. */
  lemma ToggleTwiceMembership(favs: seq<int>, id: int)
    ensures IsFavorite(Toggle(Toggle(favs, id), id), id) <==> IsFavorite(favs, id)
  {
  }
}
