/**
 * The slice helpers of lib/arrays: membership, de-duplicating append and
 * remove-all-occurrences. Every peer list of a node is built from these.
 *
 * Each helper is a method with the source's loop, proved equal to a
 * specification function; the lemmas below state what those functions mean.
 */
module Arrays {

  /** No element occurs twice. */
  predicate NoDup(s: seq<string>)
  {
    forall i, j :: 0 <= i < j < |s| ==> s[i] != s[j]
  }

  /** `s` with every occurrence of `t` dropped, the rest kept in order
      (the value `Remove` computes). */
  function Without(s: seq<string>, t: string): (r: seq<string>)
    ensures |r| <= |s|
    ensures forall x :: x in r <==> x in s && x != t
  {
    if s == [] then []
    else Without(s[..|s| - 1], t) + (if s[|s| - 1] == t then [] else [s[|s| - 1]])
  }

  /** `s` extended by every item of `xs` that is not yet present, scanning
      `xs` left to right (the value `AppendUnique` computes). */
  function AppendedUnique(s: seq<string>, xs: seq<string>): (r: seq<string>)
    ensures s <= r
    ensures forall x :: x in r <==> x in s || x in xs
  {
    if xs == [] then s
    else
      var prev := AppendedUnique(s, xs[..|xs| - 1]);
      if xs[|xs| - 1] in prev then prev else prev + [xs[|xs| - 1]]
  }

  /** Independent, right-to-left reference for the items `AppendUnique`
      adds: the first occurrence of each item of `xs` absent from `present`. */
  function Fresh(present: seq<string>, xs: seq<string>): seq<string>
    decreases |xs|
  {
    if xs == [] then []
    else if xs[0] in present then Fresh(present, xs[1..])
    else [xs[0]] + Fresh(present + [xs[0]], xs[1..])
  }

  // ---------------------------------------------------------------------
  // The source's loops

  /** arrays.Contains: a linear scan with early return. */
  method Contains(slice: seq<string>, item: string) returns (found: bool)
    ensures found <==> item in slice
  {
    var i := 0;
    while i < |slice|
      invariant 0 <= i <= |slice|
      invariant item !in slice[..i]
    {
      if slice[i] == item {
        return true;
      }
      i := i + 1;
    }
    return false;
  }

  /** arrays.AppendUnique: a `seen` set is filled from `slice`, then each
      unseen item is appended and marked. */
  method AppendUnique(slice: seq<string>, items: seq<string>) returns (result: seq<string>)
    ensures result == AppendedUnique(slice, items)
  {
    var seen: set<string> := {};
    var i := 0;
    while i < |slice|
      invariant 0 <= i <= |slice|
      invariant forall x :: x in seen <==> x in slice[..i]
    {
      seen := seen + {slice[i]};
      i := i + 1;
    }
    assert slice[..i] == slice;
    result := slice;
    var j := 0;
    while j < |items|
      invariant 0 <= j <= |items|
      invariant result == AppendedUnique(slice, items[..j])
      invariant forall x :: x in seen <==> x in result
    {
      assert items[..j + 1][..j] == items[..j];
      if items[j] !in seen {
        result := result + [items[j]];
        seen := seen + {items[j]};
      }
      j := j + 1;
    }
    assert items[..j] == items;
  }

  /** arrays.Remove: a fresh slice receives every item different from `target`. */
  method Remove(slice: seq<string>, target: string) returns (result: seq<string>)
    ensures result == Without(slice, target)
  {
    result := [];
    var i := 0;
    while i < |slice|
      invariant 0 <= i <= |slice|
      invariant result == Without(slice[..i], target)
    {
      assert slice[..i + 1][..i] == slice[..i];
      if slice[i] != target {
        result := result + [slice[i]];
      }
      i := i + 1;
    }
    assert slice[..i] == slice;
  }

  // ---------------------------------------------------------------------
  // Remove

  /** Remove distributes over concatenation. */
  lemma {:induction false} WithoutConcat(a: seq<string>, b: seq<string>, t: string)
    ensures Without(a + b, t) == Without(a, t) + Without(b, t)
    decreases |b|
  {
    if b == [] {
      assert a + b == a;
    } else {
      var b' := b[..|b| - 1];
      assert (a + b)[..|a + b| - 1] == a + b';
      WithoutConcat(a, b', t);
    }
  }

  /** Remove keeps every other element with its multiplicity and keeps none
      of `t`: together with its left-to-right definition, it is exactly the
      filter of `s` by `!= t`. */
  lemma {:induction false} WithoutCounts(s: seq<string>, t: string)
    ensures multiset(Without(s, t))[t] == 0
    ensures forall x :: x != t ==> multiset(Without(s, t))[x] == multiset(s)[x]
  {
    if s != [] {
      var s' := s[..|s| - 1];
      assert s == s' + [s[|s| - 1]];
      WithoutCounts(s', t);
    }
  }

  /** Removing an absent target returns the input unchanged. */
  lemma {:induction false} WithoutAbsent(s: seq<string>, t: string)
    requires t !in s
    ensures Without(s, t) == s
  {
    if s != [] {
      var s' := s[..|s| - 1];
      assert s == s' + [s[|s| - 1]];
      WithoutAbsent(s', t);
    }
  }

  /** Remove is idempotent. */
  lemma WithoutIdempotent(s: seq<string>, t: string)
    ensures Without(Without(s, t), t) == Without(s, t)
  {
    WithoutAbsent(Without(s, t), t);
  }

  /** Removing from a list without duplicates leaves it without duplicates. */
  lemma {:induction false} WithoutNoDup(s: seq<string>, t: string)
    requires NoDup(s)
    ensures NoDup(Without(s, t))
  {
    if s != [] {
      var s' := s[..|s| - 1];
      assert s == s' + [s[|s| - 1]];
      assert NoDup(s');
      WithoutNoDup(s', t);
      var r, y := Without(s', t), s[|s| - 1];
      assert y !in s';
      assert y !in r;
      assert forall i :: 0 <= i < |r| ==> r[i] != y;
    }
  }

  // ---------------------------------------------------------------------
  // AppendUnique

  /** Two duplicate-free lists with no element in common concatenate to a
      duplicate-free list. */
  lemma NoDupConcat(a: seq<string>, b: seq<string>)
    requires NoDup(a) && NoDup(b)
    requires forall x :: x in a ==> x !in b
    ensures NoDup(a + b)
  {
    forall i, j | 0 <= i < j < |a + b|
      ensures (a + b)[i] != (a + b)[j]
    {
      if i < |a| && j >= |a| {
        assert (a + b)[i] in a && (a + b)[j] in b;
      }
    }
  }

  /** Appending nothing new changes nothing. */
  lemma {:induction false} AppendedUniquePresent(s: seq<string>, xs: seq<string>)
    requires forall x :: x in xs ==> x in s
    ensures AppendedUnique(s, xs) == s
  {
    if xs != [] {
      AppendedUniquePresent(s, xs[..|xs| - 1]);
    }
  }

  /** AppendUnique is idempotent. */
  lemma AppendedUniqueIdempotent(s: seq<string>, xs: seq<string>)
    ensures AppendedUnique(AppendedUnique(s, xs), xs) == AppendedUnique(s, xs)
  {
    AppendedUniquePresent(AppendedUnique(s, xs), xs);
  }

  /** A list without duplicates stays without duplicates. */
  lemma {:induction false} AppendedUniqueNoDup(s: seq<string>, xs: seq<string>)
    requires NoDup(s)
    ensures NoDup(AppendedUnique(s, xs))
  {
    if xs != [] {
      AppendedUniqueNoDup(s, xs[..|xs| - 1]);
    }
  }

  /** Appending `a` then `b` is appending `a + b`. */
  lemma {:induction false} AppendedUniqueConcat(s: seq<string>, a: seq<string>, b: seq<string>)
    ensures AppendedUnique(s, a + b) == AppendedUnique(AppendedUnique(s, a), b)
    decreases |b|
  {
    if b == [] {
      assert a + b == a;
    } else {
      var b' := b[..|b| - 1];
      assert (a + b)[..|a + b| - 1] == a + b';
      AppendedUniqueConcat(s, a, b');
    }
  }

  /** Appending a single item. */
  lemma AppendedUniqueOne(s: seq<string>, x: string)
    ensures AppendedUnique(s, [x]) == if x in s then s else s + [x]
  {
    assert [x][..0] == [];
  }

  /** What AppendUnique adds is exactly the first occurrence of each item
      absent from `s` and from earlier items, in the order of `xs`. */
  lemma {:induction false} AppendedUniqueIsFresh(s: seq<string>, xs: seq<string>)
    ensures AppendedUnique(s, xs) == s + Fresh(s, xs)
    decreases |xs|
  {
    if xs != [] {
      var x, rest := xs[0], xs[1..];
      assert xs == [x] + rest;
      AppendedUniqueConcat(s, [x], rest);
      AppendedUniqueOne(s, x);
      if x in s {
        AppendedUniqueIsFresh(s, rest);
        assert Fresh(s, xs) == Fresh(s, rest);
      } else {
        AppendedUniqueIsFresh(s + [x], rest);
        assert Fresh(s, xs) == [x] + Fresh(s + [x], rest);
        assert s + [x] + Fresh(s + [x], rest) == s + ([x] + Fresh(s + [x], rest));
      }
    }
  }
}
