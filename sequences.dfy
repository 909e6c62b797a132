/**
 * Duplicate-free sequences, as the scripts build them with a dictionary or a set:
 * first-seen order, later repeats ignored.
 */
module Sequences {
  import opened Wrappers

  function Elements<T>(xs: seq<T>): set<T>
  {
    set x | x in xs
  }

  ghost predicate NoDuplicates<T>(xs: seq<T>)
  {
    forall i, j :: 0 <= i < j < |xs| ==> xs[i] != xs[j]
  }

  /** Appends each of `items` that is not already present, in the order first seen: what
      inserting the items one by one into an insertion-ordered dictionary leaves as its keys. */
  function AddNew<T(==)>(known: seq<T>, items: seq<T>): (r: seq<T>)
    ensures |known| <= |r| && r[..|known|] == known
    ensures Elements(r) == Elements(known) + Elements(items)
    ensures NoDuplicates(known) ==> NoDuplicates(r)
    decreases |items|
  {
    if items == [] then known
    else
      var next := if items[0] in known then known else known + [items[0]];
      var r := AddNew(next, items[1..]);
      assert next[..|known|] == known;
      assert r[..|known|] == r[..|next|][..|known|];
      assert Elements(items) == {items[0]} + Elements(items[1..]);
      r
  }

  /** `list(dict.fromkeys(xs))`: the distinct items of `xs` in first-seen order. */
  function Dedup<T(==)>(xs: seq<T>): (r: seq<T>)
    ensures NoDuplicates(r) && Elements(r) == Elements(xs)
  {
    AddNew([], xs)
  }

  /** A sequence has as many distinct elements as entries exactly when it has no repeat. */
  lemma {:induction false} ElementsCount<T>(xs: seq<T>)
    ensures |Elements(xs)| <= |xs|
    ensures NoDuplicates(xs) <==> |Elements(xs)| == |xs|
  {
    if xs != [] {
      var n := |xs| - 1;
      var init := xs[..n];
      ElementsCount(init);
      assert xs == init + [xs[n]];
      assert Elements(xs) == Elements(init) + {xs[n]};
      if xs[n] in init {
        assert Elements(xs) == Elements(init);
        var i :| 0 <= i < n && init[i] == xs[n];
        assert xs[i] == xs[n];
      } else {
        assert |Elements(xs)| == |Elements(init)| + 1;
        if NoDuplicates(init) {
          forall i, j | 0 <= i < j < |xs| ensures xs[i] != xs[j] {
            if j == n { assert xs[i] in init; } else { assert xs[i] == init[i] && xs[j] == init[j]; }
          }
        } else {
          var i, j :| 0 <= i < j < n && init[i] == init[j];
          assert xs[i] == xs[j];
        }
      }
    }
  }

  /** Deduplicating shortens a sequence exactly when it repeats an entry. */
  lemma DedupShortensRepeats<T>(xs: seq<T>)
    ensures |Dedup(xs)| <= |xs|
    ensures |Dedup(xs)| < |xs| <==> !NoDuplicates(xs)
  {
    ElementsCount(xs);
    ElementsCount(Dedup(xs));
  }

  /** `[f(x) for x in xs]`, built by appending one image after another. */
  function Map<A, B>(f: A -> B, xs: seq<A>): seq<B>
  {
    if xs == [] then [] else Map(f, xs[..|xs| - 1]) + [f(xs[|xs| - 1])]
  }

  /** One image per entry, the `k`-th image that of the `k`-th entry. */
  lemma {:induction false} MapAt<A, B>(f: A -> B, xs: seq<A>)
    ensures |Map(f, xs)| == |xs|
    ensures forall k :: 0 <= k < |xs| ==> Map(f, xs)[k] == f(xs[k])
  {
    if xs != [] {
      var init := xs[..|xs| - 1];
      MapAt(f, init);
      forall k | 0 <= k < |xs| ensures Map(f, xs)[k] == f(xs[k]) {
        if k < |init| { assert xs[k] == init[k]; }
      }
    }
  }

  /** The images of the entries, each a run of items, one run after another. */
  function Flatten<A, B>(f: A -> seq<B>, xs: seq<A>): seq<B>
  {
    if xs == [] then [] else Flatten(f, xs[..|xs| - 1]) + f(xs[|xs| - 1])
  }

  /** An item is in the runs exactly when it is in the image of some entry. */
  lemma {:induction false} FlattenAt<A, B>(f: A -> seq<B>, xs: seq<A>, y: B)
    ensures y in Flatten(f, xs) <==> exists i :: 0 <= i < |xs| && y in f(xs[i])
  {
    if xs != [] {
      var n := |xs| - 1;
      var init := xs[..n];
      FlattenAt(f, init, y);
      assert Flatten(f, xs) == Flatten(f, init) + f(xs[n]);
      if y in Flatten(f, init) {
        var i :| 0 <= i < n && y in f(init[i]);
        assert xs[i] == init[i];
      }
      if exists i :: 0 <= i < |xs| && y in f(xs[i]) {
        var i :| 0 <= i < |xs| && y in f(xs[i]);
        if i < n {
          assert xs[i] == init[i];
        }
      }
    }
  }

  /** The runs read from the front: the first entry's run, then the others'. */
  lemma {:induction false} FlattenCons<A, B>(f: A -> seq<B>, xs: seq<A>)
    requires xs != []
    ensures Flatten(f, xs) == f(xs[0]) + Flatten(f, xs[1..])
  {
    var n := |xs| - 1;
    if n == 0 {
      assert xs[1..] == [] && xs[..0] == [];
    } else {
      var init := xs[..n];
      FlattenCons(f, init);
      assert init[0] == xs[0];
      assert xs[1..][..n - 1] == init[1..];
      assert xs[1..][n - 1] == xs[n];
      assert Flatten(f, xs[1..]) == Flatten(f, init[1..]) + f(xs[n]);
    }
  }

  /** Each of four parts is read back from a concatenation of five by its position. */
  lemma FiveParts<T>(a: seq<T>, b: seq<T>, c: seq<T>, d: seq<T>, e: seq<T>)
    ensures var u := a + b + c + d + e;
      && u[..|a|] == a
      && u[|a|..|a| + |b|] == b
      && u[|a| + |b|..|a| + |b| + |c|] == c
      && u[|a| + |b| + |c|..|u| - |e|] == d
  {
  }

  /** The images of a prefix extended by one entry. */
  lemma MapSnoc<A, B>(f: A -> B, xs: seq<A>, i: nat)
    requires i < |xs|
    ensures Map(f, xs[..i + 1]) == Map(f, xs[..i]) + [f(xs[i])]
  {
    assert xs[..i + 1][..i] == xs[..i];
  }

  /** Adding a run of items one batch after another is adding them all at once. */
  lemma {:induction false} AddNewAppend<T>(known: seq<T>, xs: seq<T>, ys: seq<T>)
    ensures AddNew(known, xs + ys) == AddNew(AddNew(known, xs), ys)
    decreases |xs|
  {
    if xs == [] {
      assert xs + ys == ys;
    } else {
      assert (xs + ys)[0] == xs[0] && (xs + ys)[1..] == xs[1..] + ys;
      var next := if xs[0] in known then known else known + [xs[0]];
      AddNewAppend(next, xs[1..], ys);
    }
  }

  /** `xs.index(x)`, or `None` where Python raises: the first position holding `x`. */
  function FirstIndex<T(==)>(xs: seq<T>, x: T): (r: Option<nat>)
    ensures r.None? <==> x !in xs
    ensures r.Some? ==> r.value < |xs| && xs[r.value] == x && forall k :: 0 <= k < r.value ==> xs[k] != x
  {
    if xs == [] then None
    else if xs[0] == x then Some(0)
    else match FirstIndex(xs[1..], x)
      case None => None
      case Some(i) => Some(i + 1)
  }

  /** A position holding `x` with no earlier one holding it is what `index` finds. */
  lemma FirstIndexAt<T>(xs: seq<T>, x: T, t: nat)
    requires t < |xs| && xs[t] == x && forall k :: 0 <= k < t ==> xs[k] != x
    ensures FirstIndex(xs, x) == Some(t)
  {
    assert FirstIndex(xs, x).Some?;
  }
}
