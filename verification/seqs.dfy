/** `Array.prototype.filter` over immutable sequences, with the facts the
    handlers need: which elements survive, and that survivors keep their order. */
module Seqs {

  /** The elements of `xs` that satisfy `keep`, in their original order. */
  function Filter<T(!new)>(xs: seq<T>, keep: T -> bool): (r: seq<T>)
    ensures |r| <= |xs|
    ensures forall x :: x in r <==> x in xs && keep(x)
    decreases |xs|
  {
    if |xs| == 0 then []
    else (if keep(xs[0]) then [xs[0]] else []) + Filter(xs[1..], keep)
  }

  /** Filtering distributes over concatenation. */
  lemma {:induction false} FilterAppend<T(!new)>(a: seq<T>, b: seq<T>, keep: T -> bool)
    ensures Filter(a + b, keep) == Filter(a, keep) + Filter(b, keep)
    decreases |a|
  {
    if |a| == 0 {
      assert a + b == b;
    } else {
      assert (a + b)[0] == a[0];
      assert (a + b)[1..] == a[1..] + b;
      FilterAppend(a[1..], b, keep);
    }
  }

  /** A list whose every element is kept is returned unchanged. */
  lemma {:induction false} FilterKeepsAll<T(!new)>(xs: seq<T>, keep: T -> bool)
    requires forall i :: 0 <= i < |xs| ==> keep(xs[i])
    ensures Filter(xs, keep) == xs
    decreases |xs|
  {
    if |xs| != 0 {
      FilterKeepsAll(xs[1..], keep);
    }
  }

  /** Order is preserved: a kept element `xs[i]` lands at the position given by
      the number of kept elements before it. */
  lemma FilterPosition<T(!new)>(xs: seq<T>, keep: T -> bool, i: nat)
    requires i < |xs| && keep(xs[i])
    ensures |Filter(xs[..i], keep)| < |Filter(xs, keep)|
    ensures Filter(xs, keep)[|Filter(xs[..i], keep)|] == xs[i]
  {
    assert xs == xs[..i] + ([xs[i]] + xs[i + 1..]);
    FilterAppend(xs[..i], [xs[i]] + xs[i + 1..], keep);
    FilterAppend([xs[i]], xs[i + 1..], keep);
    assert Filter([xs[i]], keep) == [xs[i]] by {
      FilterKeepsAll([xs[i]], keep);
    }
  }

  /** Filtering by a predicate and by its negation splits the list: the two
      results together are exactly as long as the input. */
  lemma {:induction false} FilterComplement<T(!new)>(xs: seq<T>, keep: T -> bool, drop: T -> bool)
    requires forall x :: drop(x) == !keep(x)
    ensures |Filter(xs, keep)| + |Filter(xs, drop)| == |xs|
    decreases |xs|
  {
    if |xs| != 0 {
      FilterComplement(xs[1..], keep, drop);
    }
  }

  /** Kept elements keep their relative order: the rank of a kept element is
      strictly below the rank of any later position. */
  lemma FilterPrefixGrows<T(!new)>(xs: seq<T>, keep: T -> bool, i: nat, j: nat)
    requires i < j <= |xs| && keep(xs[i])
    ensures |Filter(xs[..i], keep)| < |Filter(xs[..j], keep)|
  {
    assert xs[..j] == xs[..i] + ([xs[i]] + xs[i + 1..j]);
    FilterAppend(xs[..i], [xs[i]] + xs[i + 1..j], keep);
    FilterAppend([xs[i]], xs[i + 1..j], keep);
    assert Filter([xs[i]], keep) == [xs[i]] by {
      FilterKeepsAll([xs[i]], keep);
    }
  }

  /** `pos` lists positions of `xs` that spell out `r`. */
  ghost predicate Spells<T>(pos: seq<nat>, r: seq<T>, xs: seq<T>) {
    |pos| == |r| && forall k :: 0 <= k < |pos| ==> pos[k] < |xs| && r[k] == xs[pos[k]]
  }

  ghost predicate Increasing(pos: seq<nat>) {
    forall k, l :: 0 <= k < l < |pos| ==> pos[k] < pos[l]
  }

  /** Every position whose element `keep` accepts is listed. */
  ghost predicate Covers<T>(pos: seq<nat>, xs: seq<T>, keep: T -> bool) {
    forall i :: 0 <= i < |xs| && keep(xs[i]) ==> i in pos
  }

  ghost predicate AllKept<T>(r: seq<T>, keep: T -> bool) {
    forall k :: 0 <= k < |r| ==> keep(r[k])
  }

  /** `pos` is a strictly increasing list of positions of `xs` that spells out
      `r`, and it contains every position whose element `keep` accepts and
      no other. */
  ghost predicate Picks<T>(pos: seq<nat>, r: seq<T>, xs: seq<T>, keep: T -> bool) {
    Spells(pos, r, xs) && Increasing(pos) && Covers(pos, xs, keep) && AllKept(r, keep)
  }

  /** `r` is the kept elements of `xs`, each kept occurrence once, in order. */
  ghost predicate SelectsInOrder<T>(r: seq<T>, xs: seq<T>, keep: T -> bool) {
    exists pos: seq<nat> :: Picks(pos, r, xs, keep)
  }

  /** Positions into `xs[1..]`, as positions into `xs`. */
  function Shift(g: seq<nat>): (r: seq<nat>)
    ensures |r| == |g| && forall k :: 0 <= k < |g| ==> r[k] == g[k] + 1
  {
    seq(|g|, k requires 0 <= k < |g| => g[k] + 1)
  }

  lemma ShiftSpells<T>(xs: seq<T>, g: seq<nat>, rest: seq<T>)
    requires |xs| > 0 && Spells(g, rest, xs[1..])
    ensures Spells(Shift(g), rest, xs)
  {
    forall k | 0 <= k < |g|
      ensures Shift(g)[k] < |xs| && rest[k] == xs[Shift(g)[k]]
    {
      assert xs[1..][g[k]] == xs[g[k] + 1];
    }
  }

  lemma ShiftCovers<T>(xs: seq<T>, keep: T -> bool, g: seq<nat>)
    requires |xs| > 0 && Covers(g, xs[1..], keep)
    ensures forall i :: 1 <= i < |xs| && keep(xs[i]) ==> i in Shift(g)
  {
    forall i | 1 <= i < |xs| && keep(xs[i])
      ensures i in Shift(g)
    {
      assert xs[1..][i - 1] == xs[i];
      var k :| 0 <= k < |g| && g[k] == i - 1;
      assert Shift(g)[k] == i;
    }
  }

  lemma ConsSpells<T>(x: T, p: nat, pos: seq<nat>, r: seq<T>, xs: seq<T>)
    requires Spells(pos, r, xs) && p < |xs| && xs[p] == x
    ensures Spells([p] + pos, [x] + r, xs)
  {
    forall k | 0 <= k < |pos| + 1
      ensures ([p] + pos)[k] < |xs| && ([x] + r)[k] == xs[([p] + pos)[k]]
    {
      if k > 0 {
        assert ([p] + pos)[k] == pos[k - 1] && ([x] + r)[k] == r[k - 1];
      }
    }
  }

  lemma ConsIncreasing(p: nat, pos: seq<nat>)
    requires Increasing(pos) && forall k :: 0 <= k < |pos| ==> p < pos[k]
    ensures Increasing([p] + pos)
  {
    forall k, l | 0 <= k < l < |pos| + 1
      ensures ([p] + pos)[k] < ([p] + pos)[l]
    {
      assert ([p] + pos)[l] == pos[l - 1];
      if k > 0 {
        assert ([p] + pos)[k] == pos[k - 1];
      }
    }
  }

  /** One step of `Filter`: a selection for the tail extends to the whole list. */
  lemma PicksStep<T>(xs: seq<T>, keep: T -> bool, g: seq<nat>, rest: seq<T>)
    requires |xs| > 0 && Picks(g, rest, xs[1..], keep)
    ensures keep(xs[0]) ==> Picks([0] + Shift(g), [xs[0]] + rest, xs, keep)
    ensures !keep(xs[0]) ==> Picks(Shift(g), rest, xs, keep)
  {
    ShiftSpells(xs, g, rest);
    ShiftCovers(xs, keep, g);
    assert Increasing(Shift(g));
    if keep(xs[0]) {
      ConsSpells(xs[0], 0, Shift(g), rest, xs);
      ConsIncreasing(0, Shift(g));
      assert 0 in [0] + Shift(g);
      assert AllKept([xs[0]] + rest, keep) by {
        forall k | 0 <= k < |rest| + 1
          ensures keep(([xs[0]] + rest)[k])
        {
          if k > 0 {
            assert ([xs[0]] + rest)[k] == rest[k - 1];
          }
        }
      }
    }
  }

  /** `Filter` returns exactly the kept occurrences, in their original order. */
  lemma {:induction false} FilterSelects<T(!new)>(xs: seq<T>, keep: T -> bool)
    ensures SelectsInOrder(Filter(xs, keep), xs, keep)
    decreases |xs|
  {
    if |xs| == 0 {
      assert Picks([], Filter(xs, keep), xs, keep);
    } else {
      FilterSelects(xs[1..], keep);
      var g :| Picks(g, Filter(xs[1..], keep), xs[1..], keep);
      PicksStep(xs, keep, g, Filter(xs[1..], keep));
      if keep(xs[0]) {
        assert Picks([0] + Shift(g), Filter(xs, keep), xs, keep);
      } else {
        assert Picks(Shift(g), Filter(xs, keep), xs, keep);
      }
    }
  }

  /** A one-element list survives exactly when its element is kept. */
  lemma FilterSingle<T(!new)>(x: T, keep: T -> bool)
    ensures |Filter([x], keep)| == if keep(x) then 1 else 0
  {
    assert [x][1..] == [];
  }

  /** The kept positions of `xs`, split at its last element. */
  lemma PositionsSnoc<T>(xs: seq<T>, keep: T -> bool)
    requires |xs| > 0
    ensures var n := |xs| - 1;
            var before := set i | 0 <= i < n && keep(xs[..n][i]);
            && n !in before
            && (set i | 0 <= i < |xs| && keep(xs[i])) == if keep(xs[n]) then before + {n} else before
  {
    var n := |xs| - 1;
    assert forall i :: 0 <= i < n ==> xs[..n][i] == xs[i];
  }

  /** The length of a filtered list is the number of positions whose element
      is kept. */
  lemma {:induction false} FilterLengthCounts<T(!new)>(xs: seq<T>, keep: T -> bool)
    ensures |Filter(xs, keep)| == |set i | 0 <= i < |xs| && keep(xs[i])|
    decreases |xs|
  {
    if |xs| != 0 {
      var n := |xs| - 1;
      assert xs == xs[..n] + [xs[n]];
      FilterAppend(xs[..n], [xs[n]], keep);
      FilterSingle(xs[n], keep);
      FilterLengthCounts(xs[..n], keep);
      PositionsSnoc(xs, keep);
    }
  }

  /** The same count, for any set described by its members. */
  lemma FilterLengthIs<T(!new)>(xs: seq<T>, keep: T -> bool, positions: set<int>)
    requires forall i :: i in positions <==> 0 <= i < |xs| && keep(xs[i])
    ensures |Filter(xs, keep)| == |positions|
  {
    FilterLengthCounts(xs, keep);
    assert positions == set i | 0 <= i < |xs| && keep(xs[i]);
  }
}
