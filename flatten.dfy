/**
 * `flatten` of the background script: a value that may be an array of
 * arrays of arrays ... is turned into one flat array of its leaves.
 */
module DeepArrays {

  /** A JavaScript value as `flatten` sees it: an array, or anything else. */
  datatype Nested<T> = Leaf(value: T) | Array(items: seq<Nested<T>>)

  /** A measure that the `slice(1)` recursion decreases. */
  function Size<T>(d: Nested<T>): (n: nat)
    ensures n >= 1
  {
    match d
    case Leaf(_) => 1
    case Array(xs) => 1 + SizeOf(xs)
  }

  function SizeOf<T>(xs: seq<Nested<T>>): nat
  {
    if xs == [] then 0 else Size(xs[0]) + SizeOf(xs[1..])
  }

  /** The non-array values of `d`, left to right. */
  function Leaves<T>(d: Nested<T>): seq<T>
  {
    match d
    case Leaf(v) => [v]
    case Array(xs) => LeavesOf(xs)
  }

  function LeavesOf<T>(xs: seq<Nested<T>>): seq<T>
  {
    if xs == [] then [] else Leaves(xs[0]) + LeavesOf(xs[1..])
  }

  predicate IsFlat<T>(xs: seq<Nested<T>>)
  {
    forall i :: 0 <= i < |xs| ==> xs[i].Leaf?
  }

  /** An array of the given values, none of them an array. */
  function AsLeaves<T>(vs: seq<T>): (xs: seq<Nested<T>>)
    ensures |xs| == |vs| && IsFlat(xs)
    ensures forall i :: 0 <= i < |vs| ==> xs[i] == Leaf(vs[i])
  {
    seq(|vs|, i requires 0 <= i < |vs| => Leaf(vs[i]))
  }

  /** `[].concat(x)`: an array is spread into its elements, any other value becomes one element. */
  function Spread<T>(x: Nested<T>): seq<Nested<T>>
  {
    if x.Array? then x.items else [x]
  }

  /**
   * flatten: a non-array is returned as it is; an array becomes a flat array
   * holding the same leaves in the same order.
   */
  function Flatten<T>(d: Nested<T>): (r: Nested<T>)
    ensures d.Leaf? ==> r == d
    ensures d.Array? ==> r.Array? && IsFlat(r.items) && LeavesOf(r.items) == Leaves(d)
    decreases Size(d)
  {
    match d
    case Leaf(_) => d
    case Array(xs) =>
      if |xs| == 0 then Array([])
      else
        assert Size(d) == 1 + Size(xs[0]) + SizeOf(xs[1..]);
        if |xs| == 1 then
          var head := Flatten(xs[0]);
          SpreadFlattened(xs[0], head);
          assert LeavesOf(xs) == Leaves(xs[0]) + LeavesOf(xs[1..]);
          Array(Spread(head))
        else
          var head := Flatten(xs[0]);
          var tail := Flatten(Array(xs[1..]));
          SpreadFlattened(xs[0], head);
          LeavesOfConcat(Spread(head), tail.items);
          Array(Spread(head) + tail.items)
  }

  /** Spreading a flattened value gives a flat sequence with that value's leaves. */
  lemma SpreadFlattened<T>(x: Nested<T>, y: Nested<T>)
    requires x.Leaf? ==> y == x
    requires x.Array? ==> y.Array? && IsFlat(y.items) && LeavesOf(y.items) == Leaves(x)
    ensures IsFlat(Spread(y)) && LeavesOf(Spread(y)) == Leaves(x)
  {
    if x.Leaf? {
      assert [y][1..] == [];
    }
  }

  lemma {:induction false} LeavesOfConcat<T>(a: seq<Nested<T>>, b: seq<Nested<T>>)
    ensures LeavesOf(a + b) == LeavesOf(a) + LeavesOf(b)
  {
    if a == [] {
      assert a + b == b;
    } else {
      assert (a + b)[0] == a[0] && (a + b)[1..] == a[1..] + b;
      LeavesOfConcat(a[1..], b);
    }
  }

  /** A flat array is determined by its leaves. */
  lemma {:induction false} FlatIsItsLeaves<T>(xs: seq<Nested<T>>)
    requires IsFlat(xs)
    ensures xs == AsLeaves(LeavesOf(xs))
  {
    if xs != [] {
      FlatIsItsLeaves(xs[1..]);
      assert xs == [xs[0]] + xs[1..];
    }
  }

  /** flatten of an array is exactly the array of its leaves, left to right. */
  lemma FlattenIsLeaves<T>(d: Nested<T>)
    requires d.Array?
    ensures Flatten(d) == Array(AsLeaves(Leaves(d)))
  {
    FlatIsItsLeaves(Flatten(d).items);
  }

  /** Flattening twice is flattening once. */
  lemma FlattenIdempotent<T>(d: Nested<T>)
    ensures Flatten(Flatten(d)) == Flatten(d)
  {
    if d.Array? {
      var r := Flatten(d);
      FlatIsItsLeaves(r.items);
      FlattenIsLeaves(r);
    }
  }

  /** The values of a sequence of sequences, joined in order. */
  function Concat<T>(xss: seq<seq<T>>): (r: seq<T>)
  {
    if xss == [] then [] else xss[0] + Concat(xss[1..])
  }

  /** A property of every value of every sequence holds of every value of their concatenation. */
  lemma {:induction false} ConcatKeeps<T>(xss: seq<seq<T>>, p: T -> bool)
    requires forall i :: 0 <= i < |xss| ==> forall j :: 0 <= j < |xss[i]| ==> p(xss[i][j])
    ensures forall k :: 0 <= k < |Concat(xss)| ==> p(Concat(xss)[k])
  {
    if xss != [] {
      ConcatKeeps(xss[1..], p);
      var first, rest := xss[0], Concat(xss[1..]);
      forall k | 0 <= k < |Concat(xss)| ensures p(Concat(xss)[k]) {
        if k < |first| { assert Concat(xss)[k] == first[k]; } else { assert Concat(xss)[k] == rest[k - |first|]; }
      }
    }
  }

  /** An array of arrays of values, as the per-paragraph chunk lists form one. */
  function Nest<T>(xss: seq<seq<T>>): (d: Nested<T>)
    ensures d.Array? && |d.items| == |xss|
  {
    Array(seq(|xss|, i requires 0 <= i < |xss| => Array(AsLeaves(xss[i]))))
  }

  lemma {:induction false} LeavesOfNest<T>(xss: seq<seq<T>>)
    ensures Leaves(Nest(xss)) == Concat(xss)
  {
    if xss != [] {
      LeavesOfNest(xss[1..]);
      var items := Nest(xss).items;
      assert items[1..] == Nest(xss[1..]).items;
      assert items[0] == Array(AsLeaves(xss[0]));
      LeavesOfAsLeaves(xss[0]);
      assert Leaves(Nest(xss)) == LeavesOf(items) == Leaves(items[0]) + LeavesOf(items[1..]);
    }
  }

  lemma {:induction false} LeavesOfAsLeaves<T>(vs: seq<T>)
    ensures LeavesOf(AsLeaves(vs)) == vs
  {
    if vs != [] {
      LeavesOfAsLeaves(vs[1..]);
      assert AsLeaves(vs)[1..] == AsLeaves(vs[1..]);
    }
  }

  /** Flattening the per-paragraph chunk lists joins them in paragraph order. */
  lemma FlattenNest<T>(xss: seq<seq<T>>)
    ensures Flatten(Nest(xss)) == Array(AsLeaves(Concat(xss)))
  {
    FlattenIsLeaves(Nest(xss));
    LeavesOfNest(xss);
  }
}
