/** JavaScript's `null` next to a present value, and the JavaScript values the model tells apart. */
module Wrappers {

  datatype Option<+T> = None | Some(value: T)

  /** `undefined`, `null`, a string, or any other value (a number, an object, ...). */
  datatype JsValue = Undefined | Null | Str(s: string) | Other
}

/** Sequence helpers shared by the model: the `Array.prototype.filter` of JavaScript. */
module Seqs {

  lemma ConcatAssociative<T>(a: seq<T>, b: seq<T>, c: seq<T>)
    ensures (a + b) + c == a + (b + c)
  {
  }

  /** A prefix one longer is the prefix with the next element appended. */
  lemma TakeOneMore<T>(s: seq<T>, p: nat)
    requires p < |s|
    ensures s[..p + 1] == s[..p] + [s[p]]
  {
  }

  /** Overwriting the last element is dropping it and appending the new one. */
  lemma ReplaceLast<T>(s: seq<T>, x: T)
    requires |s| > 0
    ensures s[|s| - 1 := x] == s[..|s| - 1] + [x]
  {
  }

  /** The elements of `s` that `keep` accepts, in their original order. */
  function Filter<T>(s: seq<T>, keep: T -> bool): (r: seq<T>)
    ensures |r| <= |s|
  {
    if s == [] then [] else (if keep(s[0]) then [s[0]] else []) + Filter(s[1..], keep)
  }

  /** Every element kept is accepted. */
  lemma {:induction false} FilterKept<T>(s: seq<T>, keep: T -> bool)
    ensures forall i :: 0 <= i < |Filter(s, keep)| ==> keep(Filter(s, keep)[i])
  {
    if s != [] {
      FilterKept(s[1..], keep);
      var head := if keep(s[0]) then [s[0]] else [];
      assert Filter(s, keep) == head + Filter(s[1..], keep);
    }
  }

  /** Exactly the accepted elements are kept. */
  lemma {:induction false} FilterMembers<T>(s: seq<T>, keep: T -> bool)
    ensures forall i :: 0 <= i < |Filter(s, keep)| ==> Filter(s, keep)[i] in s && keep(Filter(s, keep)[i])
    ensures forall i :: 0 <= i < |s| && keep(s[i]) ==> s[i] in Filter(s, keep)
  {
    if s != [] {
      FilterMembers(s[1..], keep);
      var head := if keep(s[0]) then [s[0]] else [];
      var r := Filter(s, keep);
      assert r == head + Filter(s[1..], keep);
      forall i | 0 <= i < |r| ensures r[i] in s && keep(r[i]) {
        if i >= |head| { assert r[i] == Filter(s[1..], keep)[i - |head|]; }
      }
      forall i | 0 <= i < |s| && keep(s[i]) ensures s[i] in r {
        if i > 0 { assert s[i] == s[1..][i - 1]; }
      }
    }
  }

  lemma FilterCons<T>(x: T, s: seq<T>, keep: T -> bool)
    ensures Filter([x] + s, keep) == (if keep(x) then [x] else []) + Filter(s, keep)
  {
    assert ([x] + s)[1..] == s;
  }

  lemma {:induction false} FilterConcat<T>(a: seq<T>, b: seq<T>, keep: T -> bool)
    ensures Filter(a + b, keep) == Filter(a, keep) + Filter(b, keep)
  {
    if a == [] {
      assert a + b == b;
    } else {
      assert a + b == [a[0]] + (a[1..] + b);
      assert a == [a[0]] + a[1..];
      FilterCons(a[0], a[1..] + b, keep);
      FilterCons(a[0], a[1..], keep);
      FilterConcat(a[1..], b, keep);
    }
  }

  lemma {:induction false} FilterIdempotent<T>(s: seq<T>, keep: T -> bool)
    ensures Filter(Filter(s, keep), keep) == Filter(s, keep)
  {
    if s != [] {
      FilterIdempotent(s[1..], keep);
      var head := if keep(s[0]) then [s[0]] else [];
      FilterConcat(head, Filter(s[1..], keep), keep);
      assert Filter(head, keep) == head by {
        if keep(s[0]) { assert head[1..] == []; }
      }
    }
  }

  /** When nothing is accepted, nothing is kept. */
  lemma {:induction false} FilterNone<T>(s: seq<T>, keep: T -> bool)
    requires forall j :: 0 <= j < |s| ==> !keep(s[j])
    ensures Filter(s, keep) == []
  {
    if s != [] {
      FilterNone(s[1..], keep);
    }
  }

  /** The first element kept is the first element accepted. */
  lemma {:induction false} FilterFirst<T>(s: seq<T>, keep: T -> bool, k: nat)
    requires k < |s| && keep(s[k])
    requires forall j :: 0 <= j < k ==> !keep(s[j])
    ensures Filter(s, keep) != [] && Filter(s, keep)[0] == s[k]
  {
    if k > 0 {
      FilterFirst(s[1..], keep, k - 1);
    }
  }

  /** `s.filter(keep).map(f)` in one pass. */
  function FilterMap<A, B>(s: seq<A>, keep: A -> bool, f: A -> B): seq<B>
  {
    if s == [] then [] else (if keep(s[0]) then [f(s[0])] else []) + FilterMap(s[1..], keep, f)
  }

  lemma {:induction false} FilterMapFirst<A, B>(s: seq<A>, keep: A -> bool, f: A -> B, k: nat)
    requires k < |s| && keep(s[k])
    requires forall j :: 0 <= j < k ==> !keep(s[j])
    ensures FilterMap(s, keep, f) != [] && FilterMap(s, keep, f)[0] == f(s[k])
  {
    if k > 0 {
      FilterMapFirst(s[1..], keep, f, k - 1);
    }
  }

  lemma FilterMapCons<A, B>(x: A, s: seq<A>, keep: A -> bool, f: A -> B)
    ensures FilterMap([x] + s, keep, f) == (if keep(x) then [f(x)] else []) + FilterMap(s, keep, f)
  {
    assert ([x] + s)[1..] == s;
  }

  lemma {:induction false} FilterMapConcat<A, B>(a: seq<A>, b: seq<A>, keep: A -> bool, f: A -> B)
    ensures FilterMap(a + b, keep, f) == FilterMap(a, keep, f) + FilterMap(b, keep, f)
  {
    if a == [] {
      assert a + b == b;
    } else {
      assert a + b == [a[0]] + (a[1..] + b);
      assert a == [a[0]] + a[1..];
      FilterMapCons(a[0], a[1..] + b, keep, f);
      FilterMapCons(a[0], a[1..], keep, f);
      FilterMapConcat(a[1..], b, keep, f);
    }
  }

  /** Nothing comes out exactly when nothing is accepted. */
  lemma {:induction false} FilterMapEmpty<A, B>(s: seq<A>, keep: A -> bool, f: A -> B)
    ensures FilterMap(s, keep, f) == [] <==> forall j :: 0 <= j < |s| ==> !keep(s[j])
  {
    if s != [] {
      FilterMapEmpty(s[1..], keep, f);
      assert forall j :: 0 < j < |s| ==> s[j] == s[1..][j - 1];
    }
  }

  /** When everything is accepted, the result is the plain map. */
  lemma {:induction false} FilterMapAll<A, B>(s: seq<A>, keep: A -> bool, f: A -> B)
    requires forall j :: 0 <= j < |s| ==> keep(s[j])
    ensures FilterMap(s, keep, f) == seq(|s|, i requires 0 <= i < |s| => f(s[i]))
  {
    if s != [] {
      FilterMapAll(s[1..], keep, f);
      assert keep(s[0]);
      var whole := seq(|s|, i requires 0 <= i < |s| => f(s[i]));
      var tail := seq(|s| - 1, i requires 0 <= i < |s| - 1 => f(s[1..][i]));
      assert whole == [f(s[0])] + tail;
    }
  }

  /** When everything is accepted, everything is kept. */
  lemma {:induction false} FilterAll<T>(s: seq<T>, keep: T -> bool)
    requires forall j :: 0 <= j < |s| ==> keep(s[j])
    ensures Filter(s, keep) == s
  {
    if s != [] {
      FilterAll(s[1..], keep);
    }
  }

  /** Filtering by a weaker test first changes nothing. */
  lemma {:induction false} FilterWeakerFirst<T>(s: seq<T>, weaker: T -> bool, keep: T -> bool)
    requires forall x :: keep(x) ==> weaker(x)
    ensures Filter(Filter(s, weaker), keep) == Filter(s, keep)
  {
    if s != [] {
      FilterWeakerFirst(s[1..], weaker, keep);
      var head := if weaker(s[0]) then [s[0]] else [];
      FilterConcat(head, Filter(s[1..], weaker), keep);
      if weaker(s[0]) {
        FilterCons(s[0], [], keep);
      }
    }
  }
}
