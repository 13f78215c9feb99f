/** `Array.prototype.filter` with a side-effect-free callback, the shape of both
    computed views of the app, and the positions of the kept elements in the
    array they came from. */
module Filtering {

  /** The elements of `s` that `p` accepts, in their order in `s`. */
  function Filter<T>(s: seq<T>, p: T -> bool): (r: seq<T>)
    ensures |r| <= |s|
    ensures forall j :: 0 <= j < |r| ==> p(r[j])
    decreases |s|
  {
    if s == [] then []
    else if p(s[0]) then [s[0]] + Filter(s[1..], p)
    else Filter(s[1..], p)
  }

  /** Every position of `ps` moved one place to the right. */
  function Shift(ps: seq<nat>): (r: seq<nat>)
    ensures |r| == |ps|
    ensures forall j :: 0 <= j < |ps| ==> r[j] == ps[j] + 1
  {
    seq(|ps|, j requires 0 <= j < |ps| => ps[j] + 1)
  }

  /** For each element `Filter` keeps, the position in `s` it was taken from:
      the translation from a view index to an index of the underlying array. */
  function Positions<T>(s: seq<T>, p: T -> bool): (ps: seq<nat>)
    ensures |ps| == |Filter(s, p)|
    ensures forall j :: 0 <= j < |ps| ==> ps[j] < |s|
    decreases |s|
  {
    if s == [] then []
    else if p(s[0]) then [0] + Shift(Positions(s[1..], p))
    else Shift(Positions(s[1..], p))
  }

  /** The `j`-th kept element is the element of `s` at the `j`-th position. */
  lemma {:induction false} PositionsPick<T>(s: seq<T>, p: T -> bool, j: nat)
    requires j < |Filter(s, p)|
    ensures s[Positions(s, p)[j]] == Filter(s, p)[j]
    decreases |s|
  {
    var tail := Positions(s[1..], p);
    if p(s[0]) {
      if 0 < j {
        PositionsPick(s[1..], p, j - 1);
        assert s[tail[j - 1] + 1] == s[1..][tail[j - 1]];
      }
    } else {
      PositionsPick(s[1..], p, j);
      assert s[tail[j] + 1] == s[1..][tail[j]];
    }
  }

  /** Positions are strictly increasing: the view keeps the order of `s`. */
  lemma {:induction false} PositionsIncrease<T>(s: seq<T>, p: T -> bool, j: nat, j': nat)
    requires j < j' < |Filter(s, p)|
    ensures Positions(s, p)[j] < Positions(s, p)[j']
    decreases |s|
  {
    if p(s[0]) {
      if 0 < j {
        PositionsIncrease(s[1..], p, j - 1, j' - 1);
      }
    } else {
      PositionsIncrease(s[1..], p, j, j');
    }
  }

  /** Every accepted element of `s` is named by some position. */
  lemma {:induction false} PositionsComplete<T>(s: seq<T>, p: T -> bool, k: nat)
    requires k < |s| && p(s[k])
    ensures k in Positions(s, p)
    decreases |s|
  {
    var ps := Positions(s, p);
    var tail := Positions(s[1..], p);
    if 0 < k {
      assert s[1..][k - 1] == s[k];
      PositionsComplete(s[1..], p, k - 1);
      var m :| 0 <= m < |tail| && tail[m] == k - 1;
      if p(s[0]) {
        assert ps[m + 1] == k;
      } else {
        assert ps[m] == k;
      }
    } else {
      assert ps[0] == 0;
    }
  }

  /** An element is in the filtered array exactly when it is in `s` and accepted. */
  lemma {:induction false} FilterMembership<T>(s: seq<T>, p: T -> bool, x: T)
    ensures x in Filter(s, p) <==> x in s && p(x)
    decreases |s|
  {
    if s != [] {
      FilterMembership(s[1..], p, x);
      assert s == [s[0]] + s[1..];
    }
  }

  /** A callback that accepts every element keeps the whole array. */
  lemma {:induction false} FilterKeepsAll<T>(s: seq<T>, p: T -> bool)
    requires forall j :: 0 <= j < |s| ==> p(s[j])
    ensures Filter(s, p) == s
    decreases |s|
  {
    if s != [] {
      FilterKeepsAll(s[1..], p);
      assert s == [s[0]] + s[1..];
    }
  }

  /** A callback that rejects every element keeps nothing. */
  lemma {:induction false} FilterKeepsNone<T>(s: seq<T>, p: T -> bool)
    requires forall j :: 0 <= j < |s| ==> !p(s[j])
    ensures Filter(s, p) == []
    decreases |s|
  {
    if s != [] {
      FilterKeepsNone(s[1..], p);
    }
  }

  /** The `j`-th kept element sits at position `j` or later. */
  lemma {:induction false} PositionsNotBefore<T>(s: seq<T>, p: T -> bool, j: nat)
    requires j < |Filter(s, p)|
    ensures j <= Positions(s, p)[j]
    decreases j
  {
    if 0 < j {
      PositionsNotBefore(s, p, j - 1);
      PositionsIncrease(s, p, j - 1, j);
    }
  }

  /** A view index names the same position of the underlying array exactly
      when nothing up to that position is filtered out. */
  lemma {:induction false} PositionIsIndexIffPrefixKept<T>(s: seq<T>, p: T -> bool, j: nat)
    requires j < |Filter(s, p)|
    ensures Positions(s, p)[j] == j <==> forall k :: 0 <= k <= j ==> p(s[k])
    decreases |s|
  {
    var ps := Positions(s, p);
    var tail := Positions(s[1..], p);
    if p(s[0]) {
      if 0 < j {
        PositionIsIndexIffPrefixKept(s[1..], p, j - 1);
        assert ps[j] == tail[j - 1] + 1;
        assert (forall k :: 0 <= k <= j - 1 ==> p(s[1..][k]))
            <==> (forall k :: 1 <= k <= j ==> p(s[k])) by {
          assert forall k :: 1 <= k <= j ==> s[1..][k - 1] == s[k];
        }
      }
    } else {
      assert j < |Filter(s[1..], p)|;
      PositionsNotBefore(s[1..], p, j);
      assert ps[j] == tail[j] + 1;
    }
  }

  /** The filtered array is an order-preserving subsequence of `s` that drops
      no accepted element: positions pick the kept elements, increase
      strictly, and name every accepted position. */
  lemma FilterIsOrderedSubsequence<T>(s: seq<T>, p: T -> bool)
    ensures var ps := Positions(s, p);
      && (forall j :: 0 <= j < |ps| ==> s[ps[j]] == Filter(s, p)[j])
      && (forall j, j' :: 0 <= j < j' < |ps| ==> ps[j] < ps[j'])
      && (forall k :: 0 <= k < |s| && p(s[k]) ==> k in ps)
  {
    forall j | 0 <= j < |Filter(s, p)| {
      PositionsPick(s, p, j);
    }
    forall j, j' | 0 <= j < j' < |Filter(s, p)| {
      PositionsIncrease(s, p, j, j');
    }
    forall k | 0 <= k < |s| && p(s[k]) {
      PositionsComplete(s, p, k);
    }
  }
}
