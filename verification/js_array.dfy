/** The two `Array` mutations the app performs by raw position:
    element assignment `a[i] = x` and `a.splice(i, 1)`. */
module JsArray {
  import opened JsCore

  /** The position `splice(start, 1)` removes at, for an integer `start`:
      a negative start counts back from the end and stops at 0, and a start
      at or past the end (`len`) removes nothing. */
  function SpliceStart(len: nat, start: int): (k: nat)
    ensures k <= len
    ensures 0 <= start < len ==> k == start
    ensures -(len as int) <= start < 0 ==> k == len as int + start
    ensures k < len <==> 0 < len && start < len
  {
    if start < 0 then (if len + start < 0 then 0 else len + start)
    else if start < len then start
    else len
  }

  /** The array `a.splice(start, 1)` leaves behind (the removed element is discarded). */
  function SpliceOne<T>(s: seq<T>, start: int): (r: seq<T>)
    ensures SpliceStart(|s|, start) == |s| ==> r == s
    ensures var k := SpliceStart(|s|, start);
      k < |s| ==>
        && |r| == |s| - 1
        && (forall j :: 0 <= j < k ==> r[j] == s[j])
        && (forall j :: k < j < |s| ==> r[j - 1] == s[j])
  {
    var k := SpliceStart(|s|, start);
    if k < |s| then s[..k] + s[k + 1..] else s
  }

  /** Removing position `k` drops exactly one occurrence of `s[k]`, keeps the
      relative order of the rest, and shifts the later elements down by one. */
  lemma RemoveAtKeepsRest<T>(s: seq<T>, k: nat)
    requires k < |s|
    ensures |s[..k] + s[k + 1..]| == |s| - 1
    ensures forall j :: 0 <= j < k ==> (s[..k] + s[k + 1..])[j] == s[j]
    ensures forall j :: k < j < |s| ==> (s[..k] + s[k + 1..])[j - 1] == s[j]
    ensures multiset(s[..k] + s[k + 1..]) == multiset(s) - multiset{s[k]}
  {
    assert s == s[..k] + [s[k]] + s[k + 1..];
  }

  /** `splice(i, 1)` at an element position removes exactly that element and
      keeps the others in order; a negative `i` down to `-length` does the same
      counting back from the end; at or past the end it removes nothing. */
  lemma SpliceOneAt<T>(s: seq<T>, i: int)
    ensures 0 <= i < |s| ==>
      && SpliceOne(s, i) == s[..i] + s[i + 1..]
      && multiset(SpliceOne(s, i)) == multiset(s) - multiset{s[i]}
    ensures -|s| <= i < 0 ==>
      var k := |s| + i;
      && SpliceOne(s, i) == s[..k] + s[k + 1..]
      && multiset(SpliceOne(s, i)) == multiset(s) - multiset{s[k]}
    ensures |s| <= i ==> SpliceOne(s, i) == s
  {
    if 0 <= i < |s| {
      RemoveAtKeepsRest(s, i);
    } else if -|s| <= i < 0 {
      RemoveAtKeepsRest(s, |s| + i);
    }
  }

  /** The array after `a[i] = x`, or the fault when `i` is not an element
      position or the position just past the end. A write at an element
      position keeps the length; a write just past the end grows the array by
      one. Either way position `i` holds `x` and every other element stays. */
  function AssignAt<T>(s: seq<T>, i: int, x: T): (r: Result<seq<T>>)
    ensures r.Ok? <==> 0 <= i <= |s|
    ensures r.Ok? ==>
      && |r.value| == (if i < |s| then |s| else |s| + 1)
      && r.value[i] == x
      && (forall k :: 0 <= k < |s| && k != i ==> r.value[k] == s[k])
  {
    if i < 0 || |s| < i then Err(WriteOutsideElements(i))
    else if i < |s| then Ok(s[i := x])
    else Ok(s + [x])
  }
}
