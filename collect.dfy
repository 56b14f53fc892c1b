/** The filter-map every crawler loop computes: walk the inputs in order and
    keep the value an input yields, skipping the inputs that yield none. */
module Collect {
  import opened Wrappers

  /** `[f(x) for x in xs if f(x) is not None]`, unfolded from the back so a
      loop that appends as it goes can follow it. */
  function Collected<T, U>(xs: seq<T>, f: T -> Option<U>): (r: seq<U>)
    ensures |r| <= |xs|
  {
    if xs == [] then []
    else
      var last := f(xs[|xs| - 1]);
      Collected(xs[..|xs| - 1], f) + (if last.Some? then [last.value] else [])
  }

  /** Collecting one more input. */
  lemma CollectedSnoc<T, U>(xs: seq<T>, i: nat, f: T -> Option<U>)
    requires i < |xs|
    ensures Collected(xs[..i + 1], f) ==
      Collected(xs[..i], f) + (if f(xs[i]).Some? then [f(xs[i]).value] else [])
  {
    assert xs[..i + 1][..i] == xs[..i];
  }

  /** Collecting one more input given explicitly. */
  lemma CollectedPush<T, U>(xs: seq<T>, x: T, f: T -> Option<U>)
    ensures Collected(xs + [x], f) == Collected(xs, f) + (if f(x).Some? then [f(x).value] else [])
  {
    assert (xs + [x])[..|xs|] == xs;
  }

  /** Collecting a concatenation collects each part. */
  lemma {:induction false} CollectedAppend<T, U>(xs: seq<T>, ys: seq<T>, f: T -> Option<U>)
    decreases |ys|
    ensures Collected(xs + ys, f) == Collected(xs, f) + Collected(ys, f)
  {
    if ys == [] {
      assert xs + ys == xs;
    } else {
      var n := |ys| - 1;
      assert (xs + ys)[..|xs + ys| - 1] == xs + ys[..n];
      assert (xs + ys)[|xs + ys| - 1] == ys[n];
      CollectedAppend(xs, ys[..n], f);
    }
  }

  /** Collecting from index `i` on: the value of `xs[i]`, then the rest. */
  lemma CollectedCons<T, U>(xs: seq<T>, i: nat, f: T -> Option<U>)
    requires i < |xs|
    ensures Collected(xs[i..], f) ==
      (if f(xs[i]).Some? then [f(xs[i]).value] else []) + Collected(xs[i + 1..], f)
  {
    assert xs[i..] == [xs[i]] + xs[i + 1..];
    CollectedAppend([xs[i]], xs[i + 1..], f);
    assert [xs[i]][..0] == [];
  }

  /** Collecting a prefix of the inputs gives a prefix of the values. */
  lemma CollectedPrefix<T, U>(xs: seq<T>, i: nat, f: T -> Option<U>)
    requires i <= |xs|
    ensures |Collected(xs[..i], f)| <= |Collected(xs, f)|
    ensures Collected(xs[..i], f) == Collected(xs, f)[..|Collected(xs[..i], f)|]
  {
    CollectedAppend(xs[..i], xs[i..], f);
    assert xs[..i] + xs[i..] == xs;
  }

  /** Every value collected is the value of some input. */
  lemma {:induction false} CollectedFrom<T, U>(xs: seq<T>, f: T -> Option<U>, k: nat)
    requires k < |Collected(xs, f)|
    ensures exists i | 0 <= i < |xs| :: f(xs[i]) == Some(Collected(xs, f)[k])
  {
    var n := |xs| - 1;
    var front := Collected(xs[..n], f);
    if k < |front| {
      CollectedFrom(xs[..n], f, k);
      var i :| 0 <= i < n && f(xs[..n][i]) == Some(front[k]);
      assert f(xs[i]) == Some(Collected(xs, f)[k]);
    } else {
      assert f(xs[n]) == Some(Collected(xs, f)[k]);
    }
  }

  /** An input whose value is present contributes it. */
  lemma {:induction false} CollectedHas<T, U>(xs: seq<T>, f: T -> Option<U>, i: nat)
    requires i < |xs| && f(xs[i]).Some?
    ensures f(xs[i]).value in Collected(xs, f)
  {
    var n := |xs| - 1;
    if i < n {
      CollectedHas(xs[..n], f, i);
    }
  }

  /** The index of the first input that yields a value, at or after `from`. */
  function FirstIndexFrom<T, U>(xs: seq<T>, f: T -> Option<U>, from: nat): (r: Option<nat>)
    decreases |xs| - from
    ensures r.Some? ==> from <= r.value < |xs| && f(xs[r.value]).Some?
    ensures r.Some? ==> forall j | from <= j < r.value :: f(xs[j]).None?
    ensures r.None? ==> forall j | from <= j < |xs| :: f(xs[j]).None?
  {
    if from >= |xs| then None
    else if f(xs[from]).Some? then Some(from)
    else FirstIndexFrom(xs, f, from + 1)
  }

  /** The value of the first input that yields one: the chain
      `f(x0) or f(x1) or ...`, and the `for ...: if found: break` loops. */
  function FirstSome<T, U>(xs: seq<T>, f: T -> Option<U>): (r: Option<U>)
    ensures r.None? <==> forall j | 0 <= j < |xs| :: f(xs[j]).None?
    ensures r.Some? ==> exists i | 0 <= i < |xs| :: f(xs[i]) == r && forall j | 0 <= j < i :: f(xs[j]).None?
  {
    var i := FirstIndexFrom(xs, f, 0);
    if i.Some? then f(xs[i.value]) else None
  }

  /** The first input that yields a value decides. */
  lemma FirstSomeAt<T, U>(xs: seq<T>, f: T -> Option<U>, i: nat)
    requires i < |xs| && f(xs[i]).Some?
    requires forall j | 0 <= j < i :: f(xs[j]).None?
    ensures FirstSome(xs, f) == f(xs[i])
  {
    var k := FirstIndexFrom(xs, f, 0);
    assert k.Some?;
    assert k.value == i;
  }

  /** The chain over `xs[i..]` tries `xs[i]` first, then the rest. */
  lemma FirstSomeStep<T, U>(xs: seq<T>, f: T -> Option<U>, i: nat)
    requires i < |xs|
    ensures FirstSome(xs[i..], f) == if f(xs[i]).Some? then f(xs[i]) else FirstSome(xs[i + 1..], f)
  {
    var ys, zs := xs[i..], xs[i + 1..];
    assert ys[0] == xs[i];
    if f(xs[i]).Some? {
      FirstSomeAt(ys, f, 0);
    } else {
      assert forall j | 0 <= j < |zs| :: zs[j] == ys[j + 1];
      var r := FirstSome(zs, f);
      if r.Some? {
        var k :| 0 <= k < |zs| && f(zs[k]) == r && forall j | 0 <= j < k :: f(zs[j]).None?;
        FirstSomeAt(ys, f, k + 1);
      }
    }
  }
}
