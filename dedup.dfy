/** First-occurrence de-duplication by key, the pattern every list the
    pipeline de-duplicates follows: walk the list once, skip an item whose key
    is missing or already seen, otherwise remember the key and keep the item.
    It is used for the quote records of both orchestrators and for the link
    lists of the crawlers. */
module Dedup {
  import opened Wrappers

  /** The items of `xs` that `key` gives a key not in `seen` and not carried
      by an earlier kept item. `key` answers `None` for an item to drop
      outright. */
  function DedupFrom<T, K(==)>(xs: seq<T>, key: T -> Option<K>, seen: set<K>): (r: seq<T>)
    decreases |xs|
    ensures forall i | 0 <= i < |r| :: key(r[i]).Some? && key(r[i]).value !in seen
    ensures forall i, j | 0 <= i < j < |r| :: key(r[i]) != key(r[j])
    ensures |r| <= |xs|
  {
    if xs == [] then []
    else
      var k := key(xs[0]);
      if k.None? || k.value in seen then DedupFrom(xs[1..], key, seen)
      else [xs[0]] + DedupFrom(xs[1..], key, seen + {k.value})
  }

  /** One step of `DedupFrom` at index `i`, for the loops that compute it. */
  lemma DedupStep<T, K>(xs: seq<T>, i: nat, key: T -> Option<K>, seen: set<K>)
    requires i < |xs|
    ensures DedupFrom(xs[i..], key, seen) ==
      var k := key(xs[i]);
      if k.None? || k.value in seen then DedupFrom(xs[i + 1..], key, seen)
      else [xs[i]] + DedupFrom(xs[i + 1..], key, seen + {k.value})
  {
    assert xs[i..][1..] == xs[i + 1..];
  }

  /** The de-duplication loop: a `seen` set of keys, grown as items are kept. */
  method KeepFirst<T, K(==)>(xs: seq<T>, key: T -> Option<K>) returns (r: seq<T>)
    ensures r == DedupFrom(xs, key, {})
  {
    r := [];
    var seen: set<K> := {};
    var i := 0;
    while i < |xs|
      invariant KeepState(xs, key, r, seen, i)
    {
      var k := key(xs[i]);
      if k.Some? && k.value !in seen {
        KeepTake(xs, key, r, seen, i);
        seen := seen + {k.value};
        r := r + [xs[i]];
      } else {
        KeepSkip(xs, key, r, seen, i);
      }
      i := i + 1;
    }
    KeepEnd(xs, key, r, seen, i);
  }

  /** The loop state of `KeepFirst` after `i` items: what is kept so far,
      followed by what the rest will keep, is the whole result. */
  ghost predicate KeepState<T, K>(xs: seq<T>, key: T -> Option<K>, r: seq<T>, seen: set<K>, i: int) {
    0 <= i <= |xs| && r + DedupFrom(xs[i..], key, seen) == DedupFrom(xs, key, {})
  }

  lemma KeepTake<T, K>(xs: seq<T>, key: T -> Option<K>, r: seq<T>, seen: set<K>, i: int)
    requires i < |xs| && KeepState(xs, key, r, seen, i)
    requires key(xs[i]).Some? && key(xs[i]).value !in seen
    ensures KeepState(xs, key, r + [xs[i]], seen + {key(xs[i]).value}, i + 1)
  {
    DedupStep(xs, i, key, seen);
    var rest := DedupFrom(xs[i + 1..], key, seen + {key(xs[i]).value});
    assert r + ([xs[i]] + rest) == r + [xs[i]] + rest;
  }

  lemma KeepSkip<T, K>(xs: seq<T>, key: T -> Option<K>, r: seq<T>, seen: set<K>, i: int)
    requires i < |xs| && KeepState(xs, key, r, seen, i)
    requires key(xs[i]).None? || key(xs[i]).value in seen
    ensures KeepState(xs, key, r, seen, i + 1)
  {
    DedupStep(xs, i, key, seen);
  }

  lemma KeepEnd<T, K>(xs: seq<T>, key: T -> Option<K>, r: seq<T>, seen: set<K>, i: int)
    requires KeepState(xs, key, r, seen, i) && i >= |xs|
    ensures r == DedupFrom(xs, key, {})
  {
    assert xs[i..] == [];
  }

  /** One step of `DedupFrom` on an explicit first item. */
  lemma DedupCons<T, K>(x: T, xs: seq<T>, key: T -> Option<K>, seen: set<K>)
    ensures DedupFrom([x] + xs, key, seen) ==
      if key(x).None? || key(x).value in seen then DedupFrom(xs, key, seen)
      else [x] + DedupFrom(xs, key, seen + {key(x).value})
  {
    assert ([x] + xs)[0] == x && ([x] + xs)[1..] == xs;
  }

  /** Taking a new item moves it from the remaining output to the kept prefix. */
  lemma DedupTakeFront<T, K>(kept: seq<T>, x: T, xs: seq<T>, key: T -> Option<K>, seen: set<K>, whole: seq<T>)
    requires key(x).Some? && key(x).value !in seen
    requires kept + DedupFrom([x] + xs, key, seen) == whole
    ensures (kept + [x]) + DedupFrom(xs, key, seen + {key(x).value}) == whole
  {
    DedupCons(x, xs, key, seen);
    ConcatAssoc(kept, [x], DedupFrom(xs, key, seen + {key(x).value}));
  }

  lemma ConcatAssoc<T>(a: seq<T>, b: seq<T>, c: seq<T>)
    ensures a + (b + c) == (a + b) + c
  {
  }

  /** Of two items with the same key, only the first is kept. */
  lemma DedupPairSame<T, K>(x: T, y: T, key: T -> Option<K>)
    requires key(x).Some? && key(y) == key(x)
    ensures DedupFrom([x, y], key, {}) == [x]
  {
    assert [x, y] == [x] + [y] && [y] == [y] + [];
    DedupCons(x, [y], key, {});
    DedupCons(y, [], key, {key(x).value});
  }

  /** Two items with distinct keys are both kept. */
  lemma DedupPairDistinct<T, K>(x: T, y: T, key: T -> Option<K>)
    requires key(x).Some? && key(y).Some? && key(y) != key(x)
    ensures DedupFrom([x, y], key, {}) == [x, y]
  {
    assert [x, y] == [x] + [y] && [y] == [y] + [];
    DedupCons(x, [y], key, {});
    DedupCons(y, [], key, {key(x).value});
  }

  /** `a` is `b` with some items left out, the rest in their order. */
  ghost predicate IsSubsequence<T>(a: seq<T>, b: seq<T>)
    decreases |b|
  {
    if a == [] then true
    else if b == [] then false
    else (a[0] == b[0] && IsSubsequence(a[1..], b[1..])) || IsSubsequence(a, b[1..])
  }

  /** `xs[i]` is the first item of `xs` carrying its key, and that key is not in `seen`. */
  ghost predicate IsFirstNew<T, K>(xs: seq<T>, key: T -> Option<K>, seen: set<K>, i: int)
    requires 0 <= i < |xs|
  {
    key(xs[i]).Some? && key(xs[i]).value !in seen
    && forall j | 0 <= j < i :: key(xs[j]) != key(xs[i])
  }

  /** The result keeps the input's order and invents nothing. */
  lemma {:induction false} DedupIsSubsequence<T, K>(xs: seq<T>, key: T -> Option<K>, seen: set<K>)
    decreases |xs|
    ensures IsSubsequence(DedupFrom(xs, key, seen), xs)
  {
    if xs != [] {
      var k := key(xs[0]);
      if k.None? || k.value in seen {
        DedupIsSubsequence(xs[1..], key, seen);
        SubsequenceOfTail(DedupFrom(xs[1..], key, seen), xs);
      } else {
        DedupIsSubsequence(xs[1..], key, seen + {k.value});
        var r := DedupFrom(xs, key, seen);
        assert r[0] == xs[0] && r[1..] == DedupFrom(xs[1..], key, seen + {k.value});
      }
    }
  }

  lemma SubsequenceOfTail<T>(a: seq<T>, b: seq<T>)
    requires b != []
    requires IsSubsequence(a, b[1..])
    ensures IsSubsequence(a, b)
  {
  }

  /** Every first occurrence of a key not in `seen` is kept. */
  lemma {:induction false} DedupKeepsFirst<T, K>(xs: seq<T>, key: T -> Option<K>, seen: set<K>, i: int)
    requires 0 <= i < |xs| && IsFirstNew(xs, key, seen, i)
    decreases |xs|
    ensures xs[i] in DedupFrom(xs, key, seen)
  {
    var k := key(xs[0]);
    if i > 0 {
      var seen' := if k.None? || k.value in seen then seen else seen + {k.value};
      assert key(xs[i]) != key(xs[0]);
      assert IsFirstNew(xs[1..], key, seen', i - 1) by {
        forall j | 0 <= j < i - 1 ensures key(xs[1..][j]) != key(xs[1..][i - 1]) {
          assert key(xs[j + 1]) != key(xs[i]);
        }
      }
      DedupKeepsFirst(xs[1..], key, seen', i - 1);
    }
  }

  /** The kept item carrying a key is the first item of the input carrying it. */
  lemma DedupFirstWins<T, K>(xs: seq<T>, key: T -> Option<K>, seen: set<K>, i: int, m: int)
    requires 0 <= i < |xs| && IsFirstNew(xs, key, seen, i)
    requires 0 <= m < |DedupFrom(xs, key, seen)|
    requires key(DedupFrom(xs, key, seen)[m]) == key(xs[i])
    ensures DedupFrom(xs, key, seen)[m] == xs[i]
  {
    var r := DedupFrom(xs, key, seen);
    DedupKeepsFirst(xs, key, seen, i);
    var m' :| 0 <= m' < |r| && r[m'] == xs[i];
    assert key(r[m']) == key(r[m]);
  }

  /** A list whose keys are present, new and pairwise distinct comes through unchanged. */
  lemma {:induction false} DedupOfDistinct<T, K>(xs: seq<T>, key: T -> Option<K>, seen: set<K>)
    requires forall i | 0 <= i < |xs| :: key(xs[i]).Some? && key(xs[i]).value !in seen
    requires forall i, j | 0 <= i < j < |xs| :: key(xs[i]) != key(xs[j])
    decreases |xs|
    ensures DedupFrom(xs, key, seen) == xs
  {
    if xs != [] {
      var k := key(xs[0]).value;
      forall i | 0 <= i < |xs[1..]| ensures key(xs[1..][i]).value !in seen + {k} {
        assert key(xs[i + 1]) != key(xs[0]);
      }
      DedupOfDistinct(xs[1..], key, seen + {k});
    }
  }

  /** Every key present in the input and not in `seen` is carried by a kept item. */
  lemma {:induction false} DedupCoversKeys<T, K>(xs: seq<T>, key: T -> Option<K>, seen: set<K>, i: int)
    requires 0 <= i < |xs| && key(xs[i]).Some? && key(xs[i]).value !in seen
    decreases |xs|
    ensures exists m | 0 <= m < |DedupFrom(xs, key, seen)| :: key(DedupFrom(xs, key, seen)[m]) == key(xs[i])
  {
    var r := DedupFrom(xs, key, seen);
    var k := key(xs[0]);
    if k.None? || k.value in seen {
      DedupCoversKeys(xs[1..], key, seen, i - 1);
    } else if k == key(xs[i]) {
      assert key(r[0]) == key(xs[i]);
    } else {
      DedupCoversKeys(xs[1..], key, seen + {k.value}, i - 1);
      var m :| 0 <= m < |DedupFrom(xs[1..], key, seen + {k.value})| && key(DedupFrom(xs[1..], key, seen + {k.value})[m]) == key(xs[i]);
      assert key(r[m + 1]) == key(xs[i]);
    }
  }

  /** Nothing is kept only when every present key is already in `seen`. */
  lemma DedupEmpty<T, K>(xs: seq<T>, key: T -> Option<K>, seen: set<K>)
    requires DedupFrom(xs, key, seen) == []
    ensures forall i | 0 <= i < |xs| && key(xs[i]).Some? :: key(xs[i]).value in seen
  {
    forall i | 0 <= i < |xs| && key(xs[i]).Some? ensures key(xs[i]).value in seen {
      if key(xs[i]).value !in seen {
        DedupCoversKeys(xs, key, seen, i);
      }
    }
  }

  /** An item of a subsequence is an item of the whole. */
  lemma {:induction false} SubsequenceMember<T>(a: seq<T>, b: seq<T>, i: int)
    requires IsSubsequence(a, b) && 0 <= i < |a|
    decreases |b|
    ensures a[i] in b
  {
    if a[0] == b[0] && IsSubsequence(a[1..], b[1..]) {
      if i > 0 {
        SubsequenceMember(a[1..], b[1..], i - 1);
      }
    } else {
      SubsequenceMember(a, b[1..], i);
    }
  }

  /** De-duplicating a second time changes nothing. */
  lemma DedupIdempotent<T, K>(xs: seq<T>, key: T -> Option<K>)
    ensures DedupFrom(DedupFrom(xs, key, {}), key, {}) == DedupFrom(xs, key, {})
  {
    DedupOfDistinct(DedupFrom(xs, key, {}), key, {});
  }
}
