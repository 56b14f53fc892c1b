/** Python string primitives the pipeline relies on: `str.isspace`,
    `str.strip`, `in` on strings, `str.startswith`, `str.split(sep)` and
    `sep.join`. Characters are Unicode scalar values, so `|s|` is Python's
    `len(s)`. */
module Text {
  import opened Wrappers

  /** The characters for which Python's `str.isspace()` holds; `strip()`
      without arguments removes exactly these from both ends. */
  predicate IsSpace(c: char) {
    var n := c as int;
    (9 <= n <= 13) || (28 <= n <= 32) || n == 0x85 || n == 0xA0 || n == 0x1680
    || (0x2000 <= n <= 0x200A) || n == 0x2028 || n == 0x2029 || n == 0x202F
    || n == 0x205F || n == 0x3000
  }

  /** A string with no whitespace at either end: what `strip()` returns. */
  predicate Stripped(s: string) {
    s == [] || (!IsSpace(s[0]) && !IsSpace(s[|s| - 1]))
  }

  /** `s.lstrip()` */
  function TrimStart(s: string): (r: string)
    ensures |r| <= |s| && r == s[|s| - |r|..]
    ensures r == [] || !IsSpace(r[0])
  {
    if s != [] && IsSpace(s[0]) then TrimStart(s[1..]) else s
  }

  /** `s.rstrip()` */
  function TrimEnd(s: string): (r: string)
    ensures |r| <= |s| && r == s[..|r|]
    ensures r == [] || !IsSpace(r[|r| - 1])
  {
    if s != [] && IsSpace(s[|s| - 1]) then TrimEnd(s[..|s| - 1]) else s
  }

  /** `lstrip()` removes only whitespace. */
  lemma {:induction false} TrimStartSpaces(s: string)
    decreases |s|
    ensures forall i | 0 <= i < |s| - |TrimStart(s)| :: IsSpace(s[i])
  {
    if s != [] && IsSpace(s[0]) {
      TrimStartSpaces(s[1..]);
      forall i | 0 < i < |s| - |TrimStart(s)| ensures IsSpace(s[i]) {
        assert s[i] == s[1..][i - 1];
      }
    }
  }

  /** `rstrip()` removes only whitespace. */
  lemma {:induction false} TrimEndSpaces(s: string)
    decreases |s|
    ensures forall i | |TrimEnd(s)| <= i < |s| :: IsSpace(s[i])
  {
    if s != [] && IsSpace(s[|s| - 1]) {
      TrimEndSpaces(s[..|s| - 1]);
    }
  }

  /** `s.strip()` */
  function Strip(s: string): (r: string)
    ensures Stripped(r)
    ensures IsFactorAt(s, r, |s| - |TrimStart(s)|)
  {
    TrimBothStripped(s);
    TrimBothFactor(s);
    TrimEnd(TrimStart(s))
  }

  lemma TrimBothStripped(s: string)
    ensures Stripped(TrimEnd(TrimStart(s)))
  {
    var t := TrimStart(s);
    var r := TrimEnd(t);
    assert r != [] ==> r[0] == t[0];
  }

  lemma TrimBothFactor(s: string)
    ensures IsFactorAt(s, TrimEnd(TrimStart(s)), |s| - |TrimStart(s)|)
  {
    var t := TrimStart(s);
    PrefixOfSuffix(s, t, TrimEnd(t));
  }

  /** A prefix of a suffix of `s` is a factor of `s`. */
  lemma PrefixOfSuffix(s: string, t: string, r: string)
    requires |t| <= |s| && t == s[|s| - |t|..]
    requires |r| <= |t| && r == t[..|r|]
    ensures IsFactorAt(s, r, |s| - |t|)
  {
    var k := |s| - |t|;
    assert s[k..k + |r|] == t[..|r|];
  }

  /** `strip()` removes only whitespace: everything before and after the
      factor it returns is whitespace. */
  lemma StripSpaces(s: string)
    ensures forall i | 0 <= i < |s| - |TrimStart(s)| :: IsSpace(s[i])
    ensures forall i | |s| - |TrimStart(s)| + |Strip(s)| <= i < |s| :: IsSpace(s[i])
  {
    var t := TrimStart(s);
    var r := TrimEnd(t);
    assert Strip(s) == r;
    TrimStartSpaces(s);
    TrimEndSpaces(t);
    forall i | |s| - |t| + |r| <= i < |s| ensures IsSpace(s[i]) {
      var j := i - (|s| - |t|);
      assert |r| <= j < |t| && s[i] == t[j];
    }
  }

  /** Stripping a string that already has no surrounding whitespace changes nothing. */
  lemma StripStripped(s: string)
    requires Stripped(s)
    ensures Strip(s) == s
  {
  }

  /** `strip()` is idempotent. */
  lemma StripIdempotent(s: string)
    ensures Strip(Strip(s)) == Strip(s)
  {
    StripStripped(Strip(s));
  }

  /** `sub` occurs in `s` at index `i`. */
  predicate IsFactorAt(s: string, sub: string, i: int) {
    0 <= i && i + |sub| <= |s| && s[i..i + |sub|] == sub
  }

  /** Python's `sub in s` for strings. */
  predicate Contains(s: string, sub: string) {
    exists i | 0 <= i <= |s| - |sub| :: IsFactorAt(s, sub, i)
  }

  /** `s.startswith(prefix)` */
  predicate StartsWith(s: string, prefix: string) {
    |prefix| <= |s| && s[..|prefix|] == prefix
  }

  /** An occurrence inside a factor of `s` is an occurrence in `s`. */
  lemma ContainsInFactor(s: string, t: string, k: int, sub: string)
    requires IsFactorAt(s, t, k)
    requires Contains(t, sub)
    ensures Contains(s, sub)
  {
    var i :| 0 <= i <= |t| - |sub| && IsFactorAt(t, sub, i);
    assert t == s[k..k + |t|];
    forall j | 0 <= j < |sub|
      ensures s[k + i + j] == sub[j]
    {
      assert sub[j] == t[i + j];
    }
    assert s[k + i..k + i + |sub|] == sub;
    assert IsFactorAt(s, sub, k + i);
  }

  /** The leftmost occurrence of `sub` in `s` at or after `from`, as `str.find` does. */
  function FindFrom(s: string, sub: string, from: nat): (r: Option<nat>)
    decreases |s| - from
    ensures r.Some? ==> from <= r.value && IsFactorAt(s, sub, r.value)
    ensures r.Some? ==> forall j | from <= j < r.value :: !IsFactorAt(s, sub, j)
    ensures r.None? ==> forall j | from <= j :: !IsFactorAt(s, sub, j)
  {
    if from + |sub| > |s| then None
    else if s[from..from + |sub|] == sub then Some(from)
    else FindFrom(s, sub, from + 1)
  }

  function Find(s: string, sub: string): (r: Option<nat>)
    ensures r.Some? <==> Contains(s, sub)
    ensures r.Some? ==> IsFactorAt(s, sub, r.value)
    ensures r.Some? ==> forall j | 0 <= j < r.value :: !IsFactorAt(s, sub, j)
  {
    FindFrom(s, sub, 0)
  }

  /** `s.split(sep)[0]`: everything before the first occurrence of `sep`. */
  function BeforeFirst(s: string, sep: string): (r: string)
    requires |sep| > 0
    ensures !Contains(r, sep)
    ensures IsFactorAt(s, r, 0)
    ensures !Contains(s, sep) ==> r == s
  {
    var f := Find(s, sep);
    if f.None? then s
    else
      var r := s[..f.value];
      assert !Contains(r, sep) by {
        if Contains(r, sep) {
          var j :| 0 <= j <= |r| - |sep| && IsFactorAt(r, sep, j);
          assert s[j..j + |sep|] == r[j..j + |sep|];
          assert IsFactorAt(s, sep, j);
        }
      }
      r
  }

  /** `sep.join(xs)` */
  function Join(xs: seq<string>, sep: string): string {
    if |xs| == 0 then ""
    else if |xs| == 1 then xs[0]
    else xs[0] + sep + Join(xs[1..], sep)
  }

  /** `s.split(sep)`, which always has at least one piece. */
  function Split(s: string, sep: string): (r: seq<string>)
    requires |sep| > 0
    decreases |s|
    ensures |r| >= 1
  {
    match Find(s, sep)
    case None => [s]
    case Some(i) => [s[..i]] + Split(s[i + |sep|..], sep)
  }

  /** Joining the pieces of a split with the same separator gives the string back. */
  lemma {:induction false} JoinSplit(s: string, sep: string)
    requires |sep| > 0
    decreases |s|
    ensures Join(Split(s, sep), sep) == s
  {
    var f := Find(s, sep);
    if f.Some? {
      var i := f.value;
      var rest := s[i + |sep|..];
      JoinSplit(rest, sep);
      JoinCons(s[..i], Split(rest, sep), sep);
      FactorSplits(s, sep, i);
    }
  }

  /** Putting one string in front of a non-empty list. */
  lemma JoinCons(x: string, ys: seq<string>, sep: string)
    requires ys != []
    ensures Join([x] + ys, sep) == x + sep + Join(ys, sep)
  {
    assert ([x] + ys)[1..] == ys;
  }

  /** A string is what comes before an occurrence, the occurrence, and what follows. */
  lemma FactorSplits(s: string, sub: string, i: int)
    requires IsFactorAt(s, sub, i)
    ensures s == s[..i] + sub + s[i + |sub|..]
  {
    assert s == s[..i] + s[i..i + |sub|] + s[i + |sub|..];
  }

  /** Joining two non-empty lists is joining their joins. */
  lemma {:induction false} JoinConcat(a: seq<string>, b: seq<string>, sep: string)
    requires a != [] && b != []
    decreases |a|
    ensures Join(a + b, sep) == Join(a, sep) + sep + Join(b, sep)
  {
    if |a| == 1 {
      assert (a + b)[1..] == b;
    } else {
      assert (a + b)[1..] == a[1..] + b;
      JoinConcat(a[1..], b, sep);
    }
  }

  /** Appending one element to a non-empty list appends the separator and it. */
  lemma JoinSnoc(a: seq<string>, x: string, sep: string)
    requires a != []
    ensures Join(a + [x], sep) == Join(a, sep) + sep + x
  {
    JoinConcat(a, [x], sep);
  }

  /** A join of non-empty strings starts with the first string's first
      character and ends with the last string's last character. */
  lemma {:induction false} JoinEnds(xs: seq<string>, sep: string)
    requires xs != []
    requires forall i | 0 <= i < |xs| :: xs[i] != ""
    decreases |xs|
    ensures Join(xs, sep) != ""
    ensures Join(xs, sep)[0] == xs[0][0]
    ensures Join(xs, sep)[|Join(xs, sep)| - 1] == xs[|xs| - 1][|xs[|xs| - 1]| - 1]
  {
    if |xs| > 1 {
      JoinEnds(xs[1..], sep);
      assert xs[1..][|xs[1..]| - 1] == xs[|xs| - 1];
    }
  }

  /** A join of non-empty, stripped strings is itself stripped and non-empty. */
  lemma JoinStripped(xs: seq<string>, sep: string)
    requires xs != []
    requires forall i | 0 <= i < |xs| :: xs[i] != "" && Stripped(xs[i])
    ensures Join(xs, sep) != ""
    ensures Stripped(Join(xs, sep))
  {
    JoinEnds(xs, sep);
    assert Stripped(xs[0]) && Stripped(xs[|xs| - 1]);
  }
}
