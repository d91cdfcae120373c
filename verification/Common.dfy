/** Vocabulary shared by the modelled components. */
module Common {

  datatype Option<+T> = None | Some(value: T)

  datatype Result<+T, +E> = Ok(value: T) | Err(error: E)

  predicate Distinct<T(==)>(s: seq<T>) {
    forall i, j :: 0 <= i < j < |s| ==> s[i] != s[j]
  }

  function ToSet<T>(s: seq<T>): set<T> {
    set x | x in s
  }

  function Max(a: int, b: int): int {
    if a < b then b else a
  }

  function Min(a: int, b: int): int {
    if a < b then a else b
  }

  type Positive = n: nat | n >= 1 witness 1

  /** The newest `n` entries. */
  function Last<T>(s: seq<T>, n: nat): (r: seq<T>)
    ensures |r| == Min(|s|, n) && r == s[|s| - |r|..]
  {
    if |s| > n then s[|s| - n..] else s
  }

  /** Time passed on a clock; a reading that lies before the start counts as the start. */
  function Elapsed(since: nat, now: nat): nat {
    if now < since then 0 else now - since
  }

  function Total(s: seq<nat>): nat {
    if s == [] then 0 else Total(s[..|s| - 1]) + s[|s| - 1]
  }

  lemma {:induction false} DistinctSize<T>(s: seq<T>)
    requires Distinct(s)
    ensures |ToSet(s)| == |s|
  {
    if s != [] {
      var front, last := s[..|s| - 1], s[|s| - 1];
      DistinctSize(front);
      assert last !in ToSet(front);
      assert ToSet(s) == ToSet(front) + {last};
    }
  }

  lemma SubsetSize<T>(a: set<T>, b: set<T>)
    requires a <= b
    ensures |a| <= |b|
    ensures |a| == |b| ==> a == b
  {
    assert b == a + (b - a);
  }
}

/** Sums of an integer weight over a finite set; the value does not depend on an order of visit. */
module SetSum {

  ghost function Pick<T>(s: set<T>): (x: T)
    requires s != {}
    ensures x in s
  {
    var x :| x in s; x
  }

  ghost function Sum<T(!new)>(s: set<T>, f: T -> int): int
    decreases s
  {
    if s == {} then 0 else f(Pick(s)) + Sum(s - {Pick(s)}, f)
  }

  lemma {:induction false} SumRemove<T(!new)>(s: set<T>, f: T -> int, x: T)
    requires x in s
    ensures Sum(s, f) == f(x) + Sum(s - {x}, f)
    decreases s
  {
    var y := Pick(s);
    if y != x {
      SumRemove(s - {y}, f, x);
      SumRemove(s - {x}, f, y);
      assert s - {y} - {x} == s - {x} - {y};
    }
  }

  lemma SumAdd<T(!new)>(s: set<T>, f: T -> int, x: T)
    requires x !in s
    ensures Sum(s + {x}, f) == Sum(s, f) + f(x)
  {
    SumRemove(s + {x}, f, x);
    assert s + {x} - {x} == s;
  }

  lemma {:induction false} SumNonNegative<T(!new)>(s: set<T>, f: T -> int)
    requires forall x :: x in s ==> f(x) >= 0
    ensures Sum(s, f) >= 0
    ensures forall x :: x in s ==> f(x) <= Sum(s, f)
    decreases s
  {
    if s != {} {
      SumNonNegative(s - {Pick(s)}, f);
    }
  }

  lemma {:induction false} SumPositive<T(!new)>(s: set<T>, f: T -> int) returns (x: T)
    requires Sum(s, f) > 0
    ensures x in s && f(x) > 0
    decreases s
  {
    x := Pick(s);
    if f(x) <= 0 {
      x := SumPositive(s - {x}, f);
    }
  }

  lemma {:induction false} SumAgree<T(!new)>(s: set<T>, f: T -> int, g: T -> int)
    requires forall x :: x in s ==> f(x) == g(x)
    ensures Sum(s, f) == Sum(s, g)
    decreases s
  {
    if s != {} {
      SumAgree(s - {Pick(s)}, f, g);
    }
  }

  lemma {:induction false} SumOfOnes<T(!new)>(s: set<T>, f: T -> int)
    requires forall x :: x in s ==> f(x) == 1
    ensures Sum(s, f) == |s|
    decreases s
  {
    if s != {} {
      SumOfOnes(s - {Pick(s)}, f);
    }
  }

  /** Members of weight zero may be dropped or added freely. */
  lemma {:induction false} SumSubset<T(!new)>(s: set<T>, t: set<T>, f: T -> int)
    requires s <= t
    requires forall x :: x in t - s ==> f(x) == 0
    ensures Sum(s, f) == Sum(t, f)
    decreases t - s
  {
    if s == t {
    } else {
      assert t == s + (t - s);
      var x :| x in t - s;
      SumAdd(s, f, x);
      SumSubset(s + {x}, t, f);
    }
  }
}

/** The same for real weights. */
module RealSum {

  import SetSum

  ghost function Sum<T(!new)>(s: set<T>, f: T -> real): real
    decreases s
  {
    if s == {} then 0.0 else f(SetSum.Pick(s)) + Sum(s - {SetSum.Pick(s)}, f)
  }

  lemma {:induction false} SumRemove<T(!new)>(s: set<T>, f: T -> real, x: T)
    requires x in s
    ensures Sum(s, f) == f(x) + Sum(s - {x}, f)
    decreases s
  {
    var y := SetSum.Pick(s);
    if y != x {
      SumRemove(s - {y}, f, x);
      SumRemove(s - {x}, f, y);
      assert s - {y} - {x} == s - {x} - {y};
    }
  }

  lemma SumAdd<T(!new)>(s: set<T>, f: T -> real, x: T)
    requires x !in s
    ensures Sum(s + {x}, f) == Sum(s, f) + f(x)
  {
    SumRemove(s + {x}, f, x);
    assert s + {x} - {x} == s;
  }

  lemma {:induction false} SumAgree<T(!new)>(s: set<T>, f: T -> real, g: T -> real)
    requires forall x :: x in s ==> f(x) == g(x)
    ensures Sum(s, f) == Sum(s, g)
    decreases s
  {
    if s != {} {
      SumAgree(s - {SetSum.Pick(s)}, f, g);
    }
  }
}
