/** Sequence helpers shared by the model: boolean-mask selection (what pandas
    does for `dropna`, `df[mask]` and `Series.between`), subsequences, and
    occurrence tallies (what `value_counts` computes, up to order), and the
    optional values that stand for missing data. */
module Seqs {

  /** A value that may be missing (pandas NaN, an absent column, an unset attribute). */
  datatype Option<T> = None | Some(value: T)

  /** The elements of `s` that satisfy `p`, in their original order. */
  function Filter<T>(s: seq<T>, p: T -> bool): (r: seq<T>)
    ensures |r| <= |s|
    ensures forall k :: 0 <= k < |r| ==> p(r[k])
  {
    if s == [] then []
    else Filter(s[..|s| - 1], p) + (if p(s[|s| - 1]) then [s[|s| - 1]] else [])
  }

  /** The positions of `s` whose element satisfies `p`, in increasing order. */
  function Positions<T>(s: seq<T>, p: T -> bool): (r: seq<nat>)
  {
    if s == [] then []
    else Positions(s[..|s| - 1], p) + (if p(s[|s| - 1]) then [|s| - 1] else [])
  }

  /** `idx` embeds `a` into `b`: strictly increasing positions of `b` holding `a`'s elements. */
  ghost predicate Embeds<T>(idx: seq<nat>, a: seq<T>, b: seq<T>)
  {
    && |idx| == |a|
    && (forall k :: 0 <= k < |idx| ==> idx[k] < |b| && a[k] == b[idx[k]])
    && (forall k, l :: 0 <= k < l < |idx| ==> idx[k] < idx[l])
  }

  /** `a` is obtained from `b` by deleting elements, keeping the rest in order. */
  ghost predicate IsSubsequence<T>(a: seq<T>, b: seq<T>)
  {
    exists idx :: Embeds(idx, a, b)
  }

  /** Filtering keeps exactly the positions whose element satisfies `p`, in
      order: the positions are increasing, they hold the filtered elements,
      and a position is kept if and only if its element satisfies `p`. */
  lemma {:induction false} FilterPositions<T>(s: seq<T>, p: T -> bool)
    ensures Embeds(Positions(s, p), Filter(s, p), s)
    ensures forall i :: 0 <= i < |s| ==> (p(s[i]) <==> i in Positions(s, p))
  {
    if s != [] {
      var n := |s| - 1;
      var init := s[..n];
      FilterPositions(init, p);
      var idx0 := Positions(init, p);
      var r0 := Filter(init, p);
      assert forall k :: 0 <= k < |idx0| ==> idx0[k] < n;
      assert forall i :: 0 <= i < n ==> s[i] == init[i];
      if p(s[n]) {
        assert Positions(s, p) == idx0 + [n];
        assert Filter(s, p) == r0 + [s[n]];
      } else {
        assert Positions(s, p) == idx0;
        assert Filter(s, p) == r0;
      }
    }
  }

  /** A filtered sequence is a subsequence of its source. */
  lemma FilterIsSubsequence<T>(s: seq<T>, p: T -> bool)
    ensures IsSubsequence(Filter(s, p), s)
  {
    FilterPositions(s, p);
  }

  /** Filtering keeps every occurrence of an element that satisfies `p` and
      none of one that does not. */
  lemma {:induction false} FilterMultiset<T>(s: seq<T>, p: T -> bool, x: T)
    ensures multiset(Filter(s, p))[x] == if p(x) then multiset(s)[x] else 0
  {
    if s != [] {
      var n := |s| - 1;
      FilterMultiset(s[..n], p, x);
      assert s == s[..n] + [s[n]];
    }
  }

  /** An element is kept exactly when it occurs in the source and satisfies `p`. */
  lemma FilterMembership<T>(s: seq<T>, p: T -> bool, x: T)
    ensures x in Filter(s, p) <==> x in s && p(x)
  {
    FilterMultiset(s, p, x);
  }

  /** Filtering distributes over concatenation, so relative order is kept across any split. */
  lemma {:induction false} FilterConcat<T>(a: seq<T>, b: seq<T>, p: T -> bool)
    ensures Filter(a + b, p) == Filter(a, p) + Filter(b, p)
  {
    if b == [] {
      assert a + b == a;
    } else {
      var n := |b| - 1;
      FilterConcat(a, b[..n], p);
      assert (a + b)[..|a + b| - 1] == a + b[..n];
      assert (a + b)[|a + b| - 1] == b[n];
    }
  }

  /** Filtering by a weaker condition first changes nothing. */
  lemma {:induction false} FilterFilter<T>(s: seq<T>, p: T -> bool, q: T -> bool)
    requires forall x :: p(x) ==> q(x)
    ensures Filter(Filter(s, q), p) == Filter(s, p)
  {
    if s != [] {
      var n := |s| - 1;
      FilterFilter(s[..n], p, q);
      var tail := if q(s[n]) then [s[n]] else [];
      FilterConcat(Filter(s[..n], q), tail, p);
      assert Filter(tail, p) == if p(s[n]) then [s[n]] else [] by {
        if q(s[n]) { assert tail[..0] == []; }
      }
    }
  }

  /** Selecting with a stronger condition yields a subsequence of selecting with a weaker one. */
  lemma FilterMonotone<T>(s: seq<T>, p: T -> bool, q: T -> bool)
    requires forall x :: p(x) ==> q(x)
    ensures IsSubsequence(Filter(s, p), Filter(s, q))
  {
    FilterFilter(s, p, q);
    FilterIsSubsequence(Filter(s, q), p);
  }

  /** A condition every element meets selects everything. */
  lemma {:induction false} FilterAll<T>(s: seq<T>, p: T -> bool)
    requires forall k :: 0 <= k < |s| ==> p(s[k])
    ensures Filter(s, p) == s
  {
    if s != [] {
      FilterAll(s[..|s| - 1], p);
    }
  }

  /** Positional indexing as numpy and pandas do it: a negative position
      counts from the end, and anything outside `-|s| .. |s|-1` is an
      `IndexError` (`None`). */
  function At<T>(s: seq<T>, i: int): (r: Option<T>)
    ensures r.Some? <==> -|s| <= i < |s|
    ensures r.Some? ==> r.value == s[if i < 0 then |s| + i else i]
  {
    if 0 <= i < |s| then Some(s[i])
    else if -|s| <= i < 0 then Some(s[|s| + i])
    else None
  }

  // ---------------------------------------------------------------------
  // Tallies

  /** The keys of a tally, in order. */
  function Keys<T>(t: seq<(T, nat)>): (r: seq<T>)
    ensures |r| == |t| && forall i :: 0 <= i < |t| ==> r[i] == t[i].0
  {
    seq(|t|, i requires 0 <= i < |t| => t[i].0)
  }

  /** The sum of a tally's counts. */
  function Total<T>(t: seq<(T, nat)>): nat
  {
    if t == [] then 0 else t[0].1 + Total(t[1..])
  }

  /** No key occurs twice in the tally. */
  ghost predicate DistinctKeys<T>(t: seq<(T, nat)>)
  {
    forall i, j :: 0 <= i < j < |t| ==> t[i].0 != t[j].0
  }

  /** Counts one more occurrence of `x`: its entry grows by one, or a new entry `(x, 1)` is appended. */
  function Bump<T(==)>(t: seq<(T, nat)>, x: T): seq<(T, nat)>
  {
    if t == [] then [(x, 1)]
    else if t[0].0 == x then [(x, t[0].1 + 1)] + t[1..]
    else [t[0]] + Bump(t[1..], x)
  }

  /** Occurrence counts of the values of `s`, one entry per distinct value, in
      order of first occurrence. */
  function Tally<T(==)>(s: seq<T>): seq<(T, nat)>
  {
    if s == [] then [] else Bump(Tally(s[..|s| - 1]), s[|s| - 1])
  }

  lemma BumpFacts<T>(t: seq<(T, nat)>, x: T)
    requires DistinctKeys(t)
    ensures DistinctKeys(Bump(t, x))
    ensures Total(Bump(t, x)) == Total(t) + 1
    ensures forall y :: y in Keys(Bump(t, x)) <==> y in Keys(t) || y == x
    ensures forall i :: 0 <= i < |Bump(t, x)| ==>
      Bump(t, x)[i].1 == (if Bump(t, x)[i].0 == x then 1 else 0) + KeyCount(t, Bump(t, x)[i].0)
  {
    BumpKeys(t, x);
    BumpTotal(t, x);
    BumpDistinct(t, x);
    BumpCounts(t, x);
  }

  lemma {:induction false} BumpKeys<T>(t: seq<(T, nat)>, x: T)
    ensures forall y :: y in Keys(Bump(t, x)) <==> y in Keys(t) || y == x
  {
    if t == [] {
      assert Keys(Bump(t, x)) == [x];
    } else {
      assert Keys(t) == [t[0].0] + Keys(t[1..]);
      if t[0].0 == x {
        assert Keys(Bump(t, x)) == [x] + Keys(t[1..]);
      } else {
        BumpKeys(t[1..], x);
        assert Keys(Bump(t, x)) == [t[0].0] + Keys(Bump(t[1..], x));
      }
    }
  }

  lemma {:induction false} BumpTotal<T>(t: seq<(T, nat)>, x: T)
    ensures Total(Bump(t, x)) == Total(t) + 1
  {
    if t != [] {
      if t[0].0 == x {
        assert ([(x, t[0].1 + 1)] + t[1..])[1..] == t[1..];
      } else {
        BumpTotal(t[1..], x);
        assert ([t[0]] + Bump(t[1..], x))[1..] == Bump(t[1..], x);
      }
    }
  }

  lemma {:induction false} BumpDistinct<T>(t: seq<(T, nat)>, x: T)
    requires DistinctKeys(t)
    ensures DistinctKeys(Bump(t, x))
  {
    if t != [] {
      if t[0].0 == x {
        SameKeysDistinct(t, Bump(t, x));
      } else {
        BumpDistinct(t[1..], x);
        BumpKeys(t[1..], x);
        assert Keys(t) == [t[0].0] + Keys(t[1..]);
        DistinctCons(t[0], Bump(t[1..], x));
      }
    }
  }

  lemma SameKeysDistinct<T>(t: seq<(T, nat)>, u: seq<(T, nat)>)
    requires DistinctKeys(t) && |t| == |u|
    requires forall i :: 0 <= i < |t| ==> t[i].0 == u[i].0
    ensures DistinctKeys(u)
  {
  }

  lemma DistinctCons<T>(h: (T, nat), b: seq<(T, nat)>)
    requires DistinctKeys(b) && h.0 !in Keys(b)
    ensures DistinctKeys([h] + b)
  {
    var c := [h] + b;
    forall i, j | 0 <= i < j < |c| ensures c[i].0 != c[j].0 {
      assert c[j] == b[j - 1];
      if i == 0 {
        assert b[j - 1].0 in Keys(b);
      } else {
        assert c[i] == b[i - 1];
      }
    }
  }

  lemma {:induction false} BumpCounts<T>(t: seq<(T, nat)>, x: T)
    requires DistinctKeys(t)
    ensures forall i :: 0 <= i < |Bump(t, x)| ==>
      Bump(t, x)[i].1 == (if Bump(t, x)[i].0 == x then 1 else 0) + KeyCount(t, Bump(t, x)[i].0)
  {
    if t != [] {
      var bt := Bump(t, x);
      if t[0].0 == x {
        forall i | 0 <= i < |bt| ensures bt[i].1 == (if bt[i].0 == x then 1 else 0) + KeyCount(t, bt[i].0) {
          KeyCountDistinct(t, i);
        }
      } else {
        var b := Bump(t[1..], x);
        BumpCounts(t[1..], x);
        BumpKeys(t[1..], x);
        assert Keys(t) == [t[0].0] + Keys(t[1..]);
        assert t[0].0 !in Keys(t[1..]);
        assert bt == [t[0]] + b;
        forall i | 0 <= i < |bt| ensures bt[i].1 == (if bt[i].0 == x then 1 else 0) + KeyCount(t, bt[i].0) {
          if i == 0 {
            KeyCountDistinct(t, 0);
          } else {
            assert bt[i] == b[i - 1];
            assert b[i - 1].0 in Keys(b);
            KeyCountSkip(t, b[i - 1].0);
          }
        }
      }
    }
  }

  /** The count the tally records for `y`, or 0 when `y` is not a key. */
  function KeyCount<T(==)>(t: seq<(T, nat)>, y: T): nat
  {
    if t == [] then 0 else if t[0].0 == y then t[0].1 else KeyCount(t[1..], y)
  }

  lemma {:induction false} KeyCountDistinct<T>(t: seq<(T, nat)>, i: nat)
    requires DistinctKeys(t) && i < |t|
    ensures KeyCount(t, t[i].0) == t[i].1
  {
    if i > 0 {
      KeyCountDistinct(t[1..], i - 1);
    }
  }

  lemma KeyCountSkip<T>(t: seq<(T, nat)>, y: T)
    requires t != [] && t[0].0 != y
    ensures KeyCount(t, y) == KeyCount(t[1..], y)
  {
  }

  lemma {:induction false} KeyCountAbsent<T>(t: seq<(T, nat)>, y: T)
    requires y !in Keys(t)
    ensures KeyCount(t, y) == 0
  {
    if t != [] {
      assert Keys(t) == [t[0].0] + Keys(t[1..]);
      KeyCountAbsent(t[1..], y);
    }
  }

  /** The tally counts what `value_counts` counts: one entry per distinct
      value, exactly the values that occur, each with its number of
      occurrences, and the counts add up to the length of the input. */
  lemma {:induction false} TallyCorrect<T>(s: seq<T>)
    ensures DistinctKeys(Tally(s))
    ensures forall y :: y in Keys(Tally(s)) <==> y in s
    ensures forall i :: 0 <= i < |Tally(s)| ==> Tally(s)[i].1 == multiset(s)[Tally(s)[i].0]
    ensures Total(Tally(s)) == |s|
  {
    if s != [] {
      var n := |s| - 1;
      var t := Tally(s[..n]);
      TallyCorrect(s[..n]);
      BumpFacts(t, s[n]);
      assert s == s[..n] + [s[n]];
      var b := Bump(t, s[n]);
      forall i | 0 <= i < |b| ensures b[i].1 == multiset(s)[b[i].0] {
        var y := b[i].0;
        if y in Keys(t) {
          var j :| 0 <= j < |t| && t[j].0 == y;
          KeyCountDistinct(t, j);
        } else {
          KeyCountAbsent(t, y);
          assert y !in s[..n];
        }
      }
    }
  }
}
