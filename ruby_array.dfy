/** `Array#compact` over optional values, and what it keeps. */
module RubyArray {
  import opened Wrappers

  /** `xs.compact`: the present values of `xs`, in their original order. */
  function Compact<T>(xs: seq<Option<T>>): (r: seq<T>)
    ensures |r| <= |xs|
    decreases |xs|
  {
    if |xs| == 0 then []
    else (if xs[0].Some? then [xs[0].value] else []) + Compact(xs[1..])
  }

  /** Compacting a concatenation compacts each half. */
  lemma {:induction false} CompactConcat<T>(a: seq<Option<T>>, b: seq<Option<T>>)
    ensures Compact(a + b) == Compact(a) + Compact(b)
    decreases |a|
  {
    if |a| == 0 {
      assert a + b == b;
    } else {
      assert (a + b)[0] == a[0];
      assert (a + b)[1..] == a[1..] + b;
      CompactConcat(a[1..], b);
    }
  }

  /** The positions of `xs` that hold a value, in increasing order. */
  function KeptIndices<T>(xs: seq<Option<T>>): (ks: seq<nat>)
    ensures forall j :: 0 <= j < |ks| ==> ks[j] < |xs|
    decreases |xs|
  {
    if |xs| == 0 then []
    else KeptIndices(xs[..|xs| - 1]) + (if xs[|xs| - 1].Some? then [|xs| - 1] else [])
  }

  /**
   * `compact` keeps exactly the present values, in order: its result is the
   * subsequence of `xs` at the strictly increasing positions `KeptIndices(xs)`,
   * and every position holding a value is among them.
   */
  lemma {:induction false} CompactIsOrderedSubsequence<T>(xs: seq<Option<T>>)
    ensures |KeptIndices(xs)| == |Compact(xs)|
    ensures forall j :: 0 <= j < |KeptIndices(xs)| ==>
              KeptIndices(xs)[j] < |xs| && xs[KeptIndices(xs)[j]] == Some(Compact(xs)[j])
    ensures forall j, k :: 0 <= j < k < |KeptIndices(xs)| ==> KeptIndices(xs)[j] < KeptIndices(xs)[k]
    ensures forall i :: 0 <= i < |xs| && xs[i].Some? ==> i in KeptIndices(xs)
    decreases |xs|
  {
    if |xs| > 0 {
      var n := |xs| - 1;
      var init, last := xs[..n], xs[n];
      CompactIsOrderedSubsequence(init);
      assert xs == init + [last];
      CompactConcat(init, [last]);
      assert [last][1..] == [];
      var ks, r := KeptIndices(xs), Compact(xs);
      var ks0, r0 := KeptIndices(init), Compact(init);
      assert ks == ks0 + (if last.Some? then [n] else []);
      assert r == r0 + (if last.Some? then [last.value] else []);
      forall j | 0 <= j < |ks| ensures ks[j] < |xs| && xs[ks[j]] == Some(r[j]) {
        if j < |ks0| {
          assert ks[j] == ks0[j] && r[j] == r0[j] && xs[ks0[j]] == init[ks0[j]];
        }
      }
      forall i | 0 <= i < |xs| && xs[i].Some? ensures i in ks {
        if i < n {
          assert init[i] == xs[i];
          assert i in ks0;
        }
      }
    }
  }

  /** A present value at position `i` lands right after the values kept before `i`. */
  lemma {:induction false} CompactAt<T>(xs: seq<Option<T>>, i: nat)
    requires i < |xs| && xs[i].Some?
    ensures |Compact(xs[..i])| < |Compact(xs)|
    ensures Compact(xs)[|Compact(xs[..i])|] == xs[i].value
  {
    assert xs == xs[..i] + xs[i..];
    CompactConcat(xs[..i], xs[i..]);
    assert xs[i..][0] == xs[i];
  }

  /** An absent value at position `i` adds nothing: the values kept up to `i` are those kept before it. */
  lemma {:induction false} CompactSkips<T>(xs: seq<Option<T>>, i: nat)
    requires i < |xs| && xs[i].None?
    ensures Compact(xs[..i + 1]) == Compact(xs[..i])
  {
    assert xs[..i + 1] == xs[..i] + [xs[i]];
    CompactConcat(xs[..i], [xs[i]]);
    assert [xs[i]][1..] == [];
  }

  /**
   * When two arrays of equal length hold a value at complementary positions,
   * what the two compactions keep adds up to that length.
   */
  lemma {:induction false} CompactComplement<T, U>(xs: seq<Option<T>>, ys: seq<Option<U>>)
    requires |xs| == |ys|
    requires forall i :: 0 <= i < |xs| ==> (xs[i].Some? <==> ys[i].None?)
    ensures |Compact(xs)| + |Compact(ys)| == |xs|
    decreases |xs|
  {
    if |xs| > 0 {
      CompactComplement(xs[1..], ys[1..]);
    }
  }
}
