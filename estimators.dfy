/** The reductions the downsamplers apply to each block: a plain sum, the
    arithmetic mean and the missing-aware mean (`nanmean`) that skips NaN
    entries. */
module Estimators {
  import opened Values

  /** Sum of a sequence of reals. */
  function Sum(s: seq<real>): real
  {
    if |s| == 0 then 0.0 else s[0] + Sum(s[1..])
  }

  /** Arithmetic mean. No downsampler applies it to an empty block (every
      block holds `factor >= 1` entries); the 0.0 for the empty sequence is
      only there to make the function total. */
  function Mean(s: seq<real>): real
  {
    if |s| == 0 then 0.0 else Sum(s) / (|s| as real)
  }

  /** The present (non-NaN) entries of `s`, in order. `PresentCounts`
      gives how often each value occurs. */
  function Present(s: seq<Option<real>>): (r: seq<real>)
    ensures |r| <= |s|
    ensures forall x :: x in r <==> Some(x) in s
  {
    if |s| == 0 then []
    else (if s[0].Some? then [s[0].value] else []) + Present(s[1..])
  }

  /** Each value is present as often as it occurs in `s`, and every NaN
      entry is dropped: the mean `nanmean` takes is over exactly these. */
  lemma {:induction false} PresentCounts(s: seq<Option<real>>)
    ensures |Present(s)| + multiset(s)[None] == |s|
    ensures forall x :: multiset(Present(s))[x] == multiset(s)[Some(x)]
  {
    if |s| > 0 {
      PresentCounts(s[1..]);
      assert s == [s[0]] + s[1..];
    }
  }

  /** numpy's `nanmean` along one block: the mean of the present entries,
      NaN when every entry is NaN. */
  function NanMean(s: seq<Option<real>>): (r: Option<real>)
    ensures r.None? <==> forall i :: 0 <= i < |s| ==> s[i].None?
    ensures r.Some? ==> r.value == Mean(Present(s))
  {
    var p := Present(s);
    if |p| == 0 then
      None
    else
      assert Some(p[0]) in s;
      Some(Mean(p))
  }

  lemma {:induction false} SumAppend(a: seq<real>, b: seq<real>)
    ensures Sum(a + b) == Sum(a) + Sum(b)
  {
    if |a| == 0 {
      assert a + b == b;
    } else {
      assert (a + b)[1..] == a[1..] + b;
      SumAppend(a[1..], b);
    }
  }

  /** A sequence holding one value `c` sums to its length times `c`. */
  lemma {:induction false} SumConstant(s: seq<real>, c: real)
    requires forall i :: 0 <= i < |s| ==> s[i] == c
    ensures Sum(s) == (|s| as real) * c
  {
    if |s| > 0 {
      SumConstant(s[1..], c);
    }
  }

  /** The mean of a non-empty constant sequence is that constant. */
  lemma MeanConstant(s: seq<real>, c: real)
    requires |s| > 0
    requires forall i :: 0 <= i < |s| ==> s[i] == c
    ensures Mean(s) == c
  {
    SumConstant(s, c);
  }

  lemma {:induction false} PresentAppend(a: seq<Option<real>>, b: seq<Option<real>>)
    ensures Present(a + b) == Present(a) + Present(b)
  {
    if |a| == 0 {
      assert a + b == b;
    } else {
      assert (a + b)[1..] == a[1..] + b;
      PresentAppend(a[1..], b);
    }
  }

  /** A run of NaN entries contributes nothing to the present entries. */
  lemma {:induction false} PresentAllMissing(s: seq<Option<real>>)
    requires forall i :: 0 <= i < |s| ==> s[i].None?
    ensures Present(s) == []
  {
    if |s| > 0 {
      PresentAllMissing(s[1..]);
    }
  }

  /** Appending NaN padding does not change the missing-aware mean. */
  lemma NanMeanIgnoresPadding(s: seq<Option<real>>, pad: seq<Option<real>>)
    requires forall i :: 0 <= i < |pad| ==> pad[i].None?
    ensures NanMean(s + pad) == NanMean(s)
  {
    PresentAppend(s, pad);
    PresentAllMissing(pad);
    assert Present(s + pad) == Present(s);
  }

  /** Lifting real data to optional data: every entry present. */
  function Lift(s: seq<real>): (r: seq<Option<real>>)
    ensures |r| == |s| && forall i :: 0 <= i < |s| ==> r[i] == Some(s[i])
  {
    seq(|s|, i requires 0 <= i < |s| => Some(s[i]))
  }

  lemma {:induction false} PresentLift(s: seq<real>)
    ensures Present(Lift(s)) == s
  {
    if |s| > 0 {
      assert Lift(s)[1..] == Lift(s[1..]);
      PresentLift(s[1..]);
    }
  }

  /** On data without NaN the missing-aware mean is the plain mean. */
  lemma NanMeanOfPresent(s: seq<real>)
    requires |s| > 0
    ensures NanMean(Lift(s)) == Some(Mean(s))
  {
    PresentLift(s);
  }

  /** A non-empty block of one present value `c` averages to `c`. */
  lemma NanMeanConstant(s: seq<Option<real>>, c: real)
    requires |s| > 0
    requires forall i :: 0 <= i < |s| ==> s[i] == Some(c)
    ensures NanMean(s) == Some(c)
  {
    var p := seq(|s|, i requires 0 <= i < |s| => c);
    assert s == Lift(p);
    NanMeanOfPresent(p);
    MeanConstant(p, c);
  }

  /** A block of one entry averages to that entry, NaN included. */
  lemma NanMeanSingleton(x: Option<real>)
    ensures NanMean([x]) == x
  {
    assert [x][1..] == [];
    if x.Some? {
      assert Present([x]) == [x.value];
      assert Sum([x.value]) == x.value + Sum([]);
    }
  }
}
