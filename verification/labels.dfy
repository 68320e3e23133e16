/** Labels of the LocIT pipeline: 0 is unlabelled, a positive value anomalous,
    any non-zero value labelled. Source labels are floats; the combined set keeps
    them in an `int` array, and the contamination estimate is derived from them. */
module Labels {
  import opened Indices

  /** numpy's float-to-int cast when a float label is stored in an `int` array:
      truncation toward zero. */
  function Trunc(x: real): (r: int)
    ensures 0.0 <= x ==> 0 <= r && r as real <= x < r as real + 1.0
    ensures x < 0.0 ==> r <= 0 && r as real - 1.0 < x <= r as real
  {
    if x >= 0.0 then x.Floor else -((-x).Floor)
  }

  /** A float label survives the cast as "labelled" exactly when its magnitude is
      at least 1, and as "anomalous" exactly when it is at least 1. */
  lemma TruncLabelled(x: real)
    ensures Trunc(x) != 0 <==> x <= -1.0 || 1.0 <= x
    ensures Trunc(x) > 0 <==> 1.0 <= x
  {
  }

  /** `ys > 0` */
  function PositiveMask(ys: seq<real>): (b: seq<bool>)
    ensures |b| == |ys| && forall j :: 0 <= j < |ys| ==> (b[j] <==> ys[j] > 0.0)
  {
    seq(|ys|, j requires 0 <= j < |ys| => ys[j] > 0.0)
  }

  /** `ys != 0` */
  function NonZeroMask(ys: seq<real>): (b: seq<bool>)
    ensures |b| == |ys| && forall j :: 0 <= j < |ys| ==> (b[j] <==> ys[j] != 0.0)
  {
    seq(|ys|, j requires 0 <= j < |ys| => ys[j] != 0.0)
  }

  /** `ndarray.any()`: some entry is non-zero. */
  predicate AnyLabelled(ys: seq<real>)
  {
    exists j | 0 <= j < |ys| :: ys[j] != 0.0
  }

  /** The contamination estimate of the source domain: the share of positive
      labels among the non-zero ones, or 0.1 when no source label is non-zero. */
  function Contamination(ys: seq<real>): (c: real)
    ensures AnyLabelled(ys) ==> Count(NonZeroMask(ys)) > 0
    ensures AnyLabelled(ys) ==> IsShare(c, Count(PositiveMask(ys)), Count(NonZeroMask(ys)))
    ensures AnyLabelled(ys) ==> 0.0 <= c <= 1.0
    ensures !AnyLabelled(ys) ==> c == 0.1
  {
    if AnyLabelled(ys) then
      var positives := Count(PositiveMask(ys));
      var labelled := Count(NonZeroMask(ys));
      ContaminationFacts(ys);
      CountRatio(positives, labelled)
    else
      0.1
  }


  /** The ratio of a count to a larger positive count lies in [0, 1] and,
      multiplied back by the larger count, gives the smaller one. */
  /** `c` is the share `part / whole`: multiplied by the whole it gives the part. */
  predicate IsShare(c: real, part: nat, whole: nat)
  {
    c * whole as real == part as real
  }

  function CountRatio(part: nat, whole: nat): (c: real)
    requires part <= whole && 0 < whole
    ensures IsShare(c, part, whole) && 0.0 <= c <= 1.0
  {
    RatioInUnit(part as real, whole as real);
    part as real / whole as real
  }

  lemma ContaminationFacts(ys: seq<real>)
    ensures Count(PositiveMask(ys)) <= Count(NonZeroMask(ys))
    ensures AnyLabelled(ys) ==> Count(NonZeroMask(ys)) > 0
  {
    var pos := PositiveMask(ys);
    var nz := NonZeroMask(ys);
    var ones := seq(|ys|, j => 1.0);
    MaskedSumMonotone(ones, pos, nz);
    CountIsMaskedSum(ones, pos);
    CountIsMaskedSum(ones, nz);
    if AnyLabelled(ys) {
      var j :| 0 <= j < |ys| && ys[j] != 0.0;
      WhereComplete(nz, j);
    }
  }

  /** Counting flags is the masked sum of ones. */
  lemma {:induction false} CountIsMaskedSum(ones: seq<real>, b: seq<bool>)
    requires |ones| == |b|
    requires forall j :: 0 <= j < |ones| ==> ones[j] == 1.0
    ensures Count(b) as real == MaskedSum(ones, b)
  {
    if |b| > 0 {
      CountIsMaskedSum(ones[..|ones| - 1], b[..|b| - 1]);
    }
  }

  lemma CountSnoc(b: seq<bool>, x: bool)
    ensures Count(b + [x]) == Count(b) + (if x then 1 else 0)
  {
    assert (b + [x])[..|b|] == b;
  }

  /** The worked case: labels [1, 1, 0, 0, -1, -1] give 2 positives out of 4
      labelled, so c = 0.5. */
  lemma ContaminationExample(ys: seq<real>)
    requires ys == [1.0, 1.0, 0.0, 0.0, -1.0, -1.0]
    ensures Contamination(ys) == 0.5
  {
    var yes, no := [true], [false];
    var front := yes + yes + no + no;
    assert Count(front) == 2 by {
      CountSnoc([], true);
      CountSnoc(yes, true);
      CountSnoc(yes + yes, false);
      CountSnoc(yes + yes + no, false);
    }
    assert Count(PositiveMask(ys)) == 2 by {
      assert PositiveMask(ys) == front + no + no;
      CountSnoc(front, false);
      CountSnoc(front + no, false);
    }
    assert Count(NonZeroMask(ys)) == 4 by {
      assert NonZeroMask(ys) == front + yes + yes;
      CountSnoc(front, true);
      CountSnoc(front + yes, true);
    }
    assert ys[0] != 0.0;
    assert AnyLabelled(ys);
    var c := Contamination(ys);
    assert c * 4.0 == 2.0;
  }

  /** Without any non-zero source label the estimate is exactly 0.1. */
  lemma UnlabelledContamination(ys: seq<real>)
    requires forall j :: 0 <= j < |ys| ==> ys[j] == 0.0
    ensures Contamination(ys) == 0.1
  {
  }
}
