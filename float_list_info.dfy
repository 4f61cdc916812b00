/**
 * Summary statistics of a list of numbers (maximum, minimum, average) and
 * the normalisation of each value against a target, used to colour
 * evaluation results.
 */
module FloatListInfos {
  import opened Geometry

  function Sum(s: seq<real>): real {
    if |s| == 0 then 0.0 else Sum(s[..|s| - 1]) + s[|s| - 1]
  }

  /** The sum lies between the length times any lower bound and the length times any upper bound. */
  lemma {:induction false} SumBounds(s: seq<real>, lo: real, hi: real)
    requires forall k :: 0 <= k < |s| ==> lo <= s[k] <= hi
    ensures |s| as real * lo <= Sum(s) <= |s| as real * hi
  {
    if |s| > 0 {
      SumBounds(s[..|s| - 1], lo, hi);
    }
  }

  /** The average of a non-empty list lies between any lower and any upper bound of its values. */
  lemma AverageBetween(s: seq<real>, lo: real, hi: real)
    requires |s| > 0
    requires forall k :: 0 <= k < |s| ==> lo <= s[k] <= hi
    ensures lo <= Sum(s) / |s| as real <= hi
  {
    SumBounds(s, lo, hi);
    var count := |s| as real;
    var q := Sum(s) / count;
    assert q * count == Sum(s);
    if q < lo {
      assert q * count < lo * count;
    }
  }

  /** Unity's Mathf.InverseLerp: where v lies between a and b, clamped to [0, 1], and 0 when a == b. */
  function InverseLerp(a: real, b: real, v: real): (r: real)
    ensures 0.0 <= r <= 1.0
    ensures a != b && (v - a) / (b - a) >= 0.0 && (v - a) / (b - a) <= 1.0 ==> r == (v - a) / (b - a)
    ensures a == b ==> r == 0.0
  {
    if a != b then
      var t := (v - a) / (b - a);
      if t < 0.0 then 0.0 else if t > 1.0 then 1.0 else t
    else 0.0
  }

  class FloatListInfo {
    var max: real
    var min: real
    var average: real
    var values: seq<real>

    /**
     * Scans the list once for its largest and smallest value and its sum.
     * The C# code starts from -infinity, +infinity and 0 and divides by the
     * count, so an empty list has no statistics: it is required non-empty.
     */
    constructor (values: seq<real>)
      requires |values| > 0
      ensures this.values == values
      ensures min in values && max in values
      ensures forall k :: 0 <= k < |values| ==> min <= values[k] <= max
      ensures average == Sum(values) / |values| as real
      ensures min <= average <= max
    {
      var mx := values[0];
      var mn := values[0];
      var total := values[0];
      assert values[..1] == [values[0]];
      var i := 1;
      while i < |values|
        invariant 1 <= i <= |values|
        invariant mn in values[..i] && mx in values[..i]
        invariant forall k :: 0 <= k < i ==> mn <= values[k] <= mx
        invariant total == Sum(values[..i])
      {
        var v := values[i];
        if v > mx { mx := v; }
        if v < mn { mn := v; }
        assert values[..i + 1][..i] == values[..i];
        total := total + v;
        i := i + 1;
      }
      assert values[..i] == values;
      AverageBetween(values, mn, mx);
      max, min, average := mx, mn, total / |values| as real;
      this.values := values;
    }

    /** The statistics of the absolute values. */
    static method AbsInfo(values: seq<real>) returns (r: FloatListInfo)
      requires |values| > 0
      ensures |r.values| == |values| && forall k :: 0 <= k < |values| ==> r.values[k] == Abs(values[k])
      ensures 0.0 <= r.min && forall k :: 0 <= k < |values| ==> r.min <= r.values[k] <= r.max
    {
      var absValues: seq<real> := [];
      for i := 0 to |values|
        invariant |absValues| == i && forall k :: 0 <= k < i ==> absValues[k] == Abs(values[k])
      {
        absValues := absValues + [Abs(values[i])];
      }
      r := new FloatListInfo(absValues);
    }

    /** Each value's position between 0 and the target, clamped to [0, 1]. */
    method Evaluate(targetValue: real) returns (evaluations: seq<real>)
      ensures |evaluations| == |values|
      ensures forall k :: 0 <= k < |values| ==> evaluations[k] == InverseLerp(0.0, targetValue, values[k])
      ensures forall k :: 0 <= k < |values| ==> 0.0 <= evaluations[k] <= 1.0
    {
      evaluations := [];
      for i := 0 to |values|
        invariant |evaluations| == i
        invariant forall k :: 0 <= k < i ==> evaluations[k] == InverseLerp(0.0, targetValue, values[k])
      {
        evaluations := evaluations + [InverseLerp(0.0, targetValue, values[i])];
      }
    }
  }
}
