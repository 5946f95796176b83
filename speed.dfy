/**
  The speed calculator: the norm of a record's velocity (`x_dot`, `y_dot`,
  `z_dot`) and the mean of that norm over a list of records. Floats are reals;
  `math.sqrt` is a parameter `sqrt` that raises ValueError on a negative
  argument, and what the model assumes of it is `IsSqrt`.
 */
module Speed {
  import opened Values

  /** What is assumed of `math.sqrt` on the non-negative reals: it is the non-negative square root. */
  ghost predicate IsSqrt(sqrt: real -> real)
  {
    forall x :: 0.0 <= x ==> 0.0 <= sqrt(x) && sqrt(x) * sqrt(x) == x
  }

  /** `math.sqrt(x)`: a negative argument raises ValueError. */
  function MathSqrt(sqrt: real -> real, x: real): Result<real>
  {
    if x < 0.0 then Err(ValueError) else Ok(sqrt(x))
  }

  /** `r[key]` as an operand of `** 2`: a missing key raises KeyError, a string TypeError. */
  function Component(r: Record, key: string): Result<real>
  {
    match Get(r, key)
    case Err(e) => Err(e)
    case Ok(Num(x)) => Ok(x)
    case Ok(Text(_)) => Err(TypeError)
  }

  /** The record has numeric `x_dot`, `y_dot` and `z_dot`. */
  predicate HasVelocity(r: Record)
  {
    && "x_dot" in r && r["x_dot"].Num?
    && "y_dot" in r && r["y_dot"].Num?
    && "z_dot" in r && r["z_dot"].Num?
  }

  function Sq(x: real): real { x * x }

  /**
    `r['x_dot'] ** 2 + r['y_dot'] ** 2 + r['z_dot'] ** 2`, evaluated left to
    right; it is never negative.
   */
  function SumOfSquares(r: Record): (q: Result<real>)
    ensures q.Ok? <==> HasVelocity(r)
    ensures q.Ok? ==> q.value == Sq(r["x_dot"].x) + Sq(r["y_dot"].x) + Sq(r["z_dot"].x)
    ensures q.Ok? ==> 0.0 <= q.value
    ensures q.Err? ==> q.exc == TypeError || q.exc.KeyError?
  {
    match Component(r, "x_dot")
    case Err(e) => Err(e)
    case Ok(vx) =>
      match Component(r, "y_dot")
      case Err(e) => Err(e)
      case Ok(vy) =>
        match Component(r, "z_dot")
        case Err(e) => Err(e)
        case Ok(vz) =>
          SquareNonNegative(vx);
          SquareNonNegative(vy);
          SquareNonNegative(vz);
          Ok(Sq(vx) + Sq(vy) + Sq(vz))
  }

  lemma SquareNonNegative(x: real)
    ensures 0.0 <= Sq(x)
  {
    if x < 0.0 {
      assert Sq(x) == (-x) * (-x);
    }
  }

  /** The per-record speed inside `calculate_average_speed`, where no exception is caught. */
  function RecordSpeed(r: Record, sqrt: real -> real): (s: Result<real>)
    ensures s.Ok? <==> HasVelocity(r)
    ensures s.Ok? ==> s.value == sqrt(SumOfSquares(r).value)
    ensures s.Err? ==> s.exc == SumOfSquares(r).exc
  {
    match SumOfSquares(r)
    case Err(e) => Err(e)
    case Ok(q) => MathSqrt(sqrt, q)
  }

  /**
    `get_instantaneous_speed`: the square root of the sum of squares, with a
    ValueError from `math.sqrt` turned into 0. The sum of squares is never
    negative, so the fallback is never taken and the result is the norm itself.
   */
  function InstantaneousSpeed(r: Record, sqrt: real -> real): (s: Result<real>)
    ensures s.Ok? <==> HasVelocity(r)
    ensures s.Ok? ==> s.value == sqrt(Sq(r["x_dot"].x) + Sq(r["y_dot"].x) + Sq(r["z_dot"].x))
    ensures s.Err? ==> s == SumOfSquares(r)
  {
    match SumOfSquares(r)
    case Err(e) => Err(e)
    case Ok(q) =>
      match MathSqrt(sqrt, q)
      case Err(ValueError) => Ok(0.0)
      case Err(e) => Err(e)
      case Ok(v) => Ok(v)
  }

  /** The handler for ValueError in `get_instantaneous_speed` makes no difference: it computes the per-record speed. */
  lemma InstantaneousIsRecordSpeed(r: Record, sqrt: real -> real)
    ensures InstantaneousSpeed(r, sqrt) == RecordSpeed(r, sqrt)
  {
  }

  /** With `math.sqrt` a square root, the speed is the Euclidean norm of the velocity. */
  lemma InstantaneousSpeedIsNorm(r: Record, sqrt: real -> real)
    requires IsSqrt(sqrt)
    requires HasVelocity(r)
    ensures InstantaneousSpeed(r, sqrt).Ok?
    ensures 0.0 <= InstantaneousSpeed(r, sqrt).value
    ensures Sq(InstantaneousSpeed(r, sqrt).value) == Sq(r["x_dot"].x) + Sq(r["y_dot"].x) + Sq(r["z_dot"].x)
  {
    var q := SumOfSquares(r).value;
    assert 0.0 <= sqrt(q) && sqrt(q) * sqrt(q) == q;
  }

  /** `total_speed` after the loop over data: the sum of the speeds, or the first failing record's exception. */
  function SpeedSum(data: seq<Record>, sqrt: real -> real): Result<real>
    decreases |data|
  {
    if data == [] then Ok(0.0)
    else
      match SpeedSum(data[..|data| - 1], sqrt)
      case Err(e) => Err(e)
      case Ok(t) =>
        match RecordSpeed(data[|data| - 1], sqrt)
        case Err(e) => Err(e)
        case Ok(v) => Ok(t + v)
  }

  /** What `calculate_average_speed` returns or raises: the ZeroDivisionError of the empty list is caught and gives 0. */
  function AverageSpeed(data: seq<Record>, sqrt: real -> real): Result<real>
  {
    match SpeedSum(data, sqrt)
    case Err(e) => Err(e)
    case Ok(t) => if |data| == 0 then Ok(0.0) else Ok(t / |data| as real)
  }

  /** The loop of `calculate_average_speed`. */
  method CalculateAverageSpeed(data: seq<Record>, sqrt: real -> real) returns (r: Result<real>)
    ensures r == AverageSpeed(data, sqrt)
  {
    var total := 0.0;
    var i := 0;
    while i < |data|
      invariant 0 <= i <= |data|
      invariant SpeedSum(data[..i], sqrt) == Ok(total)
    {
      assert data[..i + 1][..i] == data[..i];
      var speed := RecordSpeed(data[i], sqrt);
      if speed.Err? {
        SpeedSumErrPersists(data, i + 1, sqrt);
        return Err(speed.exc);
      }
      total := total + speed.value;
      i := i + 1;
    }
    assert data[..i] == data;
    if |data| == 0 {
      return Ok(0.0);
    }
    return Ok(total / |data| as real);
  }

  lemma {:induction false} SpeedSumErrPersists(data: seq<Record>, k: nat, sqrt: real -> real)
    requires k <= |data|
    requires SpeedSum(data[..k], sqrt).Err?
    ensures SpeedSum(data, sqrt) == SpeedSum(data[..k], sqrt)
    decreases |data|
  {
    if k < |data| {
      assert data[..|data| - 1][..k] == data[..k];
      SpeedSumErrPersists(data[..|data| - 1], k, sqrt);
    } else {
      assert data[..k] == data;
    }
  }

  /** The empty list has average speed 0. */
  lemma AverageOfNothing(sqrt: real -> real)
    ensures AverageSpeed([], sqrt) == Ok(0.0)
  {
  }

  function Sum(xs: seq<real>): real
    decreases |xs|
  {
    if xs == [] then 0.0 else Sum(xs[..|xs| - 1]) + xs[|xs| - 1]
  }

  /**
    Given the per-record speeds, the loop's total is their sum; a record without
    a numeric velocity makes the whole sum raise.
   */
  lemma {:induction false} SpeedSumIsSum(data: seq<Record>, speeds: seq<real>, sqrt: real -> real)
    requires |speeds| == |data|
    requires forall i :: 0 <= i < |data| ==> InstantaneousSpeed(data[i], sqrt) == Ok(speeds[i])
    ensures SpeedSum(data, sqrt) == Ok(Sum(speeds))
    decreases |data|
  {
    if data != [] {
      var n := |data| - 1;
      SpeedSumIsSum(data[..n], speeds[..n], sqrt);
      InstantaneousIsRecordSpeed(data[n], sqrt);
    }
  }

  /** A non-empty list averages to the arithmetic mean of its records' instantaneous speeds. */
  lemma AverageIsMean(data: seq<Record>, speeds: seq<real>, sqrt: real -> real)
    requires |data| > 0 && |speeds| == |data|
    requires forall i :: 0 <= i < |data| ==> InstantaneousSpeed(data[i], sqrt) == Ok(speeds[i])
    ensures AverageSpeed(data, sqrt) == Ok(Sum(speeds) / |data| as real)
  {
    SpeedSumIsSum(data, speeds, sqrt);
  }

  /**
    The average raises exactly when some record lacks a numeric velocity, and
    then with the exception of the first such record.
   */
  lemma {:induction false} AverageFails(data: seq<Record>, sqrt: real -> real)
    ensures AverageSpeed(data, sqrt).Ok? <==> forall i :: 0 <= i < |data| ==> HasVelocity(data[i])
    ensures AverageSpeed(data, sqrt).Err? ==>
      exists i :: 0 <= i < |data| && AverageSpeed(data, sqrt) == SumOfSquares(data[i])
        && forall l :: 0 <= l < i ==> HasVelocity(data[l])
    decreases |data|
  {
    if data != [] {
      var n := |data| - 1;
      AverageFails(data[..n], sqrt);
      assert forall i :: 0 <= i < n ==> data[..n][i] == data[i];
      InstantaneousIsRecordSpeed(data[n], sqrt);
      if SpeedSum(data[..n], sqrt).Err? {
        var i :| 0 <= i < n && AverageSpeed(data[..n], sqrt) == SumOfSquares(data[..n][i])
          && forall l :: 0 <= l < n && l < i ==> HasVelocity(data[..n][l]);
        assert AverageSpeed(data, sqrt) == SumOfSquares(data[i]);
      }
    }
  }

  /** Non-negative speeds have a non-negative sum. */
  lemma {:induction false} SumNonNegative(xs: seq<real>)
    requires forall i :: 0 <= i < |xs| ==> 0.0 <= xs[i]
    ensures 0.0 <= Sum(xs)
    decreases |xs|
  {
    if xs != [] {
      SumNonNegative(xs[..|xs| - 1]);
    }
  }

  /** With `math.sqrt` a square root, every average speed is non-negative. */
  lemma AverageNonNegative(data: seq<Record>, sqrt: real -> real)
    requires IsSqrt(sqrt)
    requires AverageSpeed(data, sqrt).Ok?
    ensures 0.0 <= AverageSpeed(data, sqrt).value
  {
    AverageFails(data, sqrt);
    var speeds := seq(|data|, i requires 0 <= i < |data| => InstantaneousSpeed(data[i], sqrt).value);
    forall i | 0 <= i < |data| ensures InstantaneousSpeed(data[i], sqrt) == Ok(speeds[i]) && 0.0 <= speeds[i] {
      InstantaneousSpeedIsNorm(data[i], sqrt);
    }
    SumNonNegative(speeds);
    if |data| > 0 {
      AverageIsMean(data, speeds, sqrt);
    }
  }

  /** A record whose only fields are the three velocity components. */
  function Velocity(vx: real, vy: real, vz: real): Record
  {
    map["x_dot" := Num(vx), "y_dot" := Num(vy), "z_dot" := Num(vz)]
  }

  /** The unit test `test_get_instantaneous_speed`: velocity (1, 2, 3) has speed sqrt(14). */
  lemma InstantaneousExample(sqrt: real -> real)
    ensures InstantaneousSpeed(Velocity(1.0, 2.0, 3.0), sqrt) == Ok(sqrt(14.0))
  {
  }

  /** The unit test `test_calculate_average_speed`: (sqrt(14) + sqrt(29) + sqrt(50)) / 3. */
  lemma AverageExample(sqrt: real -> real)
    ensures AverageSpeed([Velocity(1.0, 2.0, 3.0), Velocity(2.0, 3.0, 4.0), Velocity(3.0, 4.0, 5.0)], sqrt)
         == Ok((sqrt(14.0) + sqrt(29.0) + sqrt(50.0)) / 3.0)
  {
    var data := [Velocity(1.0, 2.0, 3.0), Velocity(2.0, 3.0, 4.0), Velocity(3.0, 4.0, 5.0)];
    var speeds := [sqrt(14.0), sqrt(29.0), sqrt(50.0)];
    assert InstantaneousSpeed(data[0], sqrt) == Ok(speeds[0]);
    assert InstantaneousSpeed(data[1], sqrt) == Ok(speeds[1]);
    assert InstantaneousSpeed(data[2], sqrt) == Ok(speeds[2]);
    AverageIsMean(data, speeds, sqrt);
    assert speeds[..2] == [sqrt(14.0), sqrt(29.0)] && speeds[..2][..1] == [sqrt(14.0)];
    assert [sqrt(14.0)][..0] == [];
    assert Sum([sqrt(14.0)]) == sqrt(14.0);
    assert Sum(speeds) == sqrt(14.0) + sqrt(29.0) + sqrt(50.0);
    assert AverageSpeed(data, sqrt) == Ok(Sum(speeds) / |data| as real);
    assert Sum(speeds) / |data| as real == Sum(speeds) / 3.0;
  }
}
