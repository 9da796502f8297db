/**
 * The particle goal weights of spring_tool/spring_tool.py: the user's spring
 * value turned into a goal weight, and the weight handed down the chain.
 */
module Weights {
  import opened Wrappers

  function Min(a: real, b: real): real {
    if a <= b then a else b
  }

  function Max(a: real, b: real): real {
    if a >= b then a else b
  }

  /** `max(0, min(1, w))`: `w` brought into [0, 1]. */
  function Clamp01(w: real): (r: real)
    ensures 0.0 <= r <= 1.0
    ensures 0.0 <= w <= 1.0 ==> r == w
    ensures w < 0.0 ==> r == 0.0
    ensures w > 1.0 ==> r == 1.0
  {
    Max(0.0, Min(1.0, w))
  }

  /**
   * get_user_spring_weight for the spring value `spring`: the goal weight
   * `1 - spring`, kept in [0, 1].
   */
  function UserSpringWeight(spring: real): (r: real)
    ensures 0.0 <= r <= 1.0
    ensures 0.0 <= spring <= 1.0 ==> r == 1.0 - spring
    ensures spring >= 1.0 ==> r == 0.0
    ensures spring <= 0.0 ==> r == 1.0
  {
    Clamp01(1.0 - spring)
  }

  /** A stiffer spring never gives a larger goal weight. */
  lemma UserSpringWeightAntitone(a: real, b: real)
    requires a <= b
    ensures UserSpringWeight(b) <= UserSpringWeight(a)
  {
  }

  /**
   * get_overlap_weight_math: `spring_weight / decay`, rounded to two decimals
   * by `round2` (the source formats with '{:.2f}' and parses back), then kept
   * in [0, 1]. A zero decay raises ZeroDivisionError.
   */
  function OverlapWeightMath(springWeight: real, decay: real, round2: real -> real): (r: Result<real, PyError>)
    ensures r.Failure? <==> decay == 0.0
    ensures r.Failure? ==> r.error == ZeroDivisionError
    ensures r.Success? ==> 0.0 <= r.value <= 1.0
    ensures r.Success? ==> r.value == Clamp01(round2(springWeight / decay))
    ensures r.Success? && 0.0 <= round2(springWeight / decay) <= 1.0 ==> r.value == round2(springWeight / decay)
    ensures r.Success? && round2(springWeight / decay) < 0.0 ==> r.value == 0.0
    ensures r.Success? && round2(springWeight / decay) > 1.0 ==> r.value == 1.0
  {
    if decay == 0.0 then Failure(ZeroDivisionError)
    else Success(Clamp01(round2(springWeight / decay)))
  }
}
