/**
 * The aim axis of a controller chain (spring_tool/spring_tool.py): the axis
 * along which the aim locator sits furthest from its parent picks the aim
 * and up vectors of the aim constraint built in rotation mode.
 */
module Aim {

  /** An integer 3-vector, as the AIM_VECTORS table writes them. */
  datatype Vector = Vector(x: int, y: int, z: int)

  /** The directions get_direction can return: a 1-based axis with a sign. */
  const DirectionKeys: set<int> := {1, 2, 3, -1, -2, -3}

  /** AIM_VECTORS as written: direction -> (aim vector, up vector). */
  const AimVectors: map<int, (Vector, Vector)> := map[
    1 := (Vector(1, 0, 0), Vector(0, 0, 1)),
    2 := (Vector(0, 0, 1), Vector(1, 0, 0)),
    3 := (Vector(1, 0, 0), Vector(1, 0, 0)),
    -1 := (Vector(-1, 0, 0), Vector(0, 0, 1)),
    -2 := (Vector(0, -1, 0), Vector(0, 0, 1)),
    -3 := (Vector(0, 0, -1), Vector(1, 0, 0))
  ]

  /** The unit vector along axis `|d| - 1`, pointing the way the sign of `d` says. */
  function AxisVector(d: int): Vector
    requires d in DirectionKeys
  {
    match d
    case 1 => Vector(1, 0, 0)
    case 2 => Vector(0, 1, 0)
    case 3 => Vector(0, 0, 1)
    case -1 => Vector(-1, 0, 0)
    case -2 => Vector(0, -1, 0)
    case -3 => Vector(0, 0, -1)
  }

  function Dot(a: Vector, b: Vector): int {
    a.x * b.x + a.y * b.y + a.z * b.z
  }

  /**
   * As written, the +z entry aims along x with an up vector equal to its aim
   * vector, and the +y entry aims along z: neither aims along its own axis.
   */
  lemma AimVectorsAsWrittenAreOffAxis()
    ensures AimVectors.Keys == DirectionKeys
    ensures AimVectors[3].0 == AimVectors[3].1
    ensures AimVectors[3].0 != AxisVector(3) && AimVectors[2].0 != AxisVector(2)
  {
  }

  /** AIM_VECTORS as evidently intended: the +y and +z rows mirror the -y and -z rows. */
  const AimVectorsIntended: map<int, (Vector, Vector)> := map[
    1 := (Vector(1, 0, 0), Vector(0, 0, 1)),
    2 := (Vector(0, 1, 0), Vector(0, 0, 1)),
    3 := (Vector(0, 0, 1), Vector(1, 0, 0)),
    -1 := (Vector(-1, 0, 0), Vector(0, 0, 1)),
    -2 := (Vector(0, -1, 0), Vector(0, 0, 1)),
    -3 := (Vector(0, 0, -1), Vector(1, 0, 0))
  ]

  /** Every intended entry aims along its own axis with an up vector at right angles. */
  lemma AimVectorsIntendedAreOnAxis()
    ensures AimVectorsIntended.Keys == DirectionKeys
    ensures forall d :: d in DirectionKeys ==>
              AimVectorsIntended[d].0 == AxisVector(d) && Dot(AimVectorsIntended[d].0, AimVectorsIntended[d].1) == 0
  {
  }

  /**
   * The lookup `AIM_VECTORS[direction]` over the corrected table: the aim
   * and up vectors of the aim constraint for `direction`. It differs from
   * the table as written only for the +y and +z directions.
   */
  function AimAndUp(direction: int): (r: (Vector, Vector))
    requires direction in DirectionKeys
    ensures r.0 == AxisVector(direction) && Dot(r.0, r.1) == 0
  {
    AimVectorsIntendedAreOnAxis();
    AimVectorsIntended[direction]
  }

  /** Outside the +y and +z directions the corrected lookup is the table as written. */
  lemma AimAndUpAgreesWithTable(direction: int)
    requires direction in DirectionKeys && direction != 2 && direction != 3
    ensures AimAndUp(direction) == AimVectors[direction]
  {
  }

  function Abs(r: real): real {
    if r < 0.0 then -r else r
  }

  /** `s[k]` is the first element of largest absolute value. */
  predicate IsFirstMaxAbs(s: seq<real>, k: int) {
    && 0 <= k < |s|
    && (forall j :: 0 <= j < |s| ==> Abs(s[j]) <= Abs(s[k]))
    && (forall j :: 0 <= j < k ==> Abs(s[j]) < Abs(s[k]))
  }

  /** There is only one first element of largest absolute value. */
  lemma FirstMaxAbsUnique(s: seq<real>, k1: int, k2: int)
    requires IsFirstMaxAbs(s, k1) && IsFirstMaxAbs(s, k2)
    ensures k1 == k2
  {
    assert Abs(s[k1]) == Abs(s[k2]);
  }

  /**
   * The direction get_direction computes from the locator translation
   * `(x, y, z)`: `|d| - 1` is the index of the first component of largest
   * absolute value, and `d` is negative exactly when that component is.
   * It is always a key of the aim-vector table.
   */
  function Direction(x: real, y: real, z: real): (d: int)
    ensures d in DirectionKeys && d in AimVectors && d in AimVectorsIntended
    ensures IsFirstMaxAbs([x, y, z], (if d < 0 then -d else d) - 1)
    ensures d < 0 <==> [x, y, z][(if d < 0 then -d else d) - 1] < 0.0
  {
    var k := if Abs(x) >= Abs(y) && Abs(x) >= Abs(z) then 0
             else if Abs(y) >= Abs(z) then 1
             else 2;
    if [x, y, z][k] < 0.0 then -(k + 1) else k + 1
  }

  /** Direction picks the signed 1-based index of the first component of largest absolute value. */
  lemma DirectionOfFirstMax(x: real, y: real, z: real, k: int)
    requires IsFirstMaxAbs([x, y, z], k)
    ensures Direction(x, y, z) == if [x, y, z][k] < 0.0 then -(k + 1) else k + 1
  {
    var d := Direction(x, y, z);
    FirstMaxAbsUnique([x, y, z], k, (if d < 0 then -d else d) - 1);
  }

  /** The first position holding the first largest element is that element's position. */
  lemma FirstEqualIsFirstMax(s: seq<real>, k: int, index: nat)
    requires IsFirstMaxAbs(s, k)
    requires index < |s| && s[index] == s[k]
    requires forall j :: 0 <= j < index ==> s[j] != s[k]
    ensures index == k
  {
    assert Abs(s[index]) == Abs(s[k]);
  }

  /** `max(s, key=abs)`: the first element of largest absolute value. */
  method MaxByAbs(s: seq<real>) returns (m: real)
    requires |s| > 0
    ensures exists k :: IsFirstMaxAbs(s, k) && s[k] == m
  {
    var best := 0;
    for i := 1 to |s|
      invariant 0 <= best < i
      invariant forall j :: 0 <= j < i ==> Abs(s[j]) <= Abs(s[best])
      invariant forall j :: 0 <= j < best ==> Abs(s[j]) < Abs(s[best])
    {
      if Abs(s[i]) > Abs(s[best]) {
        best := i;
      }
    }
    m := s[best];
    assert IsFirstMaxAbs(s, best);
  }

  /** `s.index(v)`: the first position holding `v`. */
  method IndexOf(s: seq<real>, v: real) returns (k: nat)
    requires v in s
    ensures k < |s| && s[k] == v
    ensures forall j :: 0 <= j < k ==> s[j] != v
  {
    k := 0;
    while s[k] != v
      invariant k < |s| && v in s[k..]
      invariant forall j :: 0 <= j < k ==> s[j] != v
      decreases |s| - k
    {
      assert s[k..] == [s[k]] + s[k + 1..];
      k := k + 1;
    }
  }

  /** The part of the main window that get_direction updates. */
  class SpringToolWindow {
    /** The aim locator's last translation read by GetDirection. */
    var axes: seq<real>

    constructor ()
      ensures axes == [0.0, 0.0, 0.0]
    {
      axes := [0.0, 0.0, 0.0];
    }

    /**
     * get_direction, with the locator translation `(tx, ty, tz)` read from
     * the scene passed in: it records the translation in `axes` and returns
     * the signed 1-based axis of its first largest component.
     */
    method GetDirection(tx: real, ty: real, tz: real) returns (direction: int)
      modifies this
      ensures axes == [tx, ty, tz]
      ensures direction == Direction(tx, ty, tz)
      ensures direction in AimVectors
    {
      axes := [];
      axes := axes + [tx];
      axes := axes + [ty];
      axes := axes + [tz];
      assert axes == [tx, ty, tz];
      var largest := MaxByAbs(axes);
      var index := IndexOf(axes, largest);
      direction := index + 1;
      if axes[direction - 1] < 0.0 {
        direction := direction * -1;
      }
      ghost var k :| IsFirstMaxAbs(axes, k) && axes[k] == largest;
      FirstEqualIsFirstMax(axes, k, index);
      DirectionOfFirstMax(tx, ty, tz, k);
    }
  }
}
