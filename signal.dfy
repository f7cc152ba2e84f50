/** Rows of the sensor matrix loaded from one recording, and the whole-matrix
    operations the loader applies to them: the degree-to-radian conversion of
    the gyroscope columns and Python slicing. */
module Signal {

  /** Three channels of one sensor. */
  datatype Vec3 = Vec3(x: real, y: real, z: real) {
    /** The three channels as matrix columns, in order. */
    function Channels(): (r: seq<real>)
      ensures |r| == 3 && r[0] == x && r[1] == y && r[2] == z
    {
      [x, y, z]
    }
  }

  /** One row of the sensor matrix: accelerometer in columns 0-2, gyroscope in
      columns 3-5, then the stance/swing flag (column -2) and an auxiliary flag
      (column -1) that the loader never reads. */
  datatype Sample = Sample(acc: Vec3, gyro: Vec3, stance: int, aux: int)

  /** The double nearest to pi, as numpy uses it. */
  const Pi: real := 3.141592653589793

  /** np.radians on one value (exact real arithmetic). */
  function Radians(deg: real): (rad: real)
    ensures rad * 180.0 == deg * Pi
  {
    deg * Pi / 180.0
  }

  function RadiansVec(v: Vec3): Vec3
  {
    Vec3(Radians(v.x), Radians(v.y), Radians(v.z))
  }

  /** The indicator column data[:, -2]. */
  function Stances(x: seq<Sample>): (ind: seq<int>)
    ensures |ind| == |x|
    ensures forall k :: 0 <= k < |x| ==> ind[k] == x[k].stance
  {
    seq(|x|, k requires 0 <= k < |x| => x[k].stance)
  }

  /** data[:, 3:6] = np.radians(data[:, 3:6]): only the gyroscope columns are
      converted, once, and every other column is left as it was. */
  function ToRadians(x: seq<Sample>): (y: seq<Sample>)
    ensures |y| == |x|
    ensures forall k :: 0 <= k < |x| ==>
      y[k].gyro == RadiansVec(x[k].gyro) && y[k].acc == x[k].acc &&
      y[k].stance == x[k].stance && y[k].aux == x[k].aux
    ensures Stances(y) == Stances(x)
  {
    seq(|x|, k requires 0 <= k < |x| => x[k].(gyro := RadiansVec(x[k].gyro)))
  }

  /** Python's normalisation of one slice bound against a length n: a negative
      bound counts from the end, and the result is clamped to [0, n]. */
  function SliceIndex(n: nat, k: int): (r: nat)
    ensures r <= n
  {
    if k < 0 then (if k + n < 0 then 0 else k + n)
    else if k > n then n
    else k
  }

  /** The rows [a, b) that the Python slice s[lo:hi] selects from n rows; a
      start past the stop selects nothing. */
  function SliceBounds(n: nat, lo: int, hi: int): (r: (nat, nat))
    ensures r.0 <= r.1 <= n
    ensures 0 <= lo <= hi <= n ==> r == (lo, hi)
    ensures 0 <= hi <= lo <= n ==> r.0 == r.1
    ensures lo + n <= 0 && hi + n <= 0 ==> r.0 == r.1 == 0
  {
    var a := SliceIndex(n, lo);
    var b := SliceIndex(n, hi);
    if a <= b then (a, b) else (a, a)
  }

  /** The Python slice s[lo:hi]. */
  function PySlice<T>(s: seq<T>, lo: int, hi: int): (r: seq<T>)
    ensures |r| <= |s|
    ensures 0 <= lo <= hi <= |s| ==> r == s[lo..hi]
  {
    var (a, b) := SliceBounds(|s|, lo, hi);
    s[a..b]
  }
}
