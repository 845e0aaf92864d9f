/** `evas_filter_interpolate` (evas_filter_utils.c): fill a 256-entry byte
    lookup table from control points `(x, value)` given as consecutive
    byte pairs. Point `j` owns the entries from its own x up to the next
    point's x (the last point up to the end of the table). In step mode
    the entries take the point's value; in linear mode they ramp towards
    the next point's value with C integer division. A point whose x is
    below the previous one's stops the fill with failure, leaving the
    earlier segments written. */
module FilterInterpolate {

  /** DATA8. */
  type Byte = b: int | 0 <= b < 256

  /** Entries in the lookup table, and the end of the last segment. */
  const TableSize: int := 256

  /** The interpolation modes; any other value of the C enum falls back to
      linear. */
  datatype Mode = ModeNone | ModeLinear | ModeCubic | ModeOther(code: int)

  /** C's `/` on `int`, which truncates towards zero, for a positive
      divisor. */
  function CDiv(a: int, d: int): (q: int)
    requires d > 0
    ensures a >= 0 ==> 0 <= a - q * d < d
    ensures a < 0 ==> -d < a - q * d <= 0
  {
    if a >= 0 then a / d else -((-a) / d)
  }

  // ---------------------------------------------------------------------
  // The control points

  predicate PointsFit(points: seq<Byte>, n: int)
  {
    2 * n <= |points|
  }

  /** The x of point `j`. */
  function X(points: seq<Byte>, n: int, j: int): int
    requires PointsFit(points, n) && 0 <= j < n
  {
    points[2 * j]
  }

  /** The value of point `j`. */
  function V(points: seq<Byte>, n: int, j: int): Byte
    requires PointsFit(points, n) && 0 <= j < n
  {
    points[2 * j + 1]
  }

  /** Where segment `j` ends: the next point's x, or the table's end. */
  function SegEnd(points: seq<Byte>, n: int, j: int): (x2: int)
    requires PointsFit(points, n) && 0 <= j < n
    ensures 0 <= x2 <= TableSize
  {
    if j < n - 1 then X(points, n, j + 1) else TableSize
  }

  /** The value segment `j` ramps towards: the next point's value, or its
      own for the last segment, which is therefore constant. */
  function SegTarget(points: seq<Byte>, n: int, j: int): Byte
    requires PointsFit(points, n) && 0 <= j < n
  {
    if j < n - 1 then V(points, n, j + 1) else V(points, n, j)
  }

  /** Segment `j` is out of order: it ends before it starts. */
  predicate Backwards(points: seq<Byte>, n: int, j: int)
    requires PointsFit(points, n) && 0 <= j < n
  {
    SegEnd(points, n, j) < X(points, n, j)
  }

  /** The x values never decrease. */
  predicate Ordered(points: seq<Byte>, n: int)
    requires PointsFit(points, n)
  {
    forall j :: 0 <= j < n - 1 ==> X(points, n, j) <= X(points, n, j + 1)
  }

  /** The first segment from `j` on that is out of order, or `n`. */
  function FirstBackwards(points: seq<Byte>, n: int, j: int): (b: int)
    requires PointsFit(points, n) && 0 <= j <= n
    ensures j <= b <= n
    ensures b < n ==> Backwards(points, n, b)
    ensures forall i :: j <= i < b ==> !Backwards(points, n, i)
    decreases n - j
  {
    if j == n then n
    else if Backwards(points, n, j) then j
    else FirstBackwards(points, n, j + 1)
  }

  /** Where the segments before `b` stop covering the table. */
  function CoverEnd(points: seq<Byte>, n: int, b: int): int
    requires PointsFit(points, n) && 0 <= b <= n
  {
    if b < n then X(points, n, b) else TableSize
  }

  // ---------------------------------------------------------------------
  // Filling one segment

  /** The table with entries `lo` to `hi - 1` set to `v`. */
  function Fill(t: seq<Byte>, lo: int, hi: int, v: Byte): (r: seq<Byte>)
    ensures |r| == |t|
    ensures forall i :: 0 <= i < |t| ==> r[i] == (if lo <= i < hi then v else t[i])
  {
    seq(|t|, i requires 0 <= i < |t| => if lo <= i < hi then v else t[i])
  }

  lemma DivBelow(m: nat, i: nat, d: nat)
    requires d > 0 && i <= d
    ensures (m * i) / d <= m
  {
    var q := (m * i) / d;
    assert q * d <= m * i;
    assert m * i <= m * d by {
      assert m * d - m * i == m * (d - i);
    }
    MulCancel(q, m, d);
  }

  lemma MulCancel(q: int, m: int, d: nat)
    requires d > 0 && q * d <= m * d
    ensures q <= m
  {
    assert (m - q) * d == m * d - q * d;
  }

  lemma OffsetRising(a: nat, i: nat, d: nat)
    requires d > 0 && i < d
    ensures 0 <= CDiv(a * i, d) <= a
  {
    var p := a * i;
    assert p >= 0;
    DivBelow(a, i, d);
    var q := p / d;
    assert q >= 0;
    assert q <= a;
    assert CDiv(p, d) == q;
  }

  lemma OffsetFalling(a: int, i: nat, d: nat)
    requires d > 0 && i < d && a < 0
    ensures a <= CDiv(a * i, d) <= 0
  {
    var m: nat := -a;
    var p: nat := m * i;
    DivBelow(m, i, d);
    var q := p / d;
    assert 0 <= q <= m;
    assert a * i == -(p as int);
    if p == 0 {
      assert CDiv(a * i, d) == 0;
    } else {
      assert CDiv(a * i, d) == -q;
    }
  }

  /** The offset of a ramp of total rise `a` over `d` entries, `i`
      entries in, lies between 0 and `a`. */
  lemma OffsetBetween(a: int, i: nat, d: nat)
    requires d > 0 && i < d
    ensures a >= 0 ==> 0 <= CDiv(a * i, d) <= a
    ensures a < 0 ==> a <= CDiv(a * i, d) <= 0
  {
    if a >= 0 {
      OffsetRising(a, i, d);
    } else {
      OffsetFalling(a, i, d);
    }
  }

  /** The entry at `k` of a ramp from `v1` at `x1` towards `v2` at `x2`:
      `v1 + ((v2 - v1) * (k - x1)) / (x2 - x1)` in C arithmetic. It starts
      on `v1` and never leaves the range between the two values, so it
      fits a byte. */
  function RampValue(x1: int, x2: int, v1: Byte, v2: Byte, k: int): (r: Byte)
    requires x1 <= k < x2
    ensures k == x1 ==> r == v1
    ensures v1 <= v2 ==> v1 <= r <= v2
    ensures v2 <= v1 ==> v2 <= r <= v1
  {
    OffsetBetween(v2 - v1, k - x1, x2 - x1);
    v1 + CDiv((v2 - v1) * (k - x1), x2 - x1)
  }

  /** The table with entries `x1` to `x2 - 1` set on the ramp. */
  function Ramp(t: seq<Byte>, x1: int, x2: int, v1: Byte, v2: Byte): (r: seq<Byte>)
    ensures |r| == |t|
    ensures forall i :: 0 <= i < |t| && !(x1 <= i < x2) ==> r[i] == t[i]
    ensures forall i :: 0 <= i < |t| && x1 <= i < x2 ==> r[i] == RampValue(x1, x2, v1, v2, i)
  {
    seq(|t|, i requires 0 <= i < |t| =>
      if x1 <= i < x2 then
        RampValue(x1, x2, v1, v2, i)
      else t[i])
  }

  // ---------------------------------------------------------------------
  // The two fills as specifications

  /** Step mode from point `j` on: the table and the result. */
  function NoneFrom(t: seq<Byte>, points: seq<Byte>, n: int, j: int): (seq<Byte>, bool)
    requires PointsFit(points, n) && 0 <= j && (j <= n || j == 0)
    decreases n - j
  {
    if j >= n then (t, true)
    else if Backwards(points, n, j) then (t, false)
    else NoneFrom(Fill(t, X(points, n, j), SegEnd(points, n, j), V(points, n, j)), points, n, j + 1)
  }

  /** Linear mode from point `j` on. */
  function LinearFrom(t: seq<Byte>, points: seq<Byte>, n: int, j: int): (seq<Byte>, bool)
    requires PointsFit(points, n) && 0 <= j && (j <= n || j == 0)
    decreases n - j
  {
    if j >= n then (t, true)
    else if Backwards(points, n, j) then (t, false)
    else
      var t2 := Ramp(t, X(points, n, j), SegEnd(points, n, j), V(points, n, j), SegTarget(points, n, j));
      LinearFrom(t2, points, n, j + 1)
  }

  /** `evas_filter_interpolate`: cubic mode is not implemented and fails
      without writing; unknown modes are linear. */
  function InterpolateSpec(t: seq<Byte>, points: seq<Byte>, n: int, mode: Mode): (seq<Byte>, bool)
    requires PointsFit(points, n)
  {
    match mode
    case ModeNone => NoneFrom(t, points, n, 0)
    case ModeCubic => (t, false)
    case _ => LinearFrom(t, points, n, 0)
  }

  // ---------------------------------------------------------------------
  // What the fills produce

  /** Step mode: the fill succeeds exactly when the x values never
      decrease. Each segment before the first out-of-order one holds its
      point's value; every other entry (below the first x, and from the
      out-of-order point's x on) keeps its old value. */
  lemma {:induction false} NoneTable(t: seq<Byte>, points: seq<Byte>, n: int, j: int)
    requires PointsFit(points, n) && 0 <= j <= n && |t| == TableSize
    ensures var (r, ok) := NoneFrom(t, points, n, j);
      var b := FirstBackwards(points, n, j);
      |r| == TableSize
      && (ok <==> b == n)
      && (forall i, k :: j <= i < b && X(points, n, i) <= k < SegEnd(points, n, i) ==> r[k] == V(points, n, i))
      && (forall k :: 0 <= k < TableSize && (j == b || k < X(points, n, j) || k >= CoverEnd(points, n, b)) ==> r[k] == t[k])
    decreases n - j
  {
    if j < n && !Backwards(points, n, j) {
      var x1 := X(points, n, j);
      var x2 := SegEnd(points, n, j);
      var t2 := Fill(t, x1, x2, V(points, n, j));
      NoneTable(t2, points, n, j + 1);
      var b := FirstBackwards(points, n, j);
      assert b == FirstBackwards(points, n, j + 1);
      var r := NoneFrom(t2, points, n, j + 1).0;
      forall k | 0 <= k < TableSize && x1 <= k < x2
        ensures r[k] == V(points, n, j)
      {
        assert j + 1 == b || k < X(points, n, j + 1);
      }
      forall k | 0 <= k < TableSize && (k < x1 || k >= CoverEnd(points, n, b))
        ensures r[k] == t[k]
      {
        CoverEndMonotone(points, n, j);
      }
    }
  }

  /** The entries of segments before the first out-of-order point and at
      or above the first point's x; everything else keeps its value. */
  lemma CoverEndMonotone(points: seq<Byte>, n: int, j: int)
    requires PointsFit(points, n) && 0 <= j < n && !Backwards(points, n, j)
    ensures CoverEnd(points, n, FirstBackwards(points, n, j)) >= SegEnd(points, n, j)
    decreases n - j
  {
    var b := FirstBackwards(points, n, j);
    if j + 1 < n && b > j + 1 {
      CoverEndMonotone(points, n, j + 1);
    }
  }

  /** Linear mode: the same coverage as step mode, with the entries of
      segment `i` on the ramp from its point's value towards the next
      point's. */
  lemma {:induction false} LinearTable(t: seq<Byte>, points: seq<Byte>, n: int, j: int)
    requires PointsFit(points, n) && 0 <= j <= n && |t| == TableSize
    ensures var (r, ok) := LinearFrom(t, points, n, j);
      var b := FirstBackwards(points, n, j);
      |r| == TableSize
      && (ok <==> b == n)
      && (forall i, k :: j <= i < b && X(points, n, i) <= k < SegEnd(points, n, i) ==>
            r[k] == RampValue(X(points, n, i), SegEnd(points, n, i), V(points, n, i), SegTarget(points, n, i), k))
      && (forall k :: 0 <= k < TableSize && (j == b || k < X(points, n, j) || k >= CoverEnd(points, n, b)) ==> r[k] == t[k])
    decreases n - j
  {
    if j < n && !Backwards(points, n, j) {
      var x1 := X(points, n, j);
      var x2 := SegEnd(points, n, j);
      var t2 := Ramp(t, x1, x2, V(points, n, j), SegTarget(points, n, j));
      LinearTable(t2, points, n, j + 1);
      var b := FirstBackwards(points, n, j);
      assert b == FirstBackwards(points, n, j + 1);
      var r := LinearFrom(t2, points, n, j + 1).0;
      forall k | 0 <= k < TableSize && x1 <= k < x2
        ensures r[k] == RampValue(x1, x2, V(points, n, j), SegTarget(points, n, j), k)
      {
        assert j + 1 == b || k < X(points, n, j + 1);
      }
      forall k | 0 <= k < TableSize && (k < x1 || k >= CoverEnd(points, n, b))
        ensures r[k] == t[k]
      {
        CoverEndMonotone(points, n, j);
      }
    }
  }

  /** Both fills succeed exactly when the x values never decrease. */
  lemma SucceedsIffOrdered(t: seq<Byte>, points: seq<Byte>, n: int)
    requires PointsFit(points, n) && |t| == TableSize
    ensures NoneFrom(t, points, n, 0).1 <==> Ordered(points, n)
    ensures LinearFrom(t, points, n, 0).1 <==> Ordered(points, n)
  {
    if n > 0 {
      NoneTable(t, points, n, 0);
      LinearTable(t, points, n, 0);
      var b := FirstBackwards(points, n, 0);
      if b < n {
        assert X(points, n, b + 1) < X(points, n, b);
      } else {
        forall j | 0 <= j < n - 1
          ensures X(points, n, j) <= X(points, n, j + 1)
        {
          assert !Backwards(points, n, j);
        }
      }
    }
  }

  /** The two points (0, 0) and (255, 255) give the identity table in
      linear mode. */
  lemma LinearIdentity(t: seq<Byte>)
    requires |t| == TableSize
    ensures var (r, ok) := LinearFrom(t, [0, 0, 255, 255], 2, 0);
      ok && forall k :: 0 <= k < TableSize ==> r[k] == k
  {
    var points: seq<Byte> := [0, 0, 255, 255];
    LinearTable(t, points, 2, 0);
    assert FirstBackwards(points, 2, 0) == 2;
    var r := LinearFrom(t, points, 2, 0).0;
    forall k | 0 <= k < TableSize
      ensures r[k] == k
    {
      if k < 255 {
        assert X(points, 2, 0) <= k < SegEnd(points, 2, 0);
        assert (255 - 0) * (k - 0) == k * 255;
        assert RampValue(0, 255, 0, 255, k) == k;
      } else {
        assert X(points, 2, 1) <= k < SegEnd(points, 2, 1);
      }
    }
  }

  /** With no points (or a negative count) the table is untouched and the
      fill succeeds, in both modes. */
  lemma NoPoints(t: seq<Byte>, points: seq<Byte>, n: int)
    requires PointsFit(points, n) && n <= 0
    ensures NoneFrom(t, points, n, 0) == (t, true) && LinearFrom(t, points, n, 0) == (t, true)
  {
  }

  // ---------------------------------------------------------------------
  // The C functions, writing the table in place

  /** `_interpolate_none`. */
  method InterpolateNone(output: array<Byte>, points: seq<Byte>, pointCount: int) returns (ok: bool)
    requires output.Length == TableSize && PointsFit(points, pointCount)
    modifies output
    ensures (output[..], ok) == NoneFrom(old(output[..]), points, pointCount, 0)
  {
    var j := 0;
    while j < pointCount
      invariant 0 <= j && (j <= pointCount || j == 0)
      invariant NoneFrom(output[..], points, pointCount, j) == NoneFrom(old(output[..]), points, pointCount, 0)
      decreases pointCount - j
    {
      var x1 := points[j * 2] as int;
      var val := points[j * 2 + 1];
      var x2;
      if j < pointCount - 1 {
        x2 := points[(j + 1) * 2] as int;
      } else {
        x2 := 256;
      }
      if x2 < x1 {
        return false;
      }
      ghost var t0 := output[..];
      var k := x1;
      while k < x2
        invariant x1 <= k <= x2
        invariant forall i :: 0 <= i < TableSize ==> output[i] == (if x1 <= i < k then val else t0[i])
      {
        output[k] := val;
        k := k + 1;
      }
      assert output[..] == Fill(t0, x1, x2, val);
      j := j + 1;
    }
    return true;
  }

  /** `_interpolate_linear`. */
  method InterpolateLinear(output: array<Byte>, points: seq<Byte>, pointCount: int) returns (ok: bool)
    requires output.Length == TableSize && PointsFit(points, pointCount)
    modifies output
    ensures (output[..], ok) == LinearFrom(old(output[..]), points, pointCount, 0)
  {
    var j := 0;
    while j < pointCount
      invariant 0 <= j && (j <= pointCount || j == 0)
      invariant LinearFrom(output[..], points, pointCount, j) == LinearFrom(old(output[..]), points, pointCount, 0)
      decreases pointCount - j
    {
      var x1 := points[j * 2] as int;
      var val1 := points[j * 2 + 1];
      var x2, val2;
      if j < pointCount - 1 {
        x2 := points[(j + 1) * 2] as int;
        val2 := points[(j + 1) * 2 + 1];
      } else {
        x2 := 256;
        val2 := val1;
      }
      if x2 < x1 {
        return false;
      }
      ghost var t0 := output[..];
      var k := x1;
      while k < x2
        invariant x1 <= k <= x2
        invariant forall i :: 0 <= i < TableSize ==>
          output[i] == (if x1 <= i < k then RampValue(x1, x2, val1, val2, i) else t0[i])
      {
        var d := (val2 - val1) * (k - x1);
        var q := if d >= 0 then d / (x2 - x1) else -((-d) / (x2 - x1));
        assert val1 + q == RampValue(x1, x2, val1, val2, k);
        output[k] := val1 + q;
        k := k + 1;
      }
      assert output[..] == Ramp(t0, x1, x2, val1, val2);
      j := j + 1;
    }
    return true;
  }

  /** `_interpolate_cubic`: not implemented; fails and writes nothing. */
  method InterpolateCubic(output: array<Byte>, points: seq<Byte>, pointCount: int) returns (ok: bool)
    ensures !ok
  {
    return false;
  }

  /** `evas_filter_interpolate`. */
  method Interpolate(output: array<Byte>, points: seq<Byte>, pointCount: int, mode: Mode) returns (ok: bool)
    requires output.Length == TableSize && PointsFit(points, pointCount)
    modifies output
    ensures (output[..], ok) == InterpolateSpec(old(output[..]), points, pointCount, mode)
  {
    match mode {
      case ModeNone =>
        ok := InterpolateNone(output, points, pointCount);
      case ModeCubic =>
        ok := InterpolateCubic(output, points, pointCount);
      case _ =>
        ok := InterpolateLinear(output, points, pointCount);
    }
  }
}
