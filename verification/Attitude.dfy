/**
 * Attitude conversion between Euler angles and unit quaternions, over the reals. An angle appears as the
 * sine and cosine of its half, and a full angle's as their double-angle forms.
 */
module Attitude {
  datatype Quaternion = Quaternion(w: real, x: real, y: real, z: real)

  /** The cosine and the sine of an angle. */
  datatype Direction = Direction(c: real, s: real)

  datatype Euler = Euler(roll: Direction, pitch: Direction, yaw: Direction)

  ghost predicate OnUnitCircle(d: Direction) { d.c * d.c + d.s * d.s == 1.0 }

  ghost predicate Unit(e: Euler) {
    OnUnitCircle(e.roll) && OnUnitCircle(e.pitch) && OnUnitCircle(e.yaw)
  }

  /** The direction of twice the angle. */
  function Twice(d: Direction): Direction {
    Direction(d.c * d.c - d.s * d.s, 2.0 * d.s * d.c)
  }

  function Full(half: Euler): Euler {
    Euler(Twice(half.roll), Twice(half.pitch), Twice(half.yaw))
  }

  function Norm2(q: Quaternion): real {
    q.w * q.w + q.x * q.x + q.y * q.y + q.z * q.z
  }

  function FromEuler(half: Euler): Quaternion {
    var cr, sr, cp, sp, cy, sy := half.roll.c, half.roll.s, half.pitch.c, half.pitch.s, half.yaw.c, half.yaw.s;
    Quaternion(cr * cp * cy + sr * sp * sy,
               sr * cp * cy - cr * sp * sy,
               cr * sp * cy + sr * cp * sy,
               cr * cp * sy - sr * sp * cy)
  }

  /** The arguments handed to the inverse trigonometric functions. */
  datatype Terms = Terms(sinrCosp: real, cosrCosp: real, sinp: real, sinyCosp: real, cosyCosp: real)

  function TermsOf(q: Quaternion): Terms {
    Terms(2.0 * (q.w * q.x + q.y * q.z),
          1.0 - 2.0 * (q.x * q.x + q.y * q.y),
          2.0 * (q.w * q.y - q.z * q.x),
          2.0 * (q.w * q.z + q.x * q.y),
          1.0 - 2.0 * (q.y * q.y + q.z * q.z))
  }

  /** The components of a quaternion built from the half angles' cosines and sines. */
  ghost predicate Built(r: Direction, p: Direction, y: Direction, q: Quaternion) {
    && q.w == r.c * p.c * y.c + r.s * p.s * y.s
    && q.x == r.s * p.c * y.c - r.c * p.s * y.s
    && q.y == r.c * p.s * y.c + r.s * p.c * y.s
    && q.z == r.c * p.c * y.s - r.s * p.s * y.c
  }

  lemma FromEulerIsBuilt(half: Euler)
    ensures Built(half.roll, half.pitch, half.yaw, FromEuler(half))
  {
  }

  lemma NormFactors(r: Direction, p: Direction, y: Direction, q: Quaternion)
    requires Built(r, p, y, q)
    ensures q.w * q.w + q.x * q.x + q.y * q.y + q.z * q.z
            == (r.c * r.c + r.s * r.s) * (p.c * p.c + p.s * p.s) * (y.c * y.c + y.s * y.s)
  {
  }

  lemma RollSineFactors(r: Direction, p: Direction, y: Direction, q: Quaternion)
    requires Built(r, p, y, q)
    ensures q.w * q.x + q.y * q.z == r.s * r.c * (p.c * p.c - p.s * p.s) * (y.c * y.c + y.s * y.s)
  {
  }

  lemma RollCosineFactors(r: Direction, p: Direction, y: Direction, q: Quaternion)
    requires Built(r, p, y, q)
    ensures q.w * q.w - q.x * q.x - q.y * q.y + q.z * q.z
            == (r.c * r.c - r.s * r.s) * (p.c * p.c - p.s * p.s) * (y.c * y.c + y.s * y.s)
  {
  }

  lemma PitchSineFactors(r: Direction, p: Direction, y: Direction, q: Quaternion)
    requires Built(r, p, y, q)
    ensures q.w * q.y - q.z * q.x == p.s * p.c * (r.c * r.c + r.s * r.s) * (y.c * y.c + y.s * y.s)
  {
  }

  lemma YawSineFactors(r: Direction, p: Direction, y: Direction, q: Quaternion)
    requires Built(r, p, y, q)
    ensures q.w * q.z + q.x * q.y == y.s * y.c * (p.c * p.c - p.s * p.s) * (r.c * r.c + r.s * r.s)
  {
  }

  lemma YawCosineFactors(r: Direction, p: Direction, y: Direction, q: Quaternion)
    requires Built(r, p, y, q)
    ensures q.w * q.w + q.x * q.x - q.y * q.y - q.z * q.z
            == (y.c * y.c - y.s * y.s) * (p.c * p.c - p.s * p.s) * (r.c * r.c + r.s * r.s)
  {
  }

  lemma One(p: real, n: real)
    requires n == 1.0
    ensures p * n == p
  {
  }

  lemma BuiltHasUnitNorm(r: Direction, p: Direction, y: Direction, q: Quaternion)
    requires Built(r, p, y, q) && OnUnitCircle(r) && OnUnitCircle(p) && OnUnitCircle(y)
    ensures q.w * q.w + q.x * q.x + q.y * q.y + q.z * q.z == 1.0
  {
    NormFactors(r, p, y, q);
    hide Built;
    One((r.c * r.c + r.s * r.s) * (p.c * p.c + p.s * p.s), y.c * y.c + y.s * y.s);
    One(r.c * r.c + r.s * r.s, p.c * p.c + p.s * p.s);
  }

  lemma RollTerms(r: Direction, p: Direction, y: Direction, q: Quaternion)
    requires Built(r, p, y, q) && OnUnitCircle(y)
    ensures 2.0 * (q.w * q.x + q.y * q.z) == Twice(r).s * Twice(p).c
    ensures q.w * q.w - q.x * q.x - q.y * q.y + q.z * q.z == Twice(r).c * Twice(p).c
  {
    RollSineFactors(r, p, y, q);
    RollCosineFactors(r, p, y, q);
    hide Built;
    One(r.s * r.c * (p.c * p.c - p.s * p.s), y.c * y.c + y.s * y.s);
    One((r.c * r.c - r.s * r.s) * (p.c * p.c - p.s * p.s), y.c * y.c + y.s * y.s);
  }

  lemma PitchTerm(r: Direction, p: Direction, y: Direction, q: Quaternion)
    requires Built(r, p, y, q) && OnUnitCircle(r) && OnUnitCircle(y)
    ensures 2.0 * (q.w * q.y - q.z * q.x) == Twice(p).s
  {
    PitchSineFactors(r, p, y, q);
    hide Built;
    One(p.s * p.c * (r.c * r.c + r.s * r.s), y.c * y.c + y.s * y.s);
    One(p.s * p.c, r.c * r.c + r.s * r.s);
  }

  lemma YawTerms(r: Direction, p: Direction, y: Direction, q: Quaternion)
    requires Built(r, p, y, q) && OnUnitCircle(r)
    ensures 2.0 * (q.w * q.z + q.x * q.y) == Twice(y).s * Twice(p).c
    ensures q.w * q.w + q.x * q.x - q.y * q.y - q.z * q.z == Twice(y).c * Twice(p).c
  {
    YawSineFactors(r, p, y, q);
    YawCosineFactors(r, p, y, q);
    hide Built;
    One(y.s * y.c * (p.c * p.c - p.s * p.s), r.c * r.c + r.s * r.s);
    One((y.c * y.c - y.s * y.s) * (p.c * p.c - p.s * p.s), r.c * r.c + r.s * r.s);
  }

  /** The built quaternion is a unit quaternion, and the five terms are the full angles' products. */
  lemma TermsAreFullAngleProducts(half: Euler)
    requires Unit(half)
    ensures Norm2(FromEuler(half)) == 1.0
    ensures
      var full := Full(half);
      TermsOf(FromEuler(half)) ==
      Terms(full.roll.s * full.pitch.c, full.roll.c * full.pitch.c, full.pitch.s,
            full.yaw.s * full.pitch.c, full.yaw.c * full.pitch.c)
  {
    var r, p, y, q := half.roll, half.pitch, half.yaw, FromEuler(half);
    hide FromEuler, Built, Twice, OnUnitCircle;
    FromEulerIsBuilt(half);
    BuiltHasUnitNorm(r, p, y, q);
    RollTerms(r, p, y, q);
    PitchTerm(r, p, y, q);
    YawTerms(r, p, y, q);
  }

  /**
   * For every unit quaternion, built here or received, the sine handed to asinf is within its domain, so the
   * clamp never binds; and roll and yaw are read from vectors whose common length is the cosine of pitch.
   */
  lemma ClampNeverBinds(q: Quaternion)
    requires Norm2(q) == 1.0
    ensures
      var t := TermsOf(q);
      && t.sinrCosp * t.sinrCosp + t.cosrCosp * t.cosrCosp == 1.0 - t.sinp * t.sinp
      && t.sinyCosp * t.sinyCosp + t.cosyCosp * t.cosyCosp == 1.0 - t.sinp * t.sinp
      && -1.0 <= t.sinp <= 1.0
  {
    UnitSum(q.w, q.x, q.y, q.z);
    UnitSum(q.w, q.z, q.y, q.x);
    var t := TermsOf(q);
    One(1.0, q.w * q.w + q.x * q.x + q.y * q.y + q.z * q.z);
    hide TermsOf, Norm2;
    Bounded(t.sinp, t.sinrCosp, t.cosrCosp);
  }

  lemma UnitSum(w: real, x: real, y: real, z: real)
    ensures
      var n := w * w + x * x + y * y + z * z;
      var a, b, c := 2.0 * (w * x + y * z), n - 2.0 * (x * x + y * y), 2.0 * (w * y - z * x);
      a * a + b * b + c * c == n * n
  {
  }

  lemma Bounded(s: real, a: real, b: real)
    requires a * a + b * b == 1.0 - s * s
    ensures -1.0 <= s <= 1.0
  {
  }

  function Clamp(value: real, lo: real, hi: real): real {
    if value < lo then lo else if value > hi then hi else value
  }

  /** What atan2 returns, as a direction: parallel to the vector, or angle zero when there is no vector. */
  ghost predicate IsAtan2(sine: real, cosine: real, d: Direction) {
    && OnUnitCircle(d)
    && if sine == 0.0 && cosine == 0.0 then d == Direction(1.0, 0.0)
       else sine * d.c == cosine * d.s && sine * d.s + cosine * d.c > 0.0
  }

  /** What asin returns, as a direction in the right half plane. */
  ghost predicate IsAsin(sine: real, d: Direction) {
    OnUnitCircle(d) && d.s == sine && d.c >= 0.0
  }

  ghost predicate IsEulerOf(q: Quaternion, e: Euler) {
    var t := TermsOf(q);
    && IsAtan2(t.sinrCosp, t.cosrCosp, e.roll)
    && IsAsin(Clamp(t.sinp, -1.0, 1.0), e.pitch)
    && IsAtan2(t.sinyCosp, t.cosyCosp, e.yaw)
  }

  /**
   * Converting to a quaternion and back gives the same three directions exactly when pitch is strictly
   * within a quarter turn, or is a quarter turn with neither roll nor yaw.
   */
  lemma EulerRoundTrip(half: Euler, e: Euler)
    requires Unit(half) && IsEulerOf(FromEuler(half), e)
    ensures
      var full, still := Full(half), Direction(1.0, 0.0);
      e == full <==> full.pitch.c > 0.0 || (full.pitch.c == 0.0 && full.roll == full.yaw == still)
  {
    hide FromEuler, TermsOf, Norm2, Twice, IsAtan2, IsAsin;
    var full, t := Full(half), TermsOf(FromEuler(half));
    TermsAreFullAngleProducts(half);
    ClampNeverBinds(FromEuler(half));
    TwiceStaysOnCircle(half.roll);
    TwiceStaysOnCircle(half.pitch);
    TwiceStaysOnCircle(half.yaw);
    hide OnUnitCircle;
    Atan2Recovers(full.roll, full.pitch.c, t.sinrCosp, t.cosrCosp, e.roll);
    AsinRecovers(full.pitch, e.pitch);
    Atan2Recovers(full.yaw, full.pitch.c, t.sinyCosp, t.cosyCosp, e.yaw);
  }

  lemma TwiceStaysOnCircle(d: Direction)
    requires OnUnitCircle(d)
    ensures OnUnitCircle(Twice(d))
  {
    var cc, ss := d.c * d.c, d.s * d.s;
    assert (cc + ss) * (cc + ss) == 1.0;
  }

  lemma Atan2Recovers(full: Direction, m: real, sine: real, cosine: real, d: Direction)
    requires OnUnitCircle(full) && sine == full.s * m && cosine == full.c * m && IsAtan2(sine, cosine, d)
    ensures m > 0.0 ==> d == full
    ensures m == 0.0 ==> d == Direction(1.0, 0.0)
  {
    if m > 0.0 {
      var cross, dot := full.s * d.c - full.c * d.s, full.s * d.s + full.c * d.c;
      ScaledParallel(full, m, sine, cosine, d, cross, dot);
      Lagrange(full, d);
      hide OnUnitCircle, IsAtan2;
      OnlyOne(cross, dot);
      Unproject(full, d, cross, dot);
    }
  }

  lemma ScaledParallel(full: Direction, m: real, sine: real, cosine: real, d: Direction, cross: real, dot: real)
    requires m > 0.0 && OnUnitCircle(full) && sine == full.s * m && cosine == full.c * m && IsAtan2(sine, cosine, d)
    requires cross == full.s * d.c - full.c * d.s && dot == full.s * d.s + full.c * d.c
    ensures cross == 0.0 && dot > 0.0
  {
    assert sine != 0.0 || cosine != 0.0;
    assert m * cross == sine * d.c - cosine * d.s;
    assert m * dot == sine * d.s + cosine * d.c;
  }

  lemma OnlyOne(cross: real, dot: real)
    requires cross * cross + dot * dot == 1.0 && cross == 0.0 && dot > 0.0
    ensures dot == 1.0
  {
    assert (dot - 1.0) * (dot + 1.0) == 0.0;
  }

  lemma Lagrange(a: Direction, d: Direction)
    requires OnUnitCircle(a) && OnUnitCircle(d)
    ensures
      var cross, dot := a.s * d.c - a.c * d.s, a.s * d.s + a.c * d.c;
      cross * cross + dot * dot == 1.0
  {
    assert (a.s * a.s + a.c * a.c) * (d.s * d.s + d.c * d.c) == 1.0;
  }

  lemma Unproject(a: Direction, d: Direction, cross: real, dot: real)
    requires OnUnitCircle(d)
    requires cross == a.s * d.c - a.c * d.s && dot == a.s * d.s + a.c * d.c
    ensures a.s == d.s * dot + d.c * cross && a.c == d.c * dot - d.s * cross
  {
  }

  lemma AsinRecovers(full: Direction, d: Direction)
    requires OnUnitCircle(full) && IsAsin(full.s, d)
    ensures d.c >= 0.0
    ensures full.c >= 0.0 ==> d == full
  {
    if full.c >= 0.0 {
      SameSquare(d.c, full.c);
    }
  }

  lemma SameSquare(x: real, y: real)
    requires x >= 0.0 && y >= 0.0 && x * x == y * y
    ensures x == y
  {
    assert (x - y) * (x + y) == 0.0;
    Zero(x - y, x + y);
  }

  lemma Zero(p: real, q: real)
    requires p * q == 0.0
    ensures p == 0.0 || q == 0.0
  {
  }
}
