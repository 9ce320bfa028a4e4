/**
 * The target-practice view: three floating targets, a laser cast from the
 * right wrist through the palm, and a finger-gun gesture that arms and fires
 * it. Each hand-tracking frame runs `updateTargets` (stamp the targets the
 * ray meets, move the ones shot on a fire frame, report the nearest) and
 * then the gesture gate (ready pose arms, trigger pose fires, a debounce
 * disarms, a cooldown restores the laser's opacity).
 *
 * Time is a real number of seconds passed to each event. Both readings of
 * the clock in one `updateTargets` iteration are taken as the same instant.
 * The similarity scores of the hand poses are inputs, and
 * `randomPosition()` is a sequence of draws.
 */
module TargetPractice {
  import opened Wrappers
  import opened Linear

  /** The targets' scale, which is also the radius of the sphere the ray is intersected with. */
  const TargetScale: real := 0.25

  const NumberOfTargets: nat := 3

  /** The ready pose's similarity above which the gun is armed. */
  const FingerGunThreshold: real := 0.95

  /** The trigger pose's similarity above which the gun fires. */
  const TriggerThreshold: real := 0.9

  /** How long after the last ready pose the gun may be disarmed, in seconds. */
  const DebounceInterval: real := 0.125

  /** How long a ray contact counts as "on target", in seconds. */
  const OnTargetValidity: real := 0.1

  /** The laser's opacity outside a flash. */
  const DefaultLaserOpacity: real := 0.25

  /** The laser's opacity during a flash. */
  const FlashOpacity: real := 1.0

  // ---------------------------------------------------------------------
  // The ray test.

  /** The ray from the wrist: its start and direction. */
  datatype Ray = Ray(start: Vec3, direction: Vec3)

  /**
   * `rayIntersectsSphere`: solves `|start + t·dir - center|² = r²` for the
   * nearer root `t`; no hit when the discriminant is negative or that root
   * is behind the start, otherwise the point at `t`. The direction is the
   * normalised wrist-to-palm vector tilted down, never zero.
   */
  function RayIntersectsSphere(ray: Ray, center: Vec3, radius: real, sqrt: real -> real): (hit: Option<Vec3>)
    requires Dot(ray.direction, ray.direction) > 0.0
    ensures hit.Some? ==> hit.value == Add(ray.start, Scale(NearRoot(ray, center, radius, sqrt), ray.direction))
    ensures hit.Some? <==> Discriminant(ray, center, radius) >= 0.0 && NearRoot(ray, center, radius, sqrt) >= 0.0
  {
    var discriminant := Discriminant(ray, center, radius);
    if discriminant < 0.0 then None
    else
      var t := NearRoot(ray, center, radius, sqrt);
      if t < 0.0 then None
      else Some(Add(ray.start, Scale(t, ray.direction)))
  }

  /** The coefficients `a`, `b`, `c` of the ray-sphere quadratic `a·t² + b·t + c`. */
  function QuadA(ray: Ray): real
  {
    Dot(ray.direction, ray.direction)
  }

  function QuadB(ray: Ray, center: Vec3): real
  {
    2.0 * Dot(Sub(ray.start, center), ray.direction)
  }

  function QuadC(ray: Ray, center: Vec3, radius: real): real
  {
    Dot(Sub(ray.start, center), Sub(ray.start, center)) - radius * radius
  }

  function Discriminant(ray: Ray, center: Vec3, radius: real): real
  {
    QuadB(ray, center) * QuadB(ray, center) - 4.0 * QuadA(ray) * QuadC(ray, center, radius)
  }

  /** The nearer root `(-b - √disc) / 2a`. */
  function NearRoot(ray: Ray, center: Vec3, radius: real, sqrt: real -> real): real
    requires Dot(ray.direction, ray.direction) > 0.0
  {
    (-QuadB(ray, center) - sqrt(Discriminant(ray, center, radius))) / (2.0 * QuadA(ray))
  }

  /** The squared distance from the center of the point at parameter `t`. */
  lemma {:induction false} ExpandAlongRay(ray: Ray, center: Vec3, t: real)
    ensures var p := Add(ray.start, Scale(t, ray.direction));
      Dot(Sub(p, center), Sub(p, center)) ==
        Dot(Sub(ray.start, center), Sub(ray.start, center))
        + t * (2.0 * Dot(Sub(ray.start, center), ray.direction))
        + t * t * Dot(ray.direction, ray.direction)
  {
    var o := Sub(ray.start, center);
    var d := ray.direction;
    var p := Add(ray.start, Scale(t, d));
    assert Sub(p, center) == Vec3(o.x + t * d.x, o.y + t * d.y, o.z + t * d.z);
    assert (o.x + t * d.x) * (o.x + t * d.x) == o.x * o.x + 2.0 * t * (o.x * d.x) + t * t * (d.x * d.x);
    assert (o.y + t * d.y) * (o.y + t * d.y) == o.y * o.y + 2.0 * t * (o.y * d.y) + t * t * (d.y * d.y);
    assert (o.z + t * d.z) * (o.z + t * d.z) == o.z * o.z + 2.0 * t * (o.z * d.z) + t * t * (d.z * d.z);
  }

  /** `(-b - s) / 2a` is a root of `a·t² + b·t + c` when `s² = b² - 4ac`. */
  lemma {:induction false} QuadraticRoot(a: real, b: real, c: real, s: real, t: real)
    requires a > 0.0 && s * s == b * b - 4.0 * a * c
    requires t * (2.0 * a) == -b - s
    ensures a * t * t + b * t + c == 0.0
  {
    var at := a * t;
    assert at == (-b - s) / 2.0;
    assert at * at + b * at + a * c == ((b + s) * (b + s) - 2.0 * b * (b + s)) / 4.0 + a * c;
    assert (b + s) * (b + s) - 2.0 * b * (b + s) == s * s - b * b;
    assert a * (a * t * t + b * t + c) == at * at + b * at + a * c;
    assert a * (a * t * t + b * t + c) == 0.0;
  }

  /**
   * A hit lies on the target's sphere, at a non-negative parameter along
   * the ray, when `sqrt` is the square root at the discriminant.
   */
  lemma HitOnSphere(ray: Ray, center: Vec3, radius: real, sqrt: real -> real)
    requires Dot(ray.direction, ray.direction) > 0.0
    requires IsSqrtAt(sqrt, Discriminant(ray, center, radius))
    requires RayIntersectsSphere(ray, center, radius, sqrt).Some?
    ensures var p := RayIntersectsSphere(ray, center, radius, sqrt).value;
      SqDist(p, center) == radius * radius
  {
    var t := NearRoot(ray, center, radius, sqrt);
    var a, b, c := QuadA(ray), QuadB(ray, center), QuadC(ray, center, radius);
    assert t * (2.0 * a) == -b - sqrt(Discriminant(ray, center, radius));
    QuadraticRoot(a, b, c, sqrt(Discriminant(ray, center, radius)), t);
    ExpandAlongRay(ray, center, t);
  }

  /**
   * A negative discriminant means the whole line stays outside the sphere:
   * no point along it, ahead or behind, touches the target.
   */
  lemma MissStaysOutside(ray: Ray, center: Vec3, radius: real, t: real)
    requires Dot(ray.direction, ray.direction) > 0.0
    requires Discriminant(ray, center, radius) < 0.0
    ensures var p := Add(ray.start, Scale(t, ray.direction));
      SqDist(p, center) > radius * radius
  {
    var a, b, c := QuadA(ray), QuadB(ray, center), QuadC(ray, center, radius);
    ExpandAlongRay(ray, center, t);
    var u := 2.0 * a * t + b;
    SquareNonneg(u);
    assert 4.0 * a * (a * t * t + b * t + c) == u * u - (b * b - 4.0 * a * c);
    assert a * t * t + b * t + c > 0.0 by {
      if a * t * t + b * t + c <= 0.0 {
        MulNonneg(4.0 * a, -(a * t * t + b * t + c));
      }
    }
  }

  /**
   * A ray that starts inside a target never reports it: the nearer root is
   * then behind the start.
   */
  lemma InsideStartMisses(ray: Ray, center: Vec3, radius: real, sqrt: real -> real)
    requires Dot(ray.direction, ray.direction) > 0.0
    requires SqDist(ray.start, center) < radius * radius
    requires IsSqrtAt(sqrt, Discriminant(ray, center, radius))
    ensures RayIntersectsSphere(ray, center, radius, sqrt).None?
  {
    var a, b, c := QuadA(ray), QuadB(ray, center), QuadC(ray, center, radius);
    var s := sqrt(Discriminant(ray, center, radius));
    MulPos(4.0 * a, -c);
    assert s * s > b * b;
    var mb := if b < 0.0 then -b else b;
    assert mb * mb == b * b;
    if s <= mb {
      if s < mb {
        SquareLess(mb, s);
      }
    }
    assert -b - s < 0.0;
    var t := NearRoot(ray, center, radius, sqrt);
    assert t * (2.0 * a) == -b - s;
    if t >= 0.0 {
      MulNonneg(t, 2.0 * a);
    }
  }

  // ---------------------------------------------------------------------
  // Targets and one frame.

  /** A `Target`: its entity's position, whether it was hit this frame, and when the ray last met it. */
  datatype Target = Target(position: Vec3, isHit: bool, lastOnTargetTime: Option<real>)

  /** The box `randomPosition()` draws from. */
  predicate InSpawnBox(p: Vec3)
  {
    -1.0 <= p.x <= 1.0 && 0.25 <= p.y <= 1.75 && -5.0 <= p.z <= -2.0
  }

  /** `isRecentlyOnTarget`: met by the ray at most 0.1 s before `now`. */
  function IsRecentlyOnTarget(lastOnTargetTime: Option<real>, now: real): (recent: bool)
    ensures recent <==> lastOnTargetTime.Some? && now - lastOnTargetTime.value <= OnTargetValidity
  {
    match lastOnTargetTime
    case None => false
    case Some(stamp) => now - stamp <= OnTargetValidity
  }

  /** A stamp taken now is recent now. */
  lemma StampedNowIsRecent(now: real)
    ensures IsRecentlyOnTarget(Some(now), now)
  {
  }

  /**
   * One iteration of `updateTargets`'s first loop on one target: stamp or
   * clear the contact time; on a fire frame clear it again and move a
   * recently met, not yet hit target to `draw`, marking it hit.
   */
  function LoopTarget(t: Target, met: bool, now: real, fire: bool, draw: Vec3): Target
  {
    var stamped := t.(lastOnTargetTime := if met then Some(now) else None);
    if !fire then stamped
    else if IsRecentlyOnTarget(stamped.lastOnTargetTime, now) && !stamped.isHit then
      stamped.(lastOnTargetTime := None, position := draw, isHit := true)
    else stamped.(lastOnTargetTime := None)
  }

  /** A target after the whole of `updateTargets`: a fire frame also clears every hit flag. */
  function FrameTarget(t: Target, met: bool, now: real, fire: bool, draw: Vec3): Target
  {
    if fire then LoopTarget(t, met, now, fire, draw).(isHit := false)
    else LoopTarget(t, met, now, fire, draw)
  }

  /**
   * On a frame without a shot, a target is stamped `now` exactly when the
   * ray meets it, cleared otherwise, and neither moves nor changes its hit
   * flag.
   */
  lemma QuietFrameStamps(t: Target, met: bool, now: real, draw: Vec3)
    ensures var r := FrameTarget(t, met, now, false, draw);
      && (r.lastOnTargetTime == Some(now) <==> met)
      && (!met ==> r.lastOnTargetTime.None?)
      && r.position == t.position && r.isHit == t.isHit
  {
  }

  /**
   * On a fire frame, a target moves exactly when the ray meets it and it
   * was not already hit; afterwards every target is unhit and unstamped.
   */
  lemma FireFrameMovesMetTargets(t: Target, met: bool, now: real, draw: Vec3)
    ensures var r := FrameTarget(t, met, now, true, draw);
      && !r.isHit && r.lastOnTargetTime.None?
      && (met && !t.isHit ==> r.position == draw)
      && (!(met && !t.isHit) ==> r.position == t.position)
  {
    StampedNowIsRecent(now);
  }

  /**
   * Targets stay in the spawn box: one that starts there and is moved only
   * to draws from the box is still there after the frame.
   */
  lemma TargetsStayInSpawnBox(t: Target, met: bool, now: real, fire: bool, draw: Vec3)
    requires InSpawnBox(t.position) && InSpawnBox(draw)
    ensures InSpawnBox(FrameTarget(t, met, now, fire, draw).position)
  {
  }

  /** The point where the ray meets target `t`, if it does. */
  function HitPoint(t: Target, ray: Ray, sqrt: real -> real): Option<Vec3>
    requires Dot(ray.direction, ray.direction) > 0.0
  {
    RayIntersectsSphere(ray, t.position, TargetScale, sqrt)
  }

  /** The distance from the wrist to where the ray meets `t`, if it does. */
  function HitDistance(t: Target, ray: Ray, sqrt: real -> real): Option<real>
    requires Dot(ray.direction, ray.direction) > 0.0
  {
    match HitPoint(t, ray, sqrt)
    case Some(p) => Some(Distance(ray.start, p, sqrt))
    case None => None
  }

  function Distances(targets: seq<Target>, ray: Ray, sqrt: real -> real): (d: seq<Option<real>>)
    requires Dot(ray.direction, ray.direction) > 0.0
    ensures |d| == |targets|
    ensures forall i | 0 <= i < |targets| :: d[i] == HitDistance(targets[i], ray, sqrt)
  {
    seq(|targets|, i requires 0 <= i < |targets| => HitDistance(targets[i], ray, sqrt))
  }

  /**
   * Among the first `n` entries, entry `i` is a hit at the smallest
   * distance, strictly smaller than every earlier hit's (so the earliest
   * wins a tie).
   */
  ghost predicate NearestUpTo(d: seq<Option<real>>, i: nat, n: nat)
    requires n <= |d|
  {
    && i < n
    && d[i].Some?
    && (forall j | 0 <= j < i && d[j].Some? :: d[i].value < d[j].value)
    && (forall j | i < j < n && d[j].Some? :: d[i].value <= d[j].value)
  }

  /** The nearest hit is unique. */
  lemma NearestUnique(d: seq<Option<real>>, i: nat, k: nat)
    requires NearestUpTo(d, i, |d|) && NearestUpTo(d, k, |d|)
    ensures i == k
  {
  }

  // ---------------------------------------------------------------------
  // The gesture gate.

  /**
   * The view's gesture state: `isShowingGun`, `isReadyToFire`, `didFire`,
   * `isInCooldown`, `lastFingerGunDetectionTime`, `laserOpacity`, the
   * opacity set on the laser entity, and whether the laser entity exists.
   */
  datatype Gate = Gate(
    isShowingGun: bool,
    isReadyToFire: bool,
    didFire: bool,
    isInCooldown: bool,
    lastDetection: real,
    laserOpacity: real,
    beamOpacity: real,
    hasLaser: bool)

  /** The laser flashes exactly during a cooldown. */
  ghost predicate GateValid(g: Gate)
  {
    g.laserOpacity == (if g.isInCooldown then FlashOpacity else DefaultLaserOpacity)
  }

  /**
   * With the laser present, an armed gun is a shown gun. Gesture, debounce
   * and cooldown events keep this; the laser arriving after the gun was
   * armed breaks it until the next ready pose.
   */
  ghost predicate ArmedShown(g: Gate)
  {
    g.hasLaser && g.isReadyToFire ==> g.isShowingGun
  }

  /** The view as created: no laser entity yet, disarmed, dim. */
  function InitialGate(now: real): (g: Gate)
    ensures GateValid(g) && ArmedShown(g)
    ensures !g.isReadyToFire && !g.didFire && !g.isInCooldown && !g.hasLaser
  {
    Gate(false, false, false, false, now, DefaultLaserOpacity, 0.0, false)
  }

  /**
   * `createLaserBeam` and the assignment to `laserBeamEntity` in the
   * `RealityView` closure: the laser exists, fully transparent.
   */
  function LaserCreatedStep(g: Gate): Gate
  {
    g.(hasLaser := true, beamOpacity := 0.0)
  }

  /**
   * The ready half of `checkForHandGestures`: a ready score above 0.95
   * stamps the detection time and arms; the gun is then shown, unless the
   * laser entity is missing, in which case the whole check returns early.
   * Answers the new state and whether the check goes on.
   */
  function ReadyStep(g: Gate, readyScore: real, now: real): (Gate, bool)
  {
    if FingerGunThreshold < readyScore then
      var armed := g.(lastDetection := now, isReadyToFire := true);
      if armed.isShowingGun then (armed, true)
      else if !armed.hasLaser then (armed, false)
      else (armed.(beamOpacity := 1.0, isShowingGun := true), true)
    else (g, true)
  }

  /**
   * The trigger half: a trigger score above 0.9 fires an armed gun that is
   * not cooling down, disarming it and flashing the laser.
   */
  function TriggerStep(g: Gate, triggerScore: real): Gate
  {
    if TriggerThreshold < triggerScore && g.isReadyToFire && !g.isInCooldown then
      g.(isReadyToFire := false, didFire := true, laserOpacity := FlashOpacity, isInCooldown := true)
    else g
  }

  /** `checkForHandGestures`, with the two pose similarities as inputs. */
  function GestureStep(g: Gate, readyScore: real, triggerScore: real, now: real): Gate
  {
    var (g1, goOn) := ReadyStep(g, readyScore, now);
    if goOn then TriggerStep(g1, triggerScore) else g1
  }

  /**
   * The debounce task waking at `now`: if no ready pose was seen for 0.125 s
   * and the gun is shown, hide it and disarm.
   */
  function DebounceExpiredStep(g: Gate, now: real): Gate
  {
    if now - g.lastDetection >= DebounceInterval && g.isShowingGun && g.hasLaser then
      g.(beamOpacity := 0.0, isShowingGun := false, isReadyToFire := false)
    else g
  }

  /** The flash task waking: the cooldown ends and the laser dims. */
  function CooldownExpiredStep(g: Gate): Gate
  {
    g.(laserOpacity := DefaultLaserOpacity, isInCooldown := false)
  }

  /**
   * A gesture check fires only on a trigger score above 0.9, outside a
   * cooldown, with the gun armed (before the check or by its ready half);
   * firing disarms, starts the cooldown and flashes the laser.
   */
  lemma FireNeedsArmedTrigger(g: Gate, readyScore: real, triggerScore: real, now: real)
    requires !g.didFire
    ensures var r := GestureStep(g, readyScore, triggerScore, now);
      && (r.didFire ==>
            && TriggerThreshold < triggerScore
            && !g.isInCooldown
            && (g.isReadyToFire || FingerGunThreshold < readyScore))
      && (r.didFire ==> !r.isReadyToFire && r.isInCooldown && r.laserOpacity == FlashOpacity)
  {
  }

  /**
   * A ready score above 0.95 stamps the detection time and arms the gun
   * (the trigger half may disarm it again by firing); a lower one leaves
   * both alone.
   */
  lemma ReadyArms(g: Gate, readyScore: real, triggerScore: real, now: real)
    ensures var r := GestureStep(g, readyScore, triggerScore, now);
      && (FingerGunThreshold < readyScore ==> r.lastDetection == now && (r.isReadyToFire || r.didFire))
      && (!(FingerGunThreshold < readyScore) ==> r.lastDetection == g.lastDetection)
      && (!(FingerGunThreshold < readyScore) && !g.isReadyToFire ==> !r.isReadyToFire)
  {
  }

  /**
   * The debounce disarms only after 0.125 s without a ready pose, and only
   * a shown gun; it never arms.
   */
  lemma DebounceNeedsQuiet(g: Gate, now: real)
    ensures var r := DebounceExpiredStep(g, now);
      && (r != g ==> now - g.lastDetection >= DebounceInterval && g.isShowingGun)
      && (r != g ==> !r.isShowingGun && !r.isReadyToFire)
      && (r.isReadyToFire ==> g.isReadyToFire)
  {
  }

  /** The end of a cooldown restores the default opacity 0.25. */
  lemma CooldownRestoresOpacity(g: Gate)
    requires GateValid(g)
    ensures var r := CooldownExpiredStep(g);
      !r.isInCooldown && r.laserOpacity == DefaultLaserOpacity && GateValid(r)
  {
  }

  /** Every gate event keeps the flash tied to the cooldown. */
  lemma GateStepsKeepValid(g: Gate, readyScore: real, triggerScore: real, now: real)
    requires GateValid(g)
    ensures GateValid(GestureStep(g, readyScore, triggerScore, now))
    ensures GateValid(DebounceExpiredStep(g, now))
    ensures GateValid(CooldownExpiredStep(g))
    ensures GateValid(LaserCreatedStep(g))
  {
  }

  /** Gesture, debounce and cooldown events keep an armed gun shown. */
  lemma GateStepsKeepArmedShown(g: Gate, readyScore: real, triggerScore: real, now: real)
    requires ArmedShown(g)
    ensures ArmedShown(GestureStep(g, readyScore, triggerScore, now))
    ensures ArmedShown(DebounceExpiredStep(g, now))
    ensures ArmedShown(CooldownExpiredStep(g))
  {
  }

  /**
   * The laser's arrival keeps an armed gun shown exactly when the gun was
   * not armed or already shown.
   */
  lemma LaserCreatedArmedShown(g: Gate)
    ensures ArmedShown(LaserCreatedStep(g)) <==> (!g.isReadyToFire || g.isShowingGun)
    ensures LaserCreatedStep(g).hasLaser && LaserCreatedStep(g).beamOpacity == 0.0
  {
  }

  /**
   * A ready pose seen before the laser exists arms the gun without showing
   * it; once the laser arrives the gun is armed, the laser present and the
   * gun hidden.
   */
  lemma LateLaserLeavesArmedGunHidden(now: real)
    ensures var g := LaserCreatedStep(GestureStep(InitialGate(now), 1.0, 0.0, now));
      GateValid(g) && g.hasLaser && g.isReadyToFire && !g.isShowingGun && !ArmedShown(g)
  {
  }

  /** With the laser present, the next ready pose shows the gun again. */
  lemma ReadyPoseRestoresArmedShown(g: Gate, readyScore: real, triggerScore: real, now: real)
    requires g.hasLaser && FingerGunThreshold < readyScore
    ensures var r := GestureStep(g, readyScore, triggerScore, now);
      r.isShowingGun && r.beamOpacity == (if g.isShowingGun then g.beamOpacity else 1.0) && ArmedShown(r)
  {
  }

  // ---------------------------------------------------------------------
  // The palm.

  datatype JointName =
    | Wrist | IndexFingerMetacarpal | MiddleFingerMetacarpal | RingFingerMetacarpal
    | OtherJoint(id: nat)

  /**
   * `calculatePalmPosition`: the mean of the middle, ring and index
   * metacarpal positions, or nothing when one is not tracked.
   */
  function CalculatePalmPosition(joints: map<JointName, Vec3>): (palm: Option<Vec3>)
    ensures palm.None? <==>
      MiddleFingerMetacarpal !in joints || RingFingerMetacarpal !in joints || IndexFingerMetacarpal !in joints
    ensures palm.Some? ==>
      var m, r, i := joints[MiddleFingerMetacarpal], joints[RingFingerMetacarpal], joints[IndexFingerMetacarpal];
      Add(Add(Sub(m, palm.value), Sub(r, palm.value)), Sub(i, palm.value)) == Vec3(0.0, 0.0, 0.0)
  {
    if MiddleFingerMetacarpal in joints && RingFingerMetacarpal in joints && IndexFingerMetacarpal in joints then
      var m, r, i := joints[MiddleFingerMetacarpal], joints[RingFingerMetacarpal], joints[IndexFingerMetacarpal];
      Some(Vec3((m.x + r.x + i.x) / 3.0, (m.y + r.y + i.y) / 3.0, (m.z + r.z + i.z) / 3.0))
    else None
  }

  // ---------------------------------------------------------------------
  // The view.

  class TargetView {
    var targets: seq<Target>
    var isShowingGun: bool
    var isReadyToFire: bool
    var didFire: bool
    var isInCooldown: bool
    var lastFingerGunDetectionTime: real
    var laserOpacity: real
    /** The opacity component on `laserBeamEntity`. */
    var beamOpacity: real
    /** Whether `laserBeamEntity` has been created. */
    var hasLaser: bool

    function GateOf(): Gate
      reads this
    {
      Gate(isShowingGun, isReadyToFire, didFire, isInCooldown, lastFingerGunDetectionTime,
           laserOpacity, beamOpacity, hasLaser)
    }

    /** The gate invariant, with every hit flag down between frames. */
    ghost predicate Inv()
      reads this
    {
      GateValid(GateOf()) && forall i | 0 <= i < |targets| :: !targets[i].isHit
    }

    /** The view's initial state, `now` being when it is created. */
    constructor(now: real)
      ensures GateOf() == InitialGate(now) && targets == [] && Inv()
    {
      targets := [];
      isShowingGun := false;
      isReadyToFire := false;
      didFire := false;
      isInCooldown := false;
      lastFingerGunDetectionTime := now;
      laserOpacity := DefaultLaserOpacity;
      beamOpacity := 0.0;
      hasLaser := false;
    }

    /** The `RealityView` closure storing the new laser in `laserBeamEntity`. */
    method LaserCreated()
      requires Inv()
      modifies this
      ensures GateOf() == LaserCreatedStep(old(GateOf()))
      ensures targets == old(targets) && Inv()
    {
      hasLaser := true;
      beamOpacity := 0.0;
    }

    /**
     * `createTargets` followed by the assignment to `targets`: three clones,
     * unhit and unstamped, at the first three draws of `randomPosition()`.
     */
    method CreateTargets(draws: nat -> Vec3)
      requires Inv()
      modifies this
      ensures |targets| == NumberOfTargets
      ensures forall i | 0 <= i < NumberOfTargets :: targets[i] == Target(draws(i), false, None)
      ensures GateOf() == old(GateOf()) && Inv()
    {
      var created: seq<Target> := [];
      for i := 0 to NumberOfTargets
        invariant |created| == i
        invariant forall j | 0 <= j < i :: created[j] == Target(draws(j), false, None)
      {
        created := created + [Target(draws(i), false, None)];
      }
      targets := created;
    }

    /**
     * The body of `updateTargets`'s first loop on one target: answers the
     * updated target and where the ray meets it.
     */
    static method FrameStepTarget(target: Target, ray: Ray, now: real, sqrt: real -> real, fire: bool, draw: Vec3)
      returns (updated: Target, hit: Option<Vec3>)
      requires Dot(ray.direction, ray.direction) > 0.0
      ensures hit == HitPoint(target, ray, sqrt)
      ensures updated == LoopTarget(target, hit.Some?, now, fire, draw)
    {
      updated := target;
      hit := RayIntersectsSphere(ray, target.position, TargetScale, sqrt);
      if hit.Some? {
        updated := updated.(lastOnTargetTime := Some(now));
      } else {
        updated := updated.(lastOnTargetTime := None);
      }
      if fire {
        var recent := IsRecentlyOnTarget(updated.lastOnTargetTime, now);
        updated := updated.(lastOnTargetTime := None);
        if recent && !updated.isHit {
          updated := updated.(position := draw, isHit := true);
        }
      }
    }

    /**
     * `updateTargets`: `draws(i)` is the position `randomPosition()` gives
     * target `i` if it is shot. Answers the index of the nearest target the
     * ray meets.
     */
    method UpdateTargets(ray: Ray, now: real, sqrt: real -> real, draws: nat -> Vec3)
      returns (closest: Option<nat>)
      requires Dot(ray.direction, ray.direction) > 0.0
      requires Inv()
      modifies this
      ensures |targets| == |old(targets)|
      ensures forall i | 0 <= i < |targets| ::
        targets[i] == FrameTarget(old(targets)[i], HitPoint(old(targets)[i], ray, sqrt).Some?,
                                  now, old(didFire), draws(i))
      ensures GateOf() == old(GateOf()).(didFire := false)
      ensures closest.None? <==> forall i | 0 <= i < |targets| :: HitPoint(old(targets)[i], ray, sqrt).None?
      ensures closest.Some? ==> NearestUpTo(Distances(old(targets), ray, sqrt), closest.value, |targets|)
      ensures Inv()
    {
      ghost var before := targets;
      ghost var met := seq(|before|, j requires 0 <= j < |before| => HitPoint(before[j], ray, sqrt).Some?);
      var fire := didFire;
      targets, closest := ScanTargets(targets, ray, now, sqrt, didFire, draws);
      if didFire {
        didFire := false;
        for index := 0 to |targets|
          invariant |targets| == |before|
          invariant forall j | 0 <= j < index :: targets[j] == FrameTarget(before[j], met[j], now, fire, draws(j))
          invariant forall j | index <= j < |targets| :: targets[j] == LoopTarget(before[j], met[j], now, fire, draws(j))
          invariant GateOf() == old(GateOf()).(didFire := false)
        {
          targets := targets[index := targets[index].(isHit := false)];
        }
      }
    }

    /**
     * The first loop of `updateTargets` over the targets `ts`: every target
     * updated by `LoopTarget`, and the index of the nearest hit.
     */
    static method ScanTargets(ts: seq<Target>, ray: Ray, now: real, sqrt: real -> real, fire: bool, draws: nat -> Vec3)
      returns (updated: seq<Target>, closest: Option<nat>)
      requires Dot(ray.direction, ray.direction) > 0.0
      ensures |updated| == |ts|
      ensures forall i | 0 <= i < |ts| ::
        updated[i] == LoopTarget(ts[i], HitPoint(ts[i], ray, sqrt).Some?, now, fire, draws(i))
      ensures closest.None? <==> forall i | 0 <= i < |ts| :: HitPoint(ts[i], ray, sqrt).None?
      ensures closest.Some? ==> NearestUpTo(Distances(ts, ray, sqrt), closest.value, |ts|)
    {
      ghost var d := Distances(ts, ray, sqrt);
      updated := ts;
      closest := None;
      var closestDistance := 0.0;
      for index := 0 to |updated|
        invariant |updated| == |ts|
        invariant forall j | 0 <= j < index ::
          updated[j] == LoopTarget(ts[j], HitPoint(ts[j], ray, sqrt).Some?, now, fire, draws(j))
        invariant forall j | index <= j < |updated| :: updated[j] == ts[j]
        invariant closest.None? <==> forall j | 0 <= j < index :: d[j].None?
        invariant closest.Some? ==> NearestUpTo(d, closest.value, index) && d[closest.value] == Some(closestDistance)
      {
        var target, hit := FrameStepTarget(updated[index], ray, now, sqrt, fire, draws(index));
        if hit.Some? {
          var distance := Distance(ray.start, hit.value, sqrt);
          assert d[index] == Some(distance);
          if closest.None? || distance < closestDistance {
            closest := Some(index);
            closestDistance := distance;
          }
        } else {
          assert d[index].None?;
        }
        updated := updated[index := target];
      }
    }

    /** `checkForHandGestures`, given the two pose similarities. */
    method CheckForHandGestures(readyScore: real, triggerScore: real, now: real)
      requires Inv()
      modifies this
      ensures GateOf() == GestureStep(old(GateOf()), readyScore, triggerScore, now)
      ensures targets == old(targets) && Inv()
    {
      GateStepsKeepValid(GateOf(), readyScore, triggerScore, now);
      if FingerGunThreshold < readyScore {
        lastFingerGunDetectionTime := now;
        if !isReadyToFire {
          isReadyToFire := true;
        }
        if !isShowingGun {
          if !hasLaser {
            return;
          }
          beamOpacity := 1.0;
          isShowingGun := true;
        }
      }
      if TriggerThreshold < triggerScore {
        if isReadyToFire && !isInCooldown {
          isReadyToFire := false;
          didFire := true;
          FlashLaserBeam();
        }
      }
    }

    /** `flashLaserBeam` up to its sleep. */
    method FlashLaserBeam()
      requires Inv()
      modifies this
      ensures GateOf() == old(GateOf()).(laserOpacity := FlashOpacity, isInCooldown := true)
      ensures targets == old(targets) && Inv()
    {
      laserOpacity := FlashOpacity;
      isInCooldown := true;
    }

    /** The debounce task of `checkForHandGestures` after its sleep. */
    method DebounceExpired(now: real)
      requires Inv()
      modifies this
      ensures GateOf() == DebounceExpiredStep(old(GateOf()), now)
      ensures targets == old(targets) && Inv()
    {
      GateStepsKeepValid(GateOf(), 0.0, 0.0, now);
      if now - lastFingerGunDetectionTime >= DebounceInterval {
        if isShowingGun {
          if !hasLaser {
            return;
          }
          beamOpacity := 0.0;
          isShowingGun := false;
          isReadyToFire := false;
        }
      }
    }

    /** The deferred closure of `flashLaserBeam`, after its sleep. */
    method CooldownExpired()
      requires Inv()
      modifies this
      ensures GateOf() == CooldownExpiredStep(old(GateOf()))
      ensures targets == old(targets) && Inv()
    {
      laserOpacity := DefaultLaserOpacity;
      isInCooldown := false;
    }
  }
}
