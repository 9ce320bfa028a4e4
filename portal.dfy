/**
 * The ceiling portal: while the session runs, the largest ceiling plane seen
 * so far fixes the portal's size and pose; when the detection timer fires the
 * session stops, the portal is created, and an animation timer grows its
 * scale from 0 to 1 in steps of `updateInterval / animationDuration`.
 */
module Portal {
  import opened Wrappers
  import opened Linear
  import PlaneDetection

  type PlaneAnchor = PlaneDetection.PlaneAnchor

  /** How long planes are collected before the portal opens, in seconds. */
  const DetectionDuration: real := 2.0

  /** How long the opening animation lasts, in seconds. */
  const AnimationDuration: real := 5.0

  /** The animation timer's period, in seconds. */
  const UpdateInterval: real := 1.0 / 60.0

  /** The scale added by one animation tick. */
  const ScaleStep: real := UpdateInterval / AnimationDuration

  /** The share of a ceiling plane's shorter side the portal may use. */
  const RadiusFactor: real := 0.8

  function Min(a: real, b: real): real
  {
    if a <= b then a else b
  }

  function Max(a: real, b: real): real
  {
    if a >= b then a else b
  }

  /**
   * The radius a ceiling plane offers: 0.8 of the shorter side of its
   * extent.
   */
  function CandidateRadius(anchor: PlaneAnchor): (r: real)
    ensures r <= anchor.width * RadiusFactor && r <= anchor.height * RadiusFactor
    ensures r == anchor.width * RadiusFactor || r == anchor.height * RadiusFactor
  {
    Min(anchor.width, anchor.height) * RadiusFactor
  }

  /** The portal entity: its pose and its rounded plane mesh. */
  datatype PortalPlane = PortalPlane(transform: Matrix4, width: real, depth: real, cornerRadius: real)

  /**
   * The model's fields: `maxRadius`, `portalTransform`, `portalScale`,
   * `portalEntity`, the children of `portalWorld`, whether each timer is
   * set, and whether the session runs.
   */
  datatype State = State(
    maxRadius: real,
    portalTransform: Option<Matrix4>,
    portalScale: real,
    portalEntity: Option<PortalPlane>,
    worldChildren: seq<PortalPlane>,
    detectionTimer: bool,
    animationTimer: bool,
    sessionRunning: bool)

  function Initial(): (s: State)
    ensures Valid(s) && s.maxRadius == 0.0 && s.portalScale == 0.0
  {
    State(0.0, None, 0.0, None, [], false, false, false)
  }

  /**
   * The scale stays within [0, 1]; the radius is never negative, and it is
   * positive exactly when a pose has been recorded.
   */
  ghost predicate Valid(s: State)
  {
    && 0.0 <= s.portalScale <= 1.0
    && 0.0 <= s.maxRadius
    && (s.portalTransform.Some? <==> s.maxRadius > 0.0)
  }

  // ---------------------------------------------------------------------
  // Steps.

  /** `startARSession` up to its update loop: run the session, start the detection timer. */
  function StartSessionStep(s: State): (r: State)
    ensures r.sessionRunning && r.detectionTimer
  {
    s.(sessionRunning := true, detectionTimer := true)
  }

  /** `updateMaxRadius`: adopt a strictly larger candidate, with its pose. */
  function UpdateMaxRadiusStep(s: State, anchor: PlaneAnchor): State
  {
    var radius := CandidateRadius(anchor);
    if radius > s.maxRadius then
      s.(maxRadius := radius, portalTransform := Some(anchor.originFromAnchor))
    else s
  }

  /** One iteration of `startARSession`'s update loop: only ceilings count. */
  function AnchorStep(s: State, anchor: PlaneAnchor): State
  {
    if anchor.classification == PlaneDetection.Ceiling then UpdateMaxRadiusStep(s, anchor) else s
  }

  /**
   * `createPortal`: without a recorded pose, nothing; otherwise a portal at
   * that pose, a `maxRadius` square with corners rounded by half of it,
   * stored and added to `portalWorld`.
   */
  function CreatePortalStep(s: State): State
  {
    match s.portalTransform
    case None => s
    case Some(t) =>
      var portal := PortalPlane(t, s.maxRadius, s.maxRadius, s.maxRadius * 0.5);
      s.(portalEntity := Some(portal), worldChildren := s.worldChildren + [portal])
  }

  /**
   * The detection timer firing: the session stops, then the portal is
   * created and the animation timer started.
   */
  function DetectionFiredStep(s: State): State
  {
    CreatePortalStep(s.(sessionRunning := false)).(animationTimer := true)
  }

  /**
   * One animation tick: the scale grows by one step; once it reaches 1 it
   * is set to exactly 1 and the animation timer is stopped.
   */
  function TickStep(s: State): State
  {
    var scale := s.portalScale + ScaleStep;
    if scale >= 1.0 then s.(portalScale := 1.0, animationTimer := false)
    else s.(portalScale := scale)
  }

  /** `stopARSession`: the session stops and both timers are cleared. */
  function StopSessionStep(s: State): (r: State)
    ensures !r.sessionRunning && !r.detectionTimer && !r.animationTimer
  {
    s.(sessionRunning := false, detectionTimer := false, animationTimer := false)
  }

  // ---------------------------------------------------------------------
  // Properties of the steps.

  /** Anchors that are not ceilings change nothing. */
  lemma OnlyCeilingsCount(s: State, anchor: PlaneAnchor)
    requires anchor.classification != PlaneDetection.Ceiling
    ensures AnchorStep(s, anchor) == s
  {
  }

  /**
   * `maxRadius` never shrinks; it grows exactly when a ceiling offers a
   * strictly larger candidate, and then becomes that candidate with the
   * ceiling's pose; otherwise radius and pose both stay. Nothing else
   * changes.
   */
  lemma MaxRadiusMonotone(s: State, anchor: PlaneAnchor)
    ensures var r := AnchorStep(s, anchor);
      && r.maxRadius >= s.maxRadius
      && (r.maxRadius > s.maxRadius <==>
            anchor.classification == PlaneDetection.Ceiling && CandidateRadius(anchor) > s.maxRadius)
      && (r.maxRadius > s.maxRadius ==>
            r.maxRadius == CandidateRadius(anchor) && r.portalTransform == Some(anchor.originFromAnchor))
      && (r.maxRadius == s.maxRadius ==> r == s)
      && r.(maxRadius := s.maxRadius, portalTransform := s.portalTransform) == s
  {
  }

  /** An anchor step keeps the scale in [0, 1] and radius and pose in step. */
  lemma AnchorKeepsValid(s: State, anchor: PlaneAnchor)
    requires Valid(s)
    ensures Valid(AnchorStep(s, anchor))
  {
  }

  /** So do the session, portal, timer and tick steps. */
  lemma StepsKeepValid(s: State)
    requires Valid(s)
    ensures Valid(StartSessionStep(s))
    ensures Valid(CreatePortalStep(s))
    ensures Valid(DetectionFiredStep(s))
    ensures Valid(TickStep(s))
    ensures Valid(StopSessionStep(s))
  {
  }

  /**
   * The portal is created exactly when a pose was recorded, at that pose,
   * sized `maxRadius` with corner radius `maxRadius * 0.5`.
   */
  lemma CreatePortalSize(s: State)
    ensures s.portalTransform.None? ==> CreatePortalStep(s) == s
    ensures s.portalTransform.Some? ==>
      var r := CreatePortalStep(s);
      && r.portalEntity == Some(PortalPlane(s.portalTransform.value, s.maxRadius, s.maxRadius, s.maxRadius * 0.5))
      && r.worldChildren == s.worldChildren + [r.portalEntity.value]
      && r.(portalEntity := s.portalEntity, worldChildren := s.worldChildren) == s
  {
  }

  /**
   * A tick below the top adds exactly `updateInterval / animationDuration`
   * and keeps the timer; a tick that reaches 1 lands on exactly 1 and stops
   * the timer.
   */
  lemma TickAdvances(s: State)
    ensures var r := TickStep(s);
      && (s.portalScale + ScaleStep < 1.0 ==>
            r.portalScale == s.portalScale + ScaleStep && r.animationTimer == s.animationTimer)
      && (s.portalScale + ScaleStep >= 1.0 ==> r.portalScale == 1.0 && !r.animationTimer)
      && r.(portalScale := s.portalScale, animationTimer := s.animationTimer) == s
  {
  }

  // ---------------------------------------------------------------------
  // Runs.

  /** The state after the update loop has seen `anchors`, in order. */
  function Scan(s: State, anchors: seq<PlaneAnchor>): State
    decreases |anchors|
  {
    if anchors == [] then s else Scan(AnchorStep(s, anchors[0]), anchors[1..])
  }

  /** What an anchor offers: its candidate if it is a ceiling, else nothing. */
  function Offer(anchor: PlaneAnchor): real
  {
    if anchor.classification == PlaneDetection.Ceiling then CandidateRadius(anchor) else 0.0
  }

  /** The largest offer among `anchors`, and 0 for none. */
  function LargestOffer(anchors: seq<PlaneAnchor>): (m: real)
    ensures 0.0 <= m
    ensures forall i | 0 <= i < |anchors| :: Offer(anchors[i]) <= m
  {
    if anchors == [] then 0.0 else Max(Offer(anchors[0]), LargestOffer(anchors[1..]))
  }

  /**
   * After the update loop has seen `anchors`, `maxRadius` is the larger of
   * its starting value and the largest ceiling candidate.
   */
  lemma {:induction false} ScanFindsLargest(s: State, anchors: seq<PlaneAnchor>)
    requires 0.0 <= s.maxRadius
    ensures Scan(s, anchors).maxRadius == Max(s.maxRadius, LargestOffer(anchors))
    decreases |anchors|
  {
    if anchors != [] {
      var s1 := AnchorStep(s, anchors[0]);
      assert s1.maxRadius == Max(s.maxRadius, Offer(anchors[0]));
      ScanFindsLargest(s1, anchors[1..]);
    }
  }

  /**
   * A pose recorded during the loop belongs to a ceiling among `anchors`
   * whose candidate is the final `maxRadius`; if the radius did not grow,
   * the pose is the starting one.
   */
  lemma {:induction false} ScanPoseWitness(s: State, anchors: seq<PlaneAnchor>)
    ensures var r := Scan(s, anchors);
      || (r.maxRadius == s.maxRadius && r.portalTransform == s.portalTransform)
      || (exists i | 0 <= i < |anchors| ::
            && anchors[i].classification == PlaneDetection.Ceiling
            && CandidateRadius(anchors[i]) == r.maxRadius
            && r.portalTransform == Some(anchors[i].originFromAnchor))
    decreases |anchors|
  {
    if anchors != [] {
      var s1 := AnchorStep(s, anchors[0]);
      var r := Scan(s, anchors);
      ScanPoseWitness(s1, anchors[1..]);
      if r.maxRadius == s1.maxRadius && r.portalTransform == s1.portalTransform {
        if s1 != s {
          assert 0 <= 0 < |anchors|;
        }
      } else {
        var i :| 0 <= i < |anchors[1..]|
          && anchors[1..][i].classification == PlaneDetection.Ceiling
          && CandidateRadius(anchors[1..][i]) == r.maxRadius
          && r.portalTransform == Some(anchors[1..][i].originFromAnchor);
        assert anchors[i + 1] == anchors[1..][i];
      }
    }
  }

  /** `n` animation ticks. */
  function Ticks(s: State, n: nat): State
  {
    if n == 0 then s else TickStep(Ticks(s, n - 1))
  }

  /** The number of ticks the opening animation takes. */
  const TicksToOpen: nat := 300

  /**
   * From scale 0 the portal opens linearly: after `n` ticks the scale is
   * `n / 300`, reaching exactly 1 at tick 300, when the timer stops; it stays
   * at 1 after that.
   */
  lemma {:induction false} OpeningIsLinear(s: State, n: nat)
    requires s.portalScale == 0.0
    ensures Ticks(s, n).portalScale == if n < TicksToOpen then n as real / 300.0 else 1.0
    ensures Ticks(s, n).animationTimer == (s.animationTimer && n < TicksToOpen)
  {
    if n > 0 {
      OpeningIsLinear(s, n - 1);
    }
  }

  // ---------------------------------------------------------------------
  // The model.

  class PortalModel {
    var maxRadius: real
    var portalTransform: Option<Matrix4>
    var portalScale: real
    var portalEntity: Option<PortalPlane>
    /** The children of `portalWorld`. */
    var worldChildren: seq<PortalPlane>
    /** Whether `detectionTimer` is set. */
    var detectionTimer: bool
    /** Whether `animationTimer` is set. */
    var animationTimer: bool
    var sessionRunning: bool

    function Snapshot(): State
      reads this
    {
      State(maxRadius, portalTransform, portalScale, portalEntity, worldChildren,
            detectionTimer, animationTimer, sessionRunning)
    }

    ghost predicate Inv()
      reads this
    {
      Valid(Snapshot())
    }

    constructor()
      ensures Snapshot() == Initial() && Inv()
    {
      maxRadius := 0.0;
      portalTransform := None;
      portalScale := 0.0;
      portalEntity := None;
      worldChildren := [];
      detectionTimer := false;
      animationTimer := false;
      sessionRunning := false;
    }

    /** `startARSession` before its update loop. */
    method StartARSession()
      requires Inv()
      modifies this
      ensures Snapshot() == StartSessionStep(old(Snapshot())) && Inv()
    {
      sessionRunning := true;
      StartDetectionTimer();
    }

    method StartDetectionTimer()
      requires Inv()
      modifies this
      ensures Snapshot() == old(Snapshot()).(detectionTimer := true) && Inv()
    {
      detectionTimer := true;
    }

    /** One iteration of `startARSession`'s update loop. */
    method ProcessAnchor(anchor: PlaneAnchor)
      requires Inv()
      modifies this
      ensures Snapshot() == AnchorStep(old(Snapshot()), anchor) && Inv()
    {
      AnchorKeepsValid(Snapshot(), anchor);
      if anchor.classification == PlaneDetection.Ceiling {
        UpdateMaxRadius(anchor);
      }
    }

    method UpdateMaxRadius(anchor: PlaneAnchor)
      requires Inv()
      modifies this
      ensures Snapshot() == UpdateMaxRadiusStep(old(Snapshot()), anchor) && Inv()
    {
      var radius := Min(anchor.width, anchor.height) * RadiusFactor;
      if radius > maxRadius {
        maxRadius := radius;
        portalTransform := Some(anchor.originFromAnchor);
      }
    }

    method CreatePortal()
      requires Inv()
      modifies this
      ensures Snapshot() == CreatePortalStep(old(Snapshot())) && Inv()
    {
      if portalTransform.None? {
        return;
      }
      var portal := PortalPlane(portalTransform.value, maxRadius, maxRadius, maxRadius * 0.5);
      portalEntity := Some(portal);
      worldChildren := worldChildren + [portal];
    }

    /** The detection timer's closure. */
    method DetectionTimerFired()
      requires Inv()
      modifies this
      ensures Snapshot() == DetectionFiredStep(old(Snapshot())) && Inv()
    {
      StepsKeepValid(Snapshot());
      sessionRunning := false;
      CreatePortal();
      StartAnimationTimer();
    }

    method StartAnimationTimer()
      requires Inv()
      modifies this
      ensures Snapshot() == old(Snapshot()).(animationTimer := true) && Inv()
    {
      animationTimer := true;
    }

    /** The animation timer's closure. */
    method AnimationTick()
      requires Inv()
      modifies this
      ensures Snapshot() == TickStep(old(Snapshot())) && Inv()
    {
      portalScale := portalScale + UpdateInterval / AnimationDuration;
      if portalScale >= 1.0 {
        portalScale := 1.0;
        StopAnimationTimer();
      }
    }

    method StopARSession()
      requires Inv()
      modifies this
      ensures Snapshot() == StopSessionStep(old(Snapshot())) && Inv()
    {
      sessionRunning := false;
      StopDetectionTimer();
      StopAnimationTimer();
    }

    method StopDetectionTimer()
      requires Inv()
      modifies this
      ensures Snapshot() == old(Snapshot()).(detectionTimer := false) && Inv()
    {
      detectionTimer := false;
    }

    method StopAnimationTimer()
      requires Inv()
      modifies this
      ensures Snapshot() == old(Snapshot()).(animationTimer := false) && Inv()
    {
      animationTimer := false;
    }
  }
}
