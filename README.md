# Providers, modelled in Dafny

Providers is a set of visionOS demos. Most of it is glue over ARKit and RealityKit. This project models the self-contained logic inside those demos and proves what that logic promises:

- **Procedural meshes.** The breathing-leaf mesh (`Entity.leafMesh`) and the banded sphere (`MeshResource.generateSpecificSphere`) fill a vertex buffer and a `UInt32` index buffer with counter-driven nested loops. Here they are methods over Dafny arrays, proved against reference functions that say what every slot holds. The leaf file also builds the Fibonacci lattice of leaves and a red-shade noise bitmap.
- **Triangle counting.** `MeshResource.triangleCount` and `Entity.triangleCount` search for the first part that has triangle indices.
- **Target practice.** `TargetView` intersects the finger-gun ray with the targets and tracks the nearest hit. It stamps and repositions targets on a shot, and runs the ready/trigger/cooldown gesture gate.
- **Anchor tables.** `PlaneDetectionModel`, `SceneReconstructionModel` and `ImageTrackingModel` keep a dictionary from anchor ids to entities. Each update event adds, updates or removes entries, and the content entity's children follow.
- **Scene-tree searches** (`Extension.swift`). These are the ancestor walks, the pre-order descendant searches and the model-component listing. The same file holds the `simd_float4x4` column coding and the per-face classification lookup.
- **Portal.** `PortalModel` tracks the largest ceiling radius, creates the portal and runs the opening animation.
- **Tile floor.** Two grid views lay out centred tiles.

Each stateful source class is a Dafny `class` whose fields mirror the source's state. In the anchor-table and portal classes, `Snapshot()` returns those fields as a value of a `State` datatype. `TargetView` has `GateOf()` instead: it returns the gesture fields as a `Gate` value, and `targets` stays a field of its own. Every method that changes the object requires and keeps the class invariant `Inv()`. Each is proved to move `Snapshot()` (or `GateOf()` and `targets`) exactly as a pure step function does. `TargetView`'s two static helpers, `FrameStepTarget` and `ScanTargets`, change no state and are proved against functions on targets. The properties of each operation are then lemmas over the step functions.

Entities are handles (`nat`) into a map that serves as an arena. A fresh handle comes from a `nextEntity` counter. `removeFromParent` is `SceneGraph.Without` on the parent's child list.

The following are parameters rather than modelled behaviour:

- **Clocks.** `Date()` becomes a `now: real` argument.
- **Random draws.** `randomPosition()` and `CGFloat.random` are oracle functions passed in.
- **Real-number primitives.** `sqrt`, `sin`, `cos`, `acos` and `pi` are functions passed in. Lemmas state the facts they rely on as hypotheses, such as `IsSqrtAt`, `Pythagorean` and `CosInvertsAcos`.
- **Pose similarity.** The HandVector scores are inputs.
- **Shape generation.** Whether `ShapeResource.generateStaticMesh` succeeds is an `Option` argument.
- **Bitmap context.** One `bitmapReady` flag says whether all three fallible calls of the noise bitmap succeed: the `CGContext` is created, its `data` is non-nil and `makeImage()` returns an image.

Deferred work (`Task.sleep` closures, `Timer` callbacks) is modelled as explicit event methods: debounce expired, cooldown expired, detection timer fired, animation tick. `Float` is modelled as exact `real`.

## Model

| member | source | states |
|---|---|---|
| LeafMesh.MakeLeafMesh | Providers/BreathingLeavesView.swift:145-291 | fresh buffers of exactly `vertexCount` and `indexCount` slots; every vertex slot holds `VertexAt(k)` and every index slot `IndexAt(k)`; one triangle part of `indexCount` indices with the bounds as declared, `DeclaredBounds` |
| LeafMesh.MakeCorrectedLeafMesh | Providers/BreathingLeavesView.swift:145-291 | the same buffers with the part's bounds corrected to `LeafBounds`; every vertex lies inside those bounds, for any height ≥ 0 |
| LeafMesh.FillVertices | Providers/BreathingLeavesView.swift:183-214 | the vertex counter ends at `(w+1)(h+1)·2 + (h+1)·4` and every slot below it holds its reference vertex |
| LeafMesh.FillSurfaceVertices | Providers/BreathingLeavesView.swift:184-195 | the two surface loops write slots `0 ..< 2·vertsPerSurface` in order, each with its reference vertex |
| LeafMesh.FillSideVertices | Providers/BreathingLeavesView.swift:198-214 | the side loop continues at `2·vertsPerSurface`, keeps the surface slots and ends at `vertexCount` |
| LeafMesh.SurfaceSlot | Providers/BreathingLeavesView.swift:184-192 | the slot of surface vertex (s, i, j) lies inside surface s's block of `vertsPerSurface` slots |
| LeafMesh.LeafShape | Providers/BreathingLeavesView.swift:165-181 | no contract of its own: `leafShape(v, u)`, the point at width `(u − 0.5)·LeafWidth`, height `v·height − height/2` and depth `sin(vπ)·0.15`; `ShapeWithin` bounds it |
| LeafMesh.LeafWidth | Providers/BreathingLeavesView.swift:169-174 | no contract of its own: `curve · width`, the sine bulge trimmed by `Trim` times `height·0.5`; `WidthWithin` bounds it by `[0, height·0.5]` |
| LeafMesh.Trim | Providers/BreathingLeavesView.swift:170-172 | no contract of its own: `1 − 0.3(1 − v)² − 0.9v²`, the source's top and bottom adjustments; `TrimInUnit` puts it in `[0, 1]` |
| LeafMesh.VertexAt | Providers/BreathingLeavesView.swift:183-214 | no contract of its own: the reference vertex of slot `k`, surfaces row by row then the side vertices four to a row; `FillVertices` is proved to store it and `SurfaceSlotHolds`/`SideSlotHolds` locate each vertex |
| LeafMesh.IndexAt | Providers/BreathingLeavesView.swift:217-279 | no contract of its own: the reference index of slot `k`, entry `k mod 6` of panel `k div 6` in loop order; `FillIndices` is proved to store it and `IndexInRange` bounds it |
| LeafMesh.SideSlot | Providers/BreathingLeavesView.swift:198-213 | the slot of side vertex (i, m) lies in the last `4(h+1)` slots |
| LeafMesh.SurfaceSlotHolds | Providers/BreathingLeavesView.swift:184-192 | the reference buffer holds the surface vertex at its slot (v = i/h, u = j/w, z offset ±depth/2) |
| LeafMesh.SideSlotHolds | Providers/BreathingLeavesView.swift:198-213 | the reference buffer holds the side vertex at its slot (left/right edge, front/back) |
| LeafMesh.FillIndices | Providers/BreathingLeavesView.swift:217-279 | the index counter ends at `12·w·h + 12·h` and every entry equals the reference index `IndexAt(k)` |
| LeafMesh.FillSurfaceIndices | Providers/BreathingLeavesView.swift:224-251 | the surface loops fill exactly the first `6·2·w·h` entries with the surface quads in loop order |
| LeafMesh.FillSideIndices | Providers/BreathingLeavesView.swift:253-278 | the side loop continues from the surface entries and fills up to `indexCount` with the side walls |
| LeafMesh.StoreQuad | Providers/BreathingLeavesView.swift:228-247 | writes the six indices of one surface quad at `index` and leaves earlier entries unchanged |
| LeafMesh.StoreWall | Providers/BreathingLeavesView.swift:256-275 | writes the six indices of one side wall at `index` and leaves earlier entries unchanged |
| LeafMesh.SurfaceQuad | Providers/BreathingLeavesView.swift:228-247 | a surface quad is six indices |
| LeafMesh.SideWall | Providers/BreathingLeavesView.swift:256-275 | a side wall is six indices |
| LeafMesh.TriangleInBuffer | Providers/BreathingLeavesView.swift:233-277 | triangle h of panel p is the index-buffer entries `6p+3h .. 6p+3h+2`, all inside the buffer |
| LeafMesh.QuadWithinSurface | Providers/BreathingLeavesView.swift:225-231 | a surface quad only uses vertices of its own surface's block |
| LeafMesh.WallWithinSides | Providers/BreathingLeavesView.swift:254-259 | a side wall only uses the side vertices |
| LeafMesh.IndexInRange | Providers/BreathingLeavesView.swift:221-278 | every written index is below `vertexCount`, and surface entries stay within their surface |
| LeafMesh.TriangleNondegenerate | Providers/BreathingLeavesView.swift:228-275 | the three corners of every emitted triangle are pairwise distinct |
| LeafMesh.BackFaceMirrorsFront | Providers/BreathingLeavesView.swift:233-246 | each back-surface triangle is the matching front triangle with reversed winding, shifted by `vertsPerSurface` |
| LeafMesh.RightWallMirrorsLeft | Providers/BreathingLeavesView.swift:262-275 | each right-wall triangle is the matching left-wall triangle with reversed winding, shifted by 2 |
| LeafMesh.PanelDiagonalShared | Providers/BreathingLeavesView.swift:233-275 | the two triangles of every panel share their diagonal, traversed in opposite directions |
| LeafMesh.SideVerticesOnRim | Providers/BreathingLeavesView.swift:198-214 | every side vertex coincides with the rim vertex of the surface on the same side and face |
| LeafMesh.DeclaredBounds | Providers/BreathingLeavesView.swift:281 | the bounds as written: maximum z is `depth/2` |
| LeafMesh.DeclaredBoundsMissMidline | Providers/BreathingLeavesView.swift:178-190 | the front vertex of row 6 lies at z = 0.15 + depth/2 and is outside the bounds as written |
| LeafMesh.LeafBounds | Providers/BreathingLeavesView.swift:281-287 | the corrected bounds: as written, but with maximum z raised to 0.15 + depth/2 |
| LeafMesh.VertexInLeafBounds | Providers/BreathingLeavesView.swift:165-214 | every vertex of the buffer lies inside the corrected bounds, for any leaf height ≥ 0 |
| LeafMesh.PositionInBounds | Providers/BreathingLeavesView.swift:165-190 | every sampled leaf point with a ±depth/2 offset lies inside the corrected bounds |
| LeafMesh.ShapeWithin | Providers/BreathingLeavesView.swift:165-181 | `leafShape` stays within ±width/2 in x, ±height/2 in y and [0, 0.15] in z |
| LeafMesh.WidthWithin | Providers/BreathingLeavesView.swift:169-174 | the leaf width at v lies in [0, height·0.5] |
| LeafMesh.TrimInUnit | Providers/BreathingLeavesView.swift:170-172 | the top/bottom adjustment factor lies in [0, 1] on the unit interval |
| BreathingLeaves.FibonacciLattice | Providers/BreathingLeavesView.swift:89-110 | returns exactly `entityCount` pairs, the k-th the k-th lattice point, each with `entity.position == initialPosition` |
| BreathingLeaves.LatticePair | Providers/BreathingLeavesView.swift:95-107 | each pair holds a leaf entity placed at the lattice point of radius `boundingBox.z·0.45` |
| BreathingLeaves.LatticePoint | Providers/BreathingLeavesView.swift:95-101 | no contract of its own: the spherical point at polar angle `acos(1 − 2(i + 1)/(count + 1))` and azimuth `πi(1 + √5)`; `LatticeOnSphere` puts it on the sphere |
| BreathingLeaves.PedalEntity | Providers/BreathingLeavesView.swift:114-143 | the leaf entity sits at the origin with a leaf height of a tenth of the box height |
| BreathingLeaves.CosThetaInside | Providers/BreathingLeavesView.swift:95 | the `acos` argument of every lattice index lies strictly inside (−1, 1) |
| BreathingLeaves.CosThetaDescends | Providers/BreathingLeavesView.swift:95 | the `acos` argument strictly decreases along the lattice |
| BreathingLeaves.LatticeDescends | Providers/BreathingLeavesView.swift:95-100 | later lattice points lie strictly lower in z, so no two leaves coincide |
| BreathingLeaves.LatticeOnSphere | Providers/BreathingLeavesView.swift:98-101 | every lattice point lies on the sphere of the given radius |
| BreathingLeaves.Channel | Providers/BreathingLeavesView.swift:313-315 | a channel is the truncation of `f·255`, within 0..255 |
| BreathingLeaves.ChannelWord | Providers/BreathingLeavesView.swift:313-315 | the channel as a 32-bit word is below 256 |
| BreathingLeaves.UnpackPack | Providers/BreathingLeavesView.swift:316-317 | the packed pixel unpacks to red, green, blue and alpha 255 in bytes 0, 1, 2, 3 |
| BreathingLeaves.PackPixel | Providers/BreathingLeavesView.swift:316-317 | no contract of its own: `(alpha << 24) | (blue << 16) | (green << 8) | red` with alpha 255; `UnpackPack` reads each channel back |
| BreathingLeaves.NoisePixel | Providers/BreathingLeavesView.swift:313-317 | no contract of its own: the packed colour of pixel (y, x) from its three draws; `NoisePixelIsRedShade` bounds its channels and `RedShadeNoiseImage` is proved to store it in every slot |
| BreathingLeaves.NoisePixelIsRedShade | Providers/BreathingLeavesView.swift:313-317 | every noise pixel is opaque, red ≥ 127, green ≤ 127 and blue ≤ 95 |
| BreathingLeaves.PixelIndexInjective | Providers/BreathingLeavesView.swift:311-318 | distinct (y, x) cells write distinct slots of the buffer |
| BreathingLeaves.StorePixel | Providers/BreathingLeavesView.swift:318 | writing slot `y·width+x` extends the filled prefix by one |
| BreathingLeaves.RedShadeNoiseImage | Providers/BreathingLeavesView.swift:293-323 | no image exactly when no context; otherwise `width·height` pixels, each slot holding the pixel of its own (y, x) |
| SphereMesh.GenerateSpecificSphere | Providers/TriangleCountView.swift:167-238 | fresh buffers of `(lat+1)(long+1)` vertices and `lat·long·6` indices, every slot equal to its reference, one triangle part bounded by the radius cube |
| SphereMesh.FillSphereVertices | Providers/TriangleCountView.swift:177-200 | the vertex counter ends at `(lat+1)(long+1)` and every slot holds its reference vertex |
| SphereMesh.StoreVertex | Providers/TriangleCountView.swift:191-197 | writing the vertex of (la, lo) extends the filled prefix by one |
| SphereMesh.VertexSlot | Providers/TriangleCountView.swift:181-197 | band (la, lo) is written at slot `la·(long+1)+lo`, inside the buffer, with colour `0xFFFFFFFF` |
| SphereMesh.SpherePointOnSphere | Providers/TriangleCountView.swift:191-194 | with sin²+cos² = 1 for both angles, the point lies on the sphere of the radius |
| SphereMesh.SpherePoint | Providers/TriangleCountView.swift:191-194 | no contract of its own: `(cosφ·sinθ, cosθ, sinφ·sinθ)·radius`; `SpherePointOnSphere` puts it at distance `radius` |
| SphereMesh.VertexAt | Providers/TriangleCountView.swift:177-200 | no contract of its own: the reference vertex of slot `k`, latitude `k div (long + 1)` and longitude `k mod (long + 1)`, coloured white; `FillSphereVertices` is proved to store it |
| SphereMesh.PositionOnSphere | Providers/TriangleCountView.swift:181-194 | every vertex position lies on the sphere of the radius |
| SphereMesh.SphereBounds | Providers/TriangleCountView.swift:224 | the bounds are the cube from −radius to radius |
| SphereMesh.VertexInBounds | Providers/TriangleCountView.swift:181-194 | every vertex lies within those bounds for a non-negative radius |
| SphereMesh.FillSphereIndices | Providers/TriangleCountView.swift:202-222 | the index counter ends at `lat·long·6` and every entry equals the reference index |
| SphereMesh.StoreQuad | Providers/TriangleCountView.swift:208-219 | writing one quad's six indices at `6·(la·long+lo)` extends the filled prefix by six |
| SphereMesh.QuadNumber | Providers/TriangleCountView.swift:206-219 | quad (la, lo) is the `la·long+lo`-th block of six |
| SphereMesh.SphereQuad | Providers/TriangleCountView.swift:208-217 | no contract of its own: the six indices `first, second, first+1, second, second+1, first+1` of quad (la, lo); `QuadInRange` and `TriangleNondegenerate` state its properties |
| SphereMesh.IndexAt | Providers/TriangleCountView.swift:202-222 | no contract of its own: the reference index of slot `k`, entry `k mod 6` of quad `k div 6` in loop order; `FillSphereIndices` is proved to store it and `IndexInRange` bounds it |
| SphereMesh.QuadInRange | Providers/TriangleCountView.swift:208-217 | the largest corner `second+1` is below `(lat+1)(long+1)` |
| SphereMesh.IndexInRange | Providers/TriangleCountView.swift:208-217 | every written index is below the vertex count |
| SphereMesh.TriangleInBuffer | Providers/TriangleCountView.swift:211-217 | triangle h of quad q is the buffer entries `6q+3h .. 6q+3h+2`, all inside the buffer |
| SphereMesh.TriangleNondegenerate | Providers/TriangleCountView.swift:208-217 | the corners of every emitted triangle are pairwise distinct when `long ≥ 1` |
| SphereMesh.TriangleCount | Providers/TriangleCountView.swift:169-234 | the printed triangle count `indexCount / 3` is `2·lat·long` |
| TriangleCount.FirstIndexed | Providers/TriangleCountView.swift:128-138 | the first part with triangle indices, or none exactly when no part has them |
| TriangleCount.AllParts | Providers/TriangleCountView.swift:128-129 | the parts of all models, in loop order, include every part of every model |
| TriangleCount.PartsCountIsFirstIndexed | Providers/TriangleCountView.swift:129-136 | the inner loop answers the first indexed part's index count divided by 3 |
| TriangleCount.PartsTriangleCount | Providers/TriangleCountView.swift:129-136 | no contract of its own: the inner loop over one model's parts, `indices.count / 3` of the first part with triangle indices; `PartsCountIsFirstIndexed` characterises it |
| TriangleCount.ModelsTriangleCount | Providers/TriangleCountView.swift:128-138 | no contract of its own: the outer loop, the first model whose parts yield a count, else 0; `ModelsCountIsFirstIndexed` characterises it |
| TriangleCount.ResourceTriangleCount | Providers/TriangleCountView.swift:127-139 | no contract of its own: `MeshResource.triangleCount`, the models loop over the mesh's models; `TriangleCountIsFirstIndexed` characterises it |
| TriangleCount.ModelsCountIsFirstIndexed | Providers/TriangleCountView.swift:127-139 | the nested loops answer the first indexed part over all models, or 0 |
| TriangleCount.TriangleCountIsFirstIndexed | Providers/TriangleCountView.swift:127-139 | `MeshResource.triangleCount` is the first indexed part's count / 3, or 0 |
| TriangleCount.NoIndexedPartCountsZero | Providers/TriangleCountView.swift:138 | a mesh without indexed parts counts 0 triangles |
| TriangleCount.EntityTriangleCount | Providers/TriangleCountView.swift:117-123 | 0 for an entity without a mesh, otherwise its mesh's triangle count |
| TriangleCount.MeshOf | Providers/TriangleCountView.swift:121-123 | no contract of its own: `Entity.meshResource`, the mesh of the model component or none; `EntityTriangleCount` case-splits on it |
| TriangleCount.SphereEntityTriangleCount | Providers/TriangleCountView.swift:117-139 | an entity carrying the generated sphere counts `2·lat·long` triangles |
| TargetPractice.RayIntersectsSphere | Providers/TargetView.swift:237-259 | no hit exactly when the discriminant or the nearer root is negative; otherwise the hit is `start + t·dir` |
| TargetPractice.Discriminant | Providers/TargetView.swift:241-245 | no contract of its own: `b² − 4ac` with `a = d·d`, `b = 2(o − c)·d`, `c = (o − c)·(o − c) − r²`; `MissStaysOutside` states what a negative value means |
| TargetPractice.NearRoot | Providers/TargetView.swift:251 | no contract of its own: the nearer root `(−b − √disc)/2a`, for a non-zero direction; `HitOnSphere` and `InsideStartMisses` state its meaning |
| TargetPractice.HitOnSphere | Providers/TargetView.swift:241-258 | a reported hit lies on the sphere |
| TargetPractice.MissStaysOutside | Providers/TargetView.swift:245-249 | with a negative discriminant every point of the line lies outside the sphere |
| TargetPractice.InsideStartMisses | Providers/TargetView.swift:251-255 | a ray starting inside the sphere reports no hit, because the nearer root is negative |
| TargetPractice.IsRecentlyOnTarget | Providers/TargetView.swift:261-264 | true exactly when there is a stamp and `now` is within 0.1 s of it |
| TargetPractice.StampedNowIsRecent | Providers/TargetView.swift:261-264 | a stamp taken at `now` is recent at `now` |
| TargetPractice.QuietFrameStamps | Providers/TargetView.swift:201-214 | without a shot, a target is stamped `now` exactly when the ray meets it and is cleared otherwise, and it neither moves nor changes its hit flag |
| TargetPractice.LoopTarget | Providers/TargetView.swift:201-224 | no contract of its own: one iteration of the first loop on one target, stamping or clearing the contact time and, on a fire frame, moving a recently met, unhit target; `QuietFrameStamps` and `FireFrameMovesMetTargets` characterise it |
| TargetPractice.FrameTarget | Providers/TargetView.swift:201-232 | no contract of its own: a target after all of `updateTargets`, a fire frame also clearing its hit flag; `UpdateTargets` is proved to produce it for every target |
| TargetPractice.FireFrameMovesMetTargets | Providers/TargetView.swift:206-232 | on a shot, a target moves to the draw exactly when the ray meets it and it was not hit; afterwards it is unhit and unstamped |
| TargetPractice.TargetsStayInSpawnBox | Providers/TargetView.swift:216-223 | a target in the `randomPosition` box stays in it after any frame |
| TargetPractice.NearestUnique | Providers/TargetView.swift:208-211 | at most one index is the nearest hit under the earliest-wins tie rule |
| TargetPractice.InitialGate | Providers/TargetView.swift:21-27 | the initial gate is disarmed, not fired, not cooling down, with laser opacity 0.25 and no laser entity yet |
| TargetPractice.FireNeedsArmedTrigger | Providers/TargetView.swift:332-372 | a shot needs a trigger score above 0.9, no cooldown and an armed gun; it disarms, starts the cooldown and flashes the laser |
| TargetPractice.LaserCreatedStep | Providers/TargetView.swift:55-57 | no contract of its own: the laser exists and is transparent; `LaserCreatedArmedShown` and `GateStepsKeepValid` state its effect |
| TargetPractice.ReadyStep | Providers/TargetView.swift:332-342 | no contract of its own: a ready score above 0.95 stamps and arms, then shows the gun or, without a laser, stops the check early; `ReadyArms` and `ReadyPoseRestoresArmedShown` characterise it |
| TargetPractice.TriggerStep | Providers/TargetView.swift:358-372 | no contract of its own: a trigger score above 0.9 fires an armed gun outside a cooldown; `FireNeedsArmedTrigger` characterises it |
| TargetPractice.GestureStep | Providers/TargetView.swift:323-373 | no contract of its own: the ready half, then the trigger half unless the check stopped early; `FireNeedsArmedTrigger`, `ReadyArms` and `GateStepsKeepValid` state its properties |
| TargetPractice.DebounceExpiredStep | Providers/TargetView.swift:344-355 | no contract of its own: after 0.125 s without a ready pose a shown gun is hidden and disarmed, if the laser exists; `DebounceNeedsQuiet` characterises it |
| TargetPractice.CooldownExpiredStep | Providers/TargetView.swift:289-293 | no contract of its own: the cooldown ends and the opacity returns to 0.25; `CooldownRestoresOpacity` states its effect |
| TargetPractice.ReadyArms | Providers/TargetView.swift:332-342 | a ready score above 0.95 stamps the detection time and arms the gun; otherwise neither happens |
| TargetPractice.DebounceNeedsQuiet | Providers/TargetView.swift:343-356 | the debounce hides and disarms only after 0.125 s without detection and with the gun shown, and never arms |
| TargetPractice.CooldownRestoresOpacity | Providers/TargetView.swift:289-293 | the cooldown's end clears `isInCooldown` and restores opacity 0.25 |
| TargetPractice.GateStepsKeepValid | Providers/TargetView.swift:285-373 | the gesture, debounce, cooldown and laser-creation steps all keep "the laser flashes exactly during a cooldown" |
| TargetPractice.GateStepsKeepArmedShown | Providers/TargetView.swift:323-373 | the gesture, debounce and cooldown steps keep "with the laser present, an armed gun is shown" |
| TargetPractice.LaserCreatedArmedShown | Providers/TargetView.swift:55-57 | after the laser is created, "armed implies shown" holds exactly when the gun was unarmed or already shown; the new laser is transparent |
| TargetPractice.LateLaserLeavesArmedGunHidden | Providers/TargetView.swift:55-57 | a ready pose seen before the laser exists, followed by the laser's creation, leaves the gun armed and hidden with the laser present |
| TargetPractice.ReadyPoseRestoresArmedShown | Providers/TargetView.swift:332-342 | with the laser present, a ready score above 0.95 shows the gun (opacity 1.0 if it was hidden) and restores "armed implies shown" |
| TargetPractice.CalculatePalmPosition | Providers/TargetView.swift:313-321 | none exactly when a metacarpal is missing; otherwise the centroid of the three metacarpals |
| TargetPractice.TargetView.constructor | Providers/TargetView.swift:18-27 | no targets and the initial gate |
| TargetPractice.TargetView.LaserCreated | Providers/TargetView.swift:55-57 | the gate moves by the laser-creation step; targets unchanged; the invariant is kept |
| TargetPractice.TargetView.CreateTargets | Providers/TargetView.swift:101-113 | exactly three targets at the drawn positions, unhit and unstamped |
| TargetPractice.TargetView.FrameStepTarget | Providers/TargetView.swift:202-224 | one loop iteration: the hit is the ray test of this target and the target is updated accordingly |
| TargetPractice.TargetView.ScanTargets | Providers/TargetView.swift:199-225 | every target is updated by the loop; the closest is none exactly when nothing is met, and otherwise the nearest hit with the earliest index on ties |
| TargetPractice.TargetView.UpdateTargets | Providers/TargetView.swift:198-235 | same count; each target as one frame leaves it; `didFire` cleared and the rest of the gate unchanged; nearest-hit result; every `isHit` false again |
| TargetPractice.TargetView.CheckForHandGestures | Providers/TargetView.swift:323-373 | the gate moves by the ready half, then the trigger half; targets unchanged |
| TargetPractice.TargetView.FlashLaserBeam | Providers/TargetView.swift:285-288 | opacity 1.0 and cooldown on; nothing else changes; the invariant is kept |
| TargetPractice.TargetView.DebounceExpired | Providers/TargetView.swift:344-355 | the debounce task's effect at `now`; targets unchanged |
| TargetPractice.TargetView.CooldownExpired | Providers/TargetView.swift:289-293 | the flash task's effect; targets unchanged |
| EntityTree.WalkUp | Providers/Extension.swift:66-76 | the nearest self-or-ancestor satisfying the predicate: it matches, nothing between it and the start matches, and none is found exactly when no node on the path matches |
| EntityTree.ParentWalksSound | Providers/Extension.swift:66-115 | `parentMatching`, `getParentHasPrefix` and `getParentName` return only nodes whose names satisfy their predicate |
| EntityTree.ParentMatching | Providers/Extension.swift:66-76 | no contract of its own: `WalkUp` with the name-contains test; `ParentWalksSound` states what it finds |
| EntityTree.ParentHasPrefix | Providers/Extension.swift:95-104 | no contract of its own: `WalkUp` with the name-prefix test; `ParentWalksSound` and `PrefixWalkNoHigherThanContains` state what it finds |
| EntityTree.ParentNamed | Providers/Extension.swift:106-115 | no contract of its own: `WalkUp` with the name-equality test; `ParentWalksSound` states what it finds |
| EntityTree.PrefixWalkNoHigherThanContains | Providers/Extension.swift:66-104 | a prefix match implies a contains match at the same node or nearer |
| EntityTree.PrefixIsContained | Providers/Extension.swift:95-96 | a prefix is contained in the string |
| EntityTree.SearchDownIsFirstInPreOrder | Providers/Extension.swift:78-92 | the depth-first search, self first, returns the first match in pre-order |
| EntityTree.SearchDown | Providers/Extension.swift:78-92 | no contract of its own: the entity when its name matches, otherwise the first hit among its children; `SearchDownIsFirstInPreOrder` proves it equals the first pre-order match |
| EntityTree.SearchChildren | Providers/Extension.swift:83-91 | no contract of its own: the first hit of the children's searches, in order; `SearchChildrenIsFirstInPreOrder` proves it equals the first pre-order match of their subtrees |
| EntityTree.DescendentMatching | Providers/Extension.swift:78-92 | `descendentMatching` is the first node in pre-order whose name contains the target |
| EntityTree.SelfOrDescendent | Providers/Extension.swift:117-130 | `getSelfOrDescendent` is the first pre-order node named `name`, and a result has that name |
| EntityTree.FindFirst | Providers/Extension.swift:84-91 | the first match: none exactly when nothing matches, otherwise a match with no match before it |
| EntityTree.PreOrder | Providers/Extension.swift:78-92 | the pre-order listing starts with the node itself |
| EntityTree.ModelDescendantsArePreOrder | Providers/Extension.swift:42-52 | `descendentsWithModelComponent` lists exactly the strict descendants with a model component, in pre-order |
| EntityTree.ModelDescendants | Providers/Extension.swift:42-52 | no contract of its own: `descendentsWithModelComponent`, the children loop over the entity's children; `ModelDescendantsArePreOrder` characterises it |
| EntityTree.ModelDescendantsAll | Providers/Extension.swift:45-50 | no contract of its own: each child, when it has a model component, followed by its own list, in order; `ModelDescendantsArePreOrder` characterises it |
| EntityTree.WithModel | Providers/Extension.swift:46-48 | keeps exactly the entities with a model component |
| GeometryCoding.EncodeMatrix | Providers/Extension.swift:29-32 | a matrix encodes as four columns |
| GeometryCoding.DecodeEncode | Providers/Extension.swift:22-33 | decoding an encoding gives the matrix back |
| GeometryCoding.DecodeMatrix | Providers/Extension.swift:23-28 | no contract of its own: the matrix of the first four decoded columns; `DecodeEncode` and `EncodeDecode` make it the inverse of `EncodeMatrix` |
| GeometryCoding.EncodeDecode | Providers/Extension.swift:23-31 | encoding a decoded array gives back its first four columns |
| GeometryCoding.EncodeInjective | Providers/Extension.swift:29-32 | distinct matrices have distinct encodings |
| GeometryCoding.FromRaw | Providers/Extension.swift:208 | a classification exactly for raw values 0..13, and it has that raw value |
| GeometryCoding.FromRawValue | Providers/Extension.swift:208 | every classification is read back from its raw value |
| GeometryCoding.ClassificationOfReadsByte | Providers/Extension.swift:203-209 | none without classifications; otherwise the classification of the byte at `offset + stride·index`, falling back to none |
| GeometryCoding.ClassificationOf | Providers/Extension.swift:203-209 | no contract of its own: none without a classification source, otherwise `FromRaw` of the byte at `offset + stride·index`, or none; `ClassificationOfReadsByte` characterises it |
| PlaneDetection.ColorOf | Providers/Provider/PlaneDetectionModel.swift:104-129 | every known classification has alpha 0.65; the fallback is opaque purple and the only purple |
| PlaneDetection.ColorsDistinct | Providers/Provider/PlaneDetectionModel.swift:104-129 | distinct classifications get distinct colours |
| PlaneDetection.UpdatePlaneInserts | Providers/Provider/PlaneDetectionModel.swift:75-94 | the id is in the table afterwards with the anchor's pose and extent; a new entity is created and parented exactly when the id was absent; other entries are unchanged |
| PlaneDetection.UpdatePlaneStep | Providers/Provider/PlaneDetectionModel.swift:75-94 | no contract of its own: a known anchor's entity takes its pose and extent with its old colour; an unknown anchor gets a fresh, parented, coloured entity; `UpdatePlaneInserts`, `ColorFixedAtCreation` and `UpdatePlaneLeavesOthers` characterise it |
| PlaneDetection.ColorFixedAtCreation | Providers/Provider/PlaneDetectionModel.swift:77-85 | the plane's colour is that of the classification at creation, and later updates keep it |
| PlaneDetection.UpdatePlaneLeavesOthers | Providers/Provider/PlaneDetectionModel.swift:75-94 | entities of other anchors are unchanged |
| PlaneDetection.RemovePlaneDeletesOnly | Providers/Provider/PlaneDetectionModel.swift:96-99 | only the anchor's key is deleted and only its entity detached |
| PlaneDetection.RemovePlaneStep | Providers/Provider/PlaneDetectionModel.swift:96-99 | no contract of its own: a known anchor's entity leaves the children and its entry leaves the table; `RemovePlaneDeletesOnly` characterises it |
| PlaneDetection.AddedLikeUpdated | Providers/Provider/PlaneDetectionModel.swift:47-49 | `.added` and `.updated` are handled identically |
| PlaneDetection.WindowSkipped | Providers/Provider/PlaneDetectionModel.swift:45 | window anchors change nothing and never enter the table |
| PlaneDetection.UpdatePlaneKeepsValid | Providers/Provider/PlaneDetectionModel.swift:75-94 | the table and the content entity's children stay in one-to-one correspondence |
| PlaneDetection.RemovePlaneKeepsValid | Providers/Provider/PlaneDetectionModel.swift:96-99 | removal keeps that correspondence |
| PlaneDetection.ProcessKeepsValid | Providers/Provider/PlaneDetectionModel.swift:41-54 | every dispatched event keeps it |
| PlaneDetection.ProcessStep | Providers/Provider/PlaneDetectionModel.swift:43-53 | no contract of its own: windows skipped, added and updated anchors to `UpdatePlaneStep`, removed ones to `RemovePlaneStep`; `WindowSkipped`, `AddedLikeUpdated` and `ProcessKeepsValid` characterise it |
| PlaneDetection.PlaneDetectionModel.constructor | Providers/Provider/PlaneDetectionModel.swift:20-21 | an empty table and no children |
| PlaneDetection.PlaneDetectionModel.UpdatePlane | Providers/Provider/PlaneDetectionModel.swift:75-94 | the fields move as `updatePlane` does, and the invariant holds |
| PlaneDetection.PlaneDetectionModel.RemovePlane | Providers/Provider/PlaneDetectionModel.swift:96-99 | the fields move as `removePlane` does, and the invariant holds |
| PlaneDetection.PlaneDetectionModel.ProcessUpdate | Providers/Provider/PlaneDetectionModel.swift:43-53 | one update of the stream: the window filter, then dispatch by event |
| SceneReconstruction.PolygonsOf | Providers/Provider/SceneReconstructionModel.swift:78-85 | `faces.count` face sizes, all 3, and `3·faces.count` indices, each read at `k·bytesPerIndex` |
| SceneReconstruction.PolygonsConsistent | Providers/Provider/SceneReconstructionModel.swift:78-85 | the face sizes add up to the index count |
| SceneReconstruction.FaceCorners | Providers/Provider/SceneReconstructionModel.swift:80-84 | face f's three corners are the index words `3f`, `3f+1` and `3f+2` |
| SceneReconstruction.ModelEntityOf | Providers/Provider/SceneReconstructionModel.swift:71-91 | a fresh model entity with that mesh, the identity transform and no components |
| SceneReconstruction.ShapeFailureIgnored | Providers/Provider/SceneReconstructionModel.swift:44 | a failed shape generation leaves everything unchanged |
| SceneReconstruction.AddedStores | Providers/Provider/SceneReconstructionModel.swift:46-56 | `.added` stores a new entity under the id, with the anchor's pose, a static collision of the shape, input target, static body and the anchor's mesh, and parents it; other entries are unchanged |
| SceneReconstruction.AddedEntity | Providers/Provider/SceneReconstructionModel.swift:46-54 | no contract of its own: the model entity of the anchor's faces, posed, with one static collision shape, an input target and a static body; `AddedStores` states it is what an added anchor gets |
| SceneReconstruction.ProcessStep | Providers/Provider/SceneReconstructionModel.swift:41-67 | no contract of its own: the update dispatch with the shape outcome; `ShapeFailureIgnored`, `AddedStores`, `UpdatedUnknownIgnored`, `UpdatedChangesPoseAndShapes`, `RemovedDeletesKey` and `ProcessKeepsValid` characterise it |
| SceneReconstruction.AddedTwiceOrphans | Providers/Provider/SceneReconstructionModel.swift:55-56 | a second `.added` for an id leaves the old entity parented but no longer in the table |
| SceneReconstruction.UpdatedUnknownIgnored | Providers/Provider/SceneReconstructionModel.swift:59 | `.updated` for an unknown id changes nothing |
| SceneReconstruction.UpdatedChangesPoseAndShapes | Providers/Provider/SceneReconstructionModel.swift:58-61 | `.updated` changes only that entity's transform and collision shapes |
| SceneReconstruction.RemovedDeletesKey | Providers/Provider/SceneReconstructionModel.swift:63-65 | `.removed` deletes only that key and detaches only its entity |
| SceneReconstruction.ProcessKeepsValid | Providers/Provider/SceneReconstructionModel.swift:41-67 | every update keeps the table's entities parented and distinct |
| SceneReconstruction.SceneReconstructionModel.constructor | Providers/Provider/SceneReconstructionModel.swift:18-19 | an empty table and no children |
| SceneReconstruction.SceneReconstructionModel.ProcessMeshAnchorUpdate | Providers/Provider/SceneReconstructionModel.swift:41-67 | the fields move as `processMeshAnchorUpdate` does, and the invariant holds |
| ImageTracking.CreatesOnlyOnFirstUpdate | Providers/Provider/ImageTrackingModel.swift:67-74 | the first update for an id creates, stores and parents exactly one marker of radius 0.05; later ones create none |
| ImageTracking.UpdateImageStep | Providers/Provider/ImageTrackingModel.swift:67-79 | no contract of its own: an unseen anchor gets a fresh parented marker, and a tracked anchor's marker takes its pose; `CreatesOnlyOnFirstUpdate`, `TransformOnlyWhenTracked`, `OthersUntouched` and `UpdateKeepsValid` characterise it |
| ImageTracking.TransformOnlyWhenTracked | Providers/Provider/ImageTrackingModel.swift:76-78 | the marker's transform is written only when the anchor is tracked |
| ImageTracking.OthersUntouched | Providers/Provider/ImageTrackingModel.swift:67-79 | markers of other anchors are unchanged |
| ImageTracking.UpdateKeepsValid | Providers/Provider/ImageTrackingModel.swift:67-79 | the table and the children stay in one-to-one correspondence |
| ImageTracking.Run | Providers/Provider/ImageTrackingModel.swift:41-46 | a stream of updates keeps that correspondence |
| ImageTracking.TableOnlyGrows | Providers/Provider/ImageTrackingModel.swift:41-79 | entries are never removed or changed, and every seen id has one |
| ImageTracking.StepCounts | Providers/Provider/ImageTrackingModel.swift:68-74 | one update creates at most one entity, exactly when the table grows |
| ImageTracking.OneMarkerPerAnchor | Providers/Provider/ImageTrackingModel.swift:41-74 | over a stream, entities created equal new table entries |
| ImageTracking.Initial | Providers/Provider/ImageTrackingModel.swift:18-19 | the initial table is empty and valid |
| ImageTracking.ImageTrackingModel.constructor | Providers/Provider/ImageTrackingModel.swift:18-19 | an empty table and no children |
| ImageTracking.ImageTrackingModel.UpdateImage | Providers/Provider/ImageTrackingModel.swift:67-79 | the fields move as `updateImage` does, and the invariant holds |
| Portal.CandidateRadius | Providers/Provider/PortalModel.swift:70-72 | the candidate is `min(width, height)·0.8` |
| Portal.OnlyCeilingsCount | Providers/Provider/PortalModel.swift:39-41 | non-ceiling anchors change nothing |
| Portal.UpdateMaxRadiusStep | Providers/Provider/PortalModel.swift:69-77 | no contract of its own: a larger candidate radius replaces the maximum and records the anchor's pose; `MaxRadiusMonotone` and `AnchorKeepsValid` state its properties |
| Portal.AnchorStep | Providers/Provider/PortalModel.swift:37-42 | no contract of its own: only ceiling anchors go to `UpdateMaxRadiusStep`; `OnlyCeilingsCount` and `ScanFindsLargest` characterise it |
| Portal.MaxRadiusMonotone | Providers/Provider/PortalModel.swift:69-77 | `maxRadius` never decreases; it and the pose change together, and only on a strictly larger ceiling radius |
| Portal.AnchorKeepsValid | Providers/Provider/PortalModel.swift:37-77 | anchors keep "pose recorded iff radius positive" |
| Portal.StepsKeepValid | Providers/Provider/PortalModel.swift:33-115 | every step keeps the scale in [0, 1] and the pose/radius link |
| Portal.CreatePortalSize | Providers/Provider/PortalModel.swift:79-96 | no portal without a pose; otherwise a plane at the pose sized `maxRadius` with corner radius `maxRadius·0.5`, added to the portal world |
| Portal.CreatePortalStep | Providers/Provider/PortalModel.swift:79-96 | no contract of its own: without a recorded pose nothing, otherwise a `maxRadius` square portal at that pose, stored and added to the world; `CreatePortalSize` characterises it |
| Portal.DetectionFiredStep | Providers/Provider/PortalModel.swift:52-61 | no contract of its own: the session stops, the portal is created and the animation timer starts; `StepsKeepValid` states it keeps `Valid` |
| Portal.TickAdvances | Providers/Provider/PortalModel.swift:102-107 | a tick adds `updateInterval/animationDuration`; reaching 1 lands on exactly 1 and stops the timer |
| Portal.TickStep | Providers/Provider/PortalModel.swift:99-108 | no contract of its own: the scale grows by 1/300 and, on reaching 1, is set to 1 and the timer stops; `TickAdvances` and `OpeningIsLinear` characterise it |
| Portal.OpeningIsLinear | Providers/Provider/PortalModel.swift:98-110 | from scale 0 the scale after n ticks is n/300 until it reaches 1 at tick 300, when the timer stops |
| Portal.LargestOffer | Providers/Provider/PortalModel.swift:39-72 | the largest ceiling candidate bounds every offered radius |
| Portal.ScanFindsLargest | Providers/Provider/PortalModel.swift:37-42 | after a stream, `maxRadius` is the larger of its start and the largest ceiling candidate |
| Portal.ScanPoseWitness | Providers/Provider/PortalModel.swift:73-76 | the recorded pose is unchanged or is that of a ceiling whose candidate equals `maxRadius` |
| Portal.StartSessionStep | Providers/Provider/PortalModel.swift:33-35 | the session runs and the detection timer is set |
| Portal.StopSessionStep | Providers/Provider/PortalModel.swift:45-49 | the session stops and both timers are cleared |
| Portal.Initial | Providers/Provider/PortalModel.swift:17-25 | radius 0, scale 0 and no pose |
| Portal.PortalModel.constructor | Providers/Provider/PortalModel.swift:17-25 | the initial fields |
| Portal.PortalModel.StartARSession | Providers/Provider/PortalModel.swift:33-35 | session started and detection timer set; invariant kept |
| Portal.PortalModel.ProcessAnchor | Providers/Provider/PortalModel.swift:37-42 | one iteration of the update loop; invariant kept |
| Portal.PortalModel.UpdateMaxRadius | Providers/Provider/PortalModel.swift:69-77 | fields move as `updateMaxRadius` does |
| Portal.PortalModel.CreatePortal | Providers/Provider/PortalModel.swift:79-96 | fields move as `createPortal` does |
| Portal.PortalModel.StartDetectionTimer | Providers/Provider/PortalModel.swift:51-62 | only the detection timer is set |
| Portal.PortalModel.DetectionTimerFired | Providers/Provider/PortalModel.swift:52-61 | the session stops, the portal is created and the animation timer set; invariant kept |
| Portal.PortalModel.StartAnimationTimer | Providers/Provider/PortalModel.swift:98-110 | only the animation timer is set |
| Portal.PortalModel.AnimationTick | Providers/Provider/PortalModel.swift:99-108 | one tick; invariant kept |
| Portal.PortalModel.StopARSession | Providers/Provider/PortalModel.swift:45-49 | session stopped and both timers cleared; invariant kept |
| Portal.PortalModel.StopDetectionTimer | Providers/Provider/PortalModel.swift:64-67 | only the detection timer is cleared |
| Portal.PortalModel.StopAnimationTimer | Providers/Provider/PortalModel.swift:112-115 | only the animation timer is cleared |
| TileFloor.VolumeGrid | Providers/TileFloorRealityView.swift:14-31 | exactly 64 tiles in row-major order, each the tile of its row and column |
| TileFloor.VolumeTileSize | Providers/TileFloorRealityView.swift:20 | `gridSize·tileSize = min(size.x, size.y)` |
| TileFloor.VolumeTile | Providers/TileFloorRealityView.swift:26-30 | no contract of its own: the upright tile at (Offset(column), Offset(row), 0); `VolumeGrid` is proved to produce it and `VolumeGridFits` bounds it |
| TileFloor.VolumeGridFits | Providers/TileFloorRealityView.swift:19-29 | every volume tile lies within the volume's smaller side, at z = 0 |
| TileFloor.ImmersiveGrid | Providers/TileFloorRealityView.swift:40-56 | exactly 256 tiles in row-major order, each the tile of its row and column |
| TileFloor.ImmersiveTilesOnFloor | Providers/TileFloorRealityView.swift:51-54 | immersive tiles lie at y = 0 within a 16 m square and share one rotation |
| TileFloor.ImmersiveTile | Providers/TileFloorRealityView.swift:50-55 | no contract of its own: the tile at (Offset(column), 0, Offset(row)) turned −π/2 about x; `ImmersiveGrid` is proved to produce it and `ImmersiveTilesOnFloor` places it on the floor |
| TileFloor.OffsetsSymmetric | Providers/TileFloorRealityView.swift:27-52 | the offset of c is the negation of that of `gridSize−1−c`, so the grid is centred |
| TileFloor.Offset | Providers/TileFloorRealityView.swift:27-28 | no contract of its own: `i·tileSize − (gridSize − 1)·tileSize/2`; `OffsetsSymmetric`, `AdjacentSpacing`, `OffsetInjective` and `TileWithinGrid` characterise it |
| TileFloor.AdjacentSpacing | Providers/TileFloorRealityView.swift:27-52 | adjacent tiles are exactly `tileSize` apart |
| TileFloor.OffsetInjective | Providers/TileFloorRealityView.swift:27-52 | distinct columns get distinct offsets |
| TileFloor.TileWithinGrid | Providers/TileFloorRealityView.swift:27-52 | every tile lies within the grid's half-extent |
| TileFloor.CellsDistinct | Providers/TileFloorRealityView.swift:24-56 | distinct cells are placed at distinct positions in both views |
| SceneGraph.Without | Providers/Provider/PlaneDetectionModel.swift:97 | `removeFromParent` drops exactly that entity from the child list |
| SceneGraph.WithoutKeepsNoDuplicates | Providers/Provider/PlaneDetectionModel.swift:97 | removal keeps a duplicate-free child list duplicate-free |
| SceneGraph.WithoutPresentOnce | Providers/Provider/PlaneDetectionModel.swift:97 | removing a present child shortens the list by one |

## Left out

- ARKit sessions, anchor-update streams, hand tracking and session-event monitoring are asynchronous framework I/O. Each update is a method call taking an event value, and a stream is a sequence of such calls.
- `Task.sleep` and `Timer` scheduling are not modelled as time. Only their effects are kept, as the explicit events `DebounceExpired`, `CooldownExpired`, `DetectionTimerFired` and `AnimationTick`.
- Random draws (`randomPosition`, `CGFloat.random`) are oracle parameters. Their ranges are hypotheses: `InSpawnBox` and `DrawsInRange`.
- `Float` arithmetic is exact `real` arithmetic. Rounding, NaN and infinities are not modelled.
- `sin`, `cos`, `acos`, `sqrt`, `pow` and `pi` are function parameters. Only the identities a lemma needs are assumed, each as a stated hypothesis.
- Materials, textures, opacity components other than the laser's, audio, SwiftUI views and the breathing animation timer are presentation only.
- Downloads, file moves and asset loading are network and file-system I/O.
- HandVector pose similarity and the embedded JSON hand poses belong to an external library. The two scores are inputs to `CheckForHandGestures`.
- `updateLaser` and `updateGun` are orientation maths. That includes the per-frame reset of the beam's opacity to `laserOpacity`.
- `updateForHandPosition` is not modelled. It derives the ray from the wrist and palm, and returns early when either joint is missing, leaving `didFire` set. It also clears `didFire` once more after `updateTargets`; that clearing is subsumed by `UpdateTargets`.
- Unsafe memory reads (`GeometrySource.asArray`, `asSIMD3`, the face index buffer) are foreign memory access. They are a `wordAt` function and a `ByteSource` byte sequence, and mesh positions and normals are not modelled.
- `LowLevelMesh` and `MeshResource` creation can throw, and `generateModelEntity` is called with `try!`. Those failure paths are not modelled.
- `scaleToFit`, `centerWithinParent`, `scaleIn`, `forward`, `visualExtents`, `MeshAnchor.boundingBox` and `String.toModel` are outside the modelled core.
- `EntityTree.Contains` is the substring test on `seq<char>`. Swift's Unicode-aware `String.contains` and `hasPrefix` are not modelled.
- TargetPractice.RayIntersectsSphere: requires a non-zero ray direction. For a zero direction the source divides by zero and yields a NaN root.
- TargetPractice.TargetView.Inv: does not include "with the laser present, an armed gun is shown". The `RealityView` closure creates the laser after awaited loads, while the `.task` may already be tracking hands, so a ready pose can arm the gun before the laser exists (`LateLaserLeavesArmedGunHidden`). That property is `ArmedShown`: every other gate event keeps it (`GateStepsKeepArmedShown`), and the next ready pose restores it (`ReadyPoseRestoresArmedShown`). `LaserCreated` may be called at any point between the other events.
- TargetPractice.TargetView.UpdateTargets: the two `Date()` reads in one iteration (the stamp and `isRecentlyOnTarget`) are taken at the same `now`. A real clock advances slightly in between, which cannot change the 0.1 s comparison in practice.
- TargetPractice.TargetView.UpdateTargets: requires `Inv()`, so every `isHit` is false on entry. The source establishes this itself, because a target is created unhit and every fire frame clears the flags.
- GeometryCoding.DecodeMatrix: requires at least four columns; on fewer the source traps at `cols[3]`.
- GeometryCoding.ClassificationOf: requires that the classification byte read lies inside the buffer; the source reads raw memory unchecked.
- SphereMesh.GenerateSpecificSphere: requires positive band counts and a vertex count that fits in `UInt32`. The source validates neither, and the `UInt32(...)` conversion traps on overflow.
- Portal.OpeningIsLinear: holds over exact reals. The source accumulates `Float(1/300)`, so rounding may shift the final tick by one.
- The classification raw values of `MeshAnchor.MeshClassification` are taken as the declaration order 0..13.

## Findings

| source | as written | input that shows it | evidently intended | confidence | as-written member | corrected member |
|---|---|---|---|---|---|---|
| Providers/BreathingLeavesView.swift:281 | the leaf mesh's bounds have maximum z = depth/2 = 0.025 | any leaf height: the front vertex of row 6 (v = 0.5, u = 0) has z = sin(π/2)·0.15 + depth/2 = 0.175 | bounds that contain every vertex: maximum z = 0.15 + depth/2 | not executed | LeafMesh.DeclaredBoundsMissMidline | LeafMesh.MakeCorrectedLeafMesh |
