# Auto-placed direction arrow: a Dafny model

`ARPlaceObjectAuto` is a Unity component in an AR app. On each frame it takes
the first anchor the anchor manager tracks. If that anchor does not project onto
the screen in front of the camera, it shows an arrow at the left or right edge of
the screen. It creates the arrow the first time, and the arrow is flipped when the
anchor lies to the left. If the anchor is visible, it hides the arrow. A UI button
can also run the placement step directly.

The model has four modules:

- `Geometry` (geometry.dfy) holds the value types. `Vec3` is a Vector3 over exact
  reals. `Viewport` is `Screen.width`/`Screen.height`. `Rotation` is one of the two
  Euler rotations used. `Camera` holds the camera's two projections as functions
  supplied with each frame.
- `Visibility` (visibility.dfy) is the visibility test `IsAnchorVisible` on a
  projected screen point.
- `Placement` (placement.dfy) is the left/right rule inside `PlaceObject`. It
  yields the arrow's screen point and rotation. The side test uses C#'s integer
  half of the screen width.
- `AutoPlacement` (auto_placement.dfy) is the component's state machine.
  - The class `PlaceObjectAuto` has the fields `spawned` (whether
    `m_SpawnedObject` is set), `active`, `position` and `rotation`. It also has
    `instances`, which counts calls to `Instantiate`.
  - Its methods `PlaceObject` and `Update` are proved against the state functions
    `PlaceObjectSpec` and `UpdateSpec`.
  - Lemmas over `Run`, which applies `Update` once per frame, show the arrow is
    created at most once and reused afterwards.

The class comment (ARAutoPlacement.cs:6-8) says the object is placed on the
left side of the screen when the button is clicked. The code does more. It
picks left or right by the anchor's side (line 128), and `Update` also places
the arrow (line 62). The model follows the code.

## Model

| member | source | states |
|---|---|---|
| `Visibility.IsAnchorVisible` | Assets/Scripts/Runtime/ARAutoPlacement.cs:75-96 | visible iff depth ≥ 0 and 0 ≤ x ≤ width and 0 ≤ y ≤ height |
| `Visibility.BehindCameraNeverVisible` | Assets/Scripts/Runtime/ARAutoPlacement.cs:83-86 | a point with negative depth is never visible, whatever its x and y |
| `Visibility.InFrontDepthIrrelevant` | Assets/Scripts/Runtime/ARAutoPlacement.cs:88-95 | for points in front of the camera, only x and y decide visibility |
| `Visibility.CornersVisible` | Assets/Scripts/Runtime/ARAutoPlacement.cs:89-93 | both bounds are inclusive: all four screen corners are visible |
| `Visibility.PastAnEdgeNotVisible` | Assets/Scripts/Runtime/ARAutoPlacement.cs:89-95 | any positive distance beyond an edge makes the point invisible |
| `Placement.PoseFor` | Assets/Scripts/Runtime/ARAutoPlacement.cs:127-145 | left side gives point (100, height/2, 1) and Euler(180,0,0); right side gives (width-100, height/2, 1) and Euler(0,0,0); flipped iff x < width/2 (integer division) |
| `Placement.PoseIgnoresYAndDepth` | Assets/Scripts/Runtime/ARAutoPlacement.cs:125-132 | anchor screen points with the same x give the same pose |
| `Placement.IsOnLeftExact` | Assets/Scripts/Runtime/ARAutoPlacement.cs:128 | the side test with integer half is exactly 2x + (width mod 2) < width |
| `Placement.OddWidthCentreCountsRight` | Assets/Scripts/Runtime/ARAutoPlacement.cs:128 | for an odd width, x = width/2 − 0.25 lies left of the true centre yet counts as right |
| `Placement.ArrowOnScreenIffWideEnough` | Assets/Scripts/Runtime/ARAutoPlacement.cs:132-145 | the arrow's screen point passes the visibility test iff the screen is at least 100 pixels wide |
| `Placement.ArrowSideMatchesAnchorIff` | Assets/Scripts/Runtime/ARAutoPlacement.cs:128-145 | the arrow's point is on the anchor's side iff width ≥ 202 (left anchor) or width ≥ 199 (right anchor) |
| `AutoPlacement.SelectAnchor` | Assets/Scripts/Runtime/ARAutoPlacement.cs:105-111 | yields nothing iff there are no anchors, otherwise the first anchor in enumeration order |
| `AutoPlacement.PlaceObjectSpec` | Assets/Scripts/Runtime/ARAutoPlacement.cs:97-156 | no anchors: unchanged; otherwise spawned, active, at the unprojection of the chosen point, with the chosen rotation; one new instance only if none existed |
| `AutoPlacement.UpdateSpec` | Assets/Scripts/Runtime/ARAutoPlacement.cs:45-69 | no anchors: unchanged; hidden anchor: PlaceObject; visible anchor: only the active flag cleared, or a null-reference fault if no arrow exists |
| `AutoPlacement.GuardedUpdateSpec` | Assets/Scripts/Runtime/ARAutoPlacement.cs:64-67 | the corrected Update never faults |
| `AutoPlacement.PlaceObjectIdempotent` | Assets/Scripts/Runtime/ARAutoPlacement.cs:118-152 | running PlaceObject twice on the same frame equals running it once |
| `AutoPlacement.PlacedArrowFacesAnchorSide` | Assets/Scripts/Runtime/ARAutoPlacement.cs:127-152 | the placed arrow is flipped iff the anchor's projected x is below width/2 |
| `AutoPlacement.UpdateFaultsIff` | Assets/Scripts/Runtime/ARAutoPlacement.cs:60-67 | Update faults iff an anchor exists, it is visible and no arrow was spawned |
| `AutoPlacement.UpdateKeepsSingleInstance` | Assets/Scripts/Runtime/ARAutoPlacement.cs:118-123 | one Update keeps "one instance iff spawned" |
| `AutoPlacement.RunKeepsSingleInstance` | Assets/Scripts/Runtime/ARAutoPlacement.cs:118-123 | over any sequence of frames the arrow is instantiated at most once |
| `AutoPlacement.SpawnedArrowReused` | Assets/Scripts/Runtime/ARAutoPlacement.cs:119-123 | once spawned, the arrow stays spawned and no further instance is created |
| `AutoPlacement.EmptyFramesChangeNothing` | Assets/Scripts/Runtime/ARAutoPlacement.cs:47-50 | frames without anchors leave the marker unchanged |
| `AutoPlacement.HiddenAnchorShowsArrow` | Assets/Scripts/Runtime/ARAutoPlacement.cs:60-63 | after a frame whose anchor is hidden, the arrow exists, is active, and has that frame's chosen position and rotation, whatever the history |
| `AutoPlacement.VisibleAnchorBeforePlacementFaults` | Assets/Scripts/Runtime/ARAutoPlacement.cs:64-67 | from the initial state, any frame whose first anchor is visible makes Update fault and leaves the marker unchanged |
| `AutoPlacement.FirstVisibleFrameFaultsExample` | Assets/Scripts/Runtime/ARAutoPlacement.cs:64-67 | a concrete instance: one anchor projecting to (10, 10, 1) on a 100×100 screen makes the first Update fault |
| `AutoPlacement.GuardedUpdateAgrees` | Assets/Scripts/Runtime/ARAutoPlacement.cs:64-67 | the guarded Update never faults and yields the same marker as the Update as written |
| `AutoPlacement.PlaceObjectAuto.constructor` | Assets/Scripts/Runtime/ARAutoPlacement.cs:22 | a new component has no arrow and no instance |
| `AutoPlacement.PlaceObjectAuto.PlaceObject` | Assets/Scripts/Runtime/ARAutoPlacement.cs:97-156 | the fields become `PlaceObjectSpec` of the old fields; at most one instance is kept |
| `AutoPlacement.PlaceObjectAuto.Update` | Assets/Scripts/Runtime/ARAutoPlacement.cs:45-69 | the new fields and the outcome are `UpdateSpec` of the old fields; at most one instance is kept |

## Left out

- The camera's `WorldToScreenPoint` and `ScreenToWorldPoint` are not modelled as math. They are functions supplied with each frame, and nothing is assumed about them.
- Single-precision float rounding of `Vector3` components is not modelled. The model uses exact reals; the logic is comparisons plus `width - 100`.
- The two `Quaternion.Euler` rotations are the two values of `Rotation`, with no quaternion math.
- `OnEnable`/`OnDisable` are not modelled. They only subscribe and unsubscribe `PlaceObject` on the button. The button path is `PlaceObjectAuto.PlaceObject` called directly.
- `Debug.Log`/`Debug.LogWarning` output is not modelled.
- `Instantiate(m_PrefabToPlace)` is modelled only as setting `spawned` and incrementing `instances`. The prefab's own transform is overwritten in the same call, so it is not modelled.
- The rotation read at line 131 is overwritten on both branches, so it is not modelled.
- The null check on the selected anchor (lines 113-117) cannot fire. It runs only when the anchor count is positive, and then the enumeration yields an anchor. `SelectAnchor`'s contract proves this, so the model has no branch for it.
- `ARAnchorManager.trackables` is not modelled as a tracking system. It is a sequence of anchor world positions in enumeration order.
- The NullReferenceException in `Update` is modelled as the `NullReference` outcome. It does not unwind any caller. The marker is left as it was, because the fault comes before any change.
- The commented-out older `PlaceObject` (lines 157-183) is dead code and is not modelled.

## Findings

| source | as written | input that shows it | evidently intended | confidence | as-written member | corrected member |
|---|---|---|---|---|---|---|
| Assets/Scripts/Runtime/ARAutoPlacement.cs:64-67 | when the anchor is visible, `Update` calls `m_SpawnedObject.gameObject.SetActive(false)` even if no arrow has been spawned yet | the first frame has one anchor projecting to (10, 10, 1) on a 100×100 screen, before `PlaceObject` ever ran: `m_SpawnedObject` is null, so Update throws a NullReferenceException, and does so every frame until the anchor leaves the screen or the button places the arrow | hide the arrow only if it exists | high (reasoned from the code; not executed) | `AutoPlacement.VisibleAnchorBeforePlacementFaults` | `AutoPlacement.GuardedUpdateAgrees` |
