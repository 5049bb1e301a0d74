# Leap Motion demo: grab/drag state machine and image undistortion

This project is a Dafny model of the two pieces of sequential logic in a
demonstration client for a hand-tracking sensor:

- **The grab/drag state machine** of the render loop in `src/main.cpp`
  (module `Gesture`). Each pass reads the latest tracking frame. A frame that
  is null, or whose id is not above the global `lastFrameID`, is dropped. For
  a processed frame, each right hand recomputes `justGrabbed` and `isGrabbing`
  from the 0.8 grab-strength threshold and copies its palm position into
  `current`. Then, once a hand has been seen, the drag update runs. On the grab
  edge it re-anchors `origin = current - position`. While grabbing it sets
  `position = current - origin`.
  The specification is a pure machine over `Snapshot` values: `Consumed`,
  `Dragged`, `Stepped` and `Run`. The class `Gesture.Tracker` holds the loop's
  variables. The `float[3]` vectors are three-element arrays. Its methods are
  proved to move the state exactly as the machine does.
- **The undistortion loop** of the image callback `OnImage` in
  `src/main_test.cpp` (module `Undistort`). For every pixel of the 384 x 384
  destination, the pixel coordinate is normalised, centred and scaled by the
  field of view 8 into a ray slope. The camera model maps that slope to a
  source coordinate. The pixel is then either the source sample at the
  rounded coordinate or the fill value 128. The camera model
  (`LeapRectilinearToPixel`) is a function parameter. `roundf` is modelled
  over reals as rounding half away from zero.
- **The allocator shim's `deallocate`** (module `Allocation`): it does nothing
  on a null pointer and otherwise frees the block once. The C heap is
  modelled as a set of live addresses plus a log of `free` calls, with address 0 as the null pointer.

Stale frames are dropped by the render loop itself, by comparing the frame
id against `lastFrameID` (src/main.cpp:57). The undistortion loop tests the
bounds on the unrounded coordinate but indexes with the rounded one. The
render loop recomputes the grab edge for every right hand of a frame, so a
frame with two grabbing right hands starts a grab without re-anchoring. Both
are described under "## Findings".

## Model

| member | source | states |
|---|---|---|
| `Gesture.Initial` | src/main.cpp:11-31 | The state before the first pass: id 0, zero vectors, no grab, null hand; it is coherent and settled (`ReachableSettled` starts from it) |
| `Gesture.ApplyHand` | src/main.cpp:64-73 | One hand-loop iteration: `hand` points at the hand; id, origin and position are kept; a left hand changes nothing else; coherence is kept. `LastRightHandDecides` and `FrameGrabFlags` state the flag update of a right hand |
| `Gesture.ApplyHands` | src/main.cpp:62-74 | The loop over a frame's hands never touches the frame id, origin or position; afterwards `hand` points at the frame's last hand (of either kind), or is unchanged for an empty frame |
| `Gesture.Consumed` | src/main.cpp:56-75 | Frame consumption never lowers the last frame id; a fresh frame sets it to that frame's id; a null or stale frame leaves the whole state unchanged; origin and position are never changed |
| `Gesture.Dragged` | src/main.cpp:78-91 | The drag update changes only origin and position; on the grab edge the position is kept; while grabbing with a hand, `position == current - origin` afterwards. `DragFollowsPalm` and `DragIdempotent` state the rest |
| `Gesture.Stepped` | src/main.cpp:56-91 | One pass never lowers the frame id, takes the id of a fresh frame, and is the drag update alone for a null or stale frame; `StepSettles` and `NoNewFrameIsFixpoint` are about it |
| `Gesture.Run` | src/main.cpp:42-104 | Successive passes never lower the frame id, and no passes leave the state alone; `RunNeverLowersFrameId`, `RunSettles` and `ReachableSettled` are about it |
| `Gesture.IsFresh` | src/main.cpp:57 | The frame filter: a frame is processed only when it is non-null and its id is above `lastFrameID`; a predicate without a contract of its own: `StaleFrameIgnored` and `RunNeverLowersFrameId` state what it guarantees |
| `Gesture.Grabs` | src/main.cpp:67-68 | The grab test `grab_strength > 0.8`; a predicate without a contract of its own: `LastRightHandDecides` and `FrameGrabFlags` state how it sets the flags |
| `Gesture.RunNeverLowersFrameId` | src/main.cpp:57-59 | Over any sequence of passes the last processed id never decreases, and it ends at least as high as the id of every frame offered, so an older frame delivered later is never acted on |
| `Gesture.StaleFrameIgnored` | src/main.cpp:57 | A null frame, or one with id <= `lastFrameID`, leaves id, flags, palm and hand unchanged; the pass is then the drag update alone |
| `Gesture.LastRightHandDecides` | src/main.cpp:62-73 | With several hands, the last right hand in array order decides: `isGrabbing` is its strength > 0.8, `current` its palm, and `justGrabbed` is "not grabbing before it, and grabbing now" |
| `Gesture.LeftHandsIgnored` | src/main.cpp:62-73 | Left hands never change `isGrabbing`, `justGrabbed` or `current` |
| `Gesture.FrameGrabFlags` | src/main.cpp:57-73 | For a processed frame: a frame of left hands only keeps the flags and palm; a frame with one right hand sets `isGrabbing == strength > 0.8` and `justGrabbed == !oldIsGrabbing && strength > 0.8` and copies its palm |
| `Gesture.HandSetByFirstHand` | src/main.cpp:62-64 | `hand` is non-null after a pass exactly when it already was or the pass processed a frame holding at least one hand of any kind |
| `Gesture.NoHandNoDrag` | src/main.cpp:78 | While `hand` is null the drag update changes nothing |
| `Gesture.ApplyHandsKeepsCoherent` | src/main.cpp:64-68 | The hand loop keeps the invariant `justGrabbed ==> isGrabbing` and `isGrabbing ==> hand != null` |
| `Gesture.ConsumedKeepsCoherent` | src/main.cpp:56-75 | Frame consumption, null, stale or processed, preserves `justGrabbed ==> isGrabbing` and `isGrabbing ==> hand != null` |
| `Gesture.StepKeepsCoherent` | src/main.cpp:56-91 | Every pass preserves `justGrabbed ==> isGrabbing` and `isGrabbing ==> hand != null` |
| `Gesture.RunKeepsCoherent` | src/main.cpp:56-91 | Any number of passes preserves `justGrabbed ==> isGrabbing` and `isGrabbing ==> hand != null` |
| `Gesture.StepSettles` | src/main.cpp:56-91 | After any pass from a coherent state, if `isGrabbing` then `position == current - origin` |
| `Gesture.RunSettles` | src/main.cpp:42-104 | Any sequence of passes from a settled state ends in a state with `position == current - origin` whenever `isGrabbing` holds |
| `Gesture.ReachableSettled` | src/main.cpp:26-104 | Every state reached from the initial state by any sequence of passes has `position == current - origin` whenever `isGrabbing` holds |
| `Gesture.NoJumpOnGrab` | src/main.cpp:80-91 | When `justGrabbed` is set, the re-anchored origin makes the new position equal to the old one, so the dragged object does not jump; a grab that starts without `justGrabbed` is the subject of "## Findings" |
| `Gesture.DragFollowsPalm` | src/main.cpp:86-91 | In a coherent state: while grabbing, after the update `position == current - origin`; when not grabbing, origin and position are unchanged |
| `Gesture.DragIdempotent` | src/main.cpp:78-91 | Repeating the drag update changes nothing (exactly, over reals) |
| `Gesture.NoNewFrameIsFixpoint` | src/main.cpp:56-91 | A pass that gets no new frame (null, duplicate or older) leaves the state of the previous pass exactly as it was |
| `Gesture.LeftOnlyFrameHoldsPosition` | src/main.cpp:62-91 | A fresh frame with no right hand, from a settled state, leaves the flags, the origin and the position as they were: the drag holds its last position |
| `Gesture.GrabEdgeAnchors` | src/main.cpp:65-91 | A fresh frame with one grabbing right hand, arriving while not grabbing, sets both flags, anchors `origin = palm - old position` and keeps the position |
| `Gesture.StillGrabbing` | src/main.cpp:67-68 | While grabbing, hands whose right hands all grab keep `isGrabbing` set |
| `Gesture.ContinuedGrabKeepsOrigin` | src/main.cpp:62-91 | While grabbing, a fresh frame whose right hands all grab clears `justGrabbed`, keeps the origin (no re-anchoring) and moves the object to the last right palm minus the origin |
| `Gesture.ReleaseFreezesPosition` | src/main.cpp:62-91 | A fresh frame whose last right hand has strength <= 0.8 clears both flags and leaves origin and position unchanged |
| `Gesture.GrabDragRelease` | src/main.cpp:56-91 | For strengths 0.1, 0.9, 0.95, 0.5 at palms p0..p3 in four frames: the origin is anchored once, at p1; the object stays at 0, then moves to p2 - p1 and stays there on release |
| `Gesture.DoubleRightHandJumps` | src/main.cpp:62-91 | As written, from the initial state a frame with two grabbing right hands at palm q ends grabbing with `justGrabbed` cleared and the object at q: it jumps from 0 to the absolute palm |
| `Gesture.EdgeConsumed` | src/main.cpp:56-75 | Corrected consumption: the same state as the source's except `justGrabbed`, and every grab that starts in a frame is flagged as an edge; coherence is kept |
| `Gesture.EdgeStepped` | src/main.cpp:56-91 | A corrected pass: the source's pass except for origin, position and `justGrabbed` |
| `Gesture.EdgeGrabNeverJumps` | src/main.cpp:62-91 | With the corrected edge, a pass from a coherent non-grabbing state never moves the object, whatever hands the frame holds, and every pass ends with `position == current - origin` while grabbing |
| `Gesture.EdgeAgreesOnOneRightHand` | src/main.cpp:62-91 | For a frame with at most one right hand, the corrected consumption and pass equal the source's |
| `Gesture.Tracker.constructor` | src/main.cpp:11-31 | The loop variables start as the initial state: id 0, zero vectors, both flags false, null hand |
| `Gesture.Tracker.ConsumeFrame` | src/main.cpp:56-75 | The filter and hand loop, run in place, leave the variables in the state `Consumed` gives for the old state and the frame |
| `Gesture.Tracker.UpdateDrag` | src/main.cpp:78-91 | The in-place drag update leaves the variables in the state `Dragged` gives for the old state |
| `Gesture.Tracker.Step` | src/main.cpp:56-91 | One render-loop pass moves the variables exactly as `Stepped` does |
| `Undistort.RaySlope` | src/main_test.cpp:79-86 | The ray slope of pixel coordinate v is the affine map `(v / 384 - 0.5) * 8`, stated by its inverse: `(slope + 4) * 384 / 8 == v` |
| `Undistort.Projected` | src/main_test.cpp:80-90 | The camera model queried once for pixel (row, col), with the ray slopes of column and row; a definition without a contract of its own: `RaySlopeRange` bounds the query to [-4, 4) and `RectifiedAt` places the result |
| `Undistort.Round` | src/main_test.cpp:93-94 | `roundf` gives an integer within one half of its argument; `RoundIsNearest` adds the tie rule |
| `Undistort.WithinUnrounded` | src/main_test.cpp:97-98 | The source's bounds test `0 <= x < 384 && 0 <= y < 384` on the unrounded coordinate; a predicate without a contract of its own: `RoundInsideImage`, `WithinDiffersOnlyInBand` and the two band lemmas state what it lets through |
| `Undistort.SourceIndex` | src/main_test.cpp:93-94 | The source index `round(y) * 384 + round(x)`; a definition without a contract of its own: `SourceIndexInImage` proves that under the corrected test it is in the image and gives back row and column by division and remainder, and `ColumnBandWrapsToNextRow` shows the wrap under the source's test |
| `Undistort.SampleAsWritten` | src/main_test.cpp:93-106 | The pixel as the source computes it: 128 when the unrounded test fails; a read past the buffer only inside the test and only for a buffer of at most 384 * 385 samples |
| `Undistort.Within` | src/main_test.cpp:97-98 | The corrected test: it implies the source's test and an index inside the 384 x 384 image |
| `Undistort.Sample` | src/main_test.cpp:93-106 | The corrected pixel: 128 whenever the corrected test fails, which includes the band [383.5, 384) the source's test lets through; under the corrected test the sample at the rounded row and column, both in [0, 384) |
| `Undistort.RaySlopeRange` | src/main_test.cpp:79-86 | The ray slope `(v / 384 - 0.5) * 8` of every pixel coordinate v in [0, 384) lies in [-4, 4) |
| `Undistort.RoundIsNearest` | src/main_test.cpp:93-94 | `roundf` is within one half of its argument and rounds halves away from zero |
| `Undistort.RoundOfInteger` | src/main_test.cpp:93-94 | An integral coordinate rounds to itself |
| `Undistort.RoundInsideImage` | src/main_test.cpp:93-98 | A coordinate passing the unrounded test 0 <= v < 384 rounds into [0, 384], and rounds to 384 exactly when v >= 383.5 |
| `Undistort.RowBandReadsPastImage` | src/main_test.cpp:93-100 | As written, y = 383.5 passes the bounds test but gives index 384 * 384, a read past the end of a 384 x 384 image |
| `Undistort.ColumnBandWrapsToNextRow` | src/main_test.cpp:93-100 | As written, x = 383.5 in row 10 passes the bounds test and the pixel it yields is the source's first pixel of row 11, `source[11 * 384]` |
| `Undistort.SourceIndexInImage` | src/main_test.cpp:93-100 | With the corrected test, the index lies in [0, 384 * 384) and addresses exactly the rounded row and rounded column |
| `Undistort.WithinDiffersOnlyInBand` | src/main_test.cpp:97-98 | The corrected test admits only what the source's test admits, and rejects in addition exactly the coordinates with x or y in [383.5, 384) |
| `Undistort.AsWrittenAgreesOffBand` | src/main_test.cpp:93-106 | Outside that band, the pixel the source computes as written is the corrected pixel |
| `Undistort.AsWrittenImageAgreesOffBand` | src/main_test.cpp:75-108 | For a camera model that never lands in that band, the image computed as written equals the rectified image, pixel for pixel |
| `Undistort.DestIndex` | src/main_test.cpp:91-92 | `row * 384 + col` lies in [0, 384 * 384) and gives back row and column by division and remainder, so pixels and indices correspond one to one |
| `Undistort.Rectified` | src/main_test.cpp:72-73 | The rectified image has 384 * 384 pixels |
| `Undistort.RectifiedAt` | src/main_test.cpp:75-106 | Pixel (row, col) of the rectified image is at index `row * 384 + col` and is the sample at that pixel's projection |
| `Undistort.IdentityProjectionCopies` | src/main_test.cpp:75-108 | A camera model that maps each pixel back onto itself yields an exact copy of the source image, with no fill pixels |
| `Undistort.OffImageProjectionFills` | src/main_test.cpp:97-106 | A camera model that always lands outside [0, 384) x [0, 384) yields an image of fill value 128 only |
| `Undistort.Undistort` | src/main_test.cpp:75-108 | The nested loop fills a new 384 * 384 buffer equal to the rectified image, writes every destination index exactly once in row-major order, and never writes the source buffer |
| `Allocation.Heap.constructor` | src/main_test.cpp:138-143 | The heap starts with the given live blocks (those `allocate` handed out, none at the null address 0) and no `free` calls, so no block has been freed twice |
| `Allocation.Heap.Deallocate` | src/main_test.cpp:145-151 | A null pointer (address 0) is a no-op and calls no `free`; otherwise the live block is freed exactly once, and no block is ever freed twice |

## Findings

| source | as written | input that shows it | evidently intended | confidence | as-written member | corrected member |
|---|---|---|---|---|---|---|
| src/main_test.cpp:93-100 | The bounds test is on the unrounded y, but the index uses `roundf(y)` | y = 383.5, x = 0: passes the test, `pindex` = 384 * 384, one row past a 384 x 384 image | Read only samples inside the image: reject a coordinate whose rounded row is 384 | not executed; the arithmetic is exact | `Undistort.RowBandReadsPastImage` | `Undistort.SourceIndexInImage` |
| src/main_test.cpp:93-100 | The bounds test is on the unrounded x, but the index uses `roundf(x)` | x = 383.5, y = 10: passes the test, `pindex` = 11 * 384, the first pixel of the next row | Sample the pixel at the rounded row and column: reject a coordinate whose rounded column is 384 | not executed; the arithmetic is exact | `Undistort.ColumnBandWrapsToNextRow` | `Undistort.SourceIndexInImage` |
| src/main.cpp:62-91 | The grab edge `justGrabbed` is recomputed for every right hand of a frame, against the `isGrabbing` the previous hand of the same frame set | A frame with two right hands of strength 0.9 at palm q, arriving while not grabbing: the second hand clears `justGrabbed`, lines 82-84 are skipped and the object jumps to q | The grab edge of a frame is taken against the `isGrabbing` held before the frame, so a grab never starts without re-anchoring | not executed; depends on the tracker reporting two right hands in one frame | `Gesture.DoubleRightHandJumps` | `Gesture.EdgeGrabNeverJumps` |

The corrected test, `Undistort.Within`, is the source's test plus "both
rounded coordinates are below 384". `Undistort.Undistort` uses it.
`Undistort.WithinDiffersOnlyInBand`, `Undistort.AsWrittenAgreesOffBand` and
`Undistort.AsWrittenImageAgreesOffBand` show that it changes the result only
for coordinates in [383.5, 384).

The corrected grab edge, `Gesture.EdgeConsumed` and `Gesture.EdgeStepped`,
flags every grab that starts in a frame. `Gesture.EdgeAgreesOnOneRightHand`
shows that it changes nothing for frames with at most one right hand.
`Gesture.Tracker` and the lemmas above it model the render loop as written,
so they are unaffected by this correction for such frames.

## Left out

- The session manager (`OpenConnection`, `GetFrame`, `IsConnected`, `GetDeviceProperties`, `CloseConnection`, `DestroyConnection`) is declared in `leapmotion.hpp`, which is not part of this model. The frame `GetFrame` returns is a parameter of each pass.
- The connection wait loop with `millisleep`, the device-property printout and the concurrent event producer are I/O and concurrency, so they are left out.
- SFML window, event polling and drawing (src/main.cpp:16-24, 44-54, 93-102) and the OpenCV windows and display (src/main_test.cpp:68, 110-111, 202-213) are display code, so they are left out.
- The callbacks that only print (`OnConnect`, `OnDevice`, `OnFrame`, `OnLogMessage`, `OnHeadPose`) and the logging `printf` in `OnImage` are left out because they only print.
- `OnPointMappingChange` and `allocate` are thin wrappers over SDK queries and `malloc`, so they are left out. The heap of `Allocation.Heap` therefore starts from a given set of live blocks and never allocates.
- `Allocation.Heap.Deallocate`: its unused `state` argument is dropped. Freeing a pointer that is not live is undefined in C, so it is excluded by a precondition.
- `LeapRectilinearToPixel` is an opaque function parameter from (x, y) ray slopes to an (x, y) coordinate. The source leaves the input's z component uninitialised, and the model does not represent it.
- Floating point: palm positions, grab strengths, ray slopes and pixel coordinates are reals. Differences and the re-anchoring round trip are exact in the model. With floats, `Gesture.NoJumpOnGrab`, `Gesture.DragIdempotent`, `Gesture.NoNewFrameIsFixpoint`, `Gesture.GrabEdgeAnchors` (the kept position), `Gesture.EdgeGrabNeverJumps`, `Gesture.LeftOnlyFrameHoldsPosition` (with `justGrabbed` still set) and `Gesture.GrabDragRelease` (the position 0 after the grab edge) rest on the exact round trip `current - (current - position) == position` and hold only up to rounding. The source compares a `float` grab strength with the `double` 0.8, so a strength of exactly `0.8f` (slightly above 0.8) counts as grabbing there. The model compares the real value with 0.8.
- The source's `float` row and column counters are modelled as integers. For these sizes the destination index is the same.
- The source computes `pindex` with `(int)roundf` before the bounds test, so it also does this for coordinates far off the image, where the conversion can overflow. The model rounds over unbounded integers.
- The source reads the image with a hard-coded stride of 384 and ignores the reported `properties.width`. The model takes the source buffer as at least 384 * 384 samples with stride 384 and does not model the image header.
- The frame id (`int64_t`) is an unbounded integer. It is only compared and copied, never computed with.
- The lifetime of the `hand` pointer into SDK-owned frame memory is not modelled. The model keeps a copy of the last hand.
