/**
 The grab/drag interaction of the demo's render loop (src/main.cpp).

 Each pass of the loop consumes the latest tracking frame, if it is newer than
 the last one processed, and then updates the drag state: the grab edge
 re-anchors the drag origin, and while the right hand grabs, the dragged
 position follows the palm relative to that origin.

 The specification is a pure state machine over `Snapshot` values
 (`Consumed`, `Dragged`, `Stepped`, `Run`); the class `Tracker` holds the
 source's mutable variables and its methods are proved to move the state
 exactly as that machine does.
 */
module Gesture {
  import opened Wrappers

  /** Grab strength above which a hand counts as grabbing. */
  const GrabThreshold: real := 0.8

  datatype Vec3 = Vec3(x: real, y: real, z: real)

  /** Component-wise difference, as the source computes it one axis at a time. */
  function Sub(a: Vec3, b: Vec3): Vec3
  {
    Vec3(a.x - b.x, a.y - b.y, a.z - b.z)
  }

  datatype HandKind = Left | Right

  datatype Hand = Hand(kind: HandKind, grabStrength: real, palm: Vec3)

  /** A tracking event: its frame id and its hands in array order. */
  datatype TrackingFrame = TrackingFrame(id: int, hands: seq<Hand>)

  /**
   Everything the render loop keeps between passes: the last processed frame
   id, the three drag vectors, the two grab flags and the last hand pointed at
   (`None` is the null `hand` pointer).
   */
  datatype Snapshot = Snapshot(
    lastFrameId: int,
    origin: Vec3,
    current: Vec3,
    position: Vec3,
    isGrabbing: bool,
    justGrabbed: bool,
    hand: Option<Hand>)

  /** The state before the first pass. */
  function Initial(): (r: Snapshot)
    ensures Coherent(r) && Settled(r)
    ensures r.hand.None? && !r.isGrabbing && !r.justGrabbed
  {
    var zero := Vec3(0.0, 0.0, 0.0);
    Snapshot(0, zero, zero, zero, false, false, None)
  }

  predicate Grabs(h: Hand)
  {
    h.grabStrength > GrabThreshold
  }

  /** A frame is processed only when it is present and newer than the last one. */
  predicate IsFresh(s: Snapshot, frame: Option<TrackingFrame>)
  {
    frame.Some? && frame.value.id > s.lastFrameId
  }

  /** One iteration of the loop over a frame's hands. */
  function ApplyHand(s: Snapshot, h: Hand): (r: Snapshot)
    ensures r.hand == Some(h)
    ensures r.lastFrameId == s.lastFrameId && r.origin == s.origin && r.position == s.position
    ensures h.kind == Left ==> r == s.(hand := Some(h))
    ensures Coherent(s) ==> Coherent(r)
  {
    if h.kind == Right then
      s.(hand := Some(h),
         justGrabbed := !s.isGrabbing && Grabs(h),
         isGrabbing := Grabs(h),
         current := h.palm)
    else
      s.(hand := Some(h))
  }

  /** The loop over the hands, in array order. */
  function ApplyHands(s: Snapshot, hs: seq<Hand>): (r: Snapshot)
    ensures r.lastFrameId == s.lastFrameId
    ensures r.origin == s.origin && r.position == s.position
    ensures r.hand == if hs == [] then s.hand else Some(hs[|hs| - 1])
    decreases |hs|
  {
    if hs == [] then s else ApplyHand(ApplyHands(s, hs[..|hs| - 1]), hs[|hs| - 1])
  }

  /** The frame-consumption half of one pass. */
  function Consumed(s: Snapshot, frame: Option<TrackingFrame>): (r: Snapshot)
    ensures r.lastFrameId >= s.lastFrameId
    ensures IsFresh(s, frame) ==> r.lastFrameId == frame.value.id
    ensures !IsFresh(s, frame) ==> r == s
    ensures r.origin == s.origin && r.position == s.position
  {
    if IsFresh(s, frame) then ApplyHands(s.(lastFrameId := frame.value.id), frame.value.hands) else s
  }

  /** The drag-update half of one pass: re-anchor on the grab edge, follow while grabbing. */
  function Dragged(s: Snapshot): (r: Snapshot)
    ensures r == s.(origin := r.origin, position := r.position)
    ensures s.justGrabbed ==> r.position == s.position
    ensures r.isGrabbing && r.hand.Some? ==> r.position == Sub(r.current, r.origin)
  {
    if s.hand.None? then s
    else
      var o := if s.justGrabbed then Sub(s.current, s.position) else s.origin;
      var p := if s.isGrabbing then Sub(s.current, o) else s.position;
      s.(origin := o, position := p)
  }

  /** One pass of the render loop, given what `GetFrame` returned. */
  function Stepped(s: Snapshot, frame: Option<TrackingFrame>): (r: Snapshot)
    ensures r.lastFrameId >= s.lastFrameId
    ensures IsFresh(s, frame) ==> r.lastFrameId == frame.value.id
    ensures !IsFresh(s, frame) ==> r == Dragged(s)
  {
    Dragged(Consumed(s, frame))
  }

  /** Successive passes of the render loop. */
  function Run(s: Snapshot, frames: seq<Option<TrackingFrame>>): (r: Snapshot)
    ensures r.lastFrameId >= s.lastFrameId
    ensures frames == [] ==> r == s
    decreases |frames|
  {
    if frames == [] then s else Run(Stepped(s, frames[0]), frames[1..])
  }

  /**
   `justGrabbed` is only ever set together with `isGrabbing`, and a grab is
   only ever recorded from a hand, so the `hand` pointer is then set.
   */
  predicate Coherent(s: Snapshot)
  {
    (s.justGrabbed ==> s.isGrabbing) && (s.isGrabbing ==> s.hand.Some?)
  }

  /** A coherent state in which, while grabbing, the object sits at palm minus origin. */
  predicate Settled(s: Snapshot)
  {
    Coherent(s) && (s.isGrabbing ==> s.position == Sub(s.current, s.origin))
  }

  // ---------------------------------------------------------------------------
  // Frame filtering

  /**
   Over any sequence of passes the last processed id never decreases, and it is
   at least the id of every frame that was offered: an older frame delivered
   later is never acted upon.
   */
  lemma {:induction false} RunNeverLowersFrameId(s: Snapshot, frames: seq<Option<TrackingFrame>>)
    ensures Run(s, frames).lastFrameId >= s.lastFrameId
    ensures forall k :: 0 <= k < |frames| && frames[k].Some? ==>
              Run(s, frames).lastFrameId >= frames[k].value.id
    decreases |frames|
  {
    if frames != [] {
      var t := Stepped(s, frames[0]);
      RunNeverLowersFrameId(t, frames[1..]);
      forall k | 0 <= k < |frames| && frames[k].Some?
        ensures Run(s, frames).lastFrameId >= frames[k].value.id
      {
        if k > 0 {
          assert frames[1..][k - 1] == frames[k];
        }
      }
    }
  }

  /** A null, duplicate or older frame leaves the whole state as it was. */
  lemma StaleFrameIgnored(s: Snapshot, frame: Option<TrackingFrame>)
    requires frame.None? || frame.value.id <= s.lastFrameId
    ensures Consumed(s, frame) == s
    ensures Stepped(s, frame) == Dragged(s)
  {
  }

  // ---------------------------------------------------------------------------
  // Grab flags

  /**
   The last right hand of a processed frame decides the flags and the palm:
   `isGrabbing` becomes its grab test, `current` its palm, and `justGrabbed`
   is set exactly when it grabs and the hand before it (or the state before
   the frame) did not.
   */
  lemma {:induction false} LastRightHandDecides(s: Snapshot, hs: seq<Hand>, k: nat)
    requires k < |hs| && hs[k].kind == Right
    requires forall j :: k < j < |hs| ==> hs[j].kind == Left
    ensures ApplyHands(s, hs).isGrabbing == Grabs(hs[k])
    ensures ApplyHands(s, hs).justGrabbed == (!ApplyHands(s, hs[..k]).isGrabbing && Grabs(hs[k]))
    ensures ApplyHands(s, hs).current == hs[k].palm
    decreases |hs|
  {
    var n := |hs| - 1;
    if n == k {
      assert hs[..n] == hs[..k];
    } else {
      LastRightHandDecides(s, hs[..n], k);
      assert hs[..n][..k] == hs[..k];
    }
  }

  /** Left hands move the `hand` pointer but never the flags or the palm. */
  lemma {:induction false} LeftHandsIgnored(s: Snapshot, hs: seq<Hand>)
    requires forall j :: 0 <= j < |hs| ==> hs[j].kind == Left
    ensures ApplyHands(s, hs).isGrabbing == s.isGrabbing
    ensures ApplyHands(s, hs).justGrabbed == s.justGrabbed
    ensures ApplyHands(s, hs).current == s.current
    decreases |hs|
  {
    if hs != [] {
      LeftHandsIgnored(s, hs[..|hs| - 1]);
    }
  }

  /**
   The frame-level form: after a processed frame, the grab flags and palm are
   those of its last right hand, or unchanged when it holds none.
   */
  lemma FrameGrabFlags(s: Snapshot, f: TrackingFrame)
    requires f.id > s.lastFrameId
    ensures var r := Consumed(s, Some(f));
      (forall j :: 0 <= j < |f.hands| ==> f.hands[j].kind == Left) ==>
        r.isGrabbing == s.isGrabbing && r.justGrabbed == s.justGrabbed && r.current == s.current
    ensures var r := Consumed(s, Some(f));
      |f.hands| == 1 && f.hands[0].kind == Right ==>
        r.isGrabbing == Grabs(f.hands[0]) &&
        r.justGrabbed == (!s.isGrabbing && Grabs(f.hands[0])) &&
        r.current == f.hands[0].palm
  {
    var t := s.(lastFrameId := f.id);
    if forall j :: 0 <= j < |f.hands| ==> f.hands[j].kind == Left {
      LeftHandsIgnored(t, f.hands);
    }
    if |f.hands| == 1 && f.hands[0].kind == Right {
      LastRightHandDecides(t, f.hands, 0);
      assert f.hands[..0] == [];
    }
  }

  /**
   The `hand` pointer is set exactly when some processed frame held a hand of
   either kind, and stays set afterwards.
   */
  lemma HandSetByFirstHand(s: Snapshot, frame: Option<TrackingFrame>)
    ensures Consumed(s, frame).hand.Some? <==>
              s.hand.Some? || (IsFresh(s, frame) && |frame.value.hands| > 0)
  {
  }

  /** Without a hand pointer the drag update does nothing at all. */
  lemma NoHandNoDrag(s: Snapshot)
    requires s.hand.None?
    ensures Dragged(s) == s
  {
  }

  lemma {:induction false} ApplyHandsKeepsCoherent(s: Snapshot, hs: seq<Hand>)
    requires Coherent(s)
    ensures Coherent(ApplyHands(s, hs))
    decreases |hs|
  {
    if hs != [] {
      ApplyHandsKeepsCoherent(s, hs[..|hs| - 1]);
    }
  }

  /** Frame consumption keeps `justGrabbed ==> isGrabbing` and `isGrabbing ==> hand != null`. */
  lemma ConsumedKeepsCoherent(s: Snapshot, frame: Option<TrackingFrame>)
    ensures Coherent(s) ==> Coherent(Consumed(s, frame))
  {
    if Coherent(s) && IsFresh(s, frame) {
      ApplyHandsKeepsCoherent(s.(lastFrameId := frame.value.id), frame.value.hands);
    }
  }

  /** Every pass keeps `justGrabbed ==> isGrabbing` and `isGrabbing ==> hand != null`. */
  lemma StepKeepsCoherent(s: Snapshot, frame: Option<TrackingFrame>)
    requires Coherent(s)
    ensures Coherent(Stepped(s, frame))
  {
    if IsFresh(s, frame) {
      ApplyHandsKeepsCoherent(s.(lastFrameId := frame.value.id), frame.value.hands);
    }
  }

  lemma {:induction false} RunKeepsCoherent(s: Snapshot, frames: seq<Option<TrackingFrame>>)
    requires Coherent(s)
    ensures Coherent(Run(s, frames))
    decreases |frames|
  {
    if frames != [] {
      StepKeepsCoherent(s, frames[0]);
      RunKeepsCoherent(Stepped(s, frames[0]), frames[1..]);
    }
  }

  /**
   After any pass from a coherent state, a grabbing state has the object at
   palm minus origin: the drag update always runs when a grab is recorded.
   */
  lemma StepSettles(s: Snapshot, frame: Option<TrackingFrame>)
    requires Coherent(s)
    ensures Settled(Stepped(s, frame))
  {
    StepKeepsCoherent(s, frame);
  }

  /**
   Any number of passes from a settled state ends settled: whenever
   `isGrabbing` holds, `position == current - origin`.
   */
  lemma {:induction false} RunSettles(s: Snapshot, frames: seq<Option<TrackingFrame>>)
    requires Settled(s)
    ensures Settled(Run(s, frames))
    decreases |frames|
  {
    if frames != [] {
      StepSettles(s, frames[0]);
      RunSettles(Stepped(s, frames[0]), frames[1..]);
    }
  }

  /** Every state the render loop reaches from its initial state is settled. */
  lemma ReachableSettled(frames: seq<Option<TrackingFrame>>)
    ensures Settled(Run(Initial(), frames))
  {
    RunSettles(Initial(), frames);
  }

  /**
   A fresh frame holding no right hand neither changes the flags nor moves
   the object: the drag state holds its last position and origin.
   */
  lemma LeftOnlyFrameHoldsPosition(s: Snapshot, f: TrackingFrame)
    requires Settled(s) && f.id > s.lastFrameId
    requires forall j :: 0 <= j < |f.hands| ==> f.hands[j].kind == Left
    ensures var r := Stepped(s, Some(f));
      r.position == s.position && r.origin == s.origin &&
      r.isGrabbing == s.isGrabbing && r.justGrabbed == s.justGrabbed
  {
    FrameGrabFlags(s, f);
  }

  // ---------------------------------------------------------------------------
  // Drag update

  /** On the grab edge the object stays where it was: re-anchoring cancels the jump. */
  lemma NoJumpOnGrab(s: Snapshot)
    requires s.justGrabbed
    ensures Dragged(s).position == s.position
    ensures s.hand.Some? ==> Sub(s.current, Dragged(s).origin) == s.position
  {
  }

  /**
   While grabbing, the dragged position is the palm relative to the origin;
   otherwise (in a coherent state) origin and position are untouched.
   */
  lemma DragFollowsPalm(s: Snapshot)
    requires Coherent(s)
    ensures s.isGrabbing ==> Dragged(s).position == Sub(s.current, Dragged(s).origin)
    ensures !s.isGrabbing ==> Dragged(s).origin == s.origin && Dragged(s).position == s.position
  {
  }

  /** Repeating the drag update without a new frame changes nothing. */
  lemma DragIdempotent(s: Snapshot)
    ensures Dragged(Dragged(s)) == Dragged(s)
  {
    if s.hand.Some? {
      var d := Dragged(s);
      assert Dragged(d).origin == d.origin;
    }
  }

  /** A pass that receives no new frame leaves the state of the previous pass as it is. */
  lemma NoNewFrameIsFixpoint(s: Snapshot, f: Option<TrackingFrame>, g: Option<TrackingFrame>)
    requires !IsFresh(Stepped(s, f), g)
    ensures Stepped(Stepped(s, f), g) == Stepped(s, f)
  {
    DragIdempotent(Consumed(s, f));
  }

  /**
   The grab edge: a frame whose one hand is a grabbing right hand, arriving
   while not grabbing, anchors the origin at palm minus the old position and
   leaves the object where it was.
   */
  lemma GrabEdgeAnchors(s: Snapshot, id: int, h: Hand)
    requires id > s.lastFrameId && !s.isGrabbing
    requires h.kind == Right && Grabs(h)
    ensures var r := Stepped(s, Some(TrackingFrame(id, [h])));
      r.isGrabbing && r.justGrabbed &&
      r.origin == Sub(h.palm, s.position) && r.position == s.position
  {
    FrameGrabFlags(s, TrackingFrame(id, [h]));
  }

  /**
   A continued grab: while grabbing, a frame whose right hands all grab keeps
   the origin (no re-anchoring) and moves the object to palm minus origin.
   */
  lemma {:induction false} ContinuedGrabKeepsOrigin(s: Snapshot, id: int, hs: seq<Hand>, k: nat)
    requires id > s.lastFrameId && s.isGrabbing
    requires k < |hs| && hs[k].kind == Right
    requires forall j :: 0 <= j < |hs| && hs[j].kind == Right ==> Grabs(hs[j])
    requires forall j :: k < j < |hs| ==> hs[j].kind == Left
    ensures var r := Stepped(s, Some(TrackingFrame(id, hs)));
      r.isGrabbing && !r.justGrabbed &&
      r.origin == s.origin && r.position == Sub(hs[k].palm, s.origin)
  {
    var t := s.(lastFrameId := id);
    LastRightHandDecides(t, hs, k);
    StillGrabbing(t, hs[..k]);
  }

  lemma {:induction false} StillGrabbing(s: Snapshot, hs: seq<Hand>)
    requires s.isGrabbing
    requires forall j :: 0 <= j < |hs| && hs[j].kind == Right ==> Grabs(hs[j])
    ensures ApplyHands(s, hs).isGrabbing
    decreases |hs|
  {
    if hs != [] {
      StillGrabbing(s, hs[..|hs| - 1]);
    }
  }

  /**
   A release: a frame whose last right hand does not grab ends the grab and
   leaves origin and position where they were.
   */
  lemma {:induction false} ReleaseFreezesPosition(s: Snapshot, id: int, hs: seq<Hand>, k: nat)
    requires id > s.lastFrameId
    requires k < |hs| && hs[k].kind == Right && !Grabs(hs[k])
    requires forall j :: k < j < |hs| ==> hs[j].kind == Left
    ensures var r := Stepped(s, Some(TrackingFrame(id, hs)));
      !r.isGrabbing && !r.justGrabbed && r.origin == s.origin && r.position == s.position
  {
    LastRightHandDecides(s.(lastFrameId := id), hs, k);
  }

  /**
   The grab/drag/release sequence: a right hand with grab strengths
   0.1, 0.9, 0.95, 0.5 at palms p0..p3 in four successive frames anchors the
   origin once, at p1, and the object follows p2 relative to it, then stays.
   */
  lemma GrabDragRelease(p0: Vec3, p1: Vec3, p2: Vec3, p3: Vec3)
    ensures var s1 := Stepped(Initial(), Some(TrackingFrame(1, [Hand(Right, 0.1, p0)])));
      var s2 := Stepped(s1, Some(TrackingFrame(2, [Hand(Right, 0.9, p1)])));
      var s3 := Stepped(s2, Some(TrackingFrame(3, [Hand(Right, 0.95, p2)])));
      var s4 := Stepped(s3, Some(TrackingFrame(4, [Hand(Right, 0.5, p3)])));
      s1.position == Vec3(0.0, 0.0, 0.0) &&
      s2.origin == p1 && s2.position == Vec3(0.0, 0.0, 0.0) &&
      s3.origin == p1 && s3.position == Sub(p2, p1) &&
      s4.origin == p1 && s4.position == Sub(p2, p1) && !s4.isGrabbing
  {
    var s0 := Initial();
    var s1 := Stepped(s0, Some(TrackingFrame(1, [Hand(Right, 0.1, p0)])));
    ReleaseFreezesPosition(s0, 1, [Hand(Right, 0.1, p0)], 0);
    GrabEdgeAnchors(s1, 2, Hand(Right, 0.9, p1));
    var s2 := Stepped(s1, Some(TrackingFrame(2, [Hand(Right, 0.9, p1)])));
    ContinuedGrabKeepsOrigin(s2, 3, [Hand(Right, 0.95, p2)], 0);
    var s3 := Stepped(s2, Some(TrackingFrame(3, [Hand(Right, 0.95, p2)])));
    ReleaseFreezesPosition(s3, 4, [Hand(Right, 0.5, p3)], 0);
  }

  // ---------------------------------------------------------------------------
  // The grab edge within one frame

  /**
   As written, the edge is recomputed for every right hand of a frame: with two
   grabbing right hands, the second sees the grab the first recorded and clears
   `justGrabbed`. The grab then starts without re-anchoring, and the object
   jumps from where it was (0) to the palm `q` itself.
   */
  lemma DoubleRightHandJumps(q: Vec3)
    ensures var r := Stepped(Initial(), Some(TrackingFrame(1, [Hand(Right, 0.9, q), Hand(Right, 0.9, q)])));
      r.isGrabbing && !r.justGrabbed && r.position == q
  {
    var hs := [Hand(Right, 0.9, q), Hand(Right, 0.9, q)];
    var s' := Initial().(lastFrameId := 1);
    assert hs[..1][..0] == [];
    LastRightHandDecides(s', hs[..1], 0);
    LastRightHandDecides(s', hs, 1);
  }

  /** No two hands of `hs` are right hands. */
  predicate AtMostOneRightHand(hs: seq<Hand>)
  {
    forall i, j :: 0 <= i < |hs| && 0 <= j < |hs| && hs[i].kind == Right && hs[j].kind == Right ==> i == j
  }

  /**
   Frame consumption with the grab edge taken against the `isGrabbing` held
   before the frame: every grab that starts in a frame is flagged as an edge.
   */
  function EdgeConsumed(s: Snapshot, frame: Option<TrackingFrame>): (r: Snapshot)
    ensures r == Consumed(s, frame).(justGrabbed := r.justGrabbed)
    ensures !s.isGrabbing && r.isGrabbing ==> r.justGrabbed
    ensures Coherent(s) ==> Coherent(r)
  {
    var t := Consumed(s, frame);
    ConsumedKeepsCoherent(s, frame);
    if IsFresh(s, frame) then
      t.(justGrabbed := t.justGrabbed || (!s.isGrabbing && t.isGrabbing))
    else t
  }

  /** One pass with the corrected grab edge. */
  function EdgeStepped(s: Snapshot, frame: Option<TrackingFrame>): (r: Snapshot)
    ensures r == Stepped(s, frame).(origin := r.origin, position := r.position, justGrabbed := r.justGrabbed)
  {
    Dragged(EdgeConsumed(s, frame))
  }

  /**
   With the corrected edge, a pass that starts while not grabbing never moves
   the object, whatever hands the frame holds, and it ends settled.
   */
  lemma EdgeGrabNeverJumps(s: Snapshot, frame: Option<TrackingFrame>)
    requires Coherent(s)
    ensures !s.isGrabbing ==> EdgeStepped(s, frame).position == s.position
    ensures Settled(EdgeStepped(s, frame))
  {
  }

  /**
   The correction changes nothing for frames with at most one right hand: the
   source's edge is then already taken against the state before the frame.
   */
  lemma EdgeAgreesOnOneRightHand(s: Snapshot, frame: Option<TrackingFrame>)
    requires frame.Some? ==> AtMostOneRightHand(frame.value.hands)
    ensures EdgeConsumed(s, frame) == Consumed(s, frame)
    ensures EdgeStepped(s, frame) == Stepped(s, frame)
  {
    if IsFresh(s, frame) {
      var hs := frame.value.hands;
      var s' := s.(lastFrameId := frame.value.id);
      if k :| 0 <= k < |hs| && hs[k].kind == Right {
        forall j | k < j < |hs|
          ensures hs[j].kind == Left
        {
        }
        LastRightHandDecides(s', hs, k);
        LeftHandsIgnored(s', hs[..k]);
      } else {
        LeftHandsIgnored(s', hs);
      }
    }
  }

  // ---------------------------------------------------------------------------
  // The render loop's variables

  /**
   The variables of the render loop: the global `lastFrameID`, the three
   `float[3]` vectors, the two flags and the `hand` pointer.
   */
  class Tracker {
    var lastFrameId: int
    const origin: array<real>
    const current: array<real>
    const position: array<real>
    var isGrabbing: bool
    var justGrabbed: bool
    var hand: Option<Hand>

    ghost predicate Valid()
      reads this
    {
      origin.Length == 3 && current.Length == 3 && position.Length == 3 &&
      origin != current && origin != position && current != position
    }

    function Vector(a: array<real>): Vec3
      reads a
      requires a.Length == 3
    {
      Vec3(a[0], a[1], a[2])
    }

    /** The abstract state the loop variables stand for. */
    function State(): Snapshot
      reads this, origin, current, position
      requires Valid()
    {
      Snapshot(lastFrameId, Vector(origin), Vector(current), Vector(position),
               isGrabbing, justGrabbed, hand)
    }

    constructor ()
      ensures Valid() && State() == Initial()
      ensures fresh(origin) && fresh(current) && fresh(position)
    {
      lastFrameId := 0;
      origin := new real[3] [0.0, 0.0, 0.0];
      current := new real[3] [0.0, 0.0, 0.0];
      position := new real[3] [0.0, 0.0, 0.0];
      isGrabbing, justGrabbed := false, false;
      hand := None;
    }

    /** Consume what `GetFrame` returned: drop it unless newer, else scan its hands. */
    method ConsumeFrame(frame: Option<TrackingFrame>)
      requires Valid()
      modifies this, current
      ensures Valid()
      ensures State() == Consumed(old(State()), frame)
    {
      if frame.Some? && frame.value.id > lastFrameId {
        var f := frame.value;
        ghost var start := old(State()).(lastFrameId := f.id);
        lastFrameId := f.id;
        var h := 0;
        while h < |f.hands|
          invariant 0 <= h <= |f.hands|
          invariant Valid()
          invariant State() == ApplyHands(start, f.hands[..h])
        {
          var hd := f.hands[h];
          hand := Some(hd);
          if hd.kind == Right {
            justGrabbed := !isGrabbing && Grabs(hd);
            isGrabbing := Grabs(hd);
            current[0] := hd.palm.x;
            current[1] := hd.palm.y;
            current[2] := hd.palm.z;
          }
          assert f.hands[..h + 1][..h] == f.hands[..h];
          h := h + 1;
        }
        assert f.hands[..h] == f.hands;
      }
    }

    /** Re-anchor on the grab edge, then follow the palm while grabbing. */
    method UpdateDrag()
      requires Valid()
      modifies origin, position
      ensures Valid()
      ensures State() == Dragged(old(State()))
    {
      if hand.Some? {
        if justGrabbed {
          origin[0] := current[0] - position[0];
          origin[1] := current[1] - position[1];
          origin[2] := current[2] - position[2];
        }
        if isGrabbing {
          position[0] := current[0] - origin[0];
          position[1] := current[1] - origin[1];
          position[2] := current[2] - origin[2];
        }
      }
    }

    /** One pass of the render loop. */
    method Step(frame: Option<TrackingFrame>)
      requires Valid()
      modifies this, origin, current, position
      ensures Valid()
      ensures State() == Stepped(old(State()), frame)
    {
      ConsumeFrame(frame);
      UpdateDrag();
    }
  }
}
