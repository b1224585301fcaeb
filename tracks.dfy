/**
 * The track resolver: from all tracks and a global playhead time, pick the
 * animation nearest to the playhead, turn the playhead into animation-local
 * time, clamp or interpolate its keyframes, and publish the result to the
 * transform controls.
 *
 * The functions below are the specification; `TransformControls` holds the
 * two published values and its method is the resolver itself, proved to
 * publish exactly what `Resolve` says.
 */
module Tracks {
  import opened Wrappers
  import opened Timeline
  import opened Curves

  // ---------------------------------------------------------------------
  // Selecting the animation
  // ---------------------------------------------------------------------

  /** The distance between two points of the time line. */
  function Gap(p: real, x: real): real { if p < x then x - p else p - x }

  /** How far the playhead `p` is from the interval [a.start, a.end]. */
  function Distance(a: Animation, p: real): (r: real)
    ensures r >= 0.0
    ensures r == 0.0 <==> a.start <= p <= a.end
    ensures p < a.start ==> r == a.start - p
    ensures a.start <= p && a.end < p ==> r == p - a.end
  {
    if p < a.start then a.start - p
    else if p > a.end then p - a.end
    else 0.0
  }

  /**
   * For a well-formed interval, `Distance` is the gap between the playhead and
   * the interval: no point of the interval is closer, and one is that close.
   */
  lemma DistanceIsGap(a: Animation, p: real)
    requires a.start <= a.end
    ensures forall x :: a.start <= x <= a.end ==> Distance(a, p) <= Gap(p, x)
    ensures exists x :: a.start <= x <= a.end && Distance(a, p) == Gap(p, x)
  {
    if p < a.start {
      assert Distance(a, p) == Gap(p, a.start);
    } else if p > a.end {
      assert Distance(a, p) == Gap(p, a.end);
    } else {
      assert Distance(a, p) == Gap(p, p);
    }
  }

  /** Every animation of every track, in track order and then animation order. */
  function AllAnimations(tracks: seq<Track>): seq<Animation>
  {
    if tracks == [] then []
    else AllAnimations(tracks[..|tracks| - 1]) + tracks[|tracks| - 1].animations
  }

  /** The position in `AllAnimations(tracks)` of animation `j` of track `i`. */
  function FlatIndex(tracks: seq<Track>, i: nat, j: nat): nat
    requires i <= |tracks|
  {
    |AllAnimations(tracks[..i])| + j
  }

  /**
   * `k` is the first index whose animation has minimal distance to `p`:
   * no animation is nearer, and every earlier one is strictly farther.
   */
  ghost predicate IsFirstNearest(anims: seq<Animation>, k: nat, p: real) {
    k < |anims| &&
    (forall j :: 0 <= j < |anims| ==> Distance(anims[k], p) <= Distance(anims[j], p)) &&
    (forall j :: 0 <= j < k ==> Distance(anims[k], p) < Distance(anims[j], p))
  }

  /**
   * The index of the animation the resolver selects: a best-so-far scan in
   * which a later animation replaces the current one only when it is strictly
   * nearer.
   */
  function Nearest(anims: seq<Animation>, p: real): (r: Option<nat>)
    ensures r.None? <==> anims == []
    ensures r.Some? ==> r.value < |anims|
  {
    if anims == [] then None
    else
      var prev := Nearest(anims[..|anims| - 1], p);
      var last := anims[|anims| - 1];
      if prev.None? || Distance(last, p) < Distance(anims[prev.value], p) then Some(|anims| - 1)
      else prev
  }

  /** The selected animation is the first one of minimal distance. */
  lemma {:induction false} NearestIsFirstNearest(anims: seq<Animation>, p: real)
    requires anims != []
    ensures Nearest(anims, p).Some? && IsFirstNearest(anims, Nearest(anims, p).value, p)
  {
    var init := anims[..|anims| - 1];
    if init != [] {
      NearestIsFirstNearest(init, p);
      assert forall j :: 0 <= j < |init| ==> init[j] == anims[j];
    }
  }

  // ---------------------------------------------------------------------
  // Interpolating the keyframes
  // ---------------------------------------------------------------------

  /** Keyframes `i` and `i + 1` enclose the local time `lt`. */
  predicate Brackets(kfs: seq<Keyframe>, i: nat, lt: real)
    requires i + 1 < |kfs|
  {
    kfs[i].time <= lt <= kfs[i + 1].time
  }

  /** The first adjacent pair, at index `i` or later, that encloses `lt`. */
  function FirstBracketFrom(kfs: seq<Keyframe>, lt: real, i: nat): (r: Option<nat>)
    decreases |kfs| - i
    ensures r.Some? ==>
      i <= r.value && r.value + 1 < |kfs| && Brackets(kfs, r.value, lt) &&
      forall j :: i <= j < r.value ==> !Brackets(kfs, j, lt)
    ensures r.None? ==> forall j :: i <= j && j + 1 < |kfs| ==> !Brackets(kfs, j, lt)
  {
    if i + 1 >= |kfs| then None
    else if kfs[i].time <= lt <= kfs[i + 1].time then Some(i)
    else FirstBracketFrom(kfs, lt, i + 1)
  }

  /** How far `lt` has come from `t1` towards `t2`; 0 for an empty or reversed span. */
  function Fraction(t1: real, t2: real, lt: real): (r: real)
    ensures t2 - t1 <= 0.0 ==> r == 0.0
    ensures t2 - t1 > 0.0 ==> r * (t2 - t1) == lt - t1
    ensures t1 <= lt <= t2 ==> 0.0 <= r <= 1.0
  {
    var span := t2 - t1;
    if span > 0.0 then (lt - t1) / span else 0.0
  }

  /** The pose between two keyframes at local time `lt`. */
  function Blend(kf1: Keyframe, kf2: Keyframe, lt: real): Pose {
    var t := Fraction(kf1.time, kf2.time, lt);
    Pose(LerpVec3(kf1.position, kf2.position, t), LerpVec3(kf1.rotation, kf2.rotation, t))
  }

  /**
   * The pose of a keyframe sequence at local time `lt`: clamped to the first or
   * last keyframe outside their times, otherwise blended within the first
   * pair that encloses `lt`. `None` means nothing is published.
   */
  function Interpolate(kfs: seq<Keyframe>, lt: real): (r: Option<Pose>)
    requires |kfs| >= 1
    ensures lt <= kfs[0].time ==> r == Some(KeyPose(kfs[0]))
    ensures kfs[0].time < lt && kfs[|kfs| - 1].time <= lt ==> r == Some(KeyPose(kfs[|kfs| - 1]))
    ensures |kfs| == 1 ==> r == Some(KeyPose(kfs[0]))
  {
    if lt <= kfs[0].time then Some(KeyPose(kfs[0]))
    else if lt >= kfs[|kfs| - 1].time then Some(KeyPose(kfs[|kfs| - 1]))
    else match FirstBracketFrom(kfs, lt, 0)
      case None => None
      case Some(i) => Some(Blend(kfs[i], kfs[i + 1], lt))
  }

  /** From any keyframe at or before `lt`, and `lt` before the last keyframe, an enclosing pair follows. */
  lemma {:induction false} BracketExistsFrom(kfs: seq<Keyframe>, lt: real, i: nat)
    requires i < |kfs| && kfs[i].time <= lt < kfs[|kfs| - 1].time
    ensures FirstBracketFrom(kfs, lt, i).Some?
    decreases |kfs| - i
  {
    if !(lt <= kfs[i + 1].time) {
      BracketExistsFrom(kfs, lt, i + 1);
    }
  }

  /**
   * The interior search always finds an enclosing pair, whether or not the
   * keyframe times are sorted: `Interpolate` always publishes.
   */
  lemma InterpolateTotal(kfs: seq<Keyframe>, lt: real)
    requires |kfs| >= 1
    ensures Interpolate(kfs, lt).Some?
  {
    if kfs[0].time < lt < kfs[|kfs| - 1].time {
      BracketExistsFrom(kfs, lt, 0);
    }
  }

  /**
   * Strictly between the first and last keyframe times, the pose blends the
   * first enclosing pair with a fraction in [0, 1], so position and rotation
   * stay inside the box of that pair's values.
   */
  lemma InterpolateWithinBracket(kfs: seq<Keyframe>, lt: real)
    requires |kfs| >= 1 && kfs[0].time < lt < kfs[|kfs| - 1].time
    ensures FirstBracketFrom(kfs, lt, 0).Some?
    ensures var i := FirstBracketFrom(kfs, lt, 0).value;
      var t := Fraction(kfs[i].time, kfs[i + 1].time, lt);
      0.0 <= t <= 1.0 &&
      Interpolate(kfs, lt) == Some(Blend(kfs[i], kfs[i + 1], lt)) &&
      WithinBox(kfs[i].position, kfs[i + 1].position, Blend(kfs[i], kfs[i + 1], lt).position) &&
      WithinBox(kfs[i].rotation, kfs[i + 1].rotation, Blend(kfs[i], kfs[i + 1], lt).rotation)
  {
    BracketExistsFrom(kfs, lt, 0);
    var i := FirstBracketFrom(kfs, lt, 0).value;
    var t := Fraction(kfs[i].time, kfs[i + 1].time, lt);
    LerpVec3Between(kfs[i].position, kfs[i + 1].position, t);
    LerpVec3Between(kfs[i].rotation, kfs[i + 1].rotation, t);
  }

  /** Keyframe times strictly increase. */
  ghost predicate StrictlySorted(kfs: seq<Keyframe>) {
    forall i, j :: 0 <= i < j < |kfs| ==> kfs[i].time < kfs[j].time
  }

  /** With strictly increasing times, the pose at a keyframe's own time is exactly that keyframe's. */
  lemma InterpolateAtKeyframe(kfs: seq<Keyframe>, k: nat)
    requires StrictlySorted(kfs) && k < |kfs|
    ensures Interpolate(kfs, kfs[k].time) == Some(KeyPose(kfs[k]))
  {
    var lt := kfs[k].time;
    if 0 < k < |kfs| - 1 {
      assert Brackets(kfs, k - 1, lt);
      forall j | 0 <= j < k - 1 ensures !Brackets(kfs, j, lt) {
        assert kfs[j + 1].time < lt;
      }
      assert FirstBracketFrom(kfs, lt, 0) == Some(k - 1);
      assert Fraction(kfs[k - 1].time, lt, lt) == 1.0;
    }
  }

  /**
   * With strictly increasing times, strictly inside the keyframe range the pose
   * is the linear interpolation, with the pair's fraction, of the poses at the
   * enclosing pair's own times.
   */
  lemma InterpolateIsLerpOfKeyframes(kfs: seq<Keyframe>, lt: real)
    requires StrictlySorted(kfs) && |kfs| >= 1 && kfs[0].time < lt < kfs[|kfs| - 1].time
    ensures FirstBracketFrom(kfs, lt, 0).Some?
    ensures var i := FirstBracketFrom(kfs, lt, 0).value;
      var t := Fraction(kfs[i].time, kfs[i + 1].time, lt);
      Interpolate(kfs, kfs[i].time).Some? && Interpolate(kfs, kfs[i + 1].time).Some? &&
      var p1 := Interpolate(kfs, kfs[i].time).value;
      var p2 := Interpolate(kfs, kfs[i + 1].time).value;
      Interpolate(kfs, lt) ==
        Some(Pose(LerpVec3(p1.position, p2.position, t), LerpVec3(p1.rotation, p2.rotation, t)))
  {
    InterpolateWithinBracket(kfs, lt);
    var i := FirstBracketFrom(kfs, lt, 0).value;
    InterpolateAtKeyframe(kfs, i);
    InterpolateAtKeyframe(kfs, i + 1);
  }

  // ---------------------------------------------------------------------
  // The whole resolution
  // ---------------------------------------------------------------------

  /** The animation the resolver selects has a keyframe to read. */
  predicate SelectedHasKeyframes(tracks: seq<Track>, p: real) {
    var anims := AllAnimations(tracks);
    var s := Nearest(anims, p);
    s.Some? ==> |anims[s.value].keyframes| >= 1
  }

  /** What the resolver publishes for `tracks` at playhead `p`; `None` leaves the controls as they are. */
  function Resolve(tracks: seq<Track>, p: real): Option<Pose>
    requires SelectedHasKeyframes(tracks, p)
  {
    var anims := AllAnimations(tracks);
    match Nearest(anims, p)
    case None => None
    case Some(k) => Interpolate(anims[k].keyframes, p - anims[k].start)
  }

  lemma {:induction false} AllAnimationsEmpty(tracks: seq<Track>)
    ensures AllAnimations(tracks) == [] <==> forall i :: 0 <= i < |tracks| ==> tracks[i].animations == []
  {
    if tracks != [] {
      var init := tracks[..|tracks| - 1];
      AllAnimationsEmpty(init);
      assert forall i :: 0 <= i < |init| ==> init[i] == tracks[i];
    }
  }

  /** The resolver publishes nothing exactly when no track holds an animation. */
  lemma ResolveNoOpIffNoAnimations(tracks: seq<Track>, p: real)
    requires SelectedHasKeyframes(tracks, p)
    ensures Resolve(tracks, p).None? <==> forall i :: 0 <= i < |tracks| ==> tracks[i].animations == []
  {
    AllAnimationsEmpty(tracks);
    var anims := AllAnimations(tracks);
    var s := Nearest(anims, p);
    if s.Some? {
      InterpolateTotal(anims[s.value].keyframes, p - anims[s.value].start);
    }
  }

  lemma {:induction false} AllAnimationsPrefix(tracks: seq<Track>, m: nat, n: nat)
    requires m <= n <= |tracks|
    ensures |AllAnimations(tracks[..m])| <= |AllAnimations(tracks[..n])|
    ensures AllAnimations(tracks[..n])[..|AllAnimations(tracks[..m])|] == AllAnimations(tracks[..m])
    ensures n > m ==> |AllAnimations(tracks[..m])| + |tracks[m].animations| <= |AllAnimations(tracks[..n])|
    decreases n - m
  {
    if m < n {
      AllAnimationsPrefix(tracks, m, n - 1);
      assert tracks[..n][..n - 1] == tracks[..n - 1];
      if m + 1 == n {
        assert tracks[..m + 1][..m] == tracks[..m];
      } else {
        AllAnimationsPrefix(tracks, m, m + 1);
        assert tracks[..m + 1][..m] == tracks[..m];
      }
    }
  }

  /** Animation `j` of track `i` sits at `FlatIndex(tracks, i, j)` of the flattened sequence. */
  lemma AllAnimationsAt(tracks: seq<Track>, i: nat, j: nat)
    requires i < |tracks| && j < |tracks[i].animations|
    ensures FlatIndex(tracks, i, j) < |AllAnimations(tracks)|
    ensures AllAnimations(tracks)[FlatIndex(tracks, i, j)] == tracks[i].animations[j]
  {
    assert tracks[..i + 1][..i] == tracks[..i];
    AllAnimationsPrefix(tracks, i + 1, |tracks|);
    assert tracks[..|tracks|] == tracks;
  }

  /**
   * Ties go to the earlier animation in track-then-animation order: an
   * animation is never selected when an earlier one is at most as far away.
   */
  lemma TieGoesToEarlier(tracks: seq<Track>, p: real, i: nat, j: nat, i2: nat, j2: nat)
    requires i < |tracks| && j < |tracks[i].animations|
    requires i2 < |tracks| && j2 < |tracks[i2].animations|
    requires i < i2 || (i == i2 && j < j2)
    requires Distance(tracks[i].animations[j], p) <= Distance(tracks[i2].animations[j2], p)
    ensures Nearest(AllAnimations(tracks), p) != Some(FlatIndex(tracks, i2, j2))
  {
    AllAnimationsAt(tracks, i, j);
    AllAnimationsAt(tracks, i2, j2);
    NearestIsFirstNearest(AllAnimations(tracks), p);
    if i < i2 {
      AllAnimationsPrefix(tracks, i, i2);
    }
  }

  /** The selected animation, for stating what the resolver does with it. */
  function Selected(tracks: seq<Track>, p: real): (a: Animation)
    requires AllAnimations(tracks) != []
    ensures a in AllAnimations(tracks)
  {
    AllAnimations(tracks)[Nearest(AllAnimations(tracks), p).value]
  }

  /**
   * A playhead at or before the selected animation's start gives a negative or
   * zero local time, so an animation whose keyframes start at local time 0 or
   * later publishes its first keyframe.
   */
  lemma ResolveBeforeStartClampsFirst(tracks: seq<Track>, p: real)
    requires AllAnimations(tracks) != [] && SelectedHasKeyframes(tracks, p)
    requires Selected(tracks, p).keyframes[0].time >= 0.0 && p <= Selected(tracks, p).start
    ensures Resolve(tracks, p) == Some(KeyPose(Selected(tracks, p).keyframes[0]))
  {
  }

  /**
   * A playhead at or after the selected animation's end gives a local time at
   * least its length, so an animation whose last keyframe lies within it (and
   * after its first) publishes its last keyframe.
   */
  lemma ResolveAfterEndClampsLast(tracks: seq<Track>, p: real)
    requires AllAnimations(tracks) != [] && SelectedHasKeyframes(tracks, p)
    requires var a := Selected(tracks, p);
      a.keyframes[0].time < a.keyframes[|a.keyframes| - 1].time <= a.end - a.start && a.end <= p
    ensures var a := Selected(tracks, p);
      Resolve(tracks, p) == Some(KeyPose(a.keyframes[|a.keyframes| - 1]))
  {
  }

  const KeyAtZero: Keyframe := Keyframe("k0", Origin, Origin, 1.0, 0.0)
  const KeyAtTwo: Keyframe := Keyframe("k1", Vec3(10.0, 0.0, 0.0), Origin, 1.0, 2.0)

  /** Halfway between keyframes at 0 and 2, the position is halfway between theirs. */
  lemma ExampleHalfway()
    ensures Interpolate([KeyAtZero, KeyAtTwo], 1.0) == Some(Pose(Vec3(5.0, 0.0, 0.0), Origin))
  {
    assert FirstBracketFrom([KeyAtZero, KeyAtTwo], 1.0, 0) == Some(0);
  }

  /** One animation over [2, 4]: a playhead at 1 is 1 away, and clamps to the first keyframe; at 10 it is 6 away and clamps to the last. */
  lemma ExampleOutsideInterval()
    ensures var a := Animation("a", "move", 2.0, 4.0, [KeyAtZero, KeyAtTwo]);
      var tracks := [Track("t", "phone", [a])];
      Distance(a, 1.0) == 1.0 && Resolve(tracks, 1.0) == Some(KeyPose(KeyAtZero)) &&
      Distance(a, 10.0) == 6.0 && Resolve(tracks, 10.0) == Some(KeyPose(KeyAtTwo))
  {
    var a := Animation("a", "move", 2.0, 4.0, [KeyAtZero, KeyAtTwo]);
    var tracks := [Track("t", "phone", [a])];
    assert tracks[..0] == [];
    assert AllAnimations(tracks) == [a];
    assert [a][..0] == [];
  }

  // ---------------------------------------------------------------------
  // The published transform controls
  // ---------------------------------------------------------------------

  /** The best candidate seen so far by the selection scan, with its distance. */
  datatype Candidate = Candidate(anim: Animation, dist: real)

  /** The scan over `seen` holds `closest`, which is `seen[k]`, the animation `Nearest` selects. */
  ghost predicate Chosen(seen: seq<Animation>, p: real, closest: Option<Candidate>, k: nat) {
    Nearest(seen, p) == (if closest.None? then None else Some(k)) &&
    (closest.Some? ==> k < |seen| && closest.value == Candidate(seen[k], Distance(seen[k], p)))
  }

  /** One step of the scan: looking at `a` after `seen` keeps `Chosen`. */
  lemma ChosenStep(seen: seq<Animation>, a: Animation, p: real, closest: Option<Candidate>, k: nat)
    requires Chosen(seen, p, closest, k)
    ensures var replace := closest.None? || Distance(a, p) < closest.value.dist;
      Chosen(seen + [a], p,
             if replace then Some(Candidate(a, Distance(a, p))) else closest,
             if replace then |seen| else k)
  {
    assert (seen + [a])[..|seen|] == seen;
  }

  /**
   * The selection scan of the resolver: every animation of every track, best
   * so far replaced only by a strictly nearer one.
   */
  method FindClosestAnimation(tracks: seq<Track>, playhead: real) returns (closest: Option<Candidate>)
    ensures closest.None? <==> Nearest(AllAnimations(tracks), playhead).None?
    ensures closest.Some? ==>
      var k := Nearest(AllAnimations(tracks), playhead).value;
      closest.value == Candidate(AllAnimations(tracks)[k], Distance(AllAnimations(tracks)[k], playhead))
  {
    closest := None;
    ghost var k: nat := 0;
    var i := 0;
    while i < |tracks|
      invariant 0 <= i <= |tracks|
      invariant Chosen(AllAnimations(tracks[..i]), playhead, closest, k)
    {
      closest, k := ScanTrack(tracks[i].animations, playhead, closest, AllAnimations(tracks[..i]), k);
      assert tracks[..i + 1][..i] == tracks[..i];
      i := i + 1;
    }
    assert tracks[..i] == tracks;
  }

  /**
   * The inner loop of the selection scan: the animations of one track, after
   * the scan has seen `before` and holds `closest` (ghost index `k`).
   */
  method ScanTrack(anims: seq<Animation>, playhead: real, closest: Option<Candidate>,
                   ghost before: seq<Animation>, ghost k: nat)
    returns (closest': Option<Candidate>, ghost k': nat)
    requires Chosen(before, playhead, closest, k)
    ensures Chosen(before + anims, playhead, closest', k')
    ensures closest'.None? <==> closest.None? && anims == []
    ensures closest'.Some? ==> closest'.value.dist == Distance(closest'.value.anim, playhead)
  {
    closest', k' := closest, k;
    var j := 0;
    assert before + anims[..0] == before;
    while j < |anims|
      invariant 0 <= j <= |anims|
      invariant Chosen(before + anims[..j], playhead, closest', k')
    {
      var anim := anims[j];
      // If inside the animation, the distance is 0.
      var dist := 0.0;
      if playhead < anim.start {
        dist := anim.start - playhead;
      } else if playhead > anim.end {
        dist := playhead - anim.end;
      }
      assert dist == Distance(anim, playhead);
      ChosenStep(before + anims[..j], anim, playhead, closest', k');
      assert before + anims[..j + 1] == before + anims[..j] + [anim];
      if closest'.None? || dist < closest'.value.dist {
        k' := |before + anims[..j]|;
        closest' := Some(Candidate(anim, dist));
      }
      j := j + 1;
    }
    assert anims[..j] == anims;
  }

  /** The two transform-control sinks, each holding the last value published to it. */
  class TransformControls {
    var position: Vec3
    var rotation: Vec3

    constructor ()
      ensures position == Origin && rotation == Origin
    {
      position := Origin;
      rotation := Origin;
    }

    /** Resolve the tracks at the playhead and publish the pose, if any. */
    method SetTransformControlsFromPlayhead(tracks: seq<Track>, playhead: real)
      requires SelectedHasKeyframes(tracks, playhead)
      modifies this
      ensures match Resolve(tracks, playhead)
        case None => position == old(position) && rotation == old(rotation)
        case Some(pose) => position == pose.position && rotation == pose.rotation
    {
      var closest := FindClosestAnimation(tracks, playhead);

      if closest.None? {
        return;
      }
      var anim := closest.value.anim;
      var localTime := playhead - anim.start;

      var firstKf := anim.keyframes[0];
      var lastKf := anim.keyframes[|anim.keyframes| - 1];

      if localTime <= firstKf.time {
        position := firstKf.position;
        rotation := firstKf.rotation;
        return;
      }

      if localTime >= lastKf.time {
        position := lastKf.position;
        rotation := lastKf.rotation;
        return;
      }

      var n := 0;
      while n < |anim.keyframes| - 1
        invariant 0 <= n <= |anim.keyframes| - 1
        invariant FirstBracketFrom(anim.keyframes, localTime, 0) == FirstBracketFrom(anim.keyframes, localTime, n)
        invariant position == old(position) && rotation == old(rotation)
      {
        var kf1 := anim.keyframes[n];
        var kf2 := anim.keyframes[n + 1];
        if localTime >= kf1.time && localTime <= kf2.time {
          var span := kf2.time - kf1.time;
          var t := if span > 0.0 then (localTime - kf1.time) / span else 0.0;

          var pos := LerpVec3(kf1.position, kf2.position, t);
          var rot := LerpVec3(kf1.rotation, kf2.rotation, t);

          position := pos;
          rotation := rot;
          return;
        }
        n := n + 1;
      }
    }
  }
}
