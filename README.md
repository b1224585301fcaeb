# Timeline interpolation and playback control, in Dafny

This project models the deterministic core of a browser mock-video editor.
A playhead drives a video element, and per-phone tracks of keyframed 3D
transforms are resolved against that playhead to drive the on-screen
transform controls. The model has three parts.

- **Track resolver** (`Tracks`). `TransformControls` holds the two
  transform-control sinks. They start at the origin and each keeps the last
  value published to it. Its method `SetTransformControlsFromPlayhead` scans
  every animation of every track for the one nearest the playhead. It turns
  the playhead into animation-local time, clamps to the first or last
  keyframe, and otherwise blends the first pair of adjacent keyframes that
  encloses the local time. The method is proved to publish exactly what the
  specification function `Resolve` gives, and to publish nothing when
  `Resolve` gives `None`. The lemmas state what `Resolve` means:
  - the selection is the first animation of minimal distance, so ties go to
    the earlier one in track-then-animation order;
  - nothing is published exactly when no track has an animation;
  - the clamp cases;
  - an interpolated value stays between the two keyframes it blends;
  - with strictly increasing keyframe times, the value at a keyframe's own
    time is that keyframe's.
- **Linear interpolation** (`Curves`). `Lerp` and `LerpVec3` over exact
  reals, with their end points and betweenness.
- **Playback controller** (`Video`). The class `VideoController` has the
  playing flag, the logical playhead `playheadAnimateFrom`, the play and
  pause timestamps and an optional `VideoElement` whose `currentTime`
  mirrors each seek. The field `playheadLog` records every value the
  playhead store has held, so the re-seek nudge can be stated: a seek to the
  current value publishes `time - 0.001` first. The class invariant `Valid`
  says that the log ends with the current playhead and that every value in
  it differs from the one before. Every method keeps it, so every
  publication is a change that observers see.

Data types (`Timeline`): `Vec3`, `Keyframe`, `Animation` (keyframed: `start`,
`end`, `keyframes`) and `Track`. They follow the animation shape the
resolver reads: `keyframes[i].time`, `.position` and `.rotation`.

Inputs that the source reads from ambient state are parameters here:
- the tracks and the playhead are arguments of the resolver method;
- `settings.videoLoop` is an argument of `PlaybackEnded`;
- each `performance.now()` is a `now: real` argument of the method that
  reads it.

A missing seek time (`null`) is an `Option<real>` argument.

Two code-level observations:

- The interior keyframe search can never fail. Say the local time lies
  strictly between the first and last keyframe times. Then some adjacent pair
  encloses it, whether or not the times are sorted. So the source's path
  that leaves the loop without publishing (`src/lib/stores/tracks.svelte.ts`
  lines 54-68) is never taken. The method keeps that path. `InterpolateTotal`
  proves it cannot happen.
- The resolver indexes the selected animation's first and last keyframes
  without a guard. The method therefore requires only that the selected
  animation has at least one keyframe (`SelectedHasKeyframes`). Other
  animations may be empty.

The selection scan (lines 16-30 of `src/lib/stores/tracks.svelte.ts`) is the
method `FindClosestAnimation`, which the resolver method calls. Its inner
loop over one track's animations is the method `ScanTrack`. The nested
loops, the distance branches and the strict `<` replacement are as in the
source.

## Model

| member | source | states |
|---|---|---|
| `Curves.Lerp` | src/lib/utils/curves.ts:3-5 | a fraction of 0 gives `a`, a fraction of 1 gives `b`, and equal end points give that point for every fraction |
| `Curves.LerpBetween` | src/lib/utils/curves.ts:3-5 | for a fraction in [0, 1] the result lies between `min(a, b)` and `max(a, b)` |
| `Curves.LerpVec3` | src/lib/utils/curves.ts:7-13 | each coordinate is `Lerp` of that coordinate with the same fraction; fraction 0 gives `a`, fraction 1 gives `b`, equal vectors are fixed |
| `Curves.LerpVec3Between` | src/lib/utils/curves.ts:7-13 | for a fraction in [0, 1] every coordinate of the result lies between the two inputs' coordinates |
| `Tracks.Distance` | src/lib/stores/tracks.svelte.ts:19-24 | never negative; zero exactly when the playhead is inside [start, end]; `start - playhead` before the start, `playhead - end` after the end |
| `Tracks.DistanceIsGap` | src/lib/stores/tracks.svelte.ts:19-24 | for start <= end the distance is the gap to the nearest point of the interval: no point is closer and one is that close |
| `Tracks.Nearest` | src/lib/stores/tracks.svelte.ts:16-32 | there is no selection exactly when there is no animation; a selection is a valid index |
| `Tracks.NearestIsFirstNearest` | src/lib/stores/tracks.svelte.ts:26-28 | the selected animation has minimal distance, and every animation before it is strictly farther (strict `<` keeps the first) |
| `Tracks.AllAnimationsAt` | src/lib/stores/tracks.svelte.ts:16-17 | the scan visits animation `j` of track `i` at position `FlatIndex(i, j)`, that is, in track-then-animation order |
| `Tracks.TieGoesToEarlier` | src/lib/stores/tracks.svelte.ts:16-30 | an animation is never selected if an animation earlier in track-then-animation order is at most as far from the playhead |
| `Tracks.AllAnimationsEmpty` | src/lib/stores/tracks.svelte.ts:16-17 | the scan sees no animation exactly when every track's animation list is empty |
| `Tracks.FindClosestAnimation` | src/lib/stores/tracks.svelte.ts:13-30 | the nested scan ends with no candidate exactly when there is no animation; otherwise its candidate is the animation `Nearest` selects, with its distance |
| `Tracks.ScanTrack` | src/lib/stores/tracks.svelte.ts:17-29 | scanning one track's animations after any prefix keeps the candidate equal to the one `Nearest` selects over the prefix and the track together; there is still no candidate exactly when there was none and the track is empty; the kept distance is the candidate's `Distance` |
| `Tracks.FirstBracketFrom` | src/lib/stores/tracks.svelte.ts:54-57 | the result is the first index at or after `i` whose adjacent pair encloses the local time; `None` means that no such pair exists |
| `Tracks.Fraction` | src/lib/stores/tracks.svelte.ts:58-59 | 0 when the span is not positive; otherwise fraction times span equals the time elapsed since the first keyframe; in [0, 1] when the local time lies within the pair |
| `Tracks.Interpolate` | src/lib/stores/tracks.svelte.ts:36-51 | a local time at or before the first keyframe gives the first keyframe's pose; one after it and at or past the last keyframe gives the last keyframe's pose; a single keyframe is published at every local time |
| `Tracks.BracketExistsFrom` | src/lib/stores/tracks.svelte.ts:54-57 | from a keyframe at or before the local time, with the local time before the last keyframe, an enclosing adjacent pair is always found |
| `Tracks.InterpolateTotal` | src/lib/stores/tracks.svelte.ts:36-68 | for every non-empty keyframe sequence and local time a pose is published; the unsorted case is included |
| `Tracks.InterpolateWithinBracket` | src/lib/stores/tracks.svelte.ts:54-66 | strictly inside the keyframe range the published pose blends the first enclosing pair with a fraction in [0, 1], and position and rotation lie between that pair's values |
| `Tracks.InterpolateAtKeyframe` | src/lib/stores/tracks.svelte.ts:40-66 | with strictly increasing times, the pose at a keyframe's own time is exactly that keyframe's |
| `Tracks.InterpolateIsLerpOfKeyframes` | src/lib/stores/tracks.svelte.ts:54-66 | with strictly increasing times, strictly inside the keyframe range the pose is `LerpVec3` of the poses at the enclosing pair's own times, with the pair's fraction |
| `Tracks.ResolveNoOpIffNoAnimations` | src/lib/stores/tracks.svelte.ts:32 | the resolver leaves the controls unchanged exactly when no track holds an animation |
| `Tracks.ResolveBeforeStartClampsFirst` | src/lib/stores/tracks.svelte.ts:34-44 | the local time is the playhead minus the selected start, so a playhead at or before that start publishes the first keyframe when it lies at local time 0 or later |
| `Tracks.ResolveAfterEndClampsLast` | src/lib/stores/tracks.svelte.ts:34-51 | a playhead at or after the selected end publishes the last keyframe when it lies within the animation and after the first |
| `Tracks.ExampleHalfway` | src/lib/stores/tracks.svelte.ts:54-66 | keyframes at 0 (origin) and 2 (x = 10) give x = 5 at local time 1 |
| `Tracks.ExampleOutsideInterval` | src/lib/stores/tracks.svelte.ts:19-51 | one animation over [2, 4]: playhead 1 is 1 away and publishes the first keyframe; playhead 10 is 6 away and publishes the last |
| `Tracks.TransformControls.constructor` | src/lib/stores/transform.svelte.ts:4-5 | both sinks start at (0, 0, 0) |
| `Tracks.TransformControls.SetTransformControlsFromPlayhead` | src/lib/stores/tracks.svelte.ts:10-69 | publishes exactly the pose `Resolve` gives for the tracks and playhead, and leaves both sinks unchanged when it gives none |
| `Video.SeekPublications` | src/lib/stores/video.svelte.ts:26-31 | ends with the target time; a re-seek publishes two values, the first 0.001 below the target, and any other seek publishes one; the first differs from the current value and every value differs from the one before it |
| `Video.VideoController.constructor` | src/lib/stores/video.svelte.ts:8-15 | not playing, end time 10, playhead 0 in a log holding just 0, no element, no timestamps; the invariant holds |
| `Video.VideoController.SetVideo` | src/lib/stores/video.svelte.ts:61-62 | attaches the element and changes nothing else |
| `Video.VideoController.SetPlayheadPosition` | src/lib/stores/video.svelte.ts:21-35 | a missing time changes nothing; otherwise the playhead is the time, the log gains `SeekPublications`, an attached element's position is the time, and nothing else changes |
| `Video.VideoController.Play` | src/lib/stores/video.svelte.ts:37-41 | playing, start timestamp recorded, element unpaused at the same position; playhead, log and pause timestamp unchanged |
| `Video.VideoController.Pause` | src/lib/stores/video.svelte.ts:43-47 | not playing, pause timestamp recorded, element paused at the same position; playhead, log and start timestamp unchanged |
| `Video.VideoController.Reset` | src/lib/stores/video.svelte.ts:49-51 | exactly the effect of a seek to 0 |
| `Video.VideoController.PlaybackEnded` | src/lib/stores/video.svelte.ts:53-59 | with looping on, exactly a seek to 0 (the playing flag kept); with looping off, exactly a pause (the playhead kept) |
| `Video.VideoController.Toggle` | src/lib/stores/video.svelte.ts:69-75 | the playing flag becomes the negation of `isPlaying` (the getter at lines 17-19, `IsPlaying`) before the call, with the effect of `play` or `pause` respectively |
| `Video.SeekTwice` | src/lib/stores/video.svelte.ts:26-31 | two seeks to the same time publish that time, then the nudged value and the time again, so both seeks are observable |

## Left out

- The older `Animation` record with `posStart`/`posEnd`/`rotStart`/`rotEnd` (`src/lib/components/mock-video/Animation.ts`): it conflicts with the keyframed shape the resolver reads. Only `Vec3` and `Track` are taken from that file.
- Keyframes: `src/lib/stores/tracks.svelte.ts:1` imports `Keyframe` from `components/mock-video/Animation`, and `Animation.ts` does not define it. The model gives it the fields the resolver reads, plus `id` and `opacity`. Opacity is never read, so it is not interpolated.
- Svelte store machinery (`writable`, `get`, subscriptions, `readable`/`derived` exports, `selectedAnimationStore`): each store is a field holding its latest value. The playhead store also keeps its history in `playheadLog`.
- `setVideo`'s DOM settings (`loop`, `muted`, `autoplay`, `playsInline`): element configuration with no effect on the modelled state. The element's `play()` and `pause()` promises are modelled as synchronous flag updates.
- `performance.now()`, `settings.videoLoop` and the playhead store that the resolver reads are inputs, as described above.
- `tick`, `playheadPosition` and `playheadPosition2` are imported by the controller but never used in the modelled code.
- The `console.warn` on a missing seek time (`src/lib/stores/video.svelte.ts:23`): logging only; the model keeps the no-op.
- The source throws a TypeError when the selected animation has no keyframes (`src/lib/stores/tracks.svelte.ts:36-40` reads `.time` of `undefined`). The resolver method instead requires `SelectedHasKeyframes`, so this error path is not modelled.
- Aliasing of the published values: the source hands the keyframe's own `position`/`rotation` objects to the sinks (`src/lib/stores/tracks.svelte.ts:41-42`, `48-49`). The model's `Vec3` is a value, so later mutation of a shared object is not captured.
- The element's own clock: playback does not advance `currentTime`, and the model does not capture that `play()` on an ended element rewinds it. `VideoElement.Play` keeps the position.
- Frame-rate-gated polling and requestAnimationFrame loops: none appear in the modelled files.
- Floating point: times and coordinates are exact reals, so `time - 0.001` is exact and NaN does not arise. Equality of the playhead with the target is exact real equality.
- `src/lib/utils/cn.ts` (a wrapper over an external class-name library) and `vite.config.ts` (build configuration) are not part of this model.
