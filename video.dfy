/**
 * The playback controller: a playing/paused flag, a logical playhead and the
 * optional video element whose position mirrors every seek.
 */
module Video {
  import opened Wrappers

  /** The amount a re-seek to the current playhead is first nudged back by, in seconds. */
  const ReseekNudge: real := 0.001

  /**
   * The values a seek to `time` publishes to the playhead store when it
   * currently holds `current`: a re-seek first publishes a value just below
   * `time`, so observers that react only to changes still see the seek.
   */
  function SeekPublications(current: real, time: real): (r: seq<real>)
    ensures r != [] && r[|r| - 1] == time
    ensures r[0] != current
    ensures time == current ==> r[0] == time - ReseekNudge
    ensures forall i :: 0 < i < |r| ==> r[i] != r[i - 1]
    ensures |r| == (if time == current then 2 else 1)
  {
    if time == current then [time - ReseekNudge, time] else [time]
  }

  /** The parts of an HTML video element the controller uses. */
  class VideoElement {
    var currentTime: real
    var paused: bool

    constructor (currentTime: real)
      ensures this.currentTime == currentTime && paused
    {
      this.currentTime := currentTime;
      paused := true;
    }

    /**
     * Start playback. The element's own clock is not modelled, so the
     * position stays where it is.
     */
    method Play()
      modifies this
      ensures !paused && currentTime == old(currentTime)
    {
      paused := false;
    }

    /** Halt playback where it is. */
    method Pause()
      modifies this
      ensures paused && currentTime == old(currentTime)
    {
      paused := true;
    }
  }

  class VideoController {
    var video: VideoElement?
    var playing: bool
    var endTime: real
    /** The current value of the logical playhead store. */
    var playheadAnimateFrom: real
    /** Every value the playhead store has held, oldest first, starting with its initial 0. */
    var playheadLog: seq<real>
    var playStartTime: Option<real>
    var pauseStartTime: Option<real>
    var playheadStartTime: Option<real>

    /**
     * The log ends with the store's current value, and every value in it
     * differs from the one before, so each publication is a change.
     */
    ghost predicate Valid()
      reads this
    {
      playheadLog != [] && playheadLog[|playheadLog| - 1] == playheadAnimateFrom &&
      forall i :: 0 < i < |playheadLog| ==> playheadLog[i] != playheadLog[i - 1]
    }

    constructor ()
      ensures Valid()
      ensures video == null && !playing && endTime == 10.0
      ensures playheadAnimateFrom == 0.0 && playheadLog == [0.0]
      ensures playStartTime == None && pauseStartTime == None && playheadStartTime == None
    {
      video := null;
      playing := false;
      endTime := 10.0;
      playheadAnimateFrom := 0.0;
      playheadLog := [0.0];
      playStartTime := None;
      pauseStartTime := None;
      playheadStartTime := None;
    }

    function IsPlaying(): bool
      reads this
    {
      playing
    }

    /** Nothing but the playhead store and, if attached, the element's position changed. */
    twostate predicate Seeked(time: real)
      reads this, video
    {
      video == old(video) &&
      playheadAnimateFrom == time &&
      playheadLog == old(playheadLog) + SeekPublications(old(playheadAnimateFrom), time) &&
      (video != null ==> video.currentTime == time && video.paused == old(video.paused)) &&
      playing == old(playing) && endTime == old(endTime) &&
      playStartTime == old(playStartTime) && pauseStartTime == old(pauseStartTime) &&
      playheadStartTime == old(playheadStartTime)
    }

    /** Only the playing flag, one timestamp and the element's paused flag changed. */
    twostate predicate SwitchedTo(nowPlaying: bool, now: real)
      reads this, video
    {
      video == old(video) &&
      playing == nowPlaying &&
      (if nowPlaying then playStartTime == Some(now) && pauseStartTime == old(pauseStartTime)
       else pauseStartTime == Some(now) && playStartTime == old(playStartTime)) &&
      (video != null ==> video.paused == !nowPlaying && video.currentTime == old(video.currentTime)) &&
      playheadAnimateFrom == old(playheadAnimateFrom) && playheadLog == old(playheadLog) &&
      endTime == old(endTime) && playheadStartTime == old(playheadStartTime)
    }

    /** Attach the element that mirrors the playhead. */
    method SetVideo(v: VideoElement)
      requires Valid()
      modifies this
      ensures Valid() && video == v
      ensures playing == old(playing) && endTime == old(endTime)
      ensures playheadAnimateFrom == old(playheadAnimateFrom) && playheadLog == old(playheadLog)
      ensures playStartTime == old(playStartTime) && pauseStartTime == old(pauseStartTime)
      ensures playheadStartTime == old(playheadStartTime)
    {
      video := v;
    }

    /** Seek to `time`; a missing time is ignored. */
    method SetPlayheadPosition(time: Option<real>)
      requires Valid()
      modifies this, video
      ensures Valid()
      ensures time.None? ==>
        video == old(video) && unchanged(this) && (video != null ==> unchanged(video))
      ensures time.Some? ==> Seeked(time.value)
    {
      if time.None? {
        return;
      }
      var t := time.value;
      if t == playheadAnimateFrom {
        // Force observers to see the update.
        playheadAnimateFrom := t - ReseekNudge;
        playheadLog := playheadLog + [playheadAnimateFrom];
      }
      playheadAnimateFrom := t;
      playheadLog := playheadLog + [playheadAnimateFrom];
      if video != null {
        video.currentTime := t;
      }
    }

    /** Start playing at timestamp `now`. */
    method Play(now: real)
      requires Valid()
      modifies this, video
      ensures Valid() && SwitchedTo(true, now)
    {
      playStartTime := Some(now);
      playing := true;
      if video != null {
        video.Play();
      }
    }

    /** Pause at timestamp `now`. */
    method Pause(now: real)
      requires Valid()
      modifies this, video
      ensures Valid() && SwitchedTo(false, now)
    {
      playing := false;
      pauseStartTime := Some(now);
      if video != null {
        video.Pause();
      }
    }

    /** Seek back to the beginning. */
    method Reset()
      requires Valid()
      modifies this, video
      ensures Valid() && Seeked(0.0)
    {
      SetPlayheadPosition(Some(0.0));
    }

    /** The end of the content was reached at timestamp `now`: loop or stop. */
    method PlaybackEnded(videoLoop: bool, now: real)
      requires Valid()
      modifies this, video
      ensures Valid()
      ensures videoLoop ==> Seeked(0.0)
      ensures !videoLoop ==> SwitchedTo(false, now)
    {
      if videoLoop {
        Reset();
      } else {
        Pause(now);
      }
    }

    /** Pause when playing, play otherwise, at timestamp `now`. */
    method Toggle(now: real)
      requires Valid()
      modifies this, video
      ensures Valid() && SwitchedTo(!old(IsPlaying()), now)
    {
      if IsPlaying() {
        Pause(now);
      } else {
        Play(now);
      }
    }
  }

  /** Seeking to the same time twice publishes the nudged value before the second seek's value. */
  method SeekTwice(c: VideoController, time: real)
    requires c.Valid()
    modifies c, c.video
    ensures c.Valid() && c.playheadAnimateFrom == time
    ensures c.playheadLog ==
      old(c.playheadLog) + SeekPublications(old(c.playheadAnimateFrom), time) + [time - ReseekNudge, time]
  {
    c.SetPlayheadPosition(Some(time));
    c.SetPlayheadPosition(Some(time));
  }
}
