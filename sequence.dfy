// The settings of a timeline sequence (class Sequence) as its unit tests
// pin them down: the defaults of a new sequence, the accept/reject rules of
// its setters, which change a field only when they accept the value, and
// what a copy keeps.  The frame rate, a double in the program, is a real
// here: the rule only asks whether it is positive.

module SequenceSettings {

  const DefaultWidth: int := 1920
  const DefaultHeight: int := 1080
  const DefaultFrameRate: real := 29.97
  const DefaultAudioFrequency: int := 48000
  const DefaultAudioLayout: int := 3

  const MaximumWidth: int := 4096
  const MaximumHeight: int := 2160
  const MaximumAudioFrequency: int := 192000

  /** A clip placed on the sequence, reduced to what the end frame and the
      track limits look at.  Negative tracks hold video, the others audio. */
  datatype TimelineClip = TimelineClip(track: int, timelineIn: int, timelineOut: int)

  /** A width the sequence accepts: positive, even and at most MaximumWidth. */
  predicate ValidWidth(w: int) {
    0 < w <= MaximumWidth && w % 2 == 0
  }

  /** A height the sequence accepts: positive, even and at most MaximumHeight. */
  predicate ValidHeight(h: int) {
    0 < h <= MaximumHeight && h % 2 == 0
  }

  /** A frame rate the sequence accepts: strictly positive. */
  predicate ValidFrameRate(r: real) {
    r > 0.0
  }

  /** An audio frequency the sequence accepts: 0 up to MaximumAudioFrequency. */
  predicate ValidAudioFrequency(f: int) {
    0 <= f <= MaximumAudioFrequency
  }

  /** The last frame any clip reaches, 0 for a sequence without clips. */
  function EndOf(clips: seq<TimelineClip>): (r: int)
    ensures r >= 0
    ensures forall i :: 0 <= i < |clips| ==> clips[i].timelineOut <= r
    ensures r == 0 || exists i :: 0 <= i < |clips| && clips[i].timelineOut == r
  {
    if clips == [] then 0
    else
      var before := EndOf(clips[..|clips| - 1]);
      var out := clips[|clips| - 1].timelineOut;
      if out > before then out else before
  }

  /** The lowest video track in use, 0 when no clip is on a video track. */
  function VideoLimitOf(clips: seq<TimelineClip>): (r: int)
    ensures r <= 0
    ensures forall i :: 0 <= i < |clips| && clips[i].track < 0 ==> r <= clips[i].track
    ensures r == 0 || exists i :: 0 <= i < |clips| && clips[i].track == r
  {
    if clips == [] then 0
    else
      var before := VideoLimitOf(clips[..|clips| - 1]);
      var track := clips[|clips| - 1].track;
      if track < 0 && track < before then track else before
  }

  /** The highest audio track in use, 0 when no clip is on an audio track. */
  function AudioLimitOf(clips: seq<TimelineClip>): (r: int)
    ensures r >= 0
    ensures forall i :: 0 <= i < |clips| && clips[i].track >= 0 ==> clips[i].track <= r
    ensures r == 0 || exists i :: 0 <= i < |clips| && clips[i].track == r
  {
    if clips == [] then 0
    else
      var before := AudioLimitOf(clips[..|clips| - 1]);
      var track := clips[|clips| - 1].track;
      if track >= 0 && track > before then track else before
  }

  /** The name a copy of a sequence called `name` gets. */
  function CopyName(name: string): (r: string)
    ensures |r| > |name| && r[..|name|] == name
  {
    name + " (copy)"
  }

  class Sequence {
    var name: string
    var width: int
    var height: int
    var frameRate: real
    var audioFrequency: int
    var audioLayout: int
    var clips: seq<TimelineClip>

    /** Every setting is one the setters would accept. */
    ghost predicate Valid()
      reads this
    {
      ValidWidth(width) && ValidHeight(height) && ValidFrameRate(frameRate) &&
      ValidAudioFrequency(audioFrequency)
    }

    /** Sequence::Sequence(media list, name): the default settings, no clips. */
    constructor (name: string)
      ensures this.name == name && clips == []
      ensures width == DefaultWidth && height == DefaultHeight
      ensures frameRate == DefaultFrameRate
      ensures audioFrequency == DefaultAudioFrequency && audioLayout == DefaultAudioLayout
      ensures Valid()
    {
      this.name := name;
      width := DefaultWidth;
      height := DefaultHeight;
      frameRate := DefaultFrameRate;
      audioFrequency := DefaultAudioFrequency;
      audioLayout := DefaultAudioLayout;
      clips := [];
    }

    /** Sequence::copy: a new sequence with the same settings and clips
        under a different name. */
    method Copy() returns (s: Sequence)
      ensures fresh(s)
      ensures s.name == CopyName(name) && s.name != name
      ensures s.width == width && s.height == height && s.frameRate == frameRate
      ensures s.audioFrequency == audioFrequency && s.audioLayout == audioLayout
      ensures s.clips == clips
      ensures Valid() ==> s.Valid()
    {
      s := new Sequence(CopyName(name));
      s.width := width;
      s.height := height;
      s.frameRate := frameRate;
      s.audioFrequency := audioFrequency;
      s.audioLayout := audioLayout;
      s.clips := clips;
    }

    /** Sequence::setWidth */
    method SetWidth(w: int) returns (ok: bool)
      modifies this
      ensures ok <==> ValidWidth(w)
      ensures width == if ok then w else old(width)
      ensures name == old(name) && height == old(height) && frameRate == old(frameRate)
      ensures audioFrequency == old(audioFrequency) && audioLayout == old(audioLayout)
      ensures clips == old(clips)
      ensures old(Valid()) ==> Valid()
    {
      ok := ValidWidth(w);
      if ok {
        width := w;
      }
    }

    /** Sequence::setHeight */
    method SetHeight(h: int) returns (ok: bool)
      modifies this
      ensures ok <==> ValidHeight(h)
      ensures height == if ok then h else old(height)
      ensures name == old(name) && width == old(width) && frameRate == old(frameRate)
      ensures audioFrequency == old(audioFrequency) && audioLayout == old(audioLayout)
      ensures clips == old(clips)
      ensures old(Valid()) ==> Valid()
    {
      ok := ValidHeight(h);
      if ok {
        height := h;
      }
    }

    /** Sequence::setFrameRate */
    method SetFrameRate(r: real) returns (ok: bool)
      modifies this
      ensures ok <==> ValidFrameRate(r)
      ensures frameRate == if ok then r else old(frameRate)
      ensures name == old(name) && width == old(width) && height == old(height)
      ensures audioFrequency == old(audioFrequency) && audioLayout == old(audioLayout)
      ensures clips == old(clips)
      ensures old(Valid()) ==> Valid()
    {
      ok := ValidFrameRate(r);
      if ok {
        frameRate := r;
      }
    }

    /** Sequence::setAudioFrequency */
    method SetAudioFrequency(f: int) returns (ok: bool)
      modifies this
      ensures ok <==> ValidAudioFrequency(f)
      ensures audioFrequency == if ok then f else old(audioFrequency)
      ensures name == old(name) && width == old(width) && height == old(height)
      ensures frameRate == old(frameRate) && audioLayout == old(audioLayout)
      ensures clips == old(clips)
      ensures old(Valid()) ==> Valid()
    {
      ok := ValidAudioFrequency(f);
      if ok {
        audioFrequency := f;
      }
    }

    /** Sequence::getEndFrame: the furthest timeline out point of any clip. */
    method GetEndFrame() returns (end: int)
      ensures end == EndOf(clips)
      ensures end >= 0 && forall i :: 0 <= i < |clips| ==> clips[i].timelineOut <= end
    {
      end := 0;
      for i := 0 to |clips|
        invariant end == EndOf(clips[..i])
      {
        assert clips[..i + 1][..i] == clips[..i];
        if clips[i].timelineOut > end {
          end := clips[i].timelineOut;
        }
      }
      assert clips[..|clips|] == clips;
    }

    /** Sequence::getTrackLimits: the lowest video track and the highest
        audio track in use. */
    method GetTrackLimits() returns (videoLimit: int, audioLimit: int)
      ensures videoLimit == VideoLimitOf(clips) && audioLimit == AudioLimitOf(clips)
      ensures videoLimit <= 0 <= audioLimit
    {
      videoLimit, audioLimit := 0, 0;
      for i := 0 to |clips|
        invariant videoLimit == VideoLimitOf(clips[..i]) && audioLimit == AudioLimitOf(clips[..i])
      {
        assert clips[..i + 1][..i] == clips[..i];
        var track := clips[i].track;
        if track < 0 && track < videoLimit {
          videoLimit := track;
        }
        if track >= 0 && track > audioLimit {
          audioLimit := track;
        }
      }
      assert clips[..|clips|] == clips;
    }
  }

  /** Adding a clip moves the end frame to its out point when that lies
      further, and otherwise leaves it. */
  lemma {:induction false} EndOfAppend(clips: seq<TimelineClip>, c: TimelineClip)
    ensures EndOf(clips + [c]) == if c.timelineOut > EndOf(clips) then c.timelineOut else EndOf(clips)
  {
    assert (clips + [c])[..|clips|] == clips;
  }
}
