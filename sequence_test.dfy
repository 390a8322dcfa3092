// The unit tests of class Sequence, each as a method whose postcondition is
// the outcome the test expects.  A data-driven test runs once per row of
// its table on a freshly built sequence and returns the setter's answer
// for every row.

module SequenceTest {
  import opened SequenceSettings

  /** SequenceTest::testCaseDefaults: every default setting of a sequence
      built with a name. */
  method TestCaseDefaults() returns (passed: bool)
    ensures passed
  {
    var sequenceName := "Default";
    var sqn := new Sequence(sequenceName);
    var endFrame := sqn.GetEndFrame();
    var videoLimit, audioLimit := sqn.GetTrackLimits();
    passed := sqn.name == sequenceName && sqn.audioFrequency == 48000 && sqn.audioLayout == 3 &&
      sqn.frameRate == 29.97 && sqn.height == 1080 && sqn.width == 1920 && |sqn.clips| == 0 &&
      endFrame == 0 && videoLimit == 0 && audioLimit == 0;
  }

  /** SequenceTest::testCaseCopy: the copy keeps the settings and the clip
      count but not the name. */
  method TestCaseCopy() returns (passed: bool)
    ensures passed
  {
    var sqnOrigin := new Sequence("");
    var sqnCopy := sqnOrigin.Copy();
    var originEnd := sqnOrigin.GetEndFrame();
    var copyEnd := sqnCopy.GetEndFrame();
    passed := sqnOrigin.audioFrequency == sqnCopy.audioFrequency &&
      sqnOrigin.audioLayout == sqnCopy.audioLayout && originEnd == copyEnd &&
      sqnOrigin.frameRate == sqnCopy.frameRate && sqnOrigin.height == sqnCopy.height &&
      sqnOrigin.name != sqnCopy.name && sqnOrigin.width == sqnCopy.width &&
      |sqnOrigin.clips| == |sqnCopy.clips|;
  }

  /** testCaseSetWidths_data: negative, odd, even, too large, maximum. */
  const WidthRows: seq<int> := [-1, 121, 1920, 4098, 4096]

  /** SequenceTest::testCaseSetWidths over its table. */
  method TestCaseSetWidths() returns (results: seq<bool>)
    ensures results == [false, false, true, false, true]
  {
    results := [];
    for i := 0 to |WidthRows|
      invariant |results| == i
      invariant forall k :: 0 <= k < i ==> results[k] == ValidWidth(WidthRows[k])
    {
      var sqn := new Sequence("");
      var ok := sqn.SetWidth(WidthRows[i]);
      results := results + [ok];
    }
  }

  /** testCaseSetHeights_data: negative, odd, even, too large, maximum. */
  const HeightRows: seq<int> := [-1, 121, 1920, 2162, 2160]

  /** SequenceTest::testCaseSetHeights over its table. */
  method TestCaseSetHeights() returns (results: seq<bool>)
    ensures results == [false, false, true, false, true]
  {
    results := [];
    for i := 0 to |HeightRows|
      invariant |results| == i
      invariant forall k :: 0 <= k < i ==> results[k] == ValidHeight(HeightRows[k])
    {
      var sqn := new Sequence("");
      var ok := sqn.SetHeight(HeightRows[i]);
      results := results + [ok];
    }
  }

  /** testCaseSetFrameRate_data: negative zero, negative, zero, positive,
      massively positive.  Negative zero and zero are the same real. */
  const FrameRateRows: seq<real> := [-0.0, -1.0, 0.0, 60.0, 1000000.0]

  /** SequenceTest::testCaseSetFrameRate over its table. */
  method TestCaseSetFrameRate() returns (results: seq<bool>)
    ensures results == [false, false, false, true, true]
  {
    results := [];
    for i := 0 to |FrameRateRows|
      invariant |results| == i
      invariant forall k :: 0 <= k < i ==> results[k] == ValidFrameRate(FrameRateRows[k])
    {
      var sqn := new Sequence("");
      var ok := sqn.SetFrameRate(FrameRateRows[i]);
      results := results + [ok];
    }
  }

  /** testCaseSetFrequency_data: negative, zero, typical, maximum, massive. */
  const FrequencyRows: seq<int> := [-1, 0, 48000, 192000, 1000000]

  /** SequenceTest::testCaseSetFrequency over its table. */
  method TestCaseSetFrequency() returns (results: seq<bool>)
    ensures results == [false, true, true, true, false]
  {
    results := [];
    for i := 0 to |FrequencyRows|
      invariant |results| == i
      invariant forall k :: 0 <= k < i ==> results[k] == ValidAudioFrequency(FrequencyRows[k])
    {
      var sqn := new Sequence("");
      var ok := sqn.SetAudioFrequency(FrequencyRows[i]);
      results := results + [ok];
    }
  }
}
