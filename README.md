# Olive project panel bookkeeping, sequence settings and effect gizmos

This project models, in Dafny, the UI-independent bookkeeping of the Olive
video editor's project panel (`app/panels/project.cpp`), the settings
validator of a timeline `Sequence` as its unit tests pin it down, and the
`EffectGizmo` class. Each piece is stated against a specification and
proved.

- **Sequence naming** (`SequenceNaming`). `get_next_sequence_name` proposes
  "Sequence 01", "Sequence 02", ... or the same labels with a stem the caller
  gives. It returns the first label that no top-level item carries, compared
  without regard to case. The loop always ends, after at most one more round
  than there are top-level items.
- **Recent projects** (`RecentProjects`). `add_recent_project` moves a listed
  url to the front. Otherwise it inserts the url there and drops the oldest
  entry when the list would exceed ten.
- **Media tree collectors** (`MediaTree`, `MediaCollect`).
  `get_all_media_from_table` and `list_all_sequences_worker` walk the tree
  depth first and append to a list the caller passes in. They are proved
  equal to a filter over one reference depth-first walk.
- **Clipboard clean-up** (`ClipboardCleanup`).
  `delete_clips_in_clipboard_with_media` queues one removal per clip that
  uses a media item. Each index is shifted down by the removals queued
  before it. Running the queued removals leaves exactly the other clips.
- **Parent pruning** (`ParentPruning`). The `removeAt`/`l--` loop of
  `delete_selected_media` removes every recorded parent from the deletion
  list, duplicates included, and nothing else.
- **Image-sequence detection** (`ImageSequence`, `QtText`). `process_file_list`
  finds the run of digits just before a recognised image extension. It looks
  for the frames numbered one below and one above, builds the FFmpeg
  template (`img0012.png` becomes `img%04d.png`) and asks the user once per
  template.
- **Throbber** (`Throbber`). `MediaThrobber::animation_update` cycles
  through the 20 frames of the throbber strip. Every crop lies inside the
  strip.
- **Sequence settings** (`SequenceSettings`, `SequenceTest`). These are the
  defaults, the setters that return whether they accepted a value and
  change it only then, the copy, the end frame and the track limits. Each
  unit test is a method whose postcondition is the outcome the test
  expects.
- **Effect gizmo** (`Gizmo`). A polygon gizmo has four points and every
  other type has one. The world and screen point lists agree in length. The
  cursor starts at -1, and setting it changes nothing else.

The identity of items (`shared_ptr` equality) is modelled as equality of
`MediaRef` values, which are `Null` or `Ref(id)`. A Qt vector passed by
reference is an input sequence plus the returned new value. Checking
whether a file exists and the user's Yes/No answer are parameters.

## Model

| member | source | states |
|---|---|---|
| QtText.Decimal | app/panels/project.cpp:245 | QString::number of a non-negative number is a non-empty digit string, one character long exactly when the number is below 10, and starting with '0' only for 0 itself |
| QtText.ValueOfDecimal | app/panels/project.cpp:245 | the decimal spelling of n reads back as n |
| QtText.ZeroPad | app/panels/project.cpp:708-715 | arg(n, width, 10, '0') for n >= 0 is a digit string exactly as long as the wider of width and the decimal spelling: it pads and never truncates |
| QtText.ZeroPadValue | app/panels/project.cpp:708-709 | arg(n, width, 10, '0') is at least width characters long and reads back as n |
| QtText.ZeroPadOfValue | app/panels/project.cpp:705-709 | a digit run's value, padded to the run's own length, gives the run back, leading zeros included |
| QtText.ValueIgnoresLeadingZeros | app/panels/project.cpp:705 | leading zeros do not change the number a digit run spells |
| QtText.ToInt | app/panels/project.cpp:705 | toInt of a digit run is its value when that fits in an int and 0 otherwise, never above INT_MAX |
| QtText.Arg | app/panels/project.cpp:708-709 | arg(n, width, 10, '0') is at least width long; for n >= 0 it is a digit string spelling n, for n < 0 a '-' followed by a digit string spelling -n |
| QtText.EqualsIgnoringCase | app/panels/project.cpp:248 | names that match ignoring case have equal length, and names of equal length whose letters agree once folded match |
| QtText.EqualsIgnoringCaseAt | app/panels/project.cpp:248 | names equal without regard to case have equal length and agree position by position once folded |
| QtText.LastIndexOf | app/panels/project.cpp:678 | lastIndexOf gives -1 or a position of the string holding the character |
| QtText.LastIndexOfNoneAfter | app/panels/project.cpp:678 | no position after the one lastIndexOf gives holds the character |
| QtText.LastIndexOfUnique | app/panels/project.cpp:678 | that position is unique: the one with no occurrence after it is the answer |
| SequenceNaming.Stem | app/panels/project.cpp:231-233 | an empty start becomes "Sequence", any other is kept, and the stem is never empty |
| SequenceNaming.Counter | app/panels/project.cpp:240-245 | the counter part of a label is all digits and at least two long |
| SequenceNaming.CounterValue | app/panels/project.cpp:240-245 | the counter of label n spells n, so "0" + number keeps the number |
| SequenceNaming.LabelsDistinct | app/panels/project.cpp:238-252 | no name matches two different labels ignoring case, so one top-level item blocks at most one label |
| SequenceNaming.FindName | app/panels/project.cpp:246-252 | the inner scan finds a top-level item whose name equals the label ignoring case, and returns -1 exactly when there is none |
| SequenceNaming.NextSequenceName | app/panels/project.cpp:229-254 | the loop ends and returns the label with the smallest n >= 1 that no top-level item carries ignoring case; that n is at most one more than the number of items |
| SequenceNaming.NextNameUnique | app/panels/project.cpp:229-254 | the specification of the chosen name admits exactly one name |
| RecentProjects.FirstIndex | app/panels/project.cpp:1204-1210 | the scan stops at the first position holding the url |
| RecentProjects.FirstIndexUnique | app/panels/project.cpp:1204-1210 | a position holding the url with no earlier occurrence is the one the scan stops at |
| RecentProjects.MoveToFront | app/panels/project.cpp:1207 | move(i, 0) keeps the length and the multiset of entries and puts entry i in front |
| RecentProjects.Promoted | app/panels/project.cpp:1202-1216 | the url heads the new list, the list grows by at most one, and no entry other than the url enters it |
| RecentProjects.RecentProjectList.AddRecentProject | app/panels/project.cpp:1202-1218 | the new list is the old one with the url moved to the front, or inserted there and cut back to MAXIMUM_RECENT_PROJECTS |
| RecentProjects.PromotedFront | app/panels/project.cpp:1202-1216 | the url just opened heads the list |
| RecentProjects.PromotedPresent | app/panels/project.cpp:1204-1209 | reopening a listed url keeps the length and the multiset of entries |
| RecentProjects.PromotedKeepsOrder | app/panels/project.cpp:1207 | apart from the url moved, the entries keep their order |
| RecentProjects.PromotedAbsent | app/panels/project.cpp:1211-1216 | a new url goes in front of the old entries, the last of which is dropped only past the maximum; the url occurs once |
| RecentProjects.PromotedBounded | app/panels/project.cpp:1211-1216 | a list within the maximum of 10 stays within it |
| RecentProjects.PromotedNoDuplicates | app/panels/project.cpp:1202-1216 | a list without duplicates keeps having none |
| MediaCollect.CollectedIsKeptWalk | app/panels/project.cpp:419-432 | what get_all_media_from_table appends is the depth-first walk filtered by type, in walk order |
| MediaCollect.CollectedFromIsKeptWalk | app/panels/project.cpp:421-430 | for one item: a folder contributes its filtered contents, any other item itself when its type is wanted |
| MediaCollect.CollectedMembers | app/panels/project.cpp:419-432 | an item is collected iff the walk reaches it, it is no folder and its type is the one searched for, or any for NONE |
| MediaCollect.SequencesAreCollected | app/panels/project.cpp:1246-1267 | list_all_sequences_worker appends exactly what get_all_media_from_table appends when searching for SEQUENCE |
| MediaCollect.SequencesFromAreCollected | app/panels/project.cpp:1249-1262 | per item: a sequence is taken, a folder is entered, footage and untyped items are skipped |
| MediaCollect.GetAllMediaFromTable | app/panels/project.cpp:419-432 | the list grows by exactly the collected items, appended after what it held |
| MediaCollect.ListAllSequencesWorker | app/panels/project.cpp:1246-1267 | the list grows by exactly the sequences of the subtree, in depth-first order |
| MediaCollect.ListAllProjectSequences | app/panels/project.cpp:1270-1274 | the result is the depth-first walk from the top level filtered to SEQUENCE items, in walk order; so it holds exactly the sequences reachable from the top level |
| ClipboardCleanup.KeptLength | app/panels/project.cpp:443-455 | the kept clips and the clips using the media add up to the clipboard |
| ClipboardCleanup.KeptMembers | app/panels/project.cpp:443-455 | a clip survives exactly when it was on the clipboard and does not use the media |
| ClipboardCleanup.UsesPositive | app/panels/project.cpp:454 | the use count is positive exactly when some clip uses the media |
| ClipboardCleanup.DeleteClipsInClipboardWithMedia | app/panels/project.cpp:443-455 | with a clip clipboard the queued indices, run in order, remove exactly the clips using the media, one per use; with an effects clipboard nothing is queued; the result is true exactly when some clip uses the media |
| ClipboardCleanup.ScanStep | app/panels/project.cpp:446-452 | queuing i - delete_count for a match keeps the queued removals equal to "matches so far removed" |
| ClipboardCleanup.RemovalsFit | app/panels/project.cpp:449 | removals that all apply shrink the clipboard by one each, and the k-th index lies below the size at that point |
| ClipboardCleanup.RemovalsOnlyRemove | app/panels/project.cpp:449 | running queued RemoveClipsFromClipboard actions (ApplyRemovals) only takes clips away: the result's multiset is within the clipboard's |
| ParentPruning.DropNotParents | app/panels/project.cpp:563-569 | removing one more parent from the filtered list is the filter for the longer parent list |
| ParentPruning.NotParentsNull | app/panels/project.cpp:564 | a null entry among the parents removes nothing |
| ParentPruning.PrunedIsNotParents | app/panels/project.cpp:561-570 | handling the parents one after another equals one filtering pass over the items |
| ParentPruning.NotParentsMembers | app/panels/project.cpp:561-570 | an item stays iff it is not a non-null parent, duplicates included |
| ParentPruning.DropParent | app/panels/project.cpp:563-569 | removeAt(l) followed by l-- removes every occurrence of the parent and keeps the rest in order |
| ParentPruning.PruneParents | app/panels/project.cpp:561-570 | after the loop the items are exactly the old items that are not a non-null parent, in order |
| ImageSequence.RunStart | app/panels/project.cpp:697-704 | the digit run ending before a position starts after a non-digit or at the start of the name |
| ImageSequence.FileSuffix | app/panels/project.cpp:391-394 | the suffix holds neither '.' nor '/' |
| ImageSequence.SuffixAfterDot | app/panels/project.cpp:391-394 | when the last '.' follows the last '/', QFileInfo::suffix is what follows that '.' |
| ImageSequence.AnalyseSplits | app/panels/project.cpp:678-704 | Analyse, soundness: a numbered name is a prefix not ending in a digit, a non-empty digit run, and either nothing or a '.' followed by a recognised image format holding no '/' and no further '.' |
| ImageSequence.AnalyseComplete | app/panels/project.cpp:678-704 | Analyse, completeness: a prefix not ending in a digit, a non-empty digit run, '.' and a recognised format without '.' or '/' is split into exactly those pieces |
| ImageSequence.AnalyseCompleteBare | app/panels/project.cpp:678-704 | Analyse, completeness without an extension: such a prefix and digit run, with no '.' after the last '/', is numbered up to the end of the name |
| ImageSequence.AnalyseNoExtension | app/panels/project.cpp:680-686 | a numbered name with no '.' after its last '/' has an empty rest: lastcharindex is the length of the name |
| ImageSequence.FrameNameOfOwnNumber | app/panels/project.cpp:705-709 | the frame name built from the file's own number is the file itself, when the number fits in an int |
| ImageSequence.FrameNameKeepsEnds | app/panels/project.cpp:708-709 | FrameName: a neighbour's name keeps the file's prefix and extension, and its number field is at least as wide as the file's own |
| ImageSequence.NeighboursAreOtherFiles | app/panels/project.cpp:708-709 | the frames numbered one lower and one higher are other names than the file |
| ImageSequence.Template | app/panels/project.cpp:715 | the template keeps the prefix and the extension, with a field starting with '%' and ending with 'd' between them |
| ImageSequence.TemplateWidth | app/panels/project.cpp:715 | the template writes the digit count on at least two digits and that count reads back |
| ImageSequence.AnalyseExample | app/panels/project.cpp:678-705 | img0012.png with png recognised splits into img, 0012 and .png |
| ImageSequence.TemplateExample | app/panels/project.cpp:715 | the template of img, 0012, .png is img%04d.png |
| ImageSequence.FindNumberEnd | app/panels/project.cpp:678-692 | the name is numbered exactly when the extension check passes and the character before lastcharindex is a digit, and lastcharindex ends the digit run |
| ImageSequence.ScanAsWritten | app/panels/project.cpp:696-701 | the unbounded scan either stops at a non-digit at or below its start with only digits after it, or reads before the name, which happens only when every character up to the start is a digit |
| ImageSequence.ScanAsWrittenOverruns | app/panels/project.cpp:696-701 | the scan as written stops just before the run unless the run begins the name, in which case it reads before the first character |
| ImageSequence.ScanAsWrittenCounterexample | app/panels/project.cpp:696-701 | 0012.png is a well-formed frame, yet the scan as written reads before its first character |
| ImageSequence.ScanDigitRun | app/panels/project.cpp:696-704 | the bounded scan returns the first digit of the run and the count of its digits |
| ImageSequence.DetectFrame | app/panels/project.cpp:705-712 | a numbered file is a frame of a sequence exactly when the frame numbered one lower or one higher exists, and then the url is its template |
| ImageSequence.Detect | app/panels/project.cpp:678-712 | only a numbered name is taken for a sequence, and the url is then the template of its split |
| ImageSequence.DetectImageSequence | app/panels/project.cpp:678-715 | a file is taken for a sequence exactly when it is numbered and the frame before or after exists, and the url is its template |
| ImageSequence.ImportSession.LookUp | app/panels/project.cpp:719-729 | the scan of image_sequence_urls finds the template's position, -1 exactly when it is absent |
| ImageSequence.OnlyMatch | app/panels/project.cpp:720-729 | with templates recorded once, the answer at the match found is the answer for that template |
| ImageSequence.AppendNew | app/panels/project.cpp:730-731 | appending a template not yet recorded keeps the templates free of duplicates |
| ImageSequence.ImportSession.ConsiderFile | app/panels/project.cpp:676-743 | a single file is imported as is; a template met before is skipped iff it was imported as a sequence; a new template is recorded with the answer, and the file is imported through the template iff the answer is yes |
| Throbber.Shown | app/panels/project.cpp:1304-1307 | the frame shown for a counter in 0..20 is one of the 20 frames, the counter itself below 20 |
| Throbber.Tick | app/panels/project.cpp:1304-1308 | a tick from a counter in 0..20 leaves it in 1..20 |
| Throbber.AfterTicksCycles | app/panels/project.cpp:1303-1309 | after k ticks from a new throbber the counter is (k-1) mod 20 + 1 |
| Throbber.ShownAtCycles | app/panels/project.cpp:1303-1309 | the k-th tick shows frame (k-1) mod 20, always one of the 20 frames |
| Throbber.CropInStrip | app/panels/project.cpp:1307 | every crop lies inside the strip of THROBBER_LIMIT frames of THROBBER_SIZE pixels |
| Throbber.MediaThrobber.constructor | app/panels/project.cpp:1285-1293 | a new throbber starts at frame 0 |
| Throbber.MediaThrobber.AnimationUpdate | app/panels/project.cpp:1303-1309 | the crop is frame animation, or frame 0 after the last, and the counter moves on by one, staying within 0..20 |
| SequenceSettings.EndOf | app/project/UnitTest/sequencetest.cpp:22 | the end frame is 0 or the out point of some clip, and no clip ends after it |
| SequenceSettings.VideoLimitOf | app/project/UnitTest/sequencetest.cpp:23-27 | the video limit is 0 or the track of some clip, and no video clip lies below it |
| SequenceSettings.AudioLimitOf | app/project/UnitTest/sequencetest.cpp:23-27 | the audio limit is 0 or the track of some clip, and no audio clip lies above it |
| SequenceSettings.CopyName | app/project/UnitTest/sequencetest.cpp:39 | the copy's name is longer than the original's and starts with it |
| SequenceSettings.EndOfAppend | app/project/UnitTest/sequencetest.cpp:22 | adding a clip moves the end frame to its out point exactly when that lies further |
| SequenceSettings.Sequence.constructor | app/project/UnitTest/sequencetest.cpp:9-28 | a new sequence has the name given, 48000 Hz, layout 3, 29.97 fps, 1920x1080 and no clips |
| SequenceSettings.Sequence.Copy | app/project/UnitTest/sequencetest.cpp:30-42 | the copy is a new object with every setting and the clips of the original under a different name |
| SequenceSettings.Sequence.SetWidth | app/project/UnitTest/sequencetest.cpp:44-61 | accepts exactly even widths in 1..4096, and changes the width, and nothing else, only then |
| SequenceSettings.Sequence.SetHeight | app/project/UnitTest/sequencetest.cpp:64-81 | accepts exactly even heights in 1..2160, and changes the height, and nothing else, only then |
| SequenceSettings.Sequence.SetFrameRate | app/project/UnitTest/sequencetest.cpp:84-102 | accepts exactly positive rates, and changes the rate, and nothing else, only then |
| SequenceSettings.Sequence.SetAudioFrequency | app/project/UnitTest/sequencetest.cpp:105-123 | accepts exactly 0..192000 Hz, and changes the frequency, and nothing else, only then |
| SequenceSettings.Sequence.GetEndFrame | app/project/UnitTest/sequencetest.cpp:22 | the loop returns the end frame: non-negative and no clip ends after it |
| SequenceSettings.Sequence.GetTrackLimits | app/project/UnitTest/sequencetest.cpp:23-27 | the loop returns the lowest video track and the highest audio track, 0 when there is none |
| SequenceTest.TestCaseDefaults | app/project/UnitTest/sequencetest.cpp:9-28 | every QVERIFY of the defaults test holds |
| SequenceTest.TestCaseCopy | app/project/UnitTest/sequencetest.cpp:30-42 | every QVERIFY of the copy test holds |
| SequenceTest.TestCaseSetWidths | app/project/UnitTest/sequencetest.cpp:44-61 | -1, 121, 1920, 4098, 4096 give false, false, true, false, true |
| SequenceTest.TestCaseSetHeights | app/project/UnitTest/sequencetest.cpp:64-81 | -1, 121, 1920, 2162, 2160 give false, false, true, false, true |
| SequenceTest.TestCaseSetFrameRate | app/project/UnitTest/sequencetest.cpp:84-102 | -0.0, -1.0, 0.0, 60.0, 1000000.0 give false, false, false, true, true |
| SequenceTest.TestCaseSetFrequency | app/project/UnitTest/sequencetest.cpp:105-123 | -1, 0, 48000, 192000, 1000000 give false, true, true, true, false |
| Gizmo.PointCount | app/project/effectgizmo.cpp:27 | a gizmo has at least one point, and more than one exactly when it is a polygon, which has four |
| Gizmo.Origins | app/project/effectgizmo.cpp:28-29 | resizing an empty vector gives that many points at the origin |
| Gizmo.EffectGizmo.constructor | app/project/effectgizmo.cpp:22-32 | a new gizmo has the type given, cursor -1, white colour, and world and screen lists of the type's point count |
| Gizmo.EffectGizmo.GetPointCount | app/project/effectgizmo.cpp:42-44 | the count is the length of both point lists and the one the type calls for |
| Gizmo.EffectGizmo.GetType | app/project/effectgizmo.cpp:46-48 | returns the type the gizmo was built with |
| Gizmo.EffectGizmo.GetCursor | app/project/effectgizmo.cpp:50-52 | returns the cursor |
| Gizmo.EffectGizmo.SetCursor | app/project/effectgizmo.cpp:54-56 | the cursor takes the value and nothing else changes |
| Gizmo.NewGizmoReports | app/project/effectgizmo.cpp:22-48 | a new gizmo reports its type, the type's point count, four exactly for a polygon, and cursor -1 |
| Gizmo.SetThenGetCursor | app/project/effectgizmo.cpp:50-56 | set_cursor(v) followed by get_cursor() gives v, and the point count stays |

## Left out

- The file-system and dialog side of `process_file_list` is left out: the folder branch, the creation of footage items and the undo commands after line 743. `QFileInfo::exists` is the `fileExists` parameter and the Yes/No question is the `answerYes` parameter.
- IsDigit: `QChar::isDigit` also accepts non-ASCII decimal digits. The model accepts '0'..'9' only, and the case folding of `Qt::CaseInsensitive` is ASCII-only too.
- Arg: for a negative number with a '0' fill, the model puts the sign before the zero padding ("-001" for -1 on four places). This is Qt's locale-aware spelling. It only matters for the frame before frame 0.
- DetectFrame: `file_number + 1` is not wrapped at INT_MAX; the model adds without overflow. `toInt` failing to 0 above INT_MAX is modelled.
- `save_recent_projects` (writing the list to disk) is left out of `add_recent_project`.
- SequenceNaming.Stem: the default stem is the untranslated "Sequence". The source passes it through `tr()`, so a translated build starts from another word; run-time translation is not modelled.
- `MediaThrobber::start`/`stop`, the QTimer with THROBBER_INTERVAL, the pixmap and `set_icon` are left out. `AnimationUpdate` returns the crop rectangle instead of painting it.
- `start_preview_generator` and the threads behind it are left out.
- The null-child branch of `list_all_sequences_worker` is left out: the tree datatype holds no null children. The warning printed for an untyped item is left out; the item is skipped as in the source.
- The cast of each entry to `Clip` in `delete_clips_in_clipboard_with_media` is left out: the clipboard holds clips when its type says so. The queued `RemoveClipsFromClipboard` actions are the returned index list, and `ApplyRemovals` runs them.
- Only the pruning loop of `delete_selected_media` is modelled. The dialogs, the collection of parents and the undo commands around it are left out.
- The off-by-one guard of `getImportedMedia` (app/panels/project.cpp:1229 admits `index == size`) is not modelled.
- `reveal_media`, `update_view_type`, `go_up_dir` and the commented-out XML serialiser only touch widgets or are inactive, so they are left out.
- sequence.cpp is not part of this model. The `Sequence` rules are the ones its unit tests pin down. Where the tests leave a boundary open, the model chooses: 0 and odd values are rejected for width and height, and the copy is named "<name> (copy)". The end frame is the furthest clip out point. The track limits are the lowest negative (video) and highest non-negative (audio) track.
- The frame rate is a real rather than a double, so -0.0 and 0.0 are the same value, and `qFuzzyCompare` becomes equality.
- The media list the `Sequence` constructor receives is left out. The sequence built without arguments is modelled as one with an empty name.
- `EffectGizmo::set_previous_value` dereferences UI slider fields and is left out. The slider fields and the colour beyond "white" are left out too.
- app/project/media.h contributes only the shape of the tree. The bodies of its methods are not part of this model.
- app/database.cpp (SQLite calls), app/ui/colorscopewidget.cpp (painting), app/panels/grapheditor.cpp (widget wiring), app/ui/viewerwidget.h, app/playback/audio.h and the dialog and audio-effect headers hold no logic in the scope of this model.

## Findings

| source | as written | input that shows it | evidently intended | confidence | as-written member | corrected member |
|---|---|---|---|---|---|---|
| app/panels/project.cpp:696-701 | `while (fileName[digit_test].isDigit())` decrements `digit_test` with no lower bound | "0012.png" with png recognised: the whole name before the extension is digits, so the scan reads `fileName[-1]` | stop at the start of the name (`digit_test >= 0 &&` in the condition) | not executed; high that the read is out of range, its effect depends on the Qt build | ImageSequence.ScanAsWrittenCounterexample | ImageSequence.ScanDigitRun |
