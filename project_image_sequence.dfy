// The image-sequence heuristic of Project::process_file_list.  A file whose
// name ends, just before a recognised image extension, in a run of digits
// ("img0012.png") may be one frame of a numbered sequence; when a file with
// the number one lower or one higher exists, the user is offered to import
// the whole sequence through the template FFmpeg reads ("img%04d.png").
// Each template is asked about once per import, and the answer is reused
// for the other frames of the same sequence.

module ImageSequence {
  import opened QtText

  /** QFileInfo::suffix: what follows the last '.' of the file name (the
      part after the last '/'), or nothing when the name has no '.'. */
  function FileSuffix(path: string): (r: string)
    ensures '.' !in r && '/' !in r
  {
    var slash := LastIndexOf(path, '/');
    var name := path[slash + 1..];
    var dot := LastIndexOf(name, '.');
    if dot == -1 then "" else
      SuffixFree(path, slash, name, dot);
      name[dot + 1..]
  }

  /** What follows a '.' of the name after the last '/', when no later '.'
      follows, is the tail of the path and holds neither '.' nor '/'. */
  lemma SuffixFree(path: string, slash: int, name: string, dot: int)
    requires slash == LastIndexOf(path, '/') && name == path[slash + 1..]
    requires dot == LastIndexOf(name, '.') && dot != -1
    ensures var r := name[dot + 1..];
      |r| <= |path| && r == path[|path| - |r|..] && '.' !in r && '/' !in r
  {
    LastIndexOfNoneAfter(path, '/');
    LastIndexOfNoneAfter(name, '.');
    forall j | slash + dot + 2 <= j < |path| ensures path[j] != '.' {
      assert path[j] == name[j - slash - 1];
    }
    NoneFrom(path, '.', slash + dot + 2);
    NoneFrom(path, '/', slash + dot + 2);
  }

  /** A piece put between two others leaves them at both ends, and its own
      ends next to them. */
  lemma Ends(p: string, a: string, q: string)
    ensures (p + a + q)[..|p|] == p && (p + a + q)[|p + a + q| - |q|..] == q
    ensures a != [] ==> (p + a + q)[|p|] == a[0] && (p + a + q)[|p + a + q| - |q| - 1] == a[|a| - 1]
  {
  }

  /** The digits of `s` from `from` up to, not including, `end`. */
  predicate DigitsBetween(s: string, from: nat, end: nat)
    requires from <= end <= |s|
  {
    forall i :: from <= i < end ==> IsDigit(s[i])
  }

  /** Where the run of digits that ends just before position `end` begins
      (`end` itself when s[end - 1] is no digit). */
  function RunStart(s: string, end: nat): (r: nat)
    requires end <= |s|
    ensures r <= end && DigitsBetween(s, r, end)
    ensures r == 0 || !IsDigit(s[r - 1])
  {
    if end > 0 && IsDigit(s[end - 1]) then RunStart(s, end - 1) else end
  }

  /** How a file name splits around its frame number. */
  datatype Numbering =
    | NotNumbered
    | Numbered(prefix: string, digits: string, rest: string)

  /** The extension is looked at only when the last '.' comes after the last
      '/'; a name without one is numbered at its very end. */
  function Analyse(fileName: string, formats: seq<string>): Numbering {
    var dot := LastIndexOf(fileName, '.');
    var hasExtension := dot != -1 && dot > LastIndexOf(fileName, '/');
    if hasExtension && FileSuffix(fileName) !in formats then NotNumbered
    else
      var end := if hasExtension then dot else |fileName|;
      var start := RunStart(fileName, end);
      if start == end then NotNumbered
      else Numbered(fileName[..start], fileName[start..end], fileName[end..])
  }

  /** The name of the frame numbered `n`, padded like the file's own number. */
  function FrameName(n: Numbering, frame: int): string
    requires n.Numbered?
  {
    n.prefix + Arg(frame, |n.digits|) + n.rest
  }

  /** A frame name keeps the file's prefix and extension, and its number
      field is at least as wide as the file's own. */
  lemma FrameNameKeepsEnds(n: Numbering, frame: int)
    requires n.Numbered?
    ensures var r := FrameName(n, frame);
      |r| >= |n.prefix| + |n.digits| + |n.rest|
      && r[..|n.prefix|] == n.prefix && r[|r| - |n.rest|..] == n.rest
  {
    Ends(n.prefix, Arg(frame, |n.digits|), n.rest);
  }

  /** The url FFmpeg reads the whole sequence from: the digits replaced by
      "%" + their count on two digits + "d". */
  function Template(n: Numbering): (r: string)
    requires n.Numbered?
    ensures |r| >= |n.prefix| + |n.rest| + 4
    ensures r[..|n.prefix|] == n.prefix && r[|n.prefix|] == '%'
    ensures r[|r| - |n.rest|..] == n.rest && r[|r| - |n.rest| - 1] == 'd'
  {
    var field := "%" + Arg(|n.digits|, 2) + "d";
    Ends(n.prefix, field, n.rest);
    n.prefix + field + n.rest
  }

  /** The frame number of the file: QString::toInt of its digits. */
  function FileNumber(n: Numbering): int
    requires n.Numbered? && AllDigits(n.digits)
  {
    ToInt(n.digits)
  }

  /** What the heuristic makes of a file, given which files exist. */
  datatype Detection = Single | SequenceOf(template: string)

  function Detect(fileName: string, formats: seq<string>, fileExists: string -> bool): (r: Detection)
    ensures r.SequenceOf? ==> Analyse(fileName, formats).Numbered?
    ensures r.SequenceOf? ==> r.template == Template(Analyse(fileName, formats))
  {
    var n := Analyse(fileName, formats);
    if n.NotNumbered? then Single
    else
      AnalyseSplits(fileName, formats);
      DetectFrame(n, fileExists)
  }

  /** A numbered file is a frame of a sequence when the frame before or
      after it exists. */
  function DetectFrame(n: Numbering, fileExists: string -> bool): (r: Detection)
    requires n.Numbered? && AllDigits(n.digits)
    ensures r == Single || r == SequenceOf(Template(n))
    ensures r.SequenceOf? <==>
      fileExists(FrameName(n, FileNumber(n) - 1)) || fileExists(FrameName(n, FileNumber(n) + 1))
  {
    var k := FileNumber(n);
    if fileExists(FrameName(n, k - 1)) || fileExists(FrameName(n, k + 1)) then SequenceOf(Template(n))
    else Single
  }

  /** A numbered name is its prefix, a run of digits not preceded by another
      digit, and the rest: either nothing or the '.' of an extension that
      is one of the image-sequence formats. */
  lemma AnalyseSplits(fileName: string, formats: seq<string>)
    requires Analyse(fileName, formats).Numbered?
    ensures var n := Analyse(fileName, formats);
      fileName == n.prefix + n.digits + n.rest
      && n.digits != [] && AllDigits(n.digits)
      && (n.prefix == [] || !IsDigit(n.prefix[|n.prefix| - 1]))
      && (n.rest == [] || (n.rest[0] == '.' && '/' !in n.rest && '.' !in n.rest[1..] && n.rest[1..] in formats))
  {
    var start, end := AnalysePieces(fileName, formats);
    SplitAt(fileName, formats, start, end);
    var n := Analyse(fileName, formats);
    assert n.prefix == fileName[..start] && n.digits == fileName[start..end] && n.rest == fileName[end..];
  }

  lemma SplitAt(fileName: string, formats: seq<string>, start: nat, end: nat)
    requires start < end <= |fileName|
    requires AllDigits(fileName[start..end]) && (start == 0 || !IsDigit(fileName[start - 1]))
    requires end < |fileName| ==>
      fileName[end] == '.' && '/' !in fileName[end..] && '.' !in fileName[end + 1..] && fileName[end + 1..] in formats
    ensures var prefix, digits, rest := fileName[..start], fileName[start..end], fileName[end..];
      fileName == prefix + digits + rest
      && digits != [] && AllDigits(digits)
      && (prefix == [] || !IsDigit(prefix[|prefix| - 1]))
      && (rest == [] || (rest[0] == '.' && '/' !in rest && '.' !in rest[1..] && rest[1..] in formats))
  {
    var prefix, rest := fileName[..start], fileName[end..];
    assert start > 0 ==> prefix[start - 1] == fileName[start - 1];
    assert fileName == prefix + fileName[start..end] + rest;
    if end < |fileName| {
      assert rest[1..] == fileName[end + 1..];
    }
  }

  /** What follows the extension dot is a '/'-free recognised suffix. */
  lemma ExtensionAfterDot(fileName: string, formats: seq<string>, end: nat)
    requires end < |fileName|
    requires end == LastIndexOf(fileName, '.') && end > LastIndexOf(fileName, '/')
    requires FileSuffix(fileName) in formats
    ensures fileName[end] == '.' && '/' !in fileName[end..] && fileName[end + 1..] in formats
    ensures '.' !in fileName[end + 1..]
  {
    SuffixAfterDot(fileName, end, LastIndexOf(fileName, '/'));
    LastIndexOfNoneAfter(fileName, '/');
    NoneFrom(fileName, '/', end);
    LastIndexOfNoneAfter(fileName, '.');
    NoneFrom(fileName, '.', end + 1);
  }

  /** A character absent from position `from` on is absent from the slice. */
  lemma NoneFrom(s: string, c: char, from: nat)
    requires from <= |s| && forall j :: from <= j < |s| ==> s[j] != c
    ensures c !in s[from..]
  {
  }

  /** The positions Analyse splits a numbered name at. */
  lemma AnalysePieces(fileName: string, formats: seq<string>) returns (start: nat, end: nat)
    requires Analyse(fileName, formats).Numbered?
    ensures start < end <= |fileName|
    ensures AllDigits(fileName[start..end]) && (start == 0 || !IsDigit(fileName[start - 1]))
    ensures Analyse(fileName, formats) == Numbered(fileName[..start], fileName[start..end], fileName[end..])
    ensures end < |fileName| ==>
      fileName[end] == '.' && '/' !in fileName[end..] && '.' !in fileName[end + 1..] && fileName[end + 1..] in formats
  {
    var dot := LastIndexOf(fileName, '.');
    var hasExtension := dot != -1 && dot > LastIndexOf(fileName, '/');
    end := if hasExtension then dot else |fileName|;
    start := RunStart(fileName, end);
    DigitsSlice(fileName, start, end);
    if hasExtension {
      ExtensionAfterDot(fileName, formats, end);
    }
  }

  /** The converse of AnalyseSplits: a prefix not ending in a digit, a run
      of digits and a recognised extension are recognised as such. */
  lemma AnalyseComplete(p: string, d: string, f: string, formats: seq<string>)
    requires d != [] && AllDigits(d) && (p == [] || !IsDigit(p[|p| - 1]))
    requires f in formats && '.' !in f && '/' !in f
    ensures Analyse(p + d + "." + f, formats) == Numbered(p, d, "." + f)
  {
    var s := p + d + ("." + f);
    assert s == p + d + "." + f;
    var dot := |p| + |d|;
    assert s[dot] == '.';
    forall j | dot < j < |s| ensures s[j] != '.' && s[j] != '/' {
      assert s[j] == f[j - dot - 1];
    }
    LastIndexOfUnique(s, '.', dot);
    var slash := LastIndexOf(s, '/');
    assert slash < dot;
    SuffixAfterDot(s, dot, slash);
    assert s[dot + 1..] == f;
    AnalyseWith(s, formats, p, d, "." + f);
  }

  /** The case without an extension: a name ending in its digit run, with no
      '.' after its last '/', is numbered up to its very end. */
  lemma AnalyseCompleteBare(p: string, d: string, formats: seq<string>)
    requires d != [] && AllDigits(d) && (p == [] || !IsDigit(p[|p| - 1]))
    requires forall j :: LastIndexOf(p, '/') < j < |p| ==> p[j] != '.'
    ensures Analyse(p + d, formats) == Numbered(p, d, "")
  {
    var s := p + d + "";
    assert s == p + d;
    var slash := LastIndexOf(p, '/');
    LastIndexOfNoneAfter(p, '/');
    forall j | slash < j < |s| ensures s[j] != '.' && s[j] != '/' {
      if j < |p| {
        assert s[j] == p[j];
      } else {
        assert s[j] == d[j - |p|];
      }
    }
    if slash >= 0 {
      assert s[slash] == p[slash];
    }
    LastIndexOfUnique(s, '/', slash);
    AnalyseWith(s, formats, p, d, "");
  }

  /** Analyse on a name already cut into prefix, digits and rest, where the
      rest starts at the extension dot, or is empty when there is none. */
  lemma AnalyseWith(s: string, formats: seq<string>, p: string, d: string, rest: string)
    requires s == p + d + rest
    requires d != [] && AllDigits(d) && (p == [] || !IsDigit(p[|p| - 1]))
    requires var dot := LastIndexOf(s, '.');
      if dot != -1 && dot > LastIndexOf(s, '/') then dot == |p| + |d| && FileSuffix(s) in formats
      else rest == []
    ensures Analyse(s, formats) == Numbered(p, d, rest)
  {
    NumberedPieces(p, d, rest);
    var dot := LastIndexOf(s, '.');
    var hasExtension := dot != -1 && dot > LastIndexOf(s, '/');
    var end := if hasExtension then dot else |s|;
    assert end == |p| + |d|;
    var start := RunStart(s, end);
    assert start == |p| < end;
    assert !(hasExtension && FileSuffix(s) !in formats);
    assert Analyse(s, formats) == Numbered(s[..start], s[start..end], s[end..]);
  }

  /** Whatever it finds, a name with no '.' after its last '/' is numbered
      up to its very end. */
  lemma AnalyseNoExtension(fileName: string, formats: seq<string>)
    requires forall j :: LastIndexOf(fileName, '/') < j < |fileName| ==> fileName[j] != '.'
    ensures Analyse(fileName, formats).Numbered? ==> Analyse(fileName, formats).rest == ""
  {
  }

  /** The digit run of p + d + rest, ending where `rest` begins, starts
      where `d` begins. */
  lemma NumberedPieces(p: string, d: string, rest: string)
    requires d != [] && AllDigits(d) && (p == [] || !IsDigit(p[|p| - 1]))
    ensures var s := p + d + rest;
      RunStart(s, |p| + |d|) == |p|
      && s[..|p|] == p && s[|p|..|p| + |d|] == d && s[|p| + |d|..] == rest
  {
    var s := p + d + rest;
    forall i | |p| <= i < |p| + |d| ensures IsDigit(s[i]) {
      assert s[i] == d[i - |p|];
    }
    if p != [] {
      assert s[|p| - 1] == p[|p| - 1];
    }
    RunStartBelowDigits(s, |p| + |d|, |p|);
    assert s[..|p|] == p && s[|p|..|p| + |d|] == d && s[|p| + |d|..] == rest;
  }

  /** A stretch of digits, cut out, is a digit string. */
  lemma DigitsSlice(s: string, from: nat, end: nat)
    requires from <= end <= |s| && DigitsBetween(s, from, end)
    ensures AllDigits(s[from..end])
  {
    forall i | 0 <= i < end - from ensures IsDigit(s[from..end][i]) {
      assert s[from..end][i] == s[from + i];
    }
  }

  /** When the last '.' follows the last '/', QFileInfo::suffix is what
      follows that '.'. */
  lemma SuffixAfterDot(path: string, dot: int, slash: int)
    requires dot == LastIndexOf(path, '.') && slash == LastIndexOf(path, '/')
    requires dot != -1 && dot > slash
    ensures FileSuffix(path) == path[dot + 1..]
  {
    LastIndexOfNoneAfter(path, '.');
    DotInName(path, dot, slash);
  }

  /** The last '.' of a path, seen from inside the name that follows
      position `slash`. */
  lemma DotInName(path: string, dot: int, slash: int)
    requires -1 <= slash < dot < |path| && path[dot] == '.'
    requires forall j :: dot < j < |path| ==> path[j] != '.'
    ensures var name := path[slash + 1..];
      LastIndexOf(name, '.') == dot - slash - 1 && name[dot - slash..] == path[dot + 1..]
  {
    var name := path[slash + 1..];
    var i := dot - slash - 1;
    forall j | i < j < |name| ensures name[j] != '.' {
      assert name[j] == path[slash + 1 + j];
    }
    LastIndexOfUnique(name, '.', i);
  }

  /** The frame named by the file's own number, when that number fits in an
      int, is the file itself. */
  lemma FrameNameOfOwnNumber(fileName: string, formats: seq<string>)
    requires Analyse(fileName, formats).Numbered?
    requires AllDigits(Analyse(fileName, formats).digits)
    requires Value(Analyse(fileName, formats).digits) <= IntMax
    ensures FrameName(Analyse(fileName, formats), FileNumber(Analyse(fileName, formats))) == fileName
  {
    AnalyseSplits(fileName, formats);
    ZeroPadOfValue(Analyse(fileName, formats).digits);
  }

  /** The neighbours looked for are other files than the one imported. */
  lemma NeighboursAreOtherFiles(fileName: string, formats: seq<string>, delta: int)
    requires Analyse(fileName, formats).Numbered?
    requires AllDigits(Analyse(fileName, formats).digits)
    requires Value(Analyse(fileName, formats).digits) <= IntMax
    requires delta == -1 || delta == 1
    ensures FrameName(Analyse(fileName, formats), FileNumber(Analyse(fileName, formats)) + delta) != fileName
  {
    var n := Analyse(fileName, formats);
    AnalyseSplits(fileName, formats);
    var k := FileNumber(n) + delta;
    var a := Arg(k, |n.digits|);
    assert a != n.digits by {
      if k < 0 {
        assert a[0] == '-' && IsDigit(n.digits[0]);
      } else {
        ZeroPadValue(k, |n.digits|);
      }
    }
    var x := n.prefix + a + n.rest;
    if |a| == |n.digits| {
      assert x[|n.prefix|..|n.prefix| + |a|] == a;
      assert fileName[|n.prefix|..|n.prefix| + |a|] == n.digits;
    } else {
      assert |x| != |fileName|;
    }
  }

  /** The template spells the digit count on at least two digits. */
  lemma TemplateWidth(n: Numbering)
    requires n.Numbered?
    ensures var w := Arg(|n.digits|, 2);
      Template(n) == n.prefix + "%" + w + "d" + n.rest
      && |w| >= 2 && AllDigits(w) && Value(w) == |n.digits|
  {
    ZeroPadValue(|n.digits|, 2);
  }

  /** "img0012.png", with png among the formats, splits into the prefix
      "img", the frame number "0012" and the extension ".png". */
  lemma AnalyseExample()
    ensures Analyse("img0012.png", ["png"]) == Numbered("img", "0012", ".png")
  {
    var f := "img0012.png";
    LastIndexOfUnique(f, '.', 7);
    LastIndexOfUnique(f, '/', -1);
    SuffixAfterDot(f, 7, -1);
    assert f[8..] == "png";
    RunStartBelowDigits(f, 7, 3);
    assert f[..3] == "img" && f[3..7] == "0012" && f[7..] == ".png";
  }

  /** The template of that split is "img%04d.png". */
  lemma TemplateExample()
    ensures Template(Numbered("img", "0012", ".png")) == "img%04d.png"
  {
    assert Decimal(4) == "4";
    assert Zeros(1) == "0" by {
      assert Zeros(0) == "";
    }
  }

  /** The scan of the digit run as written: `digit_test` walks left while it
      sees digits, with no check that it stays inside the name, so a run
      that begins the name makes it read before the first character. */
  datatype ScanResult = StopsAt(nonDigit: int) | ReadsBeforeStart

  function ScanAsWritten(s: string, test: int): (r: ScanResult)
    requires test < |s|
    ensures r.StopsAt? ==>
      0 <= r.nonDigit <= test && !IsDigit(s[r.nonDigit]) && DigitsBetween(s, r.nonDigit + 1, test + 1)
    ensures r == ReadsBeforeStart && test >= -1 ==> DigitsBetween(s, 0, test + 1)
    decreases test + 1
  {
    if test < 0 then ReadsBeforeStart
    else if IsDigit(s[test]) then ScanAsWritten(s, test - 1)
    else StopsAt(test)
  }

  /** The scan as written stops just before the run, unless the run begins
      the name. */
  lemma {:induction false} ScanAsWrittenOverruns(s: string, end: nat, test: int)
    requires -1 <= test < end <= |s| && DigitsBetween(s, test + 1, end)
    ensures ScanAsWritten(s, test) == ReadsBeforeStart <==> RunStart(s, end) == 0
    ensures RunStart(s, end) > 0 ==> ScanAsWritten(s, test) == StopsAt(RunStart(s, end) - 1)
    decreases test + 1
  {
    if test >= 0 && IsDigit(s[test]) {
      ScanAsWrittenOverruns(s, end, test - 1);
    } else {
      RunStartBelowDigits(s, end, test + 1);
    }
  }

  /** A run of digits from `from` to `end` with no digit before it starts
      at `from`. */
  lemma {:induction false} RunStartBelowDigits(s: string, end: nat, from: nat)
    requires from <= end <= |s| && DigitsBetween(s, from, end)
    requires from == 0 || !IsDigit(s[from - 1])
    ensures RunStart(s, end) == from
    decreases end - from
  {
    if end > from {
      RunStartBelowDigits(s, end - 1, from);
    }
  }

  /** For "0012.png" the scan as written reads before the name, while the
      name is a well-formed frame of "%04d.png". */
  lemma ScanAsWrittenCounterexample()
    ensures Analyse("0012.png", ["png"]) == Numbered("", "0012", ".png")
    ensures ScanAsWritten("0012.png", 3) == ReadsBeforeStart
  {
    var f := "0012.png";
    LastIndexOfUnique(f, '.', 4);
    LastIndexOfUnique(f, '/', -1);
    SuffixAfterDot(f, 4, -1);
    assert f[5..] == "png";
    RunStartBelowDigits(f, 4, 0);
    assert f[..0] == "" && f[0..4] == "0012" && f[4..] == ".png";
    ScanAsWrittenOverruns(f, 4, 3);
  }

  /** The digit scan of process_file_list with the bound it needs: it stops
      at the first non-digit to the left of `lastCharIndex`, or at the start
      of the name.  Returns the position of the first digit and the count. */
  method ScanDigitRun(fileName: string, lastCharIndex: nat) returns (digitTest: nat, digitCount: nat)
    requires 0 < lastCharIndex <= |fileName| && IsDigit(fileName[lastCharIndex - 1])
    ensures digitTest == RunStart(fileName, lastCharIndex)
    ensures digitTest + digitCount == lastCharIndex && digitCount > 0
  {
    digitCount := 0;
    var test: int := lastCharIndex - 1;
    while test >= 0 && IsDigit(fileName[test])
      invariant -1 <= test < lastCharIndex
      invariant digitCount == lastCharIndex - 1 - test
      invariant DigitsBetween(fileName, test + 1, lastCharIndex)
    {
      digitCount := digitCount + 1;
      test := test - 1;
    }
    digitTest := test + 1;
    RunStartBelowDigits(fileName, lastCharIndex, digitTest);
  }

  /** The templates met so far in one call of process_file_list, with the
      user's answer for each. */
  class ImportSession {
    var urls: seq<string>
    var importAsSequence: seq<bool>

    ghost predicate Valid()
      reads this
    {
      |urls| == |importAsSequence| && NoDuplicates(urls)
    }

    constructor ()
      ensures Valid() && urls == [] && importAsSequence == []
    {
      urls := [];
      importAsSequence := [];
    }

    /** The image-sequence part of process_file_list for one non-empty file
        name that is not a directory.  `fileExists` stands for QFileInfo::exists
        and `answerYes` for the user's reply to the question asked when a
        template is met for the first time.  Returns whether the file is
        skipped and the url it is imported from. */
    method ConsiderFile(fileName: string, formats: seq<string>, fileExists: string -> bool, answerYes: bool)
        returns (skip: bool, url: string)
      requires Valid() && fileName != []
      modifies this
      ensures Valid()
      ensures Detect(fileName, formats, fileExists) == Single ==>
        !skip && url == fileName && urls == old(urls) && importAsSequence == old(importAsSequence)
      ensures Detect(fileName, formats, fileExists).SequenceOf? ==>
        var t := Detect(fileName, formats, fileExists).template;
        if t in old(urls) then
          urls == old(urls) && importAsSequence == old(importAsSequence) && url == fileName
          && (skip <==> exists i :: 0 <= i < |urls| && urls[i] == t && importAsSequence[i])
        else
          urls == old(urls) + [t] && importAsSequence == old(importAsSequence) + [answerYes]
          && !skip && url == (if answerYes then t else fileName)
    {
      skip := false;
      url := fileName;
      var newFilename, isImgSequence := DetectImageSequence(fileName, formats, fileExists);
      if isImgSequence {
        var i := LookUp(newFilename);
        if i >= 0 {
          if importAsSequence[i] {
            skip := true;
          }
          OnlyMatch(urls, importAsSequence, i);
        } else {
          AppendNew(urls, newFilename);
          urls := urls + [newFilename];
          if answerYes {
            url := newFilename;
            importAsSequence := importAsSequence + [true];
          } else {
            importAsSequence := importAsSequence + [false];
          }
        }
      }
    }

    /** The scan of image_sequence_urls: the position of `template`, or -1. */
    method LookUp(template: string) returns (index: int)
      ensures -1 <= index < |urls|
      ensures index >= 0 ==> urls[index] == template
      ensures index == -1 <==> template !in urls
    {
      index := 0;
      while index < |urls|
        invariant 0 <= index <= |urls| && template !in urls[..index]
      {
        if urls[index] == template {
          return;
        }
        assert urls[..index + 1] == urls[..index] + [urls[index]];
        index := index + 1;
      }
      assert urls[..index] == urls;
      index := -1;
    }
  }

  /** The detection part of process_file_list for one file name: whether
      the name is a frame of an image sequence whose neighbour exists, and
      the template url of that sequence. */
  method DetectImageSequence(fileName: string, formats: seq<string>, fileExists: string -> bool)
      returns (newFilename: string, isImgSequence: bool)
    requires fileName != []
    ensures Detect(fileName, formats, fileExists) == if isImgSequence then SequenceOf(newFilename) else Single
  {
    newFilename := "";
    isImgSequence := false;
    var lastCharIndex, found := FindNumberEnd(fileName, formats);
    if found && IsDigit(fileName[lastCharIndex - 1]) {
      var digitTest, digitCount := ScanDigitRun(fileName, lastCharIndex);
      var n := Numbered(fileName[..digitTest], fileName[digitTest..lastCharIndex], fileName[lastCharIndex..]);
      assert n == Analyse(fileName, formats);
      AnalyseSplits(fileName, formats);
      var fileNumber: int := ToInt(n.digits);
      isImgSequence := fileExists(FrameName(n, fileNumber - 1)) || fileExists(FrameName(n, fileNumber + 1));
      if isImgSequence {
        newFilename := Template(n);
      }
      assert Detect(fileName, formats, fileExists) == DetectFrame(n, fileExists);
    } else {
      assert Analyse(fileName, formats) == NotNumbered;
    }
  }

  /** The lastIndexOf tests of process_file_list: where the part of the name
      that may end in a frame number stops, and whether the extension, if
      any, is an image-sequence format.  The name is numbered exactly when
      that part ends in a digit. */
  method FindNumberEnd(fileName: string, formats: seq<string>) returns (lastCharIndex: nat, found: bool)
    requires fileName != []
    ensures 0 < lastCharIndex <= |fileName|
    ensures found && IsDigit(fileName[lastCharIndex - 1]) <==> Analyse(fileName, formats).Numbered?
    ensures Analyse(fileName, formats).Numbered? ==>
      var n := Analyse(fileName, formats);
      |n.prefix| == RunStart(fileName, lastCharIndex) && |n.prefix| + |n.digits| == lastCharIndex
      && n == Numbered(fileName[..|n.prefix|], fileName[|n.prefix|..lastCharIndex], fileName[lastCharIndex..])
  {
    var dot := LastIndexOf(fileName, '.');
    found := true;
    if dot != -1 && dot > LastIndexOf(fileName, '/') {
      var ext := FileSuffix(fileName);
      found := ext in formats;
      lastCharIndex := dot;
    } else {
      lastCharIndex := |fileName|;
    }
    if lastCharIndex == 0 {
      lastCharIndex := lastCharIndex + 1;
    }
  }

  lemma AppendNew(s: seq<string>, x: string)
    requires NoDuplicates(s) && x !in s
    ensures NoDuplicates(s + [x])
  {
  }

  /** With no duplicate templates, the answer at the match found is the
      only answer recorded for that template. */
  lemma OnlyMatch(urls: seq<string>, answers: seq<bool>, i: nat)
    requires NoDuplicates(urls) && i < |urls| == |answers|
    ensures (exists k :: 0 <= k < |urls| && urls[k] == urls[i] && answers[k]) <==> answers[i]
  {
    if exists k :: 0 <= k < |urls| && urls[k] == urls[i] && answers[k] {
      var k :| 0 <= k < |urls| && urls[k] == urls[i] && answers[k];
      assert k == i;
    }
  }
}
