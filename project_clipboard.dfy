// Removing the clipboard's clips that use a media item being deleted
// (delete_clips_in_clipboard_with_media).  The function does not remove
// anything itself: it queues one undoable removal per matching clip, and
// the queued indices are shifted down by the number of removals queued
// before them, because by the time a removal runs the earlier ones have
// already closed their gaps.

module ClipboardCleanup {
  import opened MediaTree

  /** e_clipboard_type: what the clipboard currently holds. */
  datatype ClipboardType = ClipboardClips | ClipboardEffects

  /** A clip on the clipboard, reduced to what the cleanup looks at: its
      identity and the media its timeline_info refers to. */
  datatype Clip = Clip(id: nat, media: MediaRef)

  /** What running queued removals leaves: the new clipboard, or the sign
      that one of them pointed past the end. */
  datatype Outcome = Done(clipboard: seq<Clip>) | OutOfRange

  /** The clipboard after running the queued removals in order, each one
      QVector::removeAt of the index it carries. */
  function ApplyRemovals(clipboard: seq<Clip>, removals: seq<int>): Outcome {
    if removals == [] then Done(clipboard)
    else
      match ApplyRemovals(clipboard, removals[..|removals| - 1])
      case OutOfRange => OutOfRange
      case Done(s) =>
        var k := removals[|removals| - 1];
        if 0 <= k < |s| then Done(s[..k] + s[k + 1..]) else OutOfRange
  }

  /** The clips of `s` that do not use `m`, in order. */
  function Kept(s: seq<Clip>, m: MediaRef): seq<Clip> {
    if s == [] then []
    else Kept(s[..|s| - 1], m) + (if s[|s| - 1].media == m then [] else [s[|s| - 1]])
  }

  /** How many clips of `s` use `m`. */
  function Uses(s: seq<Clip>, m: MediaRef): nat {
    if s == [] then 0
    else Uses(s[..|s| - 1], m) + (if s[|s| - 1].media == m then 1 else 0)
  }

  lemma {:induction false} KeptLength(s: seq<Clip>, m: MediaRef)
    ensures |Kept(s, m)| + Uses(s, m) == |s|
  {
    if s != [] {
      KeptLength(s[..|s| - 1], m);
    }
  }

  /** A clip stays exactly when it is on the clipboard and does not use `m`. */
  lemma {:induction false} KeptMembers(s: seq<Clip>, m: MediaRef, c: Clip)
    ensures c in Kept(s, m) <==> c in s && c.media != m
  {
    if s != [] {
      var front := s[..|s| - 1];
      KeptMembers(front, m, c);
      assert s == front + [s[|s| - 1]];
    }
  }

  lemma {:induction false} UsesPositive(s: seq<Clip>, m: MediaRef)
    ensures Uses(s, m) > 0 <==> exists i :: 0 <= i < |s| && s[i].media == m
  {
    if s != [] {
      var front := s[..|s| - 1];
      UsesPositive(front, m);
      if exists i :: 0 <= i < |s| && s[i].media == m {
        var i :| 0 <= i < |s| && s[i].media == m;
        if i < |front| {
          assert front[i].media == m;
        }
      }
      if exists i :: 0 <= i < |front| && front[i].media == m {
        var i :| 0 <= i < |front| && front[i].media == m;
        assert s[i].media == m;
      }
    }
  }

  /** delete_clips_in_clipboard_with_media: the removal indices it queues,
      in order, and whether it queued any. */
  method DeleteClipsInClipboardWithMedia(clipboardType: ClipboardType, clipboard: seq<Clip>, m: MediaRef)
      returns (removals: seq<int>, deleted: bool)
    ensures clipboardType == ClipboardEffects ==> removals == [] && !deleted
    ensures clipboardType == ClipboardClips ==>
      ApplyRemovals(clipboard, removals) == Done(Kept(clipboard, m)) && |removals| == Uses(clipboard, m)
    ensures deleted <==> |removals| > 0
    ensures deleted <==> clipboardType == ClipboardClips && exists i :: 0 <= i < |clipboard| && clipboard[i].media == m
  {
    removals := [];
    var deleteCount := 0;
    if clipboardType == ClipboardClips {
      for i := 0 to |clipboard|
        invariant deleteCount == |removals| == Uses(clipboard[..i], m)
        invariant ApplyRemovals(clipboard, removals) == Done(Kept(clipboard[..i], m) + clipboard[i..])
      {
        ScanStep(clipboard, m, i, removals);
        if clipboard[i].media == m {
          removals := removals + [i - deleteCount];
          deleteCount := deleteCount + 1;
        }
      }
      assert clipboard[..|clipboard|] == clipboard;
    }
    deleted := deleteCount > 0;
    UsesPositive(clipboard, m);
  }

  /** One clip scanned by delete_clips_in_clipboard_with_media: a match
      queues the index the clip has once the earlier matches are gone. */
  lemma ScanStep(clipboard: seq<Clip>, m: MediaRef, i: nat, removals: seq<int>)
    requires i < |clipboard| && |removals| == Uses(clipboard[..i], m)
    requires ApplyRemovals(clipboard, removals) == Done(Kept(clipboard[..i], m) + clipboard[i..])
    ensures var next := if clipboard[i].media == m then removals + [i - |removals|] else removals;
      |next| == Uses(clipboard[..i + 1], m) &&
      ApplyRemovals(clipboard, next) == Done(Kept(clipboard[..i + 1], m) + clipboard[i + 1..])
  {
    var prefix, c, rest := clipboard[..i], clipboard[i], clipboard[i + 1..];
    PrefixStep(clipboard, i, m);
    KeptLength(prefix, m);
    assert clipboard[i..] == [c] + rest;
    if c.media == m {
      RemoveAt(clipboard, removals, Kept(prefix, m), c, rest);
      assert Kept(clipboard[..i + 1], m) == Kept(prefix, m);
    } else {
      assert Kept(clipboard[..i + 1], m) == Kept(prefix, m) + [c];
      assert Kept(prefix, m) + clipboard[i..] == (Kept(prefix, m) + [c]) + rest;
    }
  }

  /** One more clip scanned: how the kept clips and the use count grow. */
  lemma PrefixStep(clipboard: seq<Clip>, i: nat, m: MediaRef)
    requires i < |clipboard|
    ensures Kept(clipboard[..i + 1], m) == Kept(clipboard[..i], m) + (if clipboard[i].media == m then [] else [clipboard[i]])
    ensures Uses(clipboard[..i + 1], m) == Uses(clipboard[..i], m) + (if clipboard[i].media == m then 1 else 0)
  {
    assert clipboard[..i + 1][..i] == clipboard[..i];
  }

  /** Removing at the boundary between the kept clips and the rest drops
      exactly the clip found there. */
  lemma RemoveAt(clipboard: seq<Clip>, before: seq<int>, a: seq<Clip>, c: Clip, b: seq<Clip>)
    requires ApplyRemovals(clipboard, before) == Done(a + ([c] + b))
    ensures ApplyRemovals(clipboard, before + [|a|]) == Done(a + b)
  {
    assert (before + [|a|])[..|before|] == before;
    var s := a + ([c] + b);
    assert s[..|a|] == a;
    assert s[|a| + 1..] == b;
  }

  /** Removals that all apply shrink the clipboard by one each, so the
      k-th of them points below |clipboard| - k. */
  lemma {:induction false} RemovalsFit(clipboard: seq<Clip>, removals: seq<int>)
    requires ApplyRemovals(clipboard, removals).Done?
    ensures |ApplyRemovals(clipboard, removals).clipboard| == |clipboard| - |removals|
    ensures forall k :: 0 <= k < |removals| ==> 0 <= removals[k] < |clipboard| - k
  {
    if removals != [] {
      var front := removals[..|removals| - 1];
      RemovalsFit(clipboard, front);
      forall k | 0 <= k < |removals| ensures 0 <= removals[k] < |clipboard| - k {
        if k < |front| {
          assert removals[k] == front[k];
        }
      }
    }
  }

  /** Removals only take clips away: what is left was on the clipboard, and
      each clip is left at most as often as it was there. */
  lemma {:induction false} RemovalsOnlyRemove(clipboard: seq<Clip>, removals: seq<int>)
    requires ApplyRemovals(clipboard, removals).Done?
    ensures multiset(ApplyRemovals(clipboard, removals).clipboard) <= multiset(clipboard)
  {
    if removals != [] {
      var front := removals[..|removals| - 1];
      RemovalsOnlyRemove(clipboard, front);
      var s := ApplyRemovals(clipboard, front).clipboard;
      var k := removals[|removals| - 1];
      assert s == s[..k] + [s[k]] + s[k + 1..];
    }
  }
}
