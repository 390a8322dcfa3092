// The recent-projects list of the project panel (Project::add_recent_project):
// most recently used first, at most MaximumRecentProjects entries added.

module RecentProjects {
  import opened QtText

  const MaximumRecentProjects: nat := 10

  /** The first position holding `x`. */
  function FirstIndex(s: seq<string>, x: string): (i: nat)
    requires x in s
    ensures i < |s| && s[i] == x && x !in s[..i]
  {
    if s[0] == x then 0 else 1 + FirstIndex(s[1..], x)
  }

  /** QList::move(i, 0): entry `i` taken out and put in front. */
  function MoveToFront(s: seq<string>, i: nat): (r: seq<string>)
    requires i < |s|
    ensures |r| == |s| && r[0] == s[i] && multiset(r) == multiset(s)
  {
    assert s == s[..i] + [s[i]] + s[i + 1..];
    [s[i]] + s[..i] + s[i + 1..]
  }

  /** The list after `url` was opened: moved to the front when present,
      otherwise inserted there and the last entry dropped once the list
      has grown past the maximum. */
  function Promoted(s: seq<string>, url: string): (r: seq<string>)
    ensures r != [] && r[0] == url
    ensures |r| <= |s| + 1
    ensures forall x :: x in r ==> x == url || x in s
  {
    if url in s then MoveToFront(s, FirstIndex(s, url))
    else
      var t := [url] + s;
      if |t| > MaximumRecentProjects then t[..|t| - 1] else t
  }

  /** The entries of `s` other than `x`, in order. */
  function Without(s: seq<string>, x: string): (r: seq<string>)
    ensures x !in r
  {
    if s == [] then []
    else Without(s[..|s| - 1], x) + (if s[|s| - 1] == x then [] else [s[|s| - 1]])
  }

  lemma {:induction false} WithoutAppend(a: seq<string>, b: seq<string>, x: string)
    ensures Without(a + b, x) == Without(a, x) + Without(b, x)
  {
    if b != [] {
      assert (a + b)[..|a + b| - 1] == a + b[..|b| - 1];
      WithoutAppend(a, b[..|b| - 1], x);
    } else {
      assert a + b == a;
    }
  }

  class RecentProjectList {
    /** recent_projects, most recent first */
    var projects: seq<string>

    constructor ()
      ensures projects == []
    {
      projects := [];
    }

    /** Project::add_recent_project, without writing the list to disk. */
    method AddRecentProject(url: string)
      modifies this
      ensures projects == Promoted(old(projects), url)
    {
      var found := false;
      var i := 0;
      while i < |projects|
        invariant 0 <= i <= |projects| && projects == old(projects)
        invariant url !in projects[..i]
      {
        if url == projects[i] {
          found := true;
          assert FirstIndex(projects, url) == i by {
            FirstIndexUnique(projects, url, i);
          }
          projects := MoveToFront(projects, i);
          break;
        }
        assert projects[..i + 1] == projects[..i] + [projects[i]];
        i := i + 1;
      }
      if !found {
        assert projects[..i] == projects;
        projects := [url] + projects;
        if |projects| > MaximumRecentProjects {
          projects := projects[..|projects| - 1];
        }
      }
    }
  }

  lemma {:induction false} FirstIndexUnique(s: seq<string>, x: string, i: nat)
    requires i < |s| && s[i] == x && x !in s[..i]
    ensures FirstIndex(s, x) == i
  {
    if i > 0 {
      assert s[..i][0] == s[0];
      assert s[1..][..i - 1] == s[..i][1..];
      FirstIndexUnique(s[1..], x, i - 1);
    }
  }

  /** The url just opened heads the list. */
  lemma PromotedFront(s: seq<string>, url: string)
    ensures |Promoted(s, url)| > 0 && Promoted(s, url)[0] == url
  {
  }

  /** Reopening a listed project neither grows the list nor drops or
      duplicates an entry. */
  lemma PromotedPresent(s: seq<string>, url: string)
    requires url in s
    ensures |Promoted(s, url)| == |s|
    ensures multiset(Promoted(s, url)) == multiset(s)
  {
    var i := FirstIndex(s, url);
    assert s == s[..i] + [url] + s[i + 1..];
    assert multiset(Promoted(s, url)) == multiset([url]) + multiset(s[..i]) + multiset(s[i + 1..]);
  }

  /** Apart from the url itself, the list keeps its order when the url is
      reopened. */
  lemma PromotedKeepsOrder(s: seq<string>, url: string)
    requires url in s
    ensures Without(Promoted(s, url), url) == Without(s, url)
  {
    var i := FirstIndex(s, url);
    var a, b := s[..i], s[i + 1..];
    assert s == (a + [url]) + b;
    assert Promoted(s, url) == ([url] + a) + b;
    assert Without([url], url) == [] by {
      assert [url][..0] == [];
    }
    WithoutAppend([url] + a, b, url);
    WithoutAppend([url], a, url);
    assert Without([url] + a, url) == Without(a, url);
    WithoutAppend(a + [url], b, url);
    WithoutAppend(a, [url], url);
    assert Without(a + [url], url) == Without(a, url);
  }

  /** A new url is put in front of the old list, which loses its last entry
      only when the list would otherwise exceed the maximum. */
  lemma PromotedAbsent(s: seq<string>, url: string)
    requires url !in s
    ensures |Promoted(s, url)| == if |s| + 1 > MaximumRecentProjects then |s| else |s| + 1
    ensures Promoted(s, url)[1..] == s[..|Promoted(s, url)| - 1]
    ensures multiset(Promoted(s, url))[url] == 1
  {
    var r := Promoted(s, url);
    assert r[1..] == s[..|r| - 1];
    assert r == [url] + r[1..];
    WithoutCount(s[..|r| - 1], url);
  }

  lemma WithoutCount(s: seq<string>, x: string)
    requires x !in s
    ensures multiset([x] + s)[x] == 1
  {
    assert multiset([x] + s) == multiset([x]) + multiset(s);
  }

  /** A list within the maximum stays within it. */
  lemma PromotedBounded(s: seq<string>, url: string)
    requires |s| <= MaximumRecentProjects
    ensures |Promoted(s, url)| <= MaximumRecentProjects
  {
    if url in s {
      PromotedPresent(s, url);
    } else {
      PromotedAbsent(s, url);
    }
  }

  /** A list without duplicates keeps having none. */
  lemma PromotedNoDuplicates(s: seq<string>, url: string)
    requires NoDuplicates(s)
    ensures NoDuplicates(Promoted(s, url))
  {
    var r := Promoted(s, url);
    if url in s {
      var i := FirstIndex(s, url);
      forall a, b | 0 <= a < b < |r| ensures r[a] != r[b] {
        var ia := if a == 0 then i else if a <= i then a - 1 else a;
        var ib := if b == 0 then i else if b <= i then b - 1 else b;
        assert r[a] == s[ia] && r[b] == s[ib];
      }
    } else {
      forall a, b | 0 <= a < b < |r| ensures r[a] != r[b] {
        if a > 0 {
          assert r[a] == s[a - 1] && r[b] == s[b - 1];
        } else {
          assert r[b] == s[b - 1];
        }
      }
    }
  }
}
