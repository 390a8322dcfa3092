// Choosing the label of a new sequence (Project::get_next_sequence_name):
// the first "<start> NN" that no top-level item of the project already
// carries, compared without regard to case.

module SequenceNaming {
  import opened QtText
  import opened MediaTree

  /** tr("Sequence"): the stem used when the caller gives none. */
  const DefaultStem: string := "Sequence"

  function Stem(start: string): (s: string)
    ensures s != []
    ensures start != [] ==> s == start
  {
    if start == [] then DefaultStem else start
  }

  /** The number as it appears in a label: two digits at least. */
  function Counter(n: nat): (s: string)
    ensures AllDigits(s) && |s| >= 2
  {
    var z := if n < 10 then "0" else "";
    AllDigitsAppend(z, Decimal(n));
    z + Decimal(n)
  }

  function Label(stem: string, n: nat): string {
    stem + " " + Counter(n)
  }

  /** Some top-level item already carries `name`, ignoring case. */
  predicate Taken(top: seq<Media>, name: string) {
    exists i :: 0 <= i < |top| && EqualsIgnoringCase(top[i].name, name)
  }

  /** The counter of a label spells its number back. */
  lemma CounterValue(n: nat)
    ensures AllDigits(Counter(n)) && Value(Counter(n)) == n
  {
    ValueOfDecimal(n);
    var s := Counter(n);
    if n < 10 {
      assert Decimal(n) == [DigitChar(n)];
      assert s == ['0', DigitChar(n)];
      assert s[..1] == ['0'] && ['0'][..0] == [];
      assert Value(['0']) == 0;
      assert Value(s) == Value(s[..1]) * 10 + DigitValue(s[1]);
    } else {
      assert s == Decimal(n);
    }
  }

  /** No name equals two different labels ignoring case. */
  lemma LabelsDistinct(name: string, stem: string, n1: nat, n2: nat)
    requires EqualsIgnoringCase(name, Label(stem, n1))
    requires EqualsIgnoringCase(name, Label(stem, n2))
    ensures n1 == n2
  {
    var p := stem + " ";
    var c1, c2 := Counter(n1), Counter(n2);
    EqualsIgnoringCaseAt(name, Label(stem, n1), 0);
    EqualsIgnoringCaseAt(name, Label(stem, n2), 0);
    assert |c1| == |c2|;
    forall i | 0 <= i < |c1| ensures c1[i] == c2[i] {
      EqualsIgnoringCaseAt(name, Label(stem, n1), |p| + i);
      EqualsIgnoringCaseAt(name, Label(stem, n2), |p| + i);
      assert Label(stem, n1)[|p| + i] == c1[i];
      assert Label(stem, n2)[|p| + i] == c2[i];
    }
    assert c1 == c2;
    CounterValue(n1);
    CounterValue(n2);
  }

  /** A set of positions below `k` has at most `k` elements. */
  lemma {:induction false} BoundedSetSize(s: set<nat>, k: nat)
    requires forall i :: i in s ==> i < k
    ensures |s| <= k
  {
    if k > 0 {
      BoundedSetSize(s - {k - 1}, k - 1);
    } else {
      assert s == {};
    }
  }

  /** The name chosen: the first label, counting from 1, that is not taken. */
  ghost predicate IsNextName(top: seq<Media>, start: string, name: string) {
    exists n: nat :: 1 <= n <= |top| + 1 && name == Label(Stem(start), n)
      && !Taken(top, name)
      && forall m: nat :: 1 <= m < n ==> Taken(top, Label(Stem(start), m))
  }

  /** Top-level item `i` carries label `m`, ignoring case. */
  ghost predicate Carries(top: seq<Media>, i: nat, stem: string, m: nat) {
    i < |top| && EqualsIgnoringCase(top[i].name, Label(stem, m))
  }

  /** Item `i` carries label `n`, so it was not matched by any earlier
      label: record it as matched by `n`. */
  lemma Claim(top: seq<Media>, stem: string, owner: map<nat, nat>, n: nat, i: nat)
      returns (owner': map<nat, nat>)
    requires i < |top| && EqualsIgnoringCase(top[i].name, Label(stem, n))
    requires forall j :: j in owner ==> owner[j] < n && Carries(top, j, stem, owner[j])
    ensures owner' == owner[i := n] && |owner'.Keys| == |owner.Keys| + 1
    ensures Taken(top, Label(stem, n))
    ensures |owner'.Keys| <= |top|
  {
    if i in owner {
      LabelsDistinct(top[i].name, stem, owner[i], n);
    }
    owner' := owner[i := n];
    assert owner'.Keys == owner.Keys + {i};
    assert forall j :: j in owner' ==> j < |top|;
    BoundedSetSize(owner'.Keys, |top|);
  }

  /** The label as get_next_sequence_name assembles it, piece by piece. */
  lemma LabelSpelling(stem: string, n: nat)
    ensures (if n < 10 then stem + " " + "0" else stem + " ") + Decimal(n) == Label(stem, n)
  {
  }

  /** Every label from 1 up to, not including, `n` is taken. */
  ghost predicate TakenBelow(top: seq<Media>, stem: string, n: nat) {
    n <= 1 || (TakenBelow(top, stem, n - 1) && Taken(top, Label(stem, n - 1)))
  }

  lemma {:induction false} TakenBelowAll(top: seq<Media>, stem: string, n: nat)
    requires TakenBelow(top, stem, n)
    ensures forall m: nat :: 1 <= m < n ==> Taken(top, Label(stem, m))
  {
    if n > 1 {
      TakenBelowAll(top, stem, n - 1);
    }
  }

  /** The inner scan of get_next_sequence_name: the first top-level item
      whose name equals `name` ignoring case, or -1. */
  method FindName(top: seq<Media>, name: string) returns (i: int)
    ensures -1 <= i < |top|
    ensures i >= 0 ==> EqualsIgnoringCase(top[i].name, name)
    ensures i == -1 <==> !Taken(top, name)
  {
    i := 0;
    while i < |top|
      invariant 0 <= i <= |top|
      invariant forall j :: 0 <= j < i ==> !EqualsIgnoringCase(top[j].name, name)
    {
      if EqualsIgnoringCase(top[i].name, name) {
        return;
      }
      i := i + 1;
    }
    i := -1;
  }

  /** Project::get_next_sequence_name, with the project's top-level items
      passed in. */
  method NextSequenceName(top: seq<Media>, start: string) returns (name: string)
    ensures IsNextName(top, start, name)
  {
    var stem := Stem(start);
    var n: nat := 1;
    var found := true;
    name := "";
    // the top-level items already matched by labels 1 .. n-1, one each
    // (`owner[i]` is the label number that item i was found to carry)
    ghost var owner: map<nat, nat> := map[];
    while found
      invariant n >= 1 && |owner.Keys| == n - 1 && n - 1 <= |top|
      invariant TakenBelow(top, stem, n)
      invariant forall i :: i in owner ==> 1 <= owner[i] < n && Carries(top, i, stem, owner[i])
      invariant !found ==> name == Label(stem, n) && !Taken(top, name)
      decreases |top| - |owner.Keys|, if found then 1 else 0
    {
      found := false;
      name := stem + " ";
      if n < 10 {
        name := name + "0";
      }
      name := name + Decimal(n);
      LabelSpelling(stem, n);
      var i := FindName(top, name);
      if i >= 0 {
        found := true;
        owner := Claim(top, stem, owner, n, i);
        n := n + 1;
      }
    }
    TakenBelowAll(top, stem, n);
    assert 1 <= n <= |top| + 1 && name == Label(stem, n);
  }

  /** The specification picks exactly one name. */
  lemma NextNameUnique(top: seq<Media>, start: string, a: string, b: string)
    requires IsNextName(top, start, a) && IsNextName(top, start, b)
    ensures a == b
  {
    var na: nat :| 1 <= na <= |top| + 1 && a == Label(Stem(start), na) && !Taken(top, a)
      && forall m: nat :: 1 <= m < na ==> Taken(top, Label(Stem(start), m));
    var nb: nat :| 1 <= nb <= |top| + 1 && b == Label(Stem(start), nb) && !Taken(top, b)
      && forall m: nat :: 1 <= m < nb ==> Taken(top, Label(Stem(start), m));
    assert !Taken(top, Label(Stem(start), na));
    assert !Taken(top, Label(Stem(start), nb));
  }
}
