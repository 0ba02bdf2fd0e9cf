/** Values that may be absent, and small facts about sequences and sets. */
module Wrappers {
  datatype Option<+T> = None | Some(value: T)

  ghost predicate Distinct<T(!new)>(s: seq<T>) { forall i, j :: 0 <= i < j < |s| ==> s[i] != s[j] }

  function DropAt<T>(s: seq<T>, pos: nat): seq<T>
    requires pos < |s|
  {
    s[..pos] + s[pos + 1..]
  }

  lemma Regroup<T>(a: seq<T>, b: seq<T>, c: seq<T>)
    ensures a + (b + c) == (a + b) + c
  {}

  lemma Member<T>(s: set<T>) returns (x: T)
    requires s != {}
    ensures x in s
  {
    x :| x in s;
  }

  lemma SubsetSize<T>(a: set<T>, b: set<T>)
    requires a <= b
    ensures |a| <= |b|
  {
    assert b == a + (b - a);
  }

  /** `s` names the members of `ids`, each once. */
  ghost predicate Lists<T(!new)>(s: seq<T>, ids: set<T>) { Distinct(s) && forall x :: x in s <==> x in ids }

  lemma ListsMember<T(!new)>(s: seq<T>, ids: set<T>, i: nat)
    requires Lists(s, ids) && i < |s|
    ensures s[i] in ids
  {
    var x := s[i];
    assert x in s;
    assert x in ids;
  }

  lemma {:induction false} ListSize<T(!new)>(s: seq<T>, ids: set<T>)
    requires Lists(s, ids)
    ensures |s| == |ids|
  {
    if s == [] {
      if ids != {} {
        var w := Member(ids);
        assert false;
      }
    } else {
      var n := |s| - 1;
      assert s == s[..n] + [s[n]] && s[n] !in s[..n];
      ListsMember(s, ids, n);
      ListSize(s[..n], ids - {s[n]});
    }
  }
}
