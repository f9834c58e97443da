/** Which positions of a sequence a filter keeps. */
module Selections {
  ghost predicate StrictlyIncreasing(ps: seq<nat>) {
    forall a, b :: 0 <= a < b < |ps| ==> ps[a] < ps[b]
  }

  /** The positions, in order, of exactly the items that are kept. */
  ghost predicate IsSelection<T(!new)>(ps: seq<nat>, s: seq<T>, keep: T -> bool) {
    && StrictlyIncreasing(ps)
    && (forall k :: 0 <= k < |ps| ==> ps[k] < |s|)
    && forall i :: 0 <= i < |s| ==> (i in ps <==> keep(s[i]))
  }

  /** The items at the positions, each turned into a value. */
  ghost predicate IsImage<T, U(!new)>(r: seq<U>, ps: seq<nat>, s: seq<T>, image: T -> U)
    requires forall k :: 0 <= k < |ps| ==> ps[k] < |s|
  {
    |r| == |ps| && forall k :: 0 <= k < |r| ==> r[k] == image(s[ps[k]])
  }

  /** `r` is `s` filtered and mapped: every kept item once, in order, and nothing else. */
  ghost predicate IsFilterMap<T(!new), U(!new)>(r: seq<U>, s: seq<T>, keep: T -> bool, image: T -> U) {
    exists ps :: IsSelection(ps, s, keep) && IsImage(r, ps, s, image)
  }

  function Shift(ps: seq<nat>): (r: seq<nat>)
    ensures |r| == |ps| && forall k :: 0 <= k < |ps| ==> r[k] == ps[k] + 1
  {
    seq(|ps|, k requires 0 <= k < |ps| => ps[k] + 1)
  }

  lemma ShiftMember(ps: seq<nat>, i: nat)
    ensures i in Shift(ps) <==> i > 0 && i - 1 in ps
  {
    if i > 0 && i - 1 in ps {
      var k :| 0 <= k < |ps| && ps[k] == i - 1;
      assert Shift(ps)[k] == i;
    }
  }

  lemma ConsSelection<T(!new)>(ps: seq<nat>, s: seq<T>, keep: T -> bool)
    requires s != [] && IsSelection(ps, s[1..], keep)
    ensures IsSelection((if keep(s[0]) then [0] else []) + Shift(ps), s, keep)
  {
    var qs := (if keep(s[0]) then [0] else []) + Shift(ps);
    forall i | 0 <= i < |s| ensures i in qs <==> keep(s[i]) {
      ShiftMember(ps, i);
      assert i > 0 ==> s[i] == s[1..][i - 1];
    }
  }

  /** One more item in front. */
  lemma ConsFilterMap<T(!new), U(!new)>(r: seq<U>, s: seq<T>, keep: T -> bool, image: T -> U)
    requires s != [] && IsFilterMap(r, s[1..], keep, image)
    ensures IsFilterMap((if keep(s[0]) then [image(s[0])] else []) + r, s, keep, image)
  {
    var ps :| IsSelection(ps, s[1..], keep) && IsImage(r, ps, s[1..], image);
    ConsSelection(ps, s, keep);
    var qs := (if keep(s[0]) then [0] else []) + Shift(ps);
    assert IsImage((if keep(s[0]) then [image(s[0])] else []) + r, qs, s, image);
  }

  lemma EmptyFilterMap<T(!new), U(!new)>(keep: T -> bool, image: T -> U)
    ensures IsFilterMap([], [], keep, image)
  {
    assert IsSelection([], [], keep) && IsImage([], [], [], image);
  }

  /** Positions are determined by what is kept. */
  lemma {:induction false} SelectionIsUnique<T(!new)>(ps: seq<nat>, qs: seq<nat>, s: seq<T>, keep: T -> bool)
    requires IsSelection(ps, s, keep) && IsSelection(qs, s, keep)
    ensures ps == qs
  {
    forall i: nat ensures i in ps <==> i in qs {
      if i in ps || i in qs {
        assert i < |s|;
      }
    }
    SameIncreasing(ps, qs);
  }

  lemma TailMember(ps: seq<nat>, i: nat)
    requires StrictlyIncreasing(ps) && ps != []
    ensures i in ps[1..] <==> i in ps && i != ps[0]
  {
    if i in ps[1..] {
      var k :| 0 <= k < |ps[1..]| && ps[1..][k] == i;
      assert ps[k + 1] == i;
    }
    assert ps == [ps[0]] + ps[1..];
  }

  lemma {:induction false} SameIncreasing(ps: seq<nat>, qs: seq<nat>)
    requires StrictlyIncreasing(ps) && StrictlyIncreasing(qs)
    requires forall i: nat :: i in ps <==> i in qs
    ensures ps == qs
    decreases |ps|
  {
    assert qs != [] ==> qs[0] in qs;
    if ps != [] {
      assert ps[0] in qs && qs[0] in ps;
      assert ps[0] == qs[0];
      forall i: nat ensures i in ps[1..] <==> i in qs[1..] {
        TailMember(ps, i);
        TailMember(qs, i);
      }
      SameIncreasing(ps[1..], qs[1..]);
    }
  }

  /** So a filter has one result. */
  lemma FilterMapIsUnique<T(!new), U(!new)>(r: seq<U>, t: seq<U>, s: seq<T>, keep: T -> bool, image: T -> U)
    requires IsFilterMap(r, s, keep, image) && IsFilterMap(t, s, keep, image)
    ensures r == t
  {
    var ps :| IsSelection(ps, s, keep) && IsImage(r, ps, s, image);
    var qs :| IsSelection(qs, s, keep) && IsImage(t, qs, s, image);
    SelectionIsUnique(ps, qs, s, keep);
  }
}
