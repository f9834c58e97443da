/**
 The canonical form of a JSON tree: the object members of every level in key order.
 */
module Canonical {
  import opened Wrappers
  import opened JsonTree

  /** Recursive key sort; `Sort` is also what collecting into key-ordered maps yields. */
  function Sort(j: Json): Json
    decreases j, 1
  {
    match j
    case Object(members) => Object(BTree(SortValues(members)))
    case Array(items) => Array(SortItems(items))
    case _ => j
  }

  function SortValues(ms: seq<Member>): (r: seq<Member>)
    ensures |r| == |ms|
    ensures forall i :: 0 <= i < |ms| ==> r[i] == Member(ms[i].key, Sort(ms[i].value))
    decreases ms, 0
  {
    seq(|ms|, i requires 0 <= i < |ms| => Member(ms[i].key, Sort(ms[i].value)))
  }

  function SortItems(items: seq<Json>): (r: seq<Json>)
    ensures |r| == |items|
    ensures forall i :: 0 <= i < |items| ==> r[i] == Sort(items[i])
    decreases items, 0
  {
    seq(|items|, i requires 0 <= i < |items| => Sort(items[i]))
  }

  /** Keys of every object are distinct: true of every tree held in `serde_json` maps. */
  ghost predicate WellFormed(j: Json) {
    match j
    case Object(ms) => Distinct(ms) && forall i :: 0 <= i < |ms| ==> WellFormed(ms[i].value)
    case Array(items) => forall i :: 0 <= i < |items| ==> WellFormed(items[i])
    case _ => true
  }

  /** Members of every object are in key order. */
  ghost predicate IsCanonical(j: Json) {
    match j
    case Object(ms) => Ascending(ms) && forall i :: 0 <= i < |ms| ==> IsCanonical(ms[i].value)
    case Array(items) => forall i :: 0 <= i < |items| ==> IsCanonical(items[i])
    case _ => true
  }

  /** Equality up to a permutation of the members of each object. */
  ghost predicate Equivalent(a: Json, b: Json) {
    match (a, b)
    case (Object(ms), Object(ns)) =>
      && ToMap(ms).Keys == ToMap(ns).Keys
      && forall i, j :: 0 <= i < |ms| && 0 <= j < |ns| && ms[i].key == ns[j].key
                        ==> Equivalent(ms[i].value, ns[j].value)
    case (Array(xs), Array(ys)) =>
      |xs| == |ys| && forall i :: 0 <= i < |xs| ==> Equivalent(xs[i], ys[i])
    case _ => a == b
  }

  // ----- canonical form

  lemma {:induction false} SortIsCanonical(j: Json)
    ensures IsCanonical(Sort(j))
  {
    match j
    case Object(ms) =>
      BTreeAscending(SortValues(ms));
      forall i | 0 <= i < |ms| ensures IsCanonical(SortValues(ms)[i].value) {
        SortIsCanonical(ms[i].value);
      }
    case Array(items) =>
      forall i | 0 <= i < |items| ensures IsCanonical(SortItems(items)[i]) {
        SortIsCanonical(items[i]);
      }
    case _ =>
  }

  lemma {:induction false} SortOfCanonical(j: Json)
    requires IsCanonical(j)
    ensures Sort(j) == j
  {
    match j
    case Object(ms) =>
      forall i | 0 <= i < |ms| ensures SortValues(ms)[i] == ms[i] {
        SortOfCanonical(ms[i].value);
      }
      assert SortValues(ms) == ms;
      BTreeOfAscending(ms);
    case Array(items) =>
      forall i | 0 <= i < |items| ensures SortItems(items)[i] == items[i] {
        SortOfCanonical(items[i]);
      }
      assert SortItems(items) == items;
    case _ =>
  }

  lemma SortFixpoints(j: Json)
    ensures Sort(j) == j <==> IsCanonical(j)
    ensures Sort(Sort(j)) == Sort(j)
  {
    SortIsCanonical(j);
    SortOfCanonical(Sort(j));
    if IsCanonical(j) {
      SortOfCanonical(j);
    }
  }

  lemma {:induction false} CanonicalIsWellFormed(j: Json)
    requires IsCanonical(j)
    ensures WellFormed(j)
  {
    match j
    case Object(ms) =>
      AscendingIsDistinct(ms);
      forall i | 0 <= i < |ms| ensures WellFormed(ms[i].value) {
        CanonicalIsWellFormed(ms[i].value);
      }
    case Array(items) =>
      forall i | 0 <= i < |items| ensures WellFormed(items[i]) {
        CanonicalIsWellFormed(items[i]);
      }
    case _ =>
  }

  // ----- complete invariant of equivalence

  lemma {:induction false} SortValuesMap(ms: seq<Member>)
    ensures ToMap(SortValues(ms)) == map k | k in ToMap(ms) :: Sort(ToMap(ms)[k])
  {
    if ms != [] {
      SortValuesMap(ms[1..]);
      assert SortValues(ms)[1..] == SortValues(ms[1..]);
    }
  }

  /** The maps agree when the members found under one key do. */
  lemma SameSortedMap(ms: seq<Member>, ns: seq<Member>)
    requires ToMap(ms).Keys == ToMap(ns).Keys
    requires forall i, j :: 0 <= i < |ms| && 0 <= j < |ns| && ms[i].key == ns[j].key
                            ==> Sort(ms[i].value) == Sort(ns[j].value)
    ensures BTree(SortValues(ms)) == BTree(SortValues(ns))
  {
    SortValuesMap(ms);
    SortValuesMap(ns);
    forall k | k in ToMap(ms) ensures Sort(ToMap(ms)[k]) == Sort(ToMap(ns)[k]) {
      var i := ToMapFrom(ms, k);
      var j := ToMapFrom(ns, k);
    }
    BTreeByMap(SortValues(ms), SortValues(ns));
  }

  lemma {:induction false} EquivalentSortsAlike(a: Json, b: Json)
    requires Equivalent(a, b)
    ensures Sort(a) == Sort(b)
  {
    match (a, b)
    case (Object(ms), Object(ns)) =>
      forall i, j | 0 <= i < |ms| && 0 <= j < |ns| && ms[i].key == ns[j].key
        ensures Sort(ms[i].value) == Sort(ns[j].value)
      {
        EquivalentSortsAlike(ms[i].value, ns[j].value);
      }
      SameSortedMap(ms, ns);
    case (Array(xs), Array(ys)) =>
      forall i | 0 <= i < |xs| ensures SortItems(xs)[i] == SortItems(ys)[i] {
        EquivalentSortsAlike(xs[i], ys[i]);
      }
      assert SortItems(xs) == SortItems(ys);
    case _ =>
  }

  lemma {:induction false} SortsAlikeEquivalent(a: Json, b: Json)
    requires WellFormed(a) && WellFormed(b) && Sort(a) == Sort(b)
    ensures Equivalent(a, b)
  {
    match (a, b)
    case (Object(ms), Object(ns)) =>
      BTreeAscending(SortValues(ms));
      BTreeAscending(SortValues(ns));
      SortValuesMap(ms);
      SortValuesMap(ns);
      assert ToMap(ms).Keys == ToMap(SortValues(ms)).Keys == ToMap(SortValues(ns)).Keys == ToMap(ns).Keys;
      forall i, j | 0 <= i < |ms| && 0 <= j < |ns| && ms[i].key == ns[j].key
        ensures Equivalent(ms[i].value, ns[j].value)
      {
        ToMapAt(SortValues(ms), i);
        ToMapAt(SortValues(ns), j);
        SortsAlikeEquivalent(ms[i].value, ns[j].value);
      }
    case (Array(xs), Array(ys)) =>
      forall i | 0 <= i < |xs| ensures |xs| == |ys| && Equivalent(xs[i], ys[i]) {
        assert SortItems(xs)[i] == SortItems(ys)[i];
        SortsAlikeEquivalent(xs[i], ys[i]);
      }
      assert |SortItems(xs)| == |SortItems(ys)|;
    case _ =>
  }

  /** Two trees have one canonical form exactly when they differ in key order only. */
  lemma SortIsCompleteInvariant(a: Json, b: Json)
    requires WellFormed(a) && WellFormed(b)
    ensures Sort(a) == Sort(b) <==> Equivalent(a, b)
  {
    if Equivalent(a, b) {
      EquivalentSortsAlike(a, b);
    }
    if Sort(a) == Sort(b) {
      SortsAlikeEquivalent(a, b);
    }
  }

  // ----- values at paths

  datatype Step = Key(key: string) | Index(index: nat)

  function Lookup(j: Json, path: seq<Step>): Option<Json>
    decreases path
  {
    if path == [] then Some(j)
    else match (path[0], j)
      case (Key(k), Object(ms)) => if k in ToMap(ms) then Lookup(ToMap(ms)[k], path[1..]) else None
      case (Index(i), Array(items)) => if i < |items| then Lookup(items[i], path[1..]) else None
      case _ => None
  }

  /** Sorting moves no value: the same paths exist and lead to the sorted same values. */
  lemma {:induction false} SortKeepsPaths(j: Json, path: seq<Step>)
    ensures Lookup(Sort(j), path) == match Lookup(j, path) case Some(v) => Some(Sort(v)) case None => None
    decreases path
  {
    if path != [] {
      match (path[0], j)
      case (Key(k), Object(ms)) =>
        BTreeAscending(SortValues(ms));
        SortValuesMap(ms);
        if k in ToMap(ms) {
          SortKeepsPaths(ToMap(ms)[k], path[1..]);
        }
      case (Index(i), Array(items)) =>
        if i < |items| {
          SortKeepsPaths(items[i], path[1..]);
        }
      case _ =>
    }
  }

  // ----- the functions as written: loops over the members and items

  /** Recursive sort that fills a key-ordered map entry by entry. */
  method SortJsonAlphabetically(value: Json) returns (sorted: Json)
    ensures sorted == Sort(value)
    decreases value
  {
    match value
    case Object(members) =>
      var sortedMap: seq<Member> := [];
      for i := 0 to |members|
        invariant InsertAll(sortedMap, SortValues(members)[i..]) == BTree(SortValues(members))
      {
        var v := SortJsonAlphabetically(members[i].value);
        assert SortValues(members)[i] == Member(members[i].key, v);
        assert SortValues(members)[i..][1..] == SortValues(members)[i + 1..];
        sortedMap := Insert(sortedMap, Member(members[i].key, v));
      }
      sorted := Object(sortedMap);
    case Array(items) =>
      var out: seq<Json> := [];
      for i := 0 to |items|
        invariant out == SortItems(items)[..i]
      {
        var v := SortJsonAlphabetically(items[i]);
        out := out + [v];
      }
      sorted := Array(out);
    case _ =>
      sorted := value;
  }

  function Keys(ms: seq<Member>): (ks: seq<string>)
    ensures |ks| == |ms| && forall i :: 0 <= i < |ms| ==> ks[i] == ms[i].key
  {
    seq(|ms|, i requires 0 <= i < |ms| => ms[i].key)
  }

  function InsertKey(ks: seq<string>, k: string): seq<string> {
    if ks == [] || Less(k, ks[0]) then [k] + ks else [ks[0]] + InsertKey(ks[1..], k)
  }

  /** `Vec::sort` on strings: a stable sort that keeps duplicates. */
  function SortKeys(ks: seq<string>): seq<string> {
    if ks == [] then [] else InsertKey(SortKeys(ks[..|ks| - 1]), ks[|ks| - 1])
  }

  ghost predicate NonDescending(ks: seq<string>) {
    forall i, j :: 0 <= i < j < |ks| ==> !Less(ks[j], ks[i])
  }

  lemma {:induction false} InsertKeyAppends(ks: seq<string>, k: string)
    requires forall i :: 0 <= i < |ks| ==> !Less(k, ks[i])
    ensures InsertKey(ks, k) == ks + [k]
  {
    if ks != [] {
      InsertKeyAppends(ks[1..], k);
    }
  }

  lemma {:induction false} InsertKeyMembers(ks: seq<string>, k: string)
    ensures multiset(InsertKey(ks, k)) == multiset(ks) + multiset{k}
  {
    if ks != [] && !Less(k, ks[0]) {
      InsertKeyMembers(ks[1..], k);
      assert ks == [ks[0]] + ks[1..];
    }
  }

  lemma NonDescendingCons(k: string, ks: seq<string>)
    requires NonDescending(ks) && forall i :: 0 <= i < |ks| ==> !Less(ks[i], k)
    ensures NonDescending([k] + ks)
  {
  }

  lemma {:induction false} InsertKeySorts(ks: seq<string>, k: string)
    requires NonDescending(ks)
    ensures NonDescending(InsertKey(ks, k))
  {
    if ks == [] {
    } else if Less(k, ks[0]) {
      forall i | 0 <= i < |ks| ensures !Less(ks[i], k) {
        if Less(ks[i], k) {
          LessIsTransitive(ks[i], k, ks[0]);
          LessIsStrict(ks[i], ks[0]);
        }
      }
      NonDescendingCons(k, ks);
    } else {
      var tail := InsertKey(ks[1..], k);
      InsertKeySorts(ks[1..], k);
      InsertKeyMembers(ks[1..], k);
      forall i | 0 <= i < |tail| ensures !Less(tail[i], ks[0]) {
        assert tail[i] in multiset(tail);
        assert tail[i] == k || tail[i] in ks[1..];
      }
      NonDescendingCons(ks[0], tail);
    }
  }

  lemma {:induction false} SortKeysSorts(ks: seq<string>)
    ensures NonDescending(SortKeys(ks))
    ensures multiset(SortKeys(ks)) == multiset(ks)
    ensures NonDescending(ks) <==> SortKeys(ks) == ks
  {
    if ks != [] {
      var init := ks[..|ks| - 1];
      SortKeysSorts(init);
      InsertKeySorts(SortKeys(init), ks[|ks| - 1]);
      InsertKeyMembers(SortKeys(init), ks[|ks| - 1]);
      assert ks == init + [ks[|ks| - 1]];
      if NonDescending(ks) {
        InsertKeyAppends(init, ks[|ks| - 1]);
      }
    }
  }

  lemma OrderedKeysAscend(ms: seq<Member>)
    requires Distinct(ms)
    ensures SortKeys(Keys(ms)) == Keys(ms) <==> Ascending(ms)
  {
    SortKeysSorts(Keys(ms));
    forall i, j | 0 <= i < j < |ms| ensures !Less(ms[j].key, ms[i].key) <==> Less(ms[i].key, ms[j].key) {
      LessIsTotal(ms[i].key, ms[j].key);
      if Less(ms[i].key, ms[j].key) {
        LessIsStrict(ms[i].key, ms[j].key);
      }
    }
    if NonDescending(Keys(ms)) {
      forall i, j | 0 <= i < j < |ms| ensures Less(ms[i].key, ms[j].key) {
        assert !Less(Keys(ms)[j], Keys(ms)[i]);
      }
    }
  }

  /** The check with early returns: compare the keys with their sorted copy, then descend. */
  method VerifyJsonDeterministic(value: Json) returns (ok: bool)
    requires WellFormed(value)
    ensures ok <==> IsCanonical(value)
    decreases value
  {
    match value
    case Object(members) =>
      OrderedKeysAscend(members);
      if Keys(members) != SortKeys(Keys(members)) {
        return false;
      }
      for i := 0 to |members|
        invariant forall k :: 0 <= k < i ==> IsCanonical(members[k].value)
      {
        var nested := VerifyJsonDeterministic(members[i].value);
        if !nested {
          return false;
        }
      }
      return true;
    case Array(items) =>
      for i := 0 to |items|
        invariant forall k :: 0 <= k < i ==> IsCanonical(items[k])
      {
        var nested := VerifyJsonDeterministic(items[i]);
        if !nested {
          return false;
        }
      }
      return true;
    case _ =>
      return true;
  }

  /** `verify_deterministic_ordering`: it passes exactly on the trees the sort leaves alone. */
  method VerifyDeterministicOrdering(value: Json) returns (ok: bool)
    requires WellFormed(value)
    ensures ok <==> Sort(value) == value
  {
    SortFixpoints(value);
    ok := VerifyJsonDeterministic(value);
  }
}
