/**
 JSON trees and the two containers that hold an object's members: a map ordered by key
 (a `BTreeMap`, and `serde_json::Map` by default) and a map ordered by first insertion
 (`serde_json::Map` under the `preserve_order` feature).
 */
module JsonTree {
  datatype Json =
    | Null
    | Bool(b: bool)
    | Number(n: int)
    | String(s: string)
    | Array(items: seq<Json>)
    | Object(members: seq<Member>)

  datatype Member = Member(key: string, value: Json)

  /** Order of Rust strings: bytewise on UTF-8, which is the order by scalar value. */
  predicate Less(a: string, b: string) {
    if b == [] then false
    else if a == [] then true
    else if a[0] != b[0] then a[0] < b[0]
    else Less(a[1..], b[1..])
  }

  lemma {:induction false} LessIsStrict(a: string, b: string)
    requires Less(a, b)
    ensures a != b && !Less(b, a)
  {
    if a != [] && b != [] && a[0] == b[0] {
      LessIsStrict(a[1..], b[1..]);
    }
  }

  lemma {:induction false} LessIsTotal(a: string, b: string)
    ensures Less(a, b) || a == b || Less(b, a)
  {
    if a != [] && b != [] && a[0] == b[0] {
      LessIsTotal(a[1..], b[1..]);
      assert a == [a[0]] + a[1..] && b == [b[0]] + b[1..];
    }
  }

  lemma {:induction false} LessIsTransitive(a: string, b: string, c: string)
    requires Less(a, b) && Less(b, c)
    ensures Less(a, c)
  {
    if a != [] && a[0] == b[0] == c[0] {
      LessIsTransitive(a[1..], b[1..], c[1..]);
    }
  }

  /** What the members say as a map: a later member overrides an earlier one. */
  function ToMap(ms: seq<Member>): map<string, Json> {
    if ms == [] then map[] else map[ms[0].key := ms[0].value] + ToMap(ms[1..])
  }

  ghost predicate Distinct(ms: seq<Member>) {
    forall i, j :: 0 <= i < j < |ms| ==> ms[i].key != ms[j].key
  }

  ghost predicate Ascending(ms: seq<Member>) {
    forall i, j :: 0 <= i < j < |ms| ==> Less(ms[i].key, ms[j].key)
  }

  lemma AscendingIsDistinct(ms: seq<Member>)
    requires Ascending(ms)
    ensures Distinct(ms)
  {
    forall i, j | 0 <= i < j < |ms| ensures ms[i].key != ms[j].key {
      LessIsStrict(ms[i].key, ms[j].key);
    }
  }

  lemma {:induction false} ToMapAppend(x: seq<Member>, y: seq<Member>)
    ensures ToMap(x + y) == ToMap(x) + ToMap(y)
  {
    if x == [] {
      assert x + y == y;
    } else {
      assert (x + y)[1..] == x[1..] + y;
      ToMapAppend(x[1..], y);
      UpdateAssoc(map[x[0].key := x[0].value], ToMap(x[1..]), ToMap(y));
    }
  }

  lemma {:induction false} ToMapKeys(ms: seq<Member>, k: string)
    ensures k in ToMap(ms) <==> exists i :: 0 <= i < |ms| && ms[i].key == k
  {
    if ms != [] {
      ToMapKeys(ms[1..], k);
      if i :| 0 <= i < |ms| && ms[i].key == k {
        assert i == 0 || ms[1..][i - 1].key == k;
      }
      if i :| 0 <= i < |ms[1..]| && ms[1..][i].key == k {
        assert ms[i + 1].key == k;
      }
    }
  }

  /** With distinct keys no member is lost. */
  lemma {:induction false} ToMapAt(ms: seq<Member>, i: nat)
    requires Distinct(ms) && i < |ms|
    ensures ms[i].key in ToMap(ms) && ToMap(ms)[ms[i].key] == ms[i].value
  {
    if i == 0 {
      ToMapKeys(ms[1..], ms[0].key);
    } else {
      ToMapAt(ms[1..], i - 1);
    }
  }

  /** Every entry of the map comes from a member. */
  lemma {:induction false} ToMapFrom(ms: seq<Member>, k: string) returns (i: nat)
    requires k in ToMap(ms)
    ensures i < |ms| && ms[i] == Member(k, ToMap(ms)[k])
  {
    if k in ToMap(ms[1..]) {
      i := ToMapFrom(ms[1..], k);
      i := i + 1;
    } else {
      i := 0;
    }
  }

  // ----- key-ordered map

  /** `BTreeMap::insert`: keys stay in order and an equal key is overwritten. */
  function Insert(ms: seq<Member>, m: Member): seq<Member> {
    if ms == [] then [m]
    else if m.key == ms[0].key then [m] + ms[1..]
    else if Less(m.key, ms[0].key) then [m] + ms
    else [ms[0]] + Insert(ms[1..], m)
  }

  function InsertAll(ms: seq<Member>, entries: seq<Member>): seq<Member>
    decreases |entries|
  {
    if entries == [] then ms else InsertAll(Insert(ms, entries[0]), entries[1..])
  }

  /** The contents of a key-ordered map after inserting the entries in turn. */
  function BTree(entries: seq<Member>): seq<Member> {
    InsertAll([], entries)
  }

  lemma {:induction false} InsertMembers(ms: seq<Member>, m: Member)
    ensures forall i :: 0 <= i < |Insert(ms, m)| ==> Insert(ms, m)[i] == m || Insert(ms, m)[i] in ms
  {
    if ms != [] && m.key != ms[0].key && !Less(m.key, ms[0].key) {
      InsertMembers(ms[1..], m);
    }
  }

  lemma UpdateAssoc<K, V>(a: map<K, V>, b: map<K, V>, c: map<K, V>)
    ensures (a + b) + c == a + (b + c)
  {
  }

  lemma UpdateRight<K, V>(a: map<K, V>, b: map<K, V>, k: K, v: V)
    ensures a + b[k := v] == (a + b)[k := v]
  {
  }

  lemma UpdateLeft<K, V>(a: map<K, V>, b: map<K, V>, k: K, v: V)
    ensures a[k := v] + b == a + (map[k := v] + b)
  {
  }

  lemma AscendingCons(m: Member, ms: seq<Member>)
    requires Ascending(ms) && forall i :: 0 <= i < |ms| ==> Less(m.key, ms[i].key)
    ensures Ascending([m] + ms)
    ensures m.key !in ToMap(ms)
  {
    if m.key in ToMap(ms) {
      var i := ToMapFrom(ms, m.key);
      LessIsStrict(m.key, ms[i].key);
    }
  }

  lemma AscendingTail(ms: seq<Member>)
    requires Ascending(ms) && ms != []
    ensures Ascending(ms[1..]) && forall i :: 0 <= i < |ms[1..]| ==> Less(ms[0].key, ms[1..][i].key)
  {
  }

  lemma {:induction false} InsertAscending(ms: seq<Member>, m: Member)
    requires Ascending(ms)
    ensures Ascending(Insert(ms, m))
  {
    if ms == [] {
    } else if m.key == ms[0].key {
      AscendingTail(ms);
      AscendingCons(m, ms[1..]);
    } else if Less(m.key, ms[0].key) {
      forall j | 0 <= j < |ms| ensures Less(m.key, ms[j].key) {
        if j > 0 {
          LessIsTransitive(m.key, ms[0].key, ms[j].key);
        }
      }
      AscendingCons(m, ms);
    } else {
      LessIsTotal(m.key, ms[0].key);
      AscendingTail(ms);
      InsertAscending(ms[1..], m);
      InsertMembers(ms[1..], m);
      AscendingCons(ms[0], Insert(ms[1..], m));
    }
  }

  lemma {:induction false} InsertMap(ms: seq<Member>, m: Member)
    requires Ascending(ms)
    ensures ToMap(Insert(ms, m)) == ToMap(ms)[m.key := m.value]
  {
    if ms == [] {
    } else {
      AscendingTail(ms);
      AscendingCons(ms[0], ms[1..]);
      if m.key == ms[0].key {
      } else if Less(m.key, ms[0].key) {
        forall j | 0 <= j < |ms| ensures Less(m.key, ms[j].key) {
          if j > 0 {
            LessIsTransitive(m.key, ms[0].key, ms[j].key);
          }
        }
        AscendingCons(m, ms);
        assert Insert(ms, m)[1..] == ms;
      } else {
        InsertMap(ms[1..], m);
        UpdateRight(map[ms[0].key := ms[0].value], ToMap(ms[1..]), m.key, m.value);
        assert Insert(ms, m)[1..] == Insert(ms[1..], m);
      }
    }
  }

  lemma {:induction false} InsertAllAscending(ms: seq<Member>, entries: seq<Member>)
    requires Ascending(ms)
    ensures Ascending(InsertAll(ms, entries))
    ensures ToMap(InsertAll(ms, entries)) == ToMap(ms) + ToMap(entries)
    decreases |entries|
  {
    if entries != [] {
      InsertAscending(ms, entries[0]);
      InsertMap(ms, entries[0]);
      UpdateLeft(ToMap(ms), ToMap(entries[1..]), entries[0].key, entries[0].value);
      InsertAllAscending(Insert(ms, entries[0]), entries[1..]);
    }
  }

  /** A key-ordered map is in order, agrees with the entries and holds nothing else. */
  lemma BTreeAscending(entries: seq<Member>)
    ensures Ascending(BTree(entries))
    ensures ToMap(BTree(entries)) == ToMap(entries)
    ensures forall i :: 0 <= i < |BTree(entries)| ==> BTree(entries)[i] in entries
  {
    InsertAllAscending([], entries);
    AscendingIsDistinct(BTree(entries));
    forall i | 0 <= i < |BTree(entries)| ensures BTree(entries)[i] in entries {
      ToMapAt(BTree(entries), i);
      var k := ToMapFrom(entries, BTree(entries)[i].key);
    }
  }

  /** Members in key order are determined by the map they stand for. */
  lemma {:induction false} AscendingIsUnique(x: seq<Member>, y: seq<Member>)
    requires Ascending(x) && Ascending(y) && ToMap(x) == ToMap(y)
    ensures x == y
  {
    if x == [] || y == [] {
      if x != [] {
        var i := ToMapFrom(y, x[0].key);
      }
      if y != [] {
        var i := ToMapFrom(x, y[0].key);
      }
    } else {
      var i := ToMapFrom(y, x[0].key);
      var j := ToMapFrom(x, y[0].key);
      if i != 0 && j != 0 {
        assert Less(y[0].key, x[0].key) && Less(x[0].key, y[0].key);
        LessIsStrict(x[0].key, y[0].key);
      }
      AscendingIsDistinct(x);
      AscendingIsDistinct(y);
      assert x[0].key == y[0].key;
      ToMapAt(x, 0);
      ToMapAt(y, 0);
      TailMap(x);
      TailMap(y);
      AscendingIsUnique(x[1..], y[1..]);
      assert x == [x[0]] + x[1..] && y == [y[0]] + y[1..];
    }
  }

  lemma TailMap(ms: seq<Member>)
    requires Distinct(ms) && ms != []
    ensures ToMap(ms[1..]) == ToMap(ms) - {ms[0].key}
  {
    ToMapKeys(ms[1..], ms[0].key);
  }

  /** The container depends only on the map the entries stand for, not on their order. */
  lemma BTreeByMap(x: seq<Member>, y: seq<Member>)
    requires ToMap(x) == ToMap(y)
    ensures BTree(x) == BTree(y)
  {
    BTreeAscending(x);
    BTreeAscending(y);
    AscendingIsUnique(BTree(x), BTree(y));
  }

  lemma BTreeOfAscending(ms: seq<Member>)
    ensures Ascending(ms) <==> BTree(ms) == ms
  {
    BTreeAscending(ms);
    if Ascending(ms) {
      AscendingIsUnique(BTree(ms), ms);
    }
  }

  /** With distinct keys every entry survives. */
  lemma BTreeKeepsAll(entries: seq<Member>, i: nat)
    requires Distinct(entries) && i < |entries|
    ensures entries[i] in BTree(entries)
  {
    BTreeAscending(entries);
    ToMapAt(entries, i);
    var k := ToMapFrom(BTree(entries), entries[i].key);
  }

  /**
   Draining a hash map into a key-ordered map: the hash map hands out its entries in an
   arbitrary order, and the result is the same for every one of them.
   */
  method CollectSorted(fields: map<string, Json>) returns (sorted: seq<Member>)
    ensures Ascending(sorted) && ToMap(sorted) == fields
    ensures forall entries :: ToMap(entries) == fields ==> sorted == BTree(entries)
  {
    sorted := [];
    var left := fields;
    while left != map[]
      invariant Ascending(sorted)
      invariant left.Keys <= fields.Keys
      invariant forall k :: k in left ==> left[k] == fields[k]
      invariant ToMap(sorted) == fields - left.Keys
      decreases left.Keys
    {
      if left.Keys == {} {
        assert false;
      }
      var k :| k in left.Keys;
      InsertAscending(sorted, Member(k, left[k]));
      InsertMap(sorted, Member(k, left[k]));
      DrainOne(fields, left, k);
      sorted := Insert(sorted, Member(k, left[k]));
      left := left - {k};
    }
    assert fields - left.Keys == fields;
    forall entries | ToMap(entries) == fields ensures sorted == BTree(entries) {
      BTreeAscending(entries);
      AscendingIsUnique(sorted, BTree(entries));
    }
  }

  lemma DrainOne<K, V>(fields: map<K, V>, left: map<K, V>, k: K)
    requires k in left && left.Keys <= fields.Keys && left[k] == fields[k]
    ensures (fields - left.Keys)[k := left[k]] == fields - (left - {k}).Keys
  {
  }

  // ----- insertion-ordered map

  /** `IndexMap::insert`: an equal key is overwritten in place, a new one goes last. */
  function Put(ms: seq<Member>, m: Member): seq<Member> {
    if ms == [] then [m]
    else if m.key == ms[0].key then [m] + ms[1..]
    else [ms[0]] + Put(ms[1..], m)
  }

  function PutAll(ms: seq<Member>, entries: seq<Member>): seq<Member>
    decreases |entries|
  {
    if entries == [] then ms else PutAll(Put(ms, entries[0]), entries[1..])
  }

  function IndexMap(entries: seq<Member>): seq<Member> {
    PutAll([], entries)
  }

  lemma {:induction false} PutNew(ms: seq<Member>, m: Member)
    requires forall i :: 0 <= i < |ms| ==> ms[i].key != m.key
    ensures Put(ms, m) == ms + [m]
  {
    if ms != [] {
      PutNew(ms[1..], m);
    }
  }

  lemma {:induction false} PutAllDistinct(ms: seq<Member>, entries: seq<Member>)
    requires Distinct(ms + entries)
    ensures PutAll(ms, entries) == ms + entries
    decreases |entries|
  {
    if entries != [] {
      forall i | 0 <= i < |ms| ensures ms[i].key != entries[0].key {
        assert (ms + entries)[i].key != (ms + entries)[|ms|].key;
      }
      PutNew(ms, entries[0]);
      assert ms + entries == (ms + [entries[0]]) + entries[1..];
      PutAllDistinct(ms + [entries[0]], entries[1..]);
    }
  }

  /** Entries with distinct keys stay in the order in which they were inserted. */
  lemma IndexMapDistinct(entries: seq<Member>)
    requires Distinct(entries)
    ensures IndexMap(entries) == entries
  {
    PutAllDistinct([], entries);
    assert [] + entries == entries;
  }

  lemma {:induction false} PutMap(ms: seq<Member>, m: Member)
    requires Distinct(ms)
    ensures ToMap(Put(ms, m)) == ToMap(ms)[m.key := m.value]
    ensures Distinct(Put(ms, m))
    ensures forall i :: 0 <= i < |Put(ms, m)| ==> Put(ms, m)[i] == m || Put(ms, m)[i] in ms
  {
    if ms != [] {
      if m.key == ms[0].key {
        ToMapKeys(ms[1..], m.key);
      } else {
        PutMap(ms[1..], m);
        UpdateRight(map[ms[0].key := ms[0].value], ToMap(ms[1..]), m.key, m.value);
        assert Put(ms, m)[1..] == Put(ms[1..], m);
      }
    }
  }

  lemma {:induction false} PutAllMap(ms: seq<Member>, entries: seq<Member>)
    requires Distinct(ms)
    ensures Distinct(PutAll(ms, entries))
    ensures ToMap(PutAll(ms, entries)) == ToMap(ms) + ToMap(entries)
    decreases |entries|
  {
    if entries != [] {
      PutMap(ms, entries[0]);
      UpdateLeft(ToMap(ms), ToMap(entries[1..]), entries[0].key, entries[0].value);
      PutAllMap(Put(ms, entries[0]), entries[1..]);
    }
  }

  lemma IndexMapMap(entries: seq<Member>)
    ensures Distinct(IndexMap(entries)) && ToMap(IndexMap(entries)) == ToMap(entries)
  {
    PutAllMap([], entries);
  }
}
