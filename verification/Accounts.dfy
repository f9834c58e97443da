/**
 Accounts of a Solana message: signer and writable flags computed from the header, the
 sort by importance, and the summary counts. `decode_v0_accounts` repeats the text of
 `decode_accounts` on the same header and static keys; the model has one function for both.
 */
module Accounts {
  import opened TokenAmount

  datatype Header = Header(required: u8, readonlySigned: u8, readonlyUnsigned: u8)

  datatype Account = Account(address: string, isSigner: bool, isWritable: bool, originalIndex: nat)

  // ----- flags

  /** `usize` subtraction: on underflow it panics, or wraps when checks are compiled out. */
  function Subtract(a: nat, b: nat, overflowChecks: bool): Outcome<nat> {
    if b <= a then Returned(a - b)
    else if overflowChecks then Panicked
    else Returned((a - b) % U64_RANGE)
  }

  function IsWritable(h: Header, keys: nat, i: nat, overflowChecks: bool): Outcome<bool>
    requires i < keys
  {
    if i < h.required then
      match Subtract(h.required, h.readonlySigned, overflowChecks)
      case Panicked => Panicked
      case Returned(readonlySignerStart) => Returned(i < readonlySignerStart)
    else
      match Subtract(keys - h.required, h.readonlyUnsigned, overflowChecks)
      case Panicked => Panicked
      case Returned(writableNonSigners) => Returned(i - h.required < writableNonSigners)
  }

  /** Flags of the first `n` accounts, computed in key order; the first panic wins. */
  function Flagged(h: Header, keys: seq<string>, n: nat, overflowChecks: bool): Outcome<seq<Account>>
    requires n <= |keys|
  {
    if n == 0 then Returned([])
    else
      match Flagged(h, keys, n - 1, overflowChecks)
      case Panicked => Panicked
      case Returned(accounts) =>
        match IsWritable(h, |keys|, n - 1, overflowChecks)
        case Panicked => Panicked
        case Returned(isWritable) =>
          Returned(accounts + [Account(keys[n - 1], n - 1 < h.required, isWritable, n - 1)])
  }

  // ----- order of importance

  function Category(a: Account): nat {
    if a.isSigner && a.isWritable then 0
    else if a.isSigner && !a.isWritable then 1
    else if !a.isSigner && a.isWritable then 2
    else 3
  }

  /** Category first, then original position. */
  predicate Precedes(a: Account, b: Account) {
    Category(a) < Category(b) || (Category(a) == Category(b) && a.originalIndex <= b.originalIndex)
  }

  /** Signers first, among equals the writable ones, and otherwise the original order. */
  lemma PrecedesByImportance(a: Account, b: Account)
    ensures a.isSigner != b.isSigner ==> (Precedes(a, b) <==> a.isSigner)
    ensures a.isSigner == b.isSigner && a.isWritable != b.isWritable ==> (Precedes(a, b) <==> a.isWritable)
    ensures a.isSigner == b.isSigner && a.isWritable == b.isWritable ==>
            (Precedes(a, b) <==> a.originalIndex <= b.originalIndex)
  {
  }

  ghost predicate Sorted(s: seq<Account>) {
    forall i, j :: 0 <= i < j < |s| ==> Precedes(s[i], s[j])
  }

  ghost predicate NeighborsSorted(s: seq<Account>) {
    forall i :: 0 < i < |s| ==> Precedes(s[i - 1], s[i])
  }

  lemma {:induction false} NeighborsAreEnough(s: seq<Account>)
    requires NeighborsSorted(s)
    ensures Sorted(s)
  {
    if s != [] {
      NeighborsAreEnough(s[1..]);
      forall j | 0 < j < |s| ensures Precedes(s[0], s[j]) {
        assert Precedes(s[0], s[1]);
        assert j > 1 ==> Precedes(s[1..][0], s[1..][j - 1]);
      }
      forall i, j | 0 < i < j < |s| ensures Precedes(s[i], s[j]) {
        assert Precedes(s[1..][i - 1], s[1..][j - 1]);
      }
    }
  }

  lemma SwapKeepsMultiset(s: seq<Account>, i: nat)
    requires i + 1 < |s|
    ensures multiset(s[i := s[i + 1]][i + 1 := s[i]]) == multiset(s)
  {
    assert s == s[..i] + [s[i], s[i + 1]] + s[i + 2..];
    assert s[i := s[i + 1]][i + 1 := s[i]] == s[..i] + [s[i + 1], s[i]] + s[i + 2..];
  }

  method SwapWithNext(a: array<Account>, i: nat)
    requires i + 1 < a.Length
    modifies a
    ensures a[i] == old(a[i + 1]) && a[i + 1] == old(a[i])
    ensures forall k :: 0 <= k < a.Length && k != i && k != i + 1 ==> a[k] == old(a[k])
    ensures multiset(a[..]) == multiset(old(a[..]))
  {
    SwapKeepsMultiset(a[..], i);
    ghost var was := a[..];
    a[i], a[i + 1] := a[i + 1], a[i];
    assert a[..] == was[i := was[i + 1]][i + 1 := was[i]];
  }

  /** Moves the account at `i` down to its place among the sorted ones before it. */
  method InsertAt(a: array<Account>, i: nat)
    requires i < a.Length && NeighborsSorted(a[..i])
    modifies a
    ensures NeighborsSorted(a[..i + 1])
    ensures multiset(a[..]) == multiset(old(a[..]))
  {
    var j := i;
    while j > 0 && !Precedes(a[j - 1], a[j])
      invariant 0 <= j <= i
      invariant forall k :: 0 < k <= i && k != j ==> Precedes(a[k - 1], a[k])
      invariant 0 < j < i ==> Precedes(a[j - 1], a[j + 1])
      invariant multiset(a[..]) == multiset(old(a[..]))
    {
      SwapWithNext(a, j - 1);
      j := j - 1;
    }
  }

  /** `accounts.sort_by`: the vector is sorted in place. */
  method SortAccounts(a: array<Account>)
    modifies a
    ensures Sorted(a[..])
    ensures multiset(a[..]) == multiset(old(a[..]))
  {
    for i := 0 to a.Length
      invariant NeighborsSorted(a[..i])
      invariant multiset(a[..]) == multiset(old(a[..]))
    {
      InsertAt(a, i);
    }
    assert a[..a.Length] == a[..];
    NeighborsAreEnough(a[..]);
  }

  ghost predicate DistinctPositions(s: seq<Account>) {
    forall i, j :: 0 <= i < j < |s| ==> s[i].originalIndex != s[j].originalIndex
  }

  lemma SameHead(x: seq<Account>, y: seq<Account>)
    requires Sorted(x) && Sorted(y) && DistinctPositions(x)
    requires x != [] && y != [] && x[0] in y && y[0] in x
    ensures x[0] == y[0]
  {
    var k :| 0 <= k < |x| && x[k] == y[0];
    var n :| 0 <= n < |y| && y[n] == x[0];
    assert Precedes(x[0], y[0]) && Precedes(y[0], x[0]);
  }

  /** Distinct positions make the sorted arrangement unique. */
  lemma {:induction false} SortedIsUnique(x: seq<Account>, y: seq<Account>)
    requires Sorted(x) && Sorted(y) && multiset(x) == multiset(y)
    requires DistinctPositions(x)
    ensures x == y
  {
    if x == [] {
      SameMembers(x, y);
    } else {
      SameMembers(x, y);
      SameHead(x, y);
      assert x == [x[0]] + x[1..] && y == [y[0]] + y[1..];
      TailMultiset(x);
      TailMultiset(y);
      SortedIsUnique(x[1..], y[1..]);
    }
  }

  lemma SameMembers(x: seq<Account>, y: seq<Account>)
    requires multiset(x) == multiset(y)
    ensures x == [] <==> y == []
    ensures x != [] ==> x[0] in y && y[0] in x
  {
    assert |x| == |multiset(x)| && |y| == |multiset(y)|;
    if x != [] {
      assert x[0] in multiset(y) && y[0] in multiset(x);
    }
  }

  lemma TailMultiset(s: seq<Account>)
    requires s != []
    ensures multiset(s[1..]) == multiset(s) - multiset{s[0]}
  {
    assert s == [s[0]] + s[1..];
  }

  // ----- what the flags are

  /** No subtraction that is evaluated underflows. */
  predicate NoUnderflow(h: Header, keys: nat) {
    && (keys > 0 && h.required > 0 ==> h.readonlySigned <= h.required)
    && (keys > h.required ==> h.readonlyUnsigned <= keys - h.required)
  }

  /** A header that accounts for the keys: what message validation demands. */
  predicate WellFormedHeader(h: Header, keys: nat) {
    && h.readonlySigned <= h.required <= keys
    && h.readonlyUnsigned <= keys - h.required
  }

  /** Writable: all but the last readonly ones of each group, or everything once wrapped. */
  function Writable(h: Header, keys: nat, i: nat): bool
    requires i < keys
  {
    if i < h.required then h.readonlySigned > h.required || i < h.required - h.readonlySigned
    else h.readonlyUnsigned > keys - h.required || i < keys - h.readonlyUnsigned
  }

  ghost predicate IsFlagging(h: Header, keys: seq<string>, accounts: seq<Account>) {
    && |accounts| <= |keys|
    && forall i :: 0 <= i < |accounts| ==>
         accounts[i] == Account(keys[i], i < h.required, Writable(h, |keys|, i), i)
  }

  lemma WritableFlag(h: Header, keys: nat, i: nat, overflowChecks: bool)
    requires i < keys
    ensures IsWritable(h, keys, i, overflowChecks) ==
            if overflowChecks && (if i < h.required then h.readonlySigned > h.required
                                  else h.readonlyUnsigned > keys - h.required)
            then Panicked else Returned(Writable(h, keys, i))
  {
    if i < h.required && h.readonlySigned > h.required {
      WrappedDifference(h.required, h.readonlySigned);
    }
    if i >= h.required && h.readonlyUnsigned > keys - h.required {
      WrappedDifference(keys - h.required, h.readonlyUnsigned);
    }
  }

  lemma WrappedDifference(a: nat, b: u8)
    requires a < b
    ensures (a - b) % U64_RANGE == a - b + U64_RANGE
  {
  }

  lemma {:induction false} FlaggedIs(h: Header, keys: seq<string>, n: nat, overflowChecks: bool)
    requires n <= |keys|
    ensures Flagged(h, keys, n, overflowChecks).Panicked? <==>
            overflowChecks && ((n > 0 && h.required > 0 && h.readonlySigned > h.required)
                               || (n > h.required && h.readonlyUnsigned > |keys| - h.required))
    ensures Flagged(h, keys, n, overflowChecks).Returned? ==>
            |Flagged(h, keys, n, overflowChecks).value| == n
            && IsFlagging(h, keys, Flagged(h, keys, n, overflowChecks).value)
  {
    if n > 0 {
      FlaggedIs(h, keys, n - 1, overflowChecks);
      WritableFlag(h, |keys|, n - 1, overflowChecks);
    }
  }

  /** Categories never decrease along the keys, so the flagged accounts are sorted already. */
  lemma FlaggingIsSorted(h: Header, keys: seq<string>, accounts: seq<Account>)
    requires IsFlagging(h, keys, accounts)
    ensures Sorted(accounts)
  {
    forall i, j | 0 <= i < j < |accounts| ensures Precedes(accounts[i], accounts[j]) {
      assert accounts[i].originalIndex == i && accounts[j].originalIndex == j;
    }
  }

  /**
   Flags, then the in-place sort. The result is the flagged accounts in key order for every
   header that does not panic, well formed or not: the sort never moves an account.
   */
  method DecodeAccounts(h: Header, keys: seq<string>, overflowChecks: bool) returns (r: Outcome<seq<Account>>)
    ensures r == Flagged(h, keys, |keys|, overflowChecks)
    ensures r.Panicked? <==> overflowChecks && !NoUnderflow(h, |keys|)
    ensures r.Returned? ==> |r.value| == |keys| && IsFlagging(h, keys, r.value)
    ensures r.Returned? ==> Sorted(r.value)
  {
    FlaggedIs(h, keys, |keys|, overflowChecks);
    match Flagged(h, keys, |keys|, overflowChecks)
    case Panicked => return Panicked;
    case Returned(accounts) =>
      FlaggingIsSorted(h, keys, accounts);
      var a := new Account[|accounts|](i requires 0 <= i < |accounts| => accounts[i]);
      assert a[..] == accounts;
      SortAccounts(a);
      SortedIsUnique(accounts, a[..]);
      return Returned(a[..]);
  }

  lemma WellFormedNeverPanics(h: Header, keys: seq<string>, overflowChecks: bool)
    requires WellFormedHeader(h, |keys|)
    ensures Flagged(h, keys, |keys|, overflowChecks).Returned?
    ensures Flagged(h, keys, |keys|, overflowChecks) == Flagged(h, keys, |keys|, !overflowChecks)
  {
    FlaggedIs(h, keys, |keys|, overflowChecks);
    FlaggedIs(h, keys, |keys|, !overflowChecks);
    assert Flagged(h, keys, |keys|, overflowChecks).value == Flagged(h, keys, |keys|, !overflowChecks).value;
  }

  // ----- summary counts

  function CountSigners(accounts: seq<Account>): nat {
    if accounts == [] then 0
    else CountSigners(accounts[..|accounts| - 1]) + if accounts[|accounts| - 1].isSigner then 1 else 0
  }

  function CountNonSigners(accounts: seq<Account>, writable: bool): nat {
    if accounts == [] then 0
    else
      var last := accounts[|accounts| - 1];
      CountNonSigners(accounts[..|accounts| - 1], writable)
      + if !last.isSigner && last.isWritable == writable then 1 else 0
  }

  function Min(a: int, b: int): int {
    if a <= b then a else b
  }

  /** Counts of the first `n` flagged accounts. */
  lemma {:induction false} CountsOfPrefix(h: Header, keys: seq<string>, accounts: seq<Account>)
    requires IsFlagging(h, keys, accounts) && WellFormedHeader(h, |keys|)
    ensures CountSigners(accounts) == Min(|accounts|, h.required)
    ensures CountNonSigners(accounts, true)
         == if |accounts| <= h.required then 0 else Min(|accounts|, |keys| - h.readonlyUnsigned) - h.required
    ensures CountNonSigners(accounts, false)
         == if |accounts| <= |keys| - h.readonlyUnsigned then 0 else |accounts| - (|keys| - h.readonlyUnsigned)
  {
    if accounts != [] {
      var init := accounts[..|accounts| - 1];
      CountsOfPrefix(h, keys, init);
    }
  }

  /** The counts are those the header declares, and they add up to the number of keys. */
  lemma SummaryCounts(h: Header, keys: seq<string>, overflowChecks: bool)
    requires WellFormedHeader(h, |keys|)
    ensures Flagged(h, keys, |keys|, overflowChecks).Returned?
    ensures var accounts := Flagged(h, keys, |keys|, overflowChecks).value;
            && CountSigners(accounts) == h.required
            && CountNonSigners(accounts, true) == |keys| - h.required - h.readonlyUnsigned
            && CountNonSigners(accounts, false) == h.readonlyUnsigned
            && CountSigners(accounts) + CountNonSigners(accounts, true) + CountNonSigners(accounts, false) == |keys|
  {
    FlaggedIs(h, keys, |keys|, overflowChecks);
    CountsOfPrefix(h, keys, Flagged(h, keys, |keys|, overflowChecks).value);
  }
}
