/**
 The character check on serialized text, and what it says about the strings inside a tree.
 */
module Charset {
  import opened Decimal
  import opened JsonTree
  import opened JsonText
  import opened Canonical

  /** The text contains a backslash directly followed by `u`. */
  predicate HasUnicodeEscape(t: string) {
    exists i :: 0 <= i < |t| - 1 && t[i] == '\\' && t[i + 1] == 'u'
  }

  predicate IsAscii(c: char) {
    c < '\U{80}'
  }

  predicate IsAsciiGraphic(c: char) {
    '!' <= c <= '~'
  }

  predicate IsAsciiWhitespace(c: char) {
    c == ' ' || c == '\t' || c == '\n' || c == '\U{C}' || c == '\r'
  }

  /** What the check demands of a whole text. */
  predicate IsAccepted(t: string) {
    && !HasUnicodeEscape(t)
    && (forall i :: 0 <= i < |t| ==> IsAscii(t[i]))
    && (forall i :: 0 <= i < |t| ==> IsAsciiGraphic(t[i]) || IsAsciiWhitespace(t[i]))
  }

  /** The three tests as written: substring search, ASCII test, character loop. */
  method CheckText(t: string) returns (ok: bool)
    ensures ok <==> IsAccepted(t)
  {
    if HasUnicodeEscape(t) {
      return false;
    }
    if exists i :: 0 <= i < |t| && !IsAscii(t[i]) {
      return false;
    }
    for i := 0 to |t|
      invariant forall k :: 0 <= k < i ==> IsAsciiGraphic(t[k]) || IsAsciiWhitespace(t[k])
    {
      if !IsAsciiGraphic(t[i]) && !IsAsciiWhitespace(t[i]) {
        return false;
      }
    }
    return true;
  }

  // ----- one string

  predicate IsPrintable(c: char) {
    ' ' <= c <= '~'
  }

  predicate IsAllowed(c: char) {
    IsPrintable(c) || c == '\U{8}' || c == '\U{C}' || c == '\n' || c == '\r' || c == '\t'
  }

  /** Printable ASCII or a control with a short escape, and no `\` directly before `u`. */
  predicate IsClean(s: string) {
    (forall i :: 0 <= i < |s| ==> IsAllowed(s[i])) && !HasUnicodeEscape(s)
  }

  /** Every key and every string value of the tree is clean. */
  ghost predicate IsCleanTree(j: Json) {
    match j
    case String(s) => IsClean(s)
    case Array(items) => forall i :: 0 <= i < |items| ==> IsCleanTree(items[i])
    case Object(ms) => forall i :: 0 <= i < |ms| ==> IsClean(ms[i].key) && IsCleanTree(ms[i].value)
    case _ => true
  }

  // ----- text made of printable ASCII without `\u`, piece by piece

  predicate IsPlain(t: string) {
    (forall i :: 0 <= i < |t| ==> IsPrintable(t[i])) && !HasUnicodeEscape(t)
  }

  predicate EndsInBackslash(t: string) {
    t != [] && t[|t| - 1] == '\\'
  }

  predicate StartsWithU(t: string) {
    t != [] && t[0] == 'u'
  }

  lemma EscapeSpansJoin(a: string, b: string)
    ensures HasUnicodeEscape(a + b) <==>
            HasUnicodeEscape(a) || HasUnicodeEscape(b) || (EndsInBackslash(a) && StartsWithU(b))
  {
    if HasUnicodeEscape(a) {
      var i :| 0 <= i < |a| - 1 && a[i] == '\\' && a[i + 1] == 'u';
      assert (a + b)[i] == '\\' && (a + b)[i + 1] == 'u';
    }
    if HasUnicodeEscape(b) {
      var i :| 0 <= i < |b| - 1 && b[i] == '\\' && b[i + 1] == 'u';
      assert (a + b)[|a| + i] == '\\' && (a + b)[|a| + i + 1] == 'u';
    }
    if EndsInBackslash(a) && StartsWithU(b) {
      assert (a + b)[|a| - 1] == '\\' && (a + b)[|a|] == 'u';
    }
    if HasUnicodeEscape(a + b) {
      var i :| 0 <= i < |a + b| - 1 && (a + b)[i] == '\\' && (a + b)[i + 1] == 'u';
      if i >= |a| {
        assert b[i - |a|] == '\\' && b[i - |a| + 1] == 'u';
      } else if i + 1 < |a| {
        assert a[i] == '\\' && a[i + 1] == 'u';
      }
    }
  }

  lemma PlainJoin(a: string, b: string)
    ensures IsPlain(a + b) <==> IsPlain(a) && IsPlain(b) && !(EndsInBackslash(a) && StartsWithU(b))
  {
    EscapeSpansJoin(a, b);
    if forall i :: 0 <= i < |a + b| ==> IsPrintable((a + b)[i]) {
      assert forall i :: 0 <= i < |a| ==> a[i] == (a + b)[i];
      assert forall i :: 0 <= i < |b| ==> b[i] == (a + b)[|a| + i];
    }
  }

  /** One escaped character is plain unless it had to become a `\u` escape or is raw non-ASCII. */
  lemma EscapeIsPlain(c: char)
    ensures Escape(c) != []
    ensures IsPlain(Escape(c)) <==> IsAllowed(c)
    ensures EndsInBackslash(Escape(c)) <==> c == '\\'
    ensures StartsWithU(Escape(c)) <==> c == 'u'
  {
    if IsControl(c) && !IsAllowed(c) {
      assert Escape(c)[0] == '\\' && Escape(c)[1] == 'u';
    }
    if IsAllowed(c) && |Escape(c)| == 2 {
      assert Escape(c)[1] != 'u';
    }
    if !IsAllowed(c) && !IsControl(c) {
      assert Escape(c)[0] == c;
    }
  }

  lemma {:induction false} EscapedIsPlain(s: string)
    ensures IsPlain(EscapeAll(s)) <==> IsClean(s)
    ensures StartsWithU(EscapeAll(s)) <==> StartsWithU(s)
  {
    if s != [] {
      EscapedIsPlain(s[1..]);
      EscapeIsPlain(s[0]);
      PlainJoin(Escape(s[0]), EscapeAll(s[1..]));
      assert [s[0]] + s[1..] == s;
      EscapeSpansJoin([s[0]], s[1..]);
      if forall i :: 0 <= i < |s[1..]| ==> IsAllowed(s[1..][i]) {
        assert forall i :: 1 <= i < |s| ==> s[i] == s[1..][i - 1];
      }
    }
  }

  /** A piece of text whose ends cannot take part in a `\u` with its neighbours. */
  predicate IsSelfContained(t: string) {
    !EndsInBackslash(t) && !StartsWithU(t)
  }

  lemma TokenJoin(a: string, b: string)
    requires IsSelfContained(a) && IsSelfContained(b)
    ensures IsSelfContained(a + b)
    ensures IsPlain(a + b) <==> IsPlain(a) && IsPlain(b)
  {
    PlainJoin(a, b);
  }

  lemma Enclosed(open: char, body: string, close: char)
    requires IsPrintable(open) && open != '\\' && open != 'u'
    requires IsPrintable(close) && close != '\\' && close != 'u'
    requires IsSelfContained(body)
    ensures IsSelfContained([open] + body + [close])
    ensures IsPlain([open] + body + [close]) <==> IsPlain(body)
  {
    TokenJoin([open], body);
    TokenJoin([open] + body, [close]);
  }

  lemma QuotedIsPlain(s: string)
    ensures IsPlain(Quoted(s)) <==> IsClean(s)
    ensures IsSelfContained(Quoted(s))
  {
    EscapedIsPlain(s);
    PlainJoin(['"'], EscapeAll(s));
    PlainJoin(['"'] + EscapeAll(s), ['"']);
  }

  lemma CommaIsPlain(first: bool)
    ensures IsPlain(Comma(first)) && IsSelfContained(Comma(first))
  {
  }

  lemma DigitsArePlain(s: string)
    requires AllDigits(s)
    ensures IsPlain(s) && IsSelfContained(s)
  {
  }

  // ----- whole trees

  lemma ScalarIsPlain(j: Json)
    requires !j.Array? && !j.Object?
    ensures IsPlain(Print(j)) <==> IsCleanTree(j)
    ensures IsSelfContained(Print(j))
  {
    match j
    case Number(n) =>
      DigitsArePlain(Show(if n < 0 then -n else n));
      TokenJoin(['-'], Show(if n < 0 then -n else n));
    case String(s) => QuotedIsPlain(s);
    case _ =>
  }

  lemma {:induction false} PrintedIsPlain(j: Json)
    ensures IsPlain(Print(j)) <==> IsCleanTree(j)
    ensures IsSelfContained(Print(j))
    decreases j, 1
  {
    match j
    case Array(items) =>
      PrintedItemsArePlain(items, true);
      Enclosed('[', PrintItems(items, true), ']');
    case Object(ms) =>
      PrintedMembersArePlain(ms, true);
      Enclosed('{', PrintMembers(ms, true), '}');
    case _ => ScalarIsPlain(j);
  }

  ghost predicate AreCleanItems(items: seq<Json>) {
    forall i :: 0 <= i < |items| ==> IsCleanTree(items[i])
  }

  ghost predicate IsCleanMember(m: Member) {
    IsClean(m.key) && IsCleanTree(m.value)
  }

  ghost predicate AreCleanMembers(ms: seq<Member>) {
    forall i :: 0 <= i < |ms| ==> IsCleanMember(ms[i])
  }

  lemma CleanItemsSplit(items: seq<Json>)
    requires items != []
    ensures AreCleanItems(items) <==> IsCleanTree(items[0]) && AreCleanItems(items[1..])
  {
    assert items == [items[0]] + items[1..];
  }

  lemma CleanMembersSplit(ms: seq<Member>)
    requires ms != []
    ensures AreCleanMembers(ms) <==> IsCleanMember(ms[0]) && AreCleanMembers(ms[1..])
  {
    assert ms == [ms[0]] + ms[1..];
  }

  lemma {:induction false} PrintedItemsArePlain(items: seq<Json>, first: bool)
    ensures IsPlain(PrintItems(items, first)) <==> AreCleanItems(items)
    ensures IsSelfContained(PrintItems(items, first))
    decreases items, 0
  {
    if items != [] {
      PrintedIsPlain(items[0]);
      PrintedItemsArePlain(items[1..], false);
      CommaIsPlain(first);
      TokenJoin(Comma(first), Print(items[0]));
      TokenJoin(Comma(first) + Print(items[0]), PrintItems(items[1..], false));
      CleanItemsSplit(items);
    }
  }

  lemma PrintedMemberIsPlain(m: Member)
    ensures IsPlain(PrintMember(m)) <==> IsCleanMember(m)
    ensures IsSelfContained(PrintMember(m))
    decreases m, 0
  {
    QuotedIsPlain(m.key);
    PrintedIsPlain(m.value);
    TokenJoin(Quoted(m.key), [':']);
    TokenJoin(Quoted(m.key) + [':'], Print(m.value));
  }

  lemma {:induction false} PrintedMembersArePlain(ms: seq<Member>, first: bool)
    ensures IsPlain(PrintMembers(ms, first)) <==> AreCleanMembers(ms)
    ensures IsSelfContained(PrintMembers(ms, first))
    decreases ms, 0
  {
    if ms != [] {
      PrintedMemberIsPlain(ms[0]);
      PrintedMembersArePlain(ms[1..], false);
      CommaIsPlain(first);
      TokenJoin(Comma(first), PrintMember(ms[0]));
      TokenJoin(Comma(first) + PrintMember(ms[0]), PrintMembers(ms[1..], false));
      CleanMembersSplit(ms);
    }
  }

  /** No raw control character is ever printed, so raw whitespace other than a space cannot occur. */
  predicate NoControls(t: string) {
    forall i :: 0 <= i < |t| ==> !IsControl(t[i])
  }

  lemma {:induction false} EscapedHasNoControls(s: string)
    ensures NoControls(EscapeAll(s))
  {
    if s != [] {
      EscapedHasNoControls(s[1..]);
    }
  }

  lemma {:induction false} PrintedHasNoControls(j: Json)
    ensures NoControls(Print(j))
    decreases j, 1
  {
    match j
    case String(s) => EscapedHasNoControls(s);
    case Array(items) => ItemsHaveNoControls(items, true);
    case Object(ms) => MembersHaveNoControls(ms, true);
    case _ =>
  }

  lemma {:induction false} ItemsHaveNoControls(items: seq<Json>, first: bool)
    ensures NoControls(PrintItems(items, first))
    decreases items, 0
  {
    if items != [] {
      PrintedHasNoControls(items[0]);
      ItemsHaveNoControls(items[1..], false);
    }
  }

  lemma {:induction false} MembersHaveNoControls(ms: seq<Member>, first: bool)
    ensures NoControls(PrintMembers(ms, first))
    decreases ms, 0
  {
    if ms != [] {
      EscapedHasNoControls(ms[0].key);
      PrintedHasNoControls(ms[0].value);
      MembersHaveNoControls(ms[1..], false);
    }
  }

  /**
   The verdict on a text is the conjunction of verdicts on the strings of its tree; an
   accepted text consists of the characters 0x20 to 0x7E.
   */
  lemma AcceptedIffClean(j: Json)
    ensures IsAccepted(Print(j)) <==> IsCleanTree(j)
    ensures IsAccepted(Print(j)) ==> forall i :: 0 <= i < |Print(j)| ==> IsPrintable(Print(j)[i])
  {
    PrintedIsPlain(j);
    PrintedHasNoControls(j);
  }

  // ----- key order does not matter

  lemma {:induction false} SortKeepsClean(j: Json)
    requires WellFormed(j)
    ensures IsCleanTree(Sort(j)) <==> IsCleanTree(j)
  {
    match j
    case Object(ms) =>
      forall i | 0 <= i < |ms| ensures IsCleanTree(SortValues(ms)[i].value) <==> IsCleanTree(ms[i].value) {
        SortKeepsClean(ms[i].value);
      }
      BTreeKeepsClean(SortValues(ms));
    case Array(items) =>
      forall i | 0 <= i < |items| ensures IsCleanTree(SortItems(items)[i]) <==> IsCleanTree(items[i]) {
        SortKeepsClean(items[i]);
      }
    case _ =>
  }

  lemma BTreeKeepsClean(entries: seq<Member>)
    requires Distinct(entries)
    ensures AreCleanMembers(BTree(entries)) <==> AreCleanMembers(entries)
  {
    BTreeAscending(entries);
    forall i | 0 <= i < |entries| ensures entries[i] in BTree(entries) {
      BTreeKeepsAll(entries, i);
    }
  }

  /** Two trees that differ in key order only get the same verdict. */
  lemma KeyOrderIsIrrelevant(a: Json, b: Json)
    requires WellFormed(a) && WellFormed(b) && Equivalent(a, b)
    ensures IsAccepted(Print(a)) <==> IsAccepted(Print(b))
  {
    EquivalentSortsAlike(a, b);
    SortKeepsClean(a);
    SortKeepsClean(b);
    AcceptedIffClean(a);
    AcceptedIffClean(b);
  }
}
