/**
 The preview of a message's accounts: what it prints, and what its texts say when they are
 read back.
 */
module AccountsPreview {
  import opened Wrappers
  import opened Decimal
  import opened Accounts
  import P = Payload

  function Plural(n: nat): string {
    if n == 1 then "" else "s"
  }

  function TextField(fieldLabel: string, text: string): P.AnnotatedField {
    P.AnnotatedField(P.TextV2(P.Common(text, fieldLabel), text), None, None)
  }

  /** One line for each group that is not empty. */
  function SummaryFields(signers: nat, writable: nat, readonly: nat): seq<P.AnnotatedField> {
    (if signers > 0 then [TextField("Signers", Show(signers) + " Signer" + Plural(signers))] else [])
    + (if writable > 0 then [TextField("Writable", Show(writable) + " Writable")] else [])
    + (if readonly > 0 then [TextField("Read Only", Show(readonly) + " Read Only")] else [])
  }

  /** `join(", ")` */
  function Join(parts: seq<string>): string {
    if parts == [] then ""
    else if |parts| == 1 then parts[0]
    else parts[0] + ", " + Join(parts[1..])
  }

  /** The address, then the flags that are set. */
  function DetailParts(a: Account): seq<string> {
    [a.address] + (if a.isSigner then ["Signer"] else []) + (if a.isWritable then ["Writable"] else [])
  }

  function Details(a: Account): string {
    Join(DetailParts(a))
  }

  function AccountFields(accounts: seq<Account>): (r: seq<P.AnnotatedField>)
    ensures |r| == |accounts|
    ensures forall i :: 0 <= i < |accounts| ==> r[i] == TextField("Account", Details(accounts[i]))
  {
    seq(|accounts|, i requires 0 <= i < |accounts| => TextField("Account", Details(accounts[i])))
  }

  /** `S` for a signer, then `W` or `R`. */
  function Indicators(a: Account): string {
    (if a.isSigner then "S" else "") + (if a.isWritable then "W" else "R")
  }

  function FallbackEntry(a: Account): string {
    a.address + "[" + Indicators(a) + "]"
  }

  function FallbackEntries(accounts: seq<Account>): (r: seq<string>)
    ensures |r| == |accounts| && forall i :: 0 <= i < |r| ==> r[i] == FallbackEntry(accounts[i])
  {
    seq(|accounts|, i requires 0 <= i < |accounts| => FallbackEntry(accounts[i]))
  }

  /** Addresses with indicators, separated by commas. */
  function FallbackText(accounts: seq<Account>): string {
    Join(FallbackEntries(accounts))
  }

  /** The body of the accounts preview. */
  predicate IsAccountsPreview(title: string, accounts: seq<Account>, p: P.PreviewBody) {
    && p.title == Some(title)
    && p.subtitle == Some(Show(|accounts|) + " account" + Plural(|accounts|))
    && p.expanded == Some(P.ListBody(AccountFields(accounts)))
    && p.condensed == Some(P.ListBody(
                             SummaryFields(CountSigners(accounts), CountNonSigners(accounts, true),
                                           CountNonSigners(accounts, false))))
  }

  /** The three counters. */
  method CountAccounts(accounts: seq<Account>) returns (signers: nat, writable: nat, readonly: nat)
    ensures signers == CountSigners(accounts)
    ensures writable == CountNonSigners(accounts, true) && readonly == CountNonSigners(accounts, false)
  {
    signers, writable, readonly := 0, 0, 0;
    for i := 0 to |accounts|
      invariant signers == CountSigners(accounts[..i])
      invariant writable == CountNonSigners(accounts[..i], true)
      invariant readonly == CountNonSigners(accounts[..i], false)
    {
      assert accounts[..i + 1][..i] == accounts[..i];
      if accounts[i].isSigner {
        signers := signers + 1;
      } else if accounts[i].isWritable {
        writable := writable + 1;
      } else {
        readonly := readonly + 1;
      }
    }
    assert accounts[..|accounts|] == accounts;
  }

  method SummaryLines(signers: nat, writable: nat, readonly: nat) returns (summary: seq<P.AnnotatedField>)
    ensures summary == SummaryFields(signers, writable, readonly)
  {
    summary := [];
    if signers > 0 {
      summary := summary + [TextField("Signers", Show(signers) + " Signer" + Plural(signers))];
    }
    if writable > 0 {
      summary := summary + [TextField("Writable", Show(writable) + " Writable")];
    }
    if readonly > 0 {
      summary := summary + [TextField("Read Only", Show(readonly) + " Read Only")];
    }
  }

  /** What the fallback text shows of an account. */
  predicate SameShown(a: Account, b: Account) {
    a.address == b.address && a.isSigner == b.isSigner && a.isWritable == b.isWritable
  }

  predicate NoBracket(s: string) {
    forall i :: 0 <= i < |s| ==> s[i] != '['
  }

  /** The first entry can be cut off whatever follows it. */
  lemma EntryIsDetermined(a: Account, b: Account, x: string, y: string)
    requires NoBracket(a.address) && NoBracket(b.address)
    requires FallbackEntry(a) + x == FallbackEntry(b) + y
    ensures SameShown(a, b) && x == y
  {
    var s, t := FallbackEntry(a) + x, FallbackEntry(b) + y;
    var m, n := |a.address|, |b.address|;
    assert s[m] == '[' && t[n] == '[';
    assert m == n;
    assert s[..m] == a.address && t[..n] == b.address;
    EntryTail(a, x);
    EntryTail(b, y);
  }

  lemma EntryTail(a: Account, x: string)
    ensures var s, m := FallbackEntry(a) + x, |a.address|;
            && |s| > m + 2
            && (a.isSigner <==> s[m + 1] == 'S')
            && (a.isSigner ==> |s| > m + 3 && (a.isWritable <==> s[m + 2] == 'W') && s[m + 4..] == x)
            && (!a.isSigner ==> (a.isWritable <==> s[m + 1] == 'W') && s[m + 3..] == x)
  {
    var s, m := FallbackEntry(a) + x, |a.address|;
    assert s == a.address + ("[" + Indicators(a) + "]" + x);
    assert s[m..] == "[" + Indicators(a) + "]" + x;
  }

  /** Addresses without brackets: the fallback text determines every address and every flag. */
  lemma {:induction false} FallbackIsInjective(x: seq<Account>, y: seq<Account>)
    requires FallbackText(x) == FallbackText(y)
    requires forall i :: 0 <= i < |x| ==> NoBracket(x[i].address)
    requires forall i :: 0 <= i < |y| ==> NoBracket(y[i].address)
    ensures |x| == |y| && forall i :: 0 <= i < |x| ==> SameShown(x[i], y[i])
  {
    if x != [] && y != [] {
      var tailX := if |x| == 1 then "" else ", " + FallbackText(x[1..]);
      var tailY := if |y| == 1 then "" else ", " + FallbackText(y[1..]);
      FallbackCut(x);
      FallbackCut(y);
      EntryIsDetermined(x[0], y[0], tailX, tailY);
      if |x| > 1 {
        assert FallbackText(x[1..]) == tailX[2..] && FallbackText(y[1..]) == tailY[2..];
        FallbackIsInjective(x[1..], y[1..]);
      }
    }
  }

  lemma FallbackCut(x: seq<Account>)
    requires x != []
    ensures FallbackText(x) == FallbackEntry(x[0]) + if |x| == 1 then "" else ", " + FallbackText(x[1..])
  {
    assert FallbackEntries(x)[1..] == FallbackEntries(x[1..]);
    if |x| == 1 {
      assert FallbackEntry(x[0]) + "" == FallbackEntry(x[0]);
    }
  }

  // ----- reading the texts back

  /** Where the first separator starts, or the length. */
  function CommaAt(s: string): (i: nat)
    ensures i <= |s|
  {
    if s == "" || (|s| > 1 && s[0] == ',' && s[1] == ' ') then 0 else 1 + CommaAt(s[1..])
  }

  /** The text cut at every comma with a space behind it. */
  function Pieces(s: string): (ps: seq<string>)
    ensures ps != []
    decreases |s|
  {
    var i := CommaAt(s);
    if i + 2 > |s| then [s] else [s[..i]] + Pieces(s[i + 2..])
  }

  /** An address in an alphabet without commas and brackets, such as base58. */
  predicate IsPlain(s: string) {
    forall i :: 0 <= i < |s| ==> s[i] != ',' && s[i] != '['
  }

  predicate NoComma(s: string) {
    forall i :: 0 <= i < |s| ==> s[i] != ','
  }

  lemma {:induction false} CommaBehind(a: string, rest: string)
    requires NoComma(a)
    ensures CommaAt(a) == |a|
    ensures CommaAt(a + ", " + rest) == |a|
  {
    if a != "" {
      CommaBehind(a[1..], rest);
      assert (a + ", " + rest)[1..] == a[1..] + ", " + rest;
      assert (a + ", " + rest)[0] == a[0];
    }
  }

  lemma PiecesOf(a: string, rest: string)
    requires NoComma(a)
    ensures Pieces(a) == [a]
    ensures Pieces(a + ", " + rest) == [a] + Pieces(rest)
  {
    CommaBehind(a, rest);
    var s := a + ", " + rest;
    assert s[..|a|] == a && s[|a| + 2..] == rest;
  }

  /** Cutting undoes joining. */
  lemma {:induction false} PiecesOfJoin(parts: seq<string>)
    requires parts != [] && forall i :: 0 <= i < |parts| ==> NoComma(parts[i])
    ensures Pieces(Join(parts)) == parts
  {
    if |parts| == 1 {
      PiecesOf(parts[0], "");
    } else {
      PiecesOf(parts[0], Join(parts[1..]));
      PiecesOfJoin(parts[1..]);
    }
  }

  /** The address, then one piece for each flag that is set. */
  predicate ShowDetails(ps: seq<string>, a: Account) {
    && |ps| == 1 + (if a.isSigner then 1 else 0) + (if a.isWritable then 1 else 0)
    && ps[0] == a.address
    && ("Signer" in ps[1..] <==> a.isSigner)
    && ("Writable" in ps[1..] <==> a.isWritable)
  }

  lemma DetailsShow(a: Account)
    requires NoComma(a.address)
    ensures ShowDetails(Pieces(Details(a)), a)
  {
    var flags := (if a.isSigner then ["Signer"] else []) + (if a.isWritable then ["Writable"] else []);
    assert DetailParts(a) == [a.address] + flags;
    assert NoComma("Signer") && NoComma("Writable");
    PiecesOfJoin(DetailParts(a));
    assert |"Signer"| != |"Writable"|;
    assert "Signer" in flags <==> a.isSigner;
    assert "Writable" in flags <==> a.isWritable;
    assert DetailParts(a)[1..] == flags;
  }

  function BracketAt(s: string): (i: nat)
    ensures i <= |s|
    ensures forall k :: 0 <= k < i ==> s[k] != '['
    ensures i < |s| ==> s[i] == '['
  {
    if s == "" || s[0] == '[' then 0 else 1 + BracketAt(s[1..])
  }

  /** Address, signer and writable flag of an entry. */
  function ReadEntry(e: string): Option<(string, bool, bool)> {
    var i := BracketAt(e);
    if e[i..] == "[SW]" then Some((e[..i], true, true))
    else if e[i..] == "[SR]" then Some((e[..i], true, false))
    else if e[i..] == "[W]" then Some((e[..i], false, true))
    else if e[i..] == "[R]" then Some((e[..i], false, false))
    else None
  }

  lemma EntryReads(a: Account)
    requires IsPlain(a.address)
    ensures ReadEntry(FallbackEntry(a)) == Some((a.address, a.isSigner, a.isWritable))
    ensures NoComma(FallbackEntry(a))
  {
    var e, m := FallbackEntry(a), |a.address|;
    assert e[m] == '[';
    assert BracketAt(e) == m;
    assert e[..m] == a.address && e[m..] == "[" + Indicators(a) + "]";
    assert e[m..] == if a.isSigner then (if a.isWritable then "[SW]" else "[SR]")
                     else if a.isWritable then "[W]" else "[R]";
  }

  ghost predicate ShowsEntries(text: string, accounts: seq<Account>) {
    if accounts == [] then text == ""
    else
      var ps := Pieces(text);
      && |ps| == |accounts|
      && forall i :: 0 <= i < |ps| ==>
           ReadEntry(ps[i]) == Some((accounts[i].address, accounts[i].isSigner, accounts[i].isWritable))
  }

  /** The fallback text read back: every account with its flags, in order. */
  lemma FallbackReads(accounts: seq<Account>)
    requires forall i :: 0 <= i < |accounts| ==> IsPlain(accounts[i].address)
    ensures ShowsEntries(FallbackText(accounts), accounts)
  {
    forall i | 0 <= i < |accounts|
      ensures NoComma(FallbackEntries(accounts)[i])
      ensures ReadEntry(FallbackEntries(accounts)[i])
           == Some((accounts[i].address, accounts[i].isSigner, accounts[i].isWritable))
    {
      EntryReads(accounts[i]);
    }
    if accounts != [] {
      PiecesOfJoin(FallbackEntries(accounts));
    }
  }

  /** The text is the number, then the noun behind it. */
  predicate ShowsCount(text: string, n: nat, noun: string) {
    var k := |text| - |noun|;
    k > 0 && text[k..] == noun && AllDigits(text[..k]) && Value(text[..k]) == n
  }

  lemma CountReads(n: nat, noun: string)
    ensures ShowsCount(Show(n) + noun, n, noun)
  {
    ValueOfShow(n);
    var text := Show(n) + noun;
    assert text[|Show(n)|..] == noun && text[..|Show(n)|] == Show(n);
  }

  predicate IsLine(a: P.AnnotatedField, fieldLabel: string, n: nat, noun: string) {
    && a.field.TextV2? && a.staticAnnotation.None? && a.dynamicAnnotation.None?
    && a.field.common == P.Common(a.field.textV2, fieldLabel)
    && ShowsCount(a.field.textV2, n, noun)
  }

  /** A line for each group with members, in this order, and no other line. */
  predicate IsSummary(fields: seq<P.AnnotatedField>, signers: nat, writable: nat, readonly: nat) {
    var w := if signers > 0 then 1 else 0;
    var r := w + if writable > 0 then 1 else 0;
    && |fields| == r + (if readonly > 0 then 1 else 0)
    && (signers > 0 ==> IsLine(fields[0], "Signers", signers, if signers == 1 then " Signer" else " Signers"))
    && (writable > 0 ==> IsLine(fields[w], "Writable", writable, " Writable"))
    && (readonly > 0 ==> IsLine(fields[r], "Read Only", readonly, " Read Only"))
  }

  lemma SummaryReads(signers: nat, writable: nat, readonly: nat)
    ensures IsSummary(SummaryFields(signers, writable, readonly), signers, writable, readonly)
  {
    CountReads(signers, if signers == 1 then " Signer" else " Signers");
    CountReads(writable, " Writable");
    CountReads(readonly, " Read Only");
    assert Show(signers) + " Signer" + Plural(signers)
        == Show(signers) + if signers == 1 then " Signer" else " Signers";
  }

  /** Everything the preview says of the accounts, read back from its texts. */
  ghost predicate ShowsAccounts(title: string, accounts: seq<Account>, f: P.Field) {
    && f.PreviewLayout?
    && f.common.fieldLabel == title && f.preview.title == Some(title)
    && ShowsEntries(f.common.fallbackText, accounts)
    && f.preview.subtitle.Some?
    && ShowsCount(f.preview.subtitle.value, |accounts|, if |accounts| == 1 then " account" else " accounts")
    && f.preview.condensed.Some?
    && IsSummary(f.preview.condensed.value.fields, CountSigners(accounts), CountNonSigners(accounts, true),
                 CountNonSigners(accounts, false))
    && f.preview.expanded.Some?
    && var fields := f.preview.expanded.value.fields;
    && |fields| == |accounts|
    && forall i :: 0 <= i < |fields| ==> IsAccountField(fields[i], accounts[i])
  }

  predicate IsAccountField(a: P.AnnotatedField, account: Account) {
    && a.field.TextV2? && a.staticAnnotation.None? && a.dynamicAnnotation.None?
    && a.field.common == P.Common(a.field.textV2, "Account")
    && ShowDetails(Pieces(a.field.textV2), account)
  }

  lemma FieldsShow(accounts: seq<Account>, i: nat)
    requires i < |accounts| && NoComma(accounts[i].address)
    ensures IsAccountField(AccountFields(accounts)[i], accounts[i])
  {
    DetailsShow(accounts[i]);
  }

  lemma SubtitleShows(n: nat)
    ensures ShowsCount(Show(n) + " account" + Plural(n), n, if n == 1 then " account" else " accounts")
  {
    var noun := if n == 1 then " account" else " accounts";
    CountReads(n, noun);
    assert Show(n) + " account" + Plural(n) == Show(n) + noun;
  }

  /** For plain addresses the fallback text, the summary and the list all say the same. */
  lemma PreviewShowsAccounts(title: string, accounts: seq<Account>, f: P.Field)
    requires f.PreviewLayout? && f.common == P.Common(FallbackText(accounts), title)
    requires IsAccountsPreview(title, accounts, f.preview)
    requires forall i :: 0 <= i < |accounts| ==> IsPlain(accounts[i].address)
    ensures ShowsAccounts(title, accounts, f)
  {
    FallbackReads(accounts);
    SubtitleShows(|accounts|);
    SummaryReads(CountSigners(accounts), CountNonSigners(accounts, true), CountNonSigners(accounts, false));
    forall i | 0 <= i < |accounts| ensures IsAccountField(AccountFields(accounts)[i], accounts[i]) {
      FieldsShow(accounts, i);
    }
  }

  /**
   Three counters over the accounts, then one summary line for each positive counter; all
   accounts in the fallback text and in the expanded list.
   */
  method CreateAccountsPreview(title: string, accounts: seq<Account>) returns (f: P.Field)
    ensures f.PreviewLayout? && f.common == P.Common(FallbackText(accounts), title)
    ensures IsAccountsPreview(title, accounts, f.preview)
    ensures (forall i :: 0 <= i < |accounts| ==> IsPlain(accounts[i].address)) ==> ShowsAccounts(title, accounts, f)
  {
    var signers, writable, readonly := CountAccounts(accounts);
    var summary := SummaryLines(signers, writable, readonly);
    f := P.PreviewLayout(
      P.Common(FallbackText(accounts), title),
      P.PreviewBody(Some(title), Some(Show(|accounts|) + " account" + Plural(|accounts|)),
                    Some(P.ListBody(summary)), Some(P.ListBody(AccountFields(accounts)))));
    if forall i :: 0 <= i < |accounts| ==> IsPlain(accounts[i].address) {
      PreviewShowsAccounts(title, accounts, f);
    }
  }
}
