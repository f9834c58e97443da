/**
 Sui type strings `address::module::name`. Coins and packages parse and print alike; the
 two types are this one.
 */
module SuiType {
  datatype Triple = Triple(address: string, middle: string, last: string)

  const SEP := "::"

  /** The placeholder for blank text. */
  const UNKNOWN := Triple("0x0", "Unknown", "Unknown")

  /** `char::is_whitespace`: the Unicode White_Space property. */
  predicate IsWhitespace(c: char) {
    || '\t' <= c <= '\r' || c == ' ' || c == '\U{85}' || c == '\U{A0}' || c == '\U{1680}'
    || '\U{2000}' <= c <= '\U{200A}' || c == '\U{2028}' || c == '\U{2029}' || c == '\U{202F}'
    || c == '\U{205F}' || c == '\U{3000}'
  }

  predicate IsBlank(s: string) {
    forall i :: 0 <= i < |s| ==> IsWhitespace(s[i])
  }

  predicate SepAt(s: string, i: nat) {
    i + 2 <= |s| && s[i] == ':' && s[i + 1] == ':'
  }

  /** Where the leftmost separator starts, or the length when there is none. */
  function FindSep(s: string): (i: nat)
    ensures i <= |s|
    ensures i < |s| ==> SepAt(s, i)
    ensures forall k :: 0 <= k < i ==> !SepAt(s, k)
  {
    if s == [] then 0
    else if SepAt(s, 0) then 0
    else
      var j := FindSep(s[1..]);
      assert forall k :: 0 < k < 1 + j ==> SepAt(s, k) == SepAt(s[1..], k - 1);
      1 + j
  }

  datatype Cut = Whole | Parts(head: string, tail: string)

  /** One cut at the leftmost separator. */
  function SplitOnce(s: string): Cut {
    var i := FindSep(s);
    if i == |s| then Whole else Parts(s[..i], s[i + 2..])
  }

  /** `splitn(3, "::")`: at most three pieces, cut at the leftmost separators. */
  function SplitN3(s: string): (pieces: seq<string>)
    ensures 1 <= |pieces| <= 3
  {
    match SplitOnce(s)
    case Whole => [s]
    case Parts(first, rest) =>
      match SplitOnce(rest)
      case Whole => [first, rest]
      case Parts(second, third) => [first, second, third]
  }

  function FromStr(s: string): Triple {
    if IsBlank(s) then UNKNOWN
    else
      var pieces := SplitN3(s);
      if |pieces| == 3 then Triple(pieces[0], pieces[1], pieces[2]) else Triple("", "", "")
  }

  function Display(t: Triple): string {
    t.address + SEP + t.middle + SEP + t.last
  }

  // ----- printing what was parsed

  /** Two separators that do not overlap. */
  ghost predicate HasTwoSeps(s: string) {
    exists i: nat, j: nat :: i + 2 <= j && SepAt(s, i) && SepAt(s, j)
  }

  function Join(head: string, tail: string): string {
    head + SEP + tail
  }

  lemma DisplayIsJoin(t: Triple)
    ensures Display(t) == Join(t.address, Join(t.middle, t.last))
  {
  }

  /** A cut loses nothing but the separator. */
  lemma JoinOfSplit(s: string)
    ensures SplitOnce(s).Parts? ==> Join(SplitOnce(s).head, SplitOnce(s).tail) == s
    ensures SplitOnce(s).Parts? <==> exists i: nat :: SepAt(s, i)
  {
    if SplitOnce(s).Parts? {
      assert SepAt(s, FindSep(s));
    }
  }

  lemma SplitsInThree(s: string)
    ensures |SplitN3(s)| == 3 <==> HasTwoSeps(s)
  {
    var i := FindSep(s);
    if |SplitN3(s)| == 3 {
      var rest := s[i + 2..];
      var j := FindSep(rest);
      assert SepAt(rest, j);
      assert SepAt(s, i) && SepAt(s, i + 2 + j);
    }
    if HasTwoSeps(s) {
      var a: nat, b: nat :| a + 2 <= b && SepAt(s, a) && SepAt(s, b);
      assert i <= a;
      assert SepAt(s[i + 2..], b - (i + 2));
    }
  }

  lemma NotBlank(s: string)
    requires HasTwoSeps(s)
    ensures !IsBlank(s)
  {
    var a: nat, b: nat :| a + 2 <= b && SepAt(s, a) && SepAt(s, b);
    assert !IsWhitespace(s[a]);
  }

  lemma DisplayHasTwoSeps(t: Triple)
    ensures HasTwoSeps(Display(t))
  {
    assert SepAt(Display(t), |t.address|) && SepAt(Display(t), |t.address| + 2 + |t.middle|);
  }

  /** Printing the parse gives the text back exactly when it has two separators. */
  lemma DisplayOfFromStr(s: string)
    ensures Display(FromStr(s)) == s <==> HasTwoSeps(s)
  {
    SplitsInThree(s);
    DisplayHasTwoSeps(FromStr(s));
    DisplayIsJoin(FromStr(s));
    if HasTwoSeps(s) {
      NotBlank(s);
      JoinOfSplit(s);
      JoinOfSplit(SplitOnce(s).tail);
    }
  }

  /** What is printed for other texts: the placeholder when blank, bare separators when not. */
  lemma DisplayOfOthers(s: string)
    requires !HasTwoSeps(s)
    ensures IsBlank(s) ==> Display(FromStr(s)) == "0x0::Unknown::Unknown"
    ensures !IsBlank(s) ==> Display(FromStr(s)) == "::::"
  {
    SplitsInThree(s);
    assert "0x0" + "::" + "Unknown" + "::" + "Unknown" == "0x0::Unknown::Unknown";
    assert "" + "::" + "" + "::" + "" == "::::";
  }

  // ----- parsing what was printed

  /** A piece that the leftmost cut leaves whole. */
  predicate IsAtomic(a: string) {
    (forall k :: 0 <= k < |a| ==> !SepAt(a, k)) && (a != "" ==> a[|a| - 1] != ':')
  }

  lemma SepInJoin(a: string, b: string, k: nat)
    requires k < |a|
    ensures SepAt(Join(a, b), k) <==> SepAt(a, k) || (k == |a| - 1 && a[k] == ':')
  {
    var s := Join(a, b);
    assert s[k] == a[k] && s[|a|] == ':';
    assert k + 1 < |a| ==> s[k + 1] == a[k + 1];
  }

  lemma FindInJoin(a: string, b: string)
    ensures FindSep(Join(a, b)) == |a| <==> IsAtomic(a)
    ensures FindSep(Join(a, b)) <= |a|
  {
    var s := Join(a, b);
    assert SepAt(s, |a|);
    forall k | 0 <= k < |a| ensures SepAt(s, k) <==> SepAt(a, k) || (k == |a| - 1 && a[k] == ':') {
      SepInJoin(a, b, k);
    }
  }

  /** The cut undoes the join exactly when the head is atomic. */
  lemma SplitOfJoin(a: string, b: string)
    ensures SplitOnce(Join(a, b)).Parts?
    ensures SplitOnce(Join(a, b)) == Parts(a, b) <==> IsAtomic(a)
  {
    FindInJoin(a, b);
    var s := Join(a, b);
    assert s[..|a|] == a && s[|a| + 2..] == b;
  }

  /**
   Parsing the print gives the value back exactly when its first two parts survive the
   leftmost cut: neither contains a separator nor ends in a colon. The last part is free.
   */
  lemma FromStrOfDisplay(t: Triple)
    ensures FromStr(Display(t)) == t <==> IsAtomic(t.address) && IsAtomic(t.middle)
  {
    DisplayHasTwoSeps(t);
    NotBlank(Display(t));
    SplitsInThree(Display(t));
    DisplayIsJoin(t);
    SplitOfJoin(t.address, Join(t.middle, t.last));
    SplitOfJoin(t.middle, t.last);
    var cut := SplitOnce(Display(t));
    if FromStr(Display(t)) == t {
      JoinOfSplit(Display(t));
      JoinOfSplit(cut.tail);
      assert cut.head == t.address && cut.tail == Join(t.middle, t.last);
    }
  }

  /** What was parsed, from any text at all, prints and parses to itself. */
  lemma ParsedIsStable(s: string)
    ensures FromStr(Display(FromStr(s))) == FromStr(s)
    ensures IsAtomic(FromStr(s).address) && IsAtomic(FromStr(s).middle)
  {
    SplitsInThree(s);
    DisplayOfFromStr(s);
    FromStrOfDisplay(FromStr(s));
  }
}
