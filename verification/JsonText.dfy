/**
 Compact JSON text: the printer (sections 4, 5 and 7 of RFC 8259, with the escapes that
 serde_json chooses) and a reader that undoes it.
 */
module JsonText {
  import opened Wrappers
  import opened Decimal
  import opened Hexadecimal
  import opened JsonTree

  // ----- printer

  predicate IsControl(c: char) {
    c < ' '
  }

  /** Short escapes where JSON has one, `\u00xx` for other controls, anything else raw. */
  function Escape(c: char): string {
    if c == '"' then ['\\', '"']
    else if c == '\\' then ['\\', '\\']
    else if c == '\U{8}' then ['\\', 'b']
    else if c == '\U{C}' then ['\\', 'f']
    else if c == '\n' then ['\\', 'n']
    else if c == '\r' then ['\\', 'r']
    else if c == '\t' then ['\\', 't']
    else if IsControl(c) then ['\\', 'u', '0', '0', HexDigit(c as int / 16), HexDigit(c as int % 16)]
    else [c]
  }

  function EscapeAll(s: string): string {
    if s == [] then [] else Escape(s[0]) + EscapeAll(s[1..])
  }

  function Quoted(s: string): string {
    ['"'] + EscapeAll(s) + ['"']
  }

  function PrintInt(n: int): string {
    if n < 0 then ['-'] + Show(-n) else Show(n)
  }

  function Print(j: Json): string
    decreases j, 1
  {
    match j
    case Null => "null"
    case Bool(b) => if b then "true" else "false"
    case Number(n) => PrintInt(n)
    case String(s) => Quoted(s)
    case Array(items) => ['['] + PrintItems(items, true) + [']']
    case Object(members) => ['{'] + PrintMembers(members, true) + ['}']
  }

  /** A comma goes before every item but the first. */
  function PrintItems(items: seq<Json>, first: bool): string
    decreases items, 0
  {
    if items == [] then []
    else Comma(first) + Print(items[0]) + PrintItems(items[1..], false)
  }

  function PrintMembers(ms: seq<Member>, first: bool): string
    decreases ms, 0
  {
    if ms == [] then []
    else Comma(first) + PrintMember(ms[0]) + PrintMembers(ms[1..], false)
  }

  function PrintMember(m: Member): string
    decreases m, 0
  {
    Quoted(m.key) + [':'] + Print(m.value)
  }

  function Comma(first: bool): string {
    if first then [] else [',']
  }

  // ----- reader: each function returns what it read and the text that follows

  function ReadEscape(t: string): (r: Option<(char, string)>)
    ensures r.Some? ==> |r.value.1| < |t|
  {
    if t == [] then None
    else if t[0] == '"' || t[0] == '\\' then Some((t[0], t[1..]))
    else if t[0] == 'b' then Some(('\U{8}', t[1..]))
    else if t[0] == 'f' then Some(('\U{C}', t[1..]))
    else if t[0] == 'n' then Some(('\n', t[1..]))
    else if t[0] == 'r' then Some(('\r', t[1..]))
    else if t[0] == 't' then Some(('\t', t[1..]))
    else if t[0] == 'u' && |t| >= 5 && t[1] == '0' && t[2] == '0' then
      match (HexValue(t[3]), HexValue(t[4]))
      case (Some(h), Some(l)) => Some(((16 * h + l) as char, t[5..]))
      case _ => None
    else None
  }

  /** The rest of a string token, past its opening quote. */
  function ReadChars(t: string): (r: Option<(string, string)>)
    ensures r.Some? ==> |r.value.1| < |t|
    decreases |t|
  {
    if t == [] then None
    else if t[0] == '"' then Some(([], t[1..]))
    else if t[0] == '\\' then
      match ReadEscape(t[1..])
      case None => None
      case Some((c, after)) =>
        (match ReadChars(after)
         case None => None
         case Some((s, rest)) => Some(([c] + s, rest)))
    else
      match ReadChars(t[1..])
      case None => None
      case Some((s, rest)) => Some(([t[0]] + s, rest))
  }

  function DigitRun(t: string): (k: nat)
    ensures k <= |t| && AllDigits(t[..k])
  {
    if t == [] || !IsDigit(t[0]) then 0 else 1 + DigitRun(t[1..])
  }

  function ReadNumber(t: string): (r: Option<(Json, string)>)
    ensures r.Some? ==> |r.value.1| < |t|
  {
    var negative := t != [] && t[0] == '-';
    var digits := if negative then t[1..] else t;
    var k := DigitRun(digits);
    if k == 0 then None
    else
      var n: int := Value(digits[..k]);
      Some((Number(if negative then -n else n), digits[k..]))
  }

  function ReadWord(t: string, word: string, j: Json): (r: Option<(Json, string)>)
    requires word != []
    ensures r.Some? ==> |r.value.1| < |t|
  {
    if |word| <= |t| && t[..|word|] == word then Some((j, t[|word|..])) else None
  }

  function ReadValue(t: string): (r: Option<(Json, string)>)
    ensures r.Some? ==> |r.value.1| < |t|
    decreases |t|, 1
  {
    if t == [] then None
    else if t[0] == '"' then
      match ReadChars(t[1..])
      case None => None
      case Some((s, rest)) => Some((String(s), rest))
    else if t[0] == '[' then
      match ReadItems(t[1..], true)
      case None => None
      case Some((items, rest)) => Some((Array(items), rest))
    else if t[0] == '{' then
      match ReadMembers(t[1..], true)
      case None => None
      case Some((ms, rest)) => Some((Object(ms), rest))
    else if t[0] == 'n' then ReadWord(t, "null", Null)
    else if t[0] == 't' then ReadWord(t, "true", Bool(true))
    else if t[0] == 'f' then ReadWord(t, "false", Bool(false))
    else ReadNumber(t)
  }

  function ReadItems(t: string, first: bool): (r: Option<(seq<Json>, string)>)
    ensures r.Some? ==> |r.value.1| < |t|
    decreases |t|, 2
  {
    if t == [] then None
    else if t[0] == ']' then Some(([], t[1..]))
    else if !first && t[0] != ',' then None
    else
      match ReadValue(if first then t else t[1..])
      case None => None
      case Some((v, after)) =>
        match ReadItems(after, false)
        case None => None
        case Some((vs, rest)) => Some(([v] + vs, rest))
  }

  function ReadMembers(t: string, first: bool): (r: Option<(seq<Member>, string)>)
    ensures r.Some? ==> |r.value.1| < |t|
    decreases |t|, 2
  {
    if t == [] then None
    else if t[0] == '}' then Some(([], t[1..]))
    else if !first && t[0] != ',' then None
    else
      var start := if first then t else t[1..];
      match ReadMember(start)
      case None => None
      case Some((m, after)) =>
        match ReadMembers(after, false)
        case None => None
        case Some((ms, rest)) => Some(([m] + ms, rest))
  }

  function ReadMember(t: string): (r: Option<(Member, string)>)
    ensures r.Some? ==> |r.value.1| < |t|
    decreases |t|, 0
  {
    if t == [] || t[0] != '"' then None
    else match ReadChars(t[1..])
      case None => None
      case Some((k, colon)) =>
        if colon == [] || colon[0] != ':' then None
        else match ReadValue(colon[1..])
          case None => None
          case Some((v, after)) => Some((Member(k, v), after))
  }

  /** A whole text: one value and nothing after it. */
  function Read(t: string): Option<Json> {
    match ReadValue(t)
    case Some((j, rest)) => if rest == [] then Some(j) else None
    case None => None
  }

  // ----- the reader undoes the printer

  lemma {:induction false} ReadQuoted(s: string, rest: string)
    ensures ReadChars(EscapeAll(s) + ['"'] + rest) == Some((s, rest))
  {
    if s == [] {
      assert EscapeAll(s) + ['"'] + rest == ['"'] + rest;
      assert (['"'] + rest)[1..] == rest;
    } else {
      var tail := EscapeAll(s[1..]) + ['"'] + rest;
      ReadQuoted(s[1..], rest);
      assert EscapeAll(s) + ['"'] + rest == Escape(s[0]) + tail;
      ReadCharsStep(s[0], tail, s[1..], rest);
      assert s == [s[0]] + s[1..];
    }
  }

  lemma ReadCharsStep(c: char, tail: string, s: string, rest: string)
    requires ReadChars(tail) == Some((s, rest))
    ensures ReadChars(Escape(c) + tail) == Some(([c] + s, rest))
  {
    ReadEscaped(c, tail);
  }

  /** One escaped character followed by any text. */
  lemma ReadEscaped(c: char, tail: string)
    ensures Escape(c) != []
    ensures (Escape(c) + tail)[0] != '"'
    ensures Escape(c)[0] == '\\' ==> ReadEscape((Escape(c) + tail)[1..]) == Some((c, tail))
    ensures Escape(c)[0] != '\\' ==> Escape(c) == [c] && (Escape(c) + tail)[1..] == tail
  {
    var e := Escape(c);
    if e[0] == '\\' {
      assert (e + tail)[1..] == e[1..] + tail;
      if |e| == 2 {
        assert (e[1..] + tail)[1..] == tail;
      } else {
        assert (e[1..] + tail)[5..] == tail;
        HexValueOfDigit(c as int / 16);
        HexValueOfDigit(c as int % 16);
      }
    }
  }

  lemma {:induction false} DigitRunOf(s: string, rest: string)
    requires AllDigits(s) && (rest != [] ==> !IsDigit(rest[0]))
    ensures DigitRun(s + rest) == |s|
  {
    if s == [] {
      assert s + rest == rest;
    } else {
      assert (s + rest)[1..] == s[1..] + rest;
      DigitRunOf(s[1..], rest);
    }
  }

  lemma ReadInt(n: int, rest: string)
    requires Ends(rest)
    ensures ReadNumber(PrintInt(n) + rest) == Some((Number(n), rest))
  {
    var s := if n < 0 then Show(-n) else Show(n);
    ValueOfShow(if n < 0 then -n else n);
    DigitRunOf(s, rest);
    Cut(s, rest);
    if n < 0 {
      assert PrintInt(n) + rest == ['-'] + (s + rest);
      assert (['-'] + (s + rest))[1..] == s + rest;
    } else {
      assert (s + rest)[0] == s[0];
    }
  }

  lemma Cut(s: string, rest: string)
    ensures (s + rest)[..|s|] == s && (s + rest)[|s|..] == rest
  {
  }

  lemma ReadPrintedWord(word: string, j: Json, rest: string)
    requires word != []
    ensures ReadWord(word + rest, word, j) == Some((j, rest))
  {
    assert (word + rest)[..|word|] == word && (word + rest)[|word|..] == rest;
  }

  /** What can follow a printed value inside a text: it never continues a number. */
  predicate Ends(rest: string) {
    rest != [] ==> !IsDigit(rest[0])
  }

  lemma ReadNumberStep(t: string)
    requires t != [] && (IsDigit(t[0]) || t[0] == '-')
    ensures ReadValue(t) == ReadNumber(t)
  {
  }

  lemma ReadStringStep(tail: string, s: string, rest: string)
    requires ReadChars(tail) == Some((s, rest))
    ensures ReadValue(['"'] + tail) == Some((String(s), rest))
  {
    assert (['"'] + tail)[1..] == tail;
  }

  lemma Bracket(open: char, body: string, close: char, rest: string)
    ensures ([open] + body + [close]) + rest == [open] + (body + [close] + rest)
  {
  }

  lemma ReadPrintedScalar(j: Json, rest: string)
    requires Ends(rest) && !j.Array? && !j.Object?
    ensures ReadValue(Print(j) + rest) == Some((j, rest))
  {
    match j
    case Null => ReadPrintedWord("null", j, rest);
    case Bool(b) => ReadPrintedWord(if b then "true" else "false", j, rest);
    case Number(n) =>
      PrintStarts(j);
      ReadInt(n, rest);
      ReadNumberStep(PrintInt(n) + rest);
    case String(s) =>
      Bracket('"', EscapeAll(s), '"', rest);
      ReadQuoted(s, rest);
      ReadStringStep(EscapeAll(s) + ['"'] + rest, s, rest);
  }

  lemma ReadArrayStep(tail: string, items: seq<Json>, rest: string)
    requires ReadItems(tail, true) == Some((items, rest))
    ensures ReadValue(['['] + tail) == Some((Array(items), rest))
  {
    assert (['['] + tail)[1..] == tail;
  }

  lemma ReadObjectStep(tail: string, ms: seq<Member>, rest: string)
    requires ReadMembers(tail, true) == Some((ms, rest))
    ensures ReadValue(['{'] + tail) == Some((Object(ms), rest))
  {
    assert (['{'] + tail)[1..] == tail;
  }

  lemma {:induction false} ReadPrinted(j: Json, rest: string)
    requires Ends(rest)
    ensures ReadValue(Print(j) + rest) == Some((j, rest))
    decreases j, 1
  {
    match j
    case Array(items) =>
      var tail := PrintItems(items, true) + [']'] + rest;
      ReadPrintedItems(items, true, rest);
      ReadArrayStep(tail, items, rest);
      Bracket('[', PrintItems(items, true), ']', rest);
    case Object(members) =>
      var tail := PrintMembers(members, true) + ['}'] + rest;
      ReadPrintedMembers(members, true, rest);
      ReadObjectStep(tail, members, rest);
      Bracket('{', PrintMembers(members, true), '}', rest);
    case _ => ReadPrintedScalar(j, rest);
  }

  lemma PrintStarts(j: Json)
    ensures Print(j) != [] && Print(j)[0] != ']' && Print(j)[0] != ','
    ensures j.Number? ==> IsDigit(Print(j)[0]) || Print(j)[0] == '-'
  {
    if j.Number? {
      assert IsDigit(Print(j)[0]) || Print(j)[0] == '-';
    }
  }

  lemma Regroup(c: string, x: string, y: string, z: string, rest: string)
    ensures (c + x + y) + z + rest == c + (x + (y + z + rest))
  {
  }

  lemma AfterComma(first: bool, start: string)
    requires start != []
    ensures var t := Comma(first) + start; t != [] && (if first then t else t[1..]) == start && (first || t[0] == ',')
    ensures first ==> Comma(first) + start == start
  {
  }

  lemma {:induction false} ReadPrintedItems(items: seq<Json>, first: bool, rest: string)
    ensures ReadItems(PrintItems(items, first) + [']'] + rest, first) == Some((items, rest))
    decreases items, 0
  {
    if items == [] {
      assert PrintItems(items, first) + [']'] + rest == [']'] + rest;
      assert ([']'] + rest)[1..] == rest;
    } else {
      var t := PrintItems(items, first) + [']'] + rest;
      var after := PrintItems(items[1..], false) + [']'] + rest;
      PrintStarts(items[0]);
      Regroup(Comma(first), Print(items[0]), PrintItems(items[1..], false), [']'], rest);
      AfterComma(first, Print(items[0]) + after);
      ReadPrinted(items[0], after);
      ReadPrintedItems(items[1..], false, rest);
      ReadItemsStep(t, first, items[0], after, items[1..], rest);
      assert items == [items[0]] + items[1..];
    }
  }

  lemma ReadItemsStep(t: string, first: bool, v: Json, after: string, vs: seq<Json>, rest: string)
    requires t != [] && t[0] != ']' && (first || t[0] == ',')
    requires ReadValue(if first then t else t[1..]) == Some((v, after))
    requires ReadItems(after, false) == Some((vs, rest))
    ensures ReadItems(t, first) == Some(([v] + vs, rest))
  {
  }

  lemma ReadMembersStep(t: string, first: bool, m: Member, after: string, ms: seq<Member>, rest: string)
    requires t != [] && t[0] != '}' && (first || t[0] == ',')
    requires ReadMember(if first then t else t[1..]) == Some((m, after))
    requires ReadMembers(after, false) == Some((ms, rest))
    ensures ReadMembers(t, first) == Some(([m] + ms, rest))
  {
  }

  lemma {:induction false} ReadPrintedMembers(ms: seq<Member>, first: bool, rest: string)
    ensures ReadMembers(PrintMembers(ms, first) + ['}'] + rest, first) == Some((ms, rest))
    decreases ms, 0
  {
    if ms == [] {
      assert PrintMembers(ms, first) + ['}'] + rest == ['}'] + rest;
      assert (['}'] + rest)[1..] == rest;
    } else {
      var t := PrintMembers(ms, first) + ['}'] + rest;
      var after := PrintMembers(ms[1..], false) + ['}'] + rest;
      Regroup(Comma(first), PrintMember(ms[0]), PrintMembers(ms[1..], false), ['}'], rest);
      AfterComma(first, PrintMember(ms[0]) + after);
      ReadPrintedMember(ms[0], after);
      ReadPrintedMembers(ms[1..], false, rest);
      ReadMembersStep(t, first, ms[0], after, ms[1..], rest);
      assert ms == [ms[0]] + ms[1..];
    }
  }

  lemma ReadMemberStep(tail: string, m: Member, after: string, rest: string)
    requires ReadChars(tail) == Some((m.key, [':'] + after))
    requires ReadValue(after) == Some((m.value, rest))
    ensures ReadMember(['"'] + tail) == Some((m, rest))
  {
    assert (['"'] + tail)[1..] == tail && ([':'] + after)[1..] == after;
  }

  lemma ReadPrintedMember(m: Member, rest: string)
    requires Ends(rest)
    ensures ReadMember(PrintMember(m) + rest) == Some((m, rest))
    decreases m, 0
  {
    var after := Print(m.value) + rest;
    Bracket('"', EscapeAll(m.key), '"', [':'] + after);
    assert PrintMember(m) + rest == Quoted(m.key) + ([':'] + after);
    ReadQuoted(m.key, [':'] + after);
    ReadPrinted(m.value, rest);
    ReadMemberStep(EscapeAll(m.key) + ['"'] + ([':'] + after), m, after, rest);
  }

  /** Every tree is recovered from its text, with key order and repeated keys intact. */
  lemma ReadOfPrint(j: Json)
    ensures Read(Print(j)) == Some(j)
  {
    ReadPrinted(j, []);
    assert Print(j) + [] == Print(j);
  }

  lemma PrintIsInjective(a: Json, b: Json)
    ensures Print(a) == Print(b) <==> a == b
  {
    ReadOfPrint(a);
    ReadOfPrint(b);
  }
}
