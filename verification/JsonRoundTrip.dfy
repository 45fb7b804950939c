/** Every JSON value is read back from its printed text. */
module JsonRoundTrip {
  import opened Wrappers
  import opened Json

  /** Values whose numbers follow the number grammar. */
  predicate WellFormed(v: Value)
  {
    match v
    case Number(literal) => NumberLiteral(literal)
    case Array(items) => forall i :: 0 <= i < |items| ==> WellFormed(items[i])
    case Object(members) => forall i :: 0 <= i < |members| ==> WellFormed(members[i].value)
    case _ => true
  }

  lemma {:induction false} HexRoundTrip(n: int)
    requires 0 <= n < 16
    ensures HexValue(HexDigit(n)) == Some(n)
  {
  }

  lemma NibblesOf(c: Unit)
    ensures 0 <= c / 0x1000 < 16
    ensures c == c / 0x1000 * 0x1000 + c / 0x100 % 16 * 0x100 + c / 16 % 16 * 16 + c % 16
  {
    var a, b := c / 16, c / 0x100;
    assert c == 16 * a + c % 16;
    assert a / 16 == b;
    assert b / 16 == c / 0x1000;
  }

  /** A unit printed by its number is read back. */
  lemma UnicodeEscapeRead(c: Unit, rest: Text)
    ensures ParseChars(UnicodeEscape(c) + rest) == Prepend(c, ParseChars(rest))
  {
    NibblesOf(c);
    HexRoundTrip(c / 0x1000);
    HexRoundTrip(c / 0x100 % 16);
    HexRoundTrip(c / 16 % 16);
    HexRoundTrip(c % 16);
    var t := UnicodeEscape(c) + rest;
    hide HexDigit, HexValue;
    assert t[2..][0] == HexDigit(c / 0x1000) && t[2..][1] == HexDigit(c / 0x100 % 16);
    assert t[2..][2] == HexDigit(c / 16 % 16) && t[2..][3] == HexDigit(c % 16);
    assert Hex4(t[2..]) == Some(c);
    assert t[6..] == rest;
  }

  lemma UnitRead(c: Unit, rest: Text)
    ensures ParseChars(PrintUnit(c) + rest) == Prepend(c, ParseChars(rest))
  {
    if PrintUnit(c) == UnicodeEscape(c) {
      UnicodeEscapeRead(c, rest);
    } else {
      hide UnicodeEscape;
      var t := PrintUnit(c) + rest;
      if |PrintUnit(c)| == 2 {
        assert t[2..] == rest;
      } else {
        assert t[1..] == rest;
      }
    }
  }

  lemma PlainRead(c: Unit, rest: Text)
    requires c >= 0x20 && c != QUOTE && c != BACKSLASH
    ensures ParseChars([c] + rest) == Prepend(c, ParseChars(rest))
  {
    assert ([c] + rest)[1..] == rest;
  }

  lemma {:induction false} CharsRoundTrip(s: Text, rest: Text)
    ensures ParseChars(PrintChars(s) + rest) == Done(s, rest)
    decreases |s|
  {
    hide ParseChars, PrintChars, PrintUnit;
    if s == [] {
      EndRead(rest);
    } else if |s| > 1 && LeadSurrogate(s[0]) && TrailSurrogate(s[1]) {
      CharsRoundTrip(s[2..], rest);
      PairRead(s, rest);
    } else {
      CharsRoundTrip(s[1..], rest);
      SingleRead(s, rest);
    }
  }

  lemma EndRead(rest: Text)
    ensures ParseChars(PrintChars([]) + rest) == Done([], rest)
  {
    assert ([QUOTE] + rest)[1..] == rest;
  }

  lemma SingleRead(s: Text, rest: Text)
    requires s != [] && !(|s| > 1 && LeadSurrogate(s[0]) && TrailSurrogate(s[1]))
    requires ParseChars(PrintChars(s[1..]) + rest) == Done(s[1..], rest)
    ensures ParseChars(PrintChars(s) + rest) == Done(s, rest)
  {
    hide ParseChars, PrintUnit, PrintChars;
    SinglePrinted(s);
    UnitRead(s[0], PrintChars(s[1..]) + rest);
    assert PrintChars(s) + rest == PrintUnit(s[0]) + (PrintChars(s[1..]) + rest);
    assert s == [s[0]] + s[1..];
  }

  lemma PairRead(s: Text, rest: Text)
    requires |s| > 1 && LeadSurrogate(s[0]) && TrailSurrogate(s[1])
    requires ParseChars(PrintChars(s[2..]) + rest) == Done(s[2..], rest)
    ensures ParseChars(PrintChars(s) + rest) == Done(s, rest)
  {
    hide ParseChars, PrintUnit, PrintChars;
    var more := PrintChars(s[2..]) + rest;
    PlainRead(s[1], more);
    PlainRead(s[0], [s[1]] + more);
    PairPrinted(s);
    assert PrintChars(s) + rest == [s[0]] + ([s[1]] + more);
    assert s == [s[0]] + ([s[1]] + s[2..]);
  }

  lemma SinglePrinted(s: Text)
    requires s != [] && !(|s| > 1 && LeadSurrogate(s[0]) && TrailSurrogate(s[1]))
    ensures PrintChars(s) == PrintUnit(s[0]) + PrintChars(s[1..])
  {
  }

  lemma PairPrinted(s: Text)
    requires |s| > 1 && LeadSurrogate(s[0]) && TrailSurrogate(s[1])
    ensures PrintChars(s) == [s[0]] + ([s[1]] + PrintChars(s[2..]))
  {
  }

  lemma {:induction false} NumberRunOf(literal: Text, rest: Text)
    requires forall c <- literal :: NumberUnit(c)
    requires rest == [] || !NumberUnit(rest[0])
    ensures NumberRun(literal + rest) == literal
  {
    if literal == [] {
      assert literal + rest == rest;
    } else {
      assert (literal + rest)[1..] == literal[1..] + rest;
      NumberRunOf(literal[1..], rest);
    }
  }

  lemma NumberParsed(literal: Text, rest: Text)
    requires NumberLiteral(literal) && NumberRun(literal + rest) == literal
    ensures ParseNumber(literal + rest) == Done(Number(literal), rest)
  {
    hide NumberLiteral, NumberRun;
    assert (literal + rest)[|literal|..] == rest;
  }

  /** Text that starts with a number unit is read as a number. */
  lemma NumberStep(t: Text)
    requires t != [] && NumberUnit(t[0])
    ensures ParseValue(t) == ParseNumber(t)
  {
    hide ParseNumber, ParseItems, ParseMembers, ParseChars, ParseLiteral;
    assert SkipSpace(t) == t;
  }

  lemma NumberRoundTrip(literal: Text, rest: Text)
    requires NumberLiteral(literal)
    requires rest == [] || !NumberUnit(rest[0])
    ensures ParseValue(literal + rest) == Done(Number(literal), rest)
  {
    assert literal != [] && NumberUnit(literal[0]);
    NumberRunOf(literal, rest);
    hide NumberLiteral, NumberRun, ParseValue, ParseNumber;
    NumberParsed(literal, rest);
    NumberStep(literal + rest);
  }

  // ---- One step of the parser at a time ----

  lemma StringStep(body: Text, chars: Text, rest: Text)
    requires ParseChars(body) == Done(chars, rest)
    ensures ParseValue([QUOTE] + body) == Done(String(chars), rest)
  {
    assert ([QUOTE] + body)[1..] == body;
  }

  predicate Starts(t: Text, closing: Unit) {
    t != [] && !Whitespace(t[0]) && t[0] != closing
  }

  lemma ArrayStep(body: Text, items: seq<Value>, rest: Text)
    requires Starts(body, CLOSE_BRACKET) && ParseItems(body) == Done(items, rest)
    ensures ParseValue([OPEN_BRACKET] + body) == Done(Array(items), rest)
  {
    assert ([OPEN_BRACKET] + body)[1..] == body;
  }

  lemma ObjectStep(body: Text, members: seq<Member>, rest: Text)
    requires Starts(body, CLOSE_BRACE) && ParseMembers(body) == Done(members, rest)
    ensures ParseValue([OPEN_BRACE] + body) == Done(Object(members), rest)
  {
    assert ([OPEN_BRACE] + body)[1..] == body;
  }

  lemma EmptyStep(rest: Text)
    ensures ParseValue([OPEN_BRACKET] + ([CLOSE_BRACKET] + rest)) == Done(Array([]), rest)
    ensures ParseValue([OPEN_BRACE] + ([CLOSE_BRACE] + rest)) == Done(Object([]), rest)
  {
    assert ([OPEN_BRACKET] + ([CLOSE_BRACKET] + rest))[1..] == [CLOSE_BRACKET] + rest;
    assert ([OPEN_BRACE] + ([CLOSE_BRACE] + rest))[1..] == [CLOSE_BRACE] + rest;
    assert ([CLOSE_BRACKET] + rest)[1..] == rest;
    assert ([CLOSE_BRACE] + rest)[1..] == rest;
  }

  lemma ItemsStep(t: Text, v: Value, rest: Text)
    ensures ParseValue(t) == Done(v, [CLOSE_BRACKET] + rest) ==> ParseItems(t) == Done([v], rest)
    ensures ParseValue(t) == Done(v, [COMMA] + rest) && ParseItems(rest).Done?
        ==> ParseItems(t) == Done([v] + ParseItems(rest).value, ParseItems(rest).rest)
  {
    assert ([CLOSE_BRACKET] + rest)[1..] == rest;
    assert ([COMMA] + rest)[1..] == rest;
  }

  lemma MemberStep(body: Text, m: Member, more: Text, rest: Text)
    requires ParseChars(body) == Done(m.key, [COLON] + more)
    requires ParseValue(more) == Done(m.value, rest)
    ensures ParseMember([QUOTE] + body) == Done(m, rest)
  {
    assert ([QUOTE] + body)[1..] == body;
    assert ([COLON] + more)[1..] == more;
  }

  lemma MembersStep(t: Text, m: Member, rest: Text)
    ensures ParseMember(t) == Done(m, [CLOSE_BRACE] + rest) ==> ParseMembers(t) == Done([m], rest)
    ensures ParseMember(t) == Done(m, [COMMA] + rest) && ParseMembers(rest).Done?
        ==> ParseMembers(t) == Done([m] + ParseMembers(rest).value, ParseMembers(rest).rest)
  {
    assert ([CLOSE_BRACE] + rest)[1..] == rest;
    assert ([COMMA] + rest)[1..] == rest;
  }

  lemma ConstantsRoundTrip(rest: Text)
    ensures ParseValue(NULL_TEXT + rest) == Done(Null, rest)
    ensures ParseValue(TRUE_TEXT + rest) == Done(Bool(true), rest)
    ensures ParseValue(FALSE_TEXT + rest) == Done(Bool(false), rest)
  {
    assert (NULL_TEXT + rest)[4..] == rest;
    assert (TRUE_TEXT + rest)[4..] == rest;
    assert (FALSE_TEXT + rest)[5..] == rest;
  }

  /** The first unit of a printed value, which decides how it is read. */
  lemma PrintStarts(v: Value)
    requires WellFormed(v)
    ensures Print(v) != [] && !Whitespace(Print(v)[0])
    ensures Print(v)[0] != CLOSE_BRACKET && Print(v)[0] != CLOSE_BRACE
  {
    if v.Number? {
      assert NumberUnit(v.literal[0]);
    }
  }

  /** A printed value is read back, and what follows it is left. */
  lemma {:induction false} ValueRoundTrip(v: Value, rest: Text)
    requires WellFormed(v)
    requires rest == [] || !NumberUnit(rest[0])
    ensures ParseValue(Print(v) + rest) == Done(v, rest)
    decreases v, 1
  {
    hide ParseValue, ParseItems, ParseMembers, ParseChars, PrintChars, NumberLiteral;
    var t := Print(v) + rest;
    match v {
      case Null => ConstantsRoundTrip(rest);
      case Bool(b) => ConstantsRoundTrip(rest);
      case Number(literal) => NumberRoundTrip(literal, rest);
      case String(chars) =>
        CharsRoundTrip(chars, rest);
        StringStep(PrintChars(chars) + rest, chars, rest);
        assert t == [QUOTE] + (PrintChars(chars) + rest);
      case Array(items) =>
        if items == [] {
          EmptyStep(rest);
          assert t == [OPEN_BRACKET] + ([CLOSE_BRACKET] + rest);
        } else {
          ItemsRoundTrip(items, rest);
          PrintStarts(items[0]);
          ArrayStep(PrintItems(items) + rest, items, rest);
          assert t == [OPEN_BRACKET] + (PrintItems(items) + rest);
        }
      case Object(members) =>
        if members == [] {
          EmptyStep(rest);
          assert t == [OPEN_BRACE] + ([CLOSE_BRACE] + rest);
        } else {
          MembersRoundTrip(members, rest);
          ObjectStep(PrintMembers(members) + rest, members, rest);
          assert t == [OPEN_BRACE] + (PrintMembers(members) + rest);
        }
    }
  }

  lemma {:induction false} ItemsRoundTrip(items: seq<Value>, rest: Text)
    requires items != [] && forall i :: 0 <= i < |items| ==> WellFormed(items[i])
    ensures ParseItems(PrintItems(items) + rest) == Done(items, rest)
    decreases items, 0
  {
    hide ParseValue, ParseItems, Print, WellFormed;
    var t := PrintItems(items) + rest;
    if |items| == 1 {
      ValueRoundTrip(items[0], [CLOSE_BRACKET] + rest);
      assert t == Print(items[0]) + ([CLOSE_BRACKET] + rest);
      ItemsStep(t, items[0], rest);
      assert items == [items[0]];
    } else {
      var more := PrintItems(items[1..]) + rest;
      ValueRoundTrip(items[0], [COMMA] + more);
      assert t == Print(items[0]) + ([COMMA] + more);
      ItemsRoundTrip(items[1..], rest);
      ItemsStep(t, items[0], more);
      assert items == [items[0]] + items[1..];
    }
  }

  function PrintMember(m: Member): Text {
    [QUOTE] + PrintChars(m.key) + [COLON] + Print(m.value)
  }

  lemma {:induction false} MemberRoundTrip(m: Member, rest: Text)
    requires WellFormed(m.value)
    requires rest == [] || !NumberUnit(rest[0])
    ensures ParseMember(PrintMember(m) + rest) == Done(m, rest)
    decreases m, 2
  {
    hide ParseValue, ParseMember, ParseChars, PrintChars, Print, WellFormed;
    var more := Print(m.value) + rest;
    CharsRoundTrip(m.key, [COLON] + more);
    ValueRoundTrip(m.value, rest);
    var body := PrintChars(m.key) + ([COLON] + more);
    assert PrintMember(m) + rest == [QUOTE] + body;
    MemberStep(body, m, more, rest);
  }

  lemma {:induction false} MembersRoundTrip(members: seq<Member>, rest: Text)
    requires members != [] && forall i :: 0 <= i < |members| ==> WellFormed(members[i].value)
    ensures ParseMembers(PrintMembers(members) + rest) == Done(members, rest)
    decreases members, 0
  {
    hide ParseValue, ParseMember, ParseMembers, PrintChars, Print, WellFormed;
    var m, t := members[0], PrintMembers(members) + rest;
    if |members| == 1 {
      MemberRoundTrip(m, [CLOSE_BRACE] + rest);
      assert t == PrintMember(m) + ([CLOSE_BRACE] + rest);
      MembersStep(t, m, rest);
      assert members == [m];
    } else {
      var more := PrintMembers(members[1..]) + rest;
      MemberRoundTrip(m, [COMMA] + more);
      assert t == PrintMember(m) + ([COMMA] + more);
      MembersRoundTrip(members[1..], rest);
      MembersStep(t, m, more);
      assert members == [m] + members[1..];
    }
  }

  /** Printing and parsing gives the value back. */
  lemma PrintRoundTrip(v: Value)
    requires WellFormed(v)
    ensures Parse(Print(v)) == Some(v)
  {
    ValueRoundTrip(v, []);
    assert Print(v) + [] == Print(v);
  }
}
