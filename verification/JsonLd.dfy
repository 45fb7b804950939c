/** Structured data made safe to embed in a script element, with its JSON value unchanged. */
module JsonLd {
  import opened Wrappers
  import opened Json
  import opened JsonRoundTrip

  const LESS_THAN: Unit := 0x3C
  const GREATER_THAN: Unit := 0x3E
  const AMPERSAND: Unit := 0x26

  /** Every occurrence of one unit replaced by a text. */
  function ReplaceAll(t: Text, target: Unit, replacement: Text): Text {
    if t == [] then []
    else (if t[0] == target then replacement else [t[0]]) + ReplaceAll(t[1..], target, replacement)
  }

  /** The three replacements, one after the other. */
  function EscapeMarkup(t: Text): Text {
    var noLess := ReplaceAll(t, LESS_THAN, UnicodeEscape(LESS_THAN));
    var noGreater := ReplaceAll(noLess, GREATER_THAN, UnicodeEscape(GREATER_THAN));
    ReplaceAll(noGreater, AMPERSAND, UnicodeEscape(AMPERSAND))
  }

  function SerializeJsonLd(data: Value): Text {
    EscapeMarkup(Print(data))
  }

  predicate Markup(c: Unit) {
    c == LESS_THAN || c == GREATER_THAN || c == AMPERSAND
  }

  /** The three replacements in one pass. */
  function Escape(t: Text): Text {
    if t == [] then []
    else (if Markup(t[0]) then UnicodeEscape(t[0]) else [t[0]]) + Escape(t[1..])
  }

  lemma {:induction false} ReplaceDistributes(a: Text, b: Text, target: Unit, replacement: Text)
    ensures ReplaceAll(a + b, target, replacement)
         == ReplaceAll(a, target, replacement) + ReplaceAll(b, target, replacement)
  {
    if a == [] {
      assert a + b == b;
    } else {
      assert (a + b)[1..] == a[1..] + b;
      ReplaceDistributes(a[1..], b, target, replacement);
    }
  }

  lemma {:induction false} NothingToReplace(t: Text, target: Unit, replacement: Text)
    requires target !in t
    ensures ReplaceAll(t, target, replacement) == t
  {
    if t != [] {
      NothingToReplace(t[1..], target, replacement);
    }
  }

  lemma EscapesAreClean(c: Unit)
    requires Markup(c)
    ensures forall u <- UnicodeEscape(c) :: !Markup(u)
  {
  }

  /** What is inserted, letter by letter. */
  lemma EscapesAre()
    ensures UnicodeEscape(LESS_THAN) == [0x5C, 0x75, 0x30, 0x30, 0x33, 0x63]
    ensures UnicodeEscape(GREATER_THAN) == [0x5C, 0x75, 0x30, 0x30, 0x33, 0x65]
    ensures UnicodeEscape(AMPERSAND) == [0x5C, 0x75, 0x30, 0x30, 0x32, 0x36]
  {
  }

  /** No replacement touches what another one inserted. */
  lemma {:induction false} OnePass(t: Text)
    ensures EscapeMarkup(t) == Escape(t)
  {
    if t != [] {
      OnePass(t[1..]);
      var lt, gt, amp := UnicodeEscape(LESS_THAN), UnicodeEscape(GREATER_THAN), UnicodeEscape(AMPERSAND);
      EscapesAreClean(LESS_THAN);
      EscapesAreClean(GREATER_THAN);
      EscapesAreClean(AMPERSAND);
      hide UnicodeEscape;
      var c, rest := t[0], t[1..];
      var one := if c == LESS_THAN then lt else [c];
      var less := ReplaceAll(rest, LESS_THAN, lt);
      ReplaceDistributes(one, less, GREATER_THAN, gt);
      SingleReplaced(c, GREATER_THAN, gt);
      NothingToReplace(lt, GREATER_THAN, gt);
      var two := ReplaceAll(one, GREATER_THAN, gt);
      var greater := ReplaceAll(less, GREATER_THAN, gt);
      ReplaceDistributes(two, greater, AMPERSAND, amp);
      SingleReplaced(c, AMPERSAND, amp);
      NothingToReplace(lt, AMPERSAND, amp);
      NothingToReplace(gt, AMPERSAND, amp);
    }
  }

  lemma SingleReplaced(c: Unit, target: Unit, replacement: Text)
    ensures ReplaceAll([c], target, replacement) == if c == target then replacement else [c]
  {
    assert ReplaceAll([], target, replacement) == [];
    assert [c][1..] == [];
  }

  /** The output contains none of the three characters. */
  lemma {:induction false} EscapedIsClean(t: Text)
    ensures forall u <- Escape(t) :: !Markup(u)
  {
    if t != [] {
      EscapedIsClean(t[1..]);
      if Markup(t[0]) {
        EscapesAreClean(t[0]);
      }
    }
  }

  // ---- The parser sees through the escaping ----

  lemma EscapeOne(t: Text)
    requires t != [] && !Markup(t[0])
    ensures Escape(t) == [t[0]] + Escape(t[1..])
    ensures Escape(t) != [] && Escape(t)[0] == t[0] && Escape(t)[1..] == Escape(t[1..])
  {
  }

  lemma {:induction false} EscapeClean(t: Text, n: nat)
    requires n <= |t| && forall i :: 0 <= i < n ==> !Markup(t[i])
    ensures Escape(t) == t[..n] + Escape(t[n..])
  {
    if n > 0 {
      EscapeOne(t);
      EscapeClean(t[1..], n - 1);
      hide Escape;
      var head, tail := t[1..][..n - 1], Escape(t[n..]);
      assert t[1..][n - 1..] == t[n..];
      assert [t[0]] + (head + tail) == ([t[0]] + head) + tail;
      assert [t[0]] + head == t[..n];
    } else {
      assert t[0..] == t;
    }
  }

  lemma {:induction false} SpaceSeesThrough(t: Text)
    ensures SkipSpace(Escape(t)) == Escape(SkipSpace(t))
  {
    if t != [] {
      if Whitespace(t[0]) {
        EscapeOne(t);
        SpaceSeesThrough(t[1..]);
      }
    }
  }

  /** A string literal that reads well reads the same after escaping. */
  lemma {:induction false} CharsSeeThrough(t: Text)
    requires ParseChars(t).Done?
    ensures ParseChars(Escape(t)) == Done(ParseChars(t).value, Escape(ParseChars(t).rest))
    decreases |t|
  {
    if Markup(t[0]) {
      CharsSeeThrough(t[1..]);
      UnicodeEscapeRead(t[0], Escape(t[1..]));
    } else if t[0] == BACKSLASH {
      if ShortEscape(t[1]).Some? {
        EscapeClean(t, 2);
        CharsSeeThrough(t[2..]);
        assert Escape(t)[2..] == Escape(t[2..]);
      } else {
        HexIsClean(t[2..]);
        EscapeClean(t, 6);
        CharsSeeThrough(t[6..]);
        assert Escape(t)[6..] == Escape(t[6..]);
        assert Escape(t)[2..6] == t[2..6];
        SameHex(Escape(t)[2..], t[2..]);
      }
    } else {
      EscapeOne(t);
      if t[0] != QUOTE {
        CharsSeeThrough(t[1..]);
      }
    }
  }

  lemma HexIsClean(t: Text)
    requires |t| >= 4 && Hex4(t).Some?
    ensures forall i :: 0 <= i < 4 ==> !Markup(t[i])
  {
  }

  lemma SameHex(a: Text, b: Text)
    requires |a| >= 4 && |b| >= 4 && a[..4] == b[..4]
    ensures Hex4(a) == Hex4(b)
  {
    assert a[0] == a[..4][0] && a[1] == a[..4][1] && a[2] == a[..4][2] && a[3] == a[..4][3];
  }

  lemma {:induction false} RunSeesThrough(t: Text)
    ensures NumberRun(Escape(t)) == NumberRun(t)
  {
    if t != [] {
      if NumberUnit(t[0]) {
        EscapeOne(t);
        RunSeesThrough(t[1..]);
      }
    }
  }

  lemma NumberSeesThrough(t: Text)
    requires ParseNumber(t).Done?
    ensures ParseNumber(Escape(t)) == Done(ParseNumber(t).value, Escape(ParseNumber(t).rest))
  {
    RunSeesThrough(t);
    var n := |NumberRun(t)|;
    forall i | 0 <= i < n
      ensures !Markup(t[i])
    {
      assert NumberRun(t)[i] in NumberRun(t);
    }
    EscapeClean(t, n);
    assert Escape(t)[n..] == Escape(t[n..]);
  }

  lemma LiteralSeesThrough(t: Text, literal: Text, v: Value)
    requires literal != [] && forall u <- literal :: !Markup(u)
    requires ParseLiteral(t, literal, v).Done?
    ensures ParseLiteral(Escape(t), literal, v) == Done(v, Escape(ParseLiteral(t, literal, v).rest))
  {
    var n := |literal|;
    EscapeClean(t, n);
    assert Escape(t)[n..] == Escape(t[n..]);
  }

  lemma {:induction false} ValueSeesThrough(t: Text)
    requires ParseValue(t).Done?
    ensures ParseValue(Escape(t)) == Done(ParseValue(t).value, Escape(ParseValue(t).rest))
    decreases |t|, 2
  {
    SpaceSeesThrough(t);
    var u := SkipSpace(t);
    if !Markup(u[0]) {
      EscapeOne(u);
    }
    if u[0] == 0x6E {
      LiteralSeesThrough(u, NULL_TEXT, Null);
    } else if u[0] == 0x74 {
      LiteralSeesThrough(u, TRUE_TEXT, Bool(true));
    } else if u[0] == 0x66 {
      LiteralSeesThrough(u, FALSE_TEXT, Bool(false));
    } else if u[0] == QUOTE {
      CharsSeeThrough(u[1..]);
    } else if u[0] == OPEN_BRACKET || u[0] == OPEN_BRACE {
      SpaceSeesThrough(u[1..]);
      var w := SkipSpace(u[1..]);
      if w != [] && !Markup(w[0]) {
        EscapeOne(w);
      }
      if u[0] == OPEN_BRACKET && !(w != [] && w[0] == CLOSE_BRACKET) {
        ItemsSeeThrough(u[1..]);
      } else if u[0] == OPEN_BRACE && !(w != [] && w[0] == CLOSE_BRACE) {
        MembersSeeThrough(u[1..]);
      }
    } else {
      NumberSeesThrough(u);
    }
  }

  lemma {:induction false} ItemsSeeThrough(t: Text)
    requires ParseItems(t).Done?
    ensures ParseItems(Escape(t)) == Done(ParseItems(t).value, Escape(ParseItems(t).rest))
    decreases |t|, 3
  {
    ValueSeesThrough(t);
    var rest := ParseValue(t).rest;
    SpaceSeesThrough(rest);
    var u := SkipSpace(rest);
    EscapeOne(u);
    if u[0] == COMMA {
      ItemsSeeThrough(u[1..]);
    }
  }

  lemma {:induction false} MemberSeesThrough(t: Text)
    requires ParseMember(t).Done?
    ensures ParseMember(Escape(t)) == Done(ParseMember(t).value, Escape(ParseMember(t).rest))
    decreases |t|, 3
  {
    SpaceSeesThrough(t);
    var u := SkipSpace(t);
    EscapeOne(u);
    CharsSeeThrough(u[1..]);
    var rest := ParseChars(u[1..]).rest;
    SpaceSeesThrough(rest);
    var w := SkipSpace(rest);
    EscapeOne(w);
    ValueSeesThrough(w[1..]);
  }

  lemma {:induction false} MembersSeeThrough(t: Text)
    requires ParseMembers(t).Done?
    ensures ParseMembers(Escape(t)) == Done(ParseMembers(t).value, Escape(ParseMembers(t).rest))
    decreases |t|, 4
  {
    MemberSeesThrough(t);
    var rest := ParseMember(t).rest;
    SpaceSeesThrough(rest);
    var u := SkipSpace(rest);
    EscapeOne(u);
    if u[0] == COMMA {
      MembersSeeThrough(u[1..]);
    }
  }

  /** Escaping preserves the value of every JSON text. */
  lemma EscapePreservesMeaning(t: Text)
    requires Parse(t).Some?
    ensures Parse(EscapeMarkup(t)) == Parse(t)
  {
    OnePass(t);
    ValueSeesThrough(t);
    SpaceSeesThrough(ParseValue(t).rest);
  }

  /** The serialized data has no markup characters and parses to the data itself. */
  lemma SerializationIsSafeAndFaithful(data: Value)
    requires WellFormed(data)
    ensures Parse(SerializeJsonLd(data)) == Some(data)
    ensures forall u <- SerializeJsonLd(data) :: !Markup(u)
  {
    PrintRoundTrip(data);
    EscapePreservesMeaning(Print(data));
    OnePass(Print(data));
    EscapedIsClean(Print(data));
  }

  lemma PrintedEscape()
    ensures PrintChars(UnicodeEscape(LESS_THAN)) == [BACKSLASH] + UnicodeEscape(LESS_THAN) + [QUOTE]
  {
    var s := UnicodeEscape(LESS_THAN);
    assert s == [BACKSLASH, LOWER_U, 0x30, 0x30, 0x33, 0x63];
    assert PrintChars(s[5..]) == s[5..] + [QUOTE];
    assert PrintChars(s[4..]) == s[4..] + [QUOTE];
    assert PrintChars(s[3..]) == s[3..] + [QUOTE];
    assert PrintChars(s[2..]) == s[2..] + [QUOTE];
    assert PrintChars(s[1..]) == s[1..] + [QUOTE];
  }

  lemma EscapedBackslash()
    ensures EscapeMarkup([QUOTE, BACKSLASH, LESS_THAN, QUOTE])
         == [QUOTE] + ([BACKSLASH] + UnicodeEscape(LESS_THAN) + [QUOTE])
  {
    var t := [QUOTE, BACKSLASH, LESS_THAN, QUOTE];
    OnePass(t);
    hide UnicodeEscape, EscapeMarkup;
    assert Escape(t[3..]) == [QUOTE];
    assert Escape(t[2..]) == UnicodeEscape(LESS_THAN) + [QUOTE];
    assert Escape(t[1..]) == [BACKSLASH] + (UnicodeEscape(LESS_THAN) + [QUOTE]);
  }

  /** A backslash before a markup character is no escape. */
  lemma BackslashIsInvalid()
    ensures Parse([QUOTE, BACKSLASH, LESS_THAN, QUOTE]) == None
  {
    var t := [QUOTE, BACKSLASH, LESS_THAN, QUOTE];
    assert ParseChars(t[1..]) == Fail;
    assert SkipSpace(t) == t;
  }

  /** Text that is not JSON can change: a backslash before a markup character is completed to an escape. */
  lemma InvalidTextCanChange()
    ensures Parse([QUOTE, BACKSLASH, LESS_THAN, QUOTE]) == None
    ensures Parse(EscapeMarkup([QUOTE, BACKSLASH, LESS_THAN, QUOTE]))
         == Some(String(UnicodeEscape(LESS_THAN)))
  {
    hide UnicodeEscape, EscapeMarkup, ParseValue, ParseChars, PrintChars;
    BackslashIsInvalid();
    var s := UnicodeEscape(LESS_THAN);
    EscapedBackslash();
    PrintedEscape();
    CharsRoundTrip(s, []);
    assert PrintChars(s) + [] == PrintChars(s);
    StringStep(PrintChars(s), s, []);
  }
}
