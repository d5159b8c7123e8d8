/** The canonical text is the one `json.dumps` writes: the shortest printable-ASCII text of its value. */
module JsonText {
  import opened Basics
  import opened Text
  import opened Json
  import opened CanonicalJson

  // ----- One character -----

  /** Plain characters stand for themselves. */
  predicate Plain(c: char) {
    ' ' <= c <= '~' && c != '\"' && c != '\\'
  }

  /** No upper-case hex digit. */
  predicate LowerHex(s: string) {
    forall i :: 0 <= i < |s| ==> !('A' <= s[i] <= 'F')
  }

  lemma HexReads(s: string, n: nat, rest: string)
    requires ReadHex4(s) == Some((n, rest))
    ensures |s| == 4 + |rest| && s == s[..4] + rest
    ensures LowerHex(s[..4]) ==> s[..4] == Hex4(n)
  {
    hide Hex4;
    if LowerHex(s[..4]) {
      var a, b, c, d := HexValue(s[0]).value, HexValue(s[1]).value, HexValue(s[2]).value, HexValue(s[3]).value;
      assert s[..4][0] == s[0] && s[..4][1] == s[1] && s[..4][2] == s[2] && s[..4][3] == s[3];
      HexDigits(a, b, c, d);
      assert s[..4] == [HexDigit(a), HexDigit(b), HexDigit(c), HexDigit(d)];
    }
  }

  lemma Nibble(q: nat, d: nat)
    requires d < 16
    ensures (16 * q + d) / 16 == q && (16 * q + d) % 16 == d
  {
  }

  lemma HexDigits(a: nat, b: nat, c: nat, d: nat)
    requires a < 16 && b < 16 && c < 16 && d < 16
    ensures Hex4(4096 * a + 256 * b + 16 * c + d) == [HexDigit(a), HexDigit(b), HexDigit(c), HexDigit(d)]
  {
    hide HexDigit;
    var n := 4096 * a + 256 * b + 16 * c + d;
    var q1, q2 := 256 * a + 16 * b + c, 16 * a + b;
    assert n == 16 * q1 + d && q1 == 16 * q2 + c;
    Nibble(q1, d);
    Nibble(q2, c);
    Nibble(a, b);
    Quotients(n);
  }

  lemma Quotients(n: nat)
    ensures n / 256 == n / 16 / 16 && n / 4096 == n / 16 / 16 / 16
  {
  }

  /** A `\u` escape has six characters, or twelve for a surrogate pair, and in lower case is the one printed. */
  lemma UnicodeReads(s: string, c: char, rest: string)
    requires ReadUnicode(s) == Some((c, rest))
    ensures c as int < 0x1_0000 ==> |s| == 4 + |rest| && (LowerHex(s) ==> s == Hex4(c as int) + rest)
    ensures c as int >= 0x1_0000 ==> |s| == 10 + |rest| && (LowerHex(s) ==> ['\\', 'u'] + s == Escape(c) + rest)
  {
    hide ReadHex4, Hex4, Escape, LowerHex;
    var (n, after) := ReadHex4(s).value;
    HexReads(s, n, after);
    LowerPart(s, 0, 4);
    if !(n < 0xD800 || n >= 0xE000) {
      var (low, after2) := ReadHex4(after[2..]).value;
      HexReads(after[2..], low, after2);
      LowerPart(s, 6, 10);
      assert after[2..][..4] == s[6..10];
      assert after == ['\\', 'u'] + after[2..];
      PairText(c, n, low);
    }
  }

  lemma LowerPart(s: string, i: nat, j: nat)
    requires i <= j
    ensures j <= |s| && LowerHex(s) ==> LowerHex(s[i..j])
  {
    if j <= |s| && LowerHex(s) {
      forall k | 0 <= k < |s[i..j]|
        ensures !('A' <= s[i..j][k] <= 'F')
      {
        assert s[i..j][k] == s[i + k];
      }
    }
  }

  lemma PairText(c: char, n: nat, low: nat)
    requires 0xD800 <= n < 0xDC00 && 0xDC00 <= low < 0xE000
    requires c as int == 0x1_0000 + (n - 0xD800) * 0x400 + (low - 0xDC00)
    ensures Escape(c) == ['\\', 'u'] + Hex4(n) + ['\\', 'u'] + Hex4(low)
  {
    hide Hex4;
    PairSplits(n, low);
  }

  lemma PairSplits(n: nat, low: nat)
    requires 0xD800 <= n < 0xDC00 && 0xDC00 <= low < 0xE000
    ensures
      var v := (n - 0xD800) * 0x400 + (low - 0xDC00);
      0xD800 + v / 0x400 == n && 0xDC00 + v % 0x400 == low
  {
  }

  /**
   * Exactly one text per character: among printable-ASCII texts that read as `c`, the printed one is the shortest,
   * and any other as short differs from it in the case of a hex digit only.
   */
  lemma EscapeShortest(s: string, c: char, rest: string)
    requires ReadStringChar(s) == Some((c, rest)) && ' ' <= s[0] <= '~' && s[0] != '\"'
    ensures |Escape(c)| + |rest| <= |s|
    ensures |Escape(c)| + |rest| == |s| && LowerHex(s) ==> s == Escape(c) + rest
  {
    hide ReadUnicode;
    if s[0] != '\\' {
      assert s == [s[0]] + s[1..];
    } else if s[1] == 'u' {
      UnicodeReads(s[2..], c, rest);
      assert s == ['\\', 'u'] + s[2..];
      if LowerHex(s) {
        forall i | 0 <= i < |s[2..]|
          ensures !('A' <= s[2..][i] <= 'F')
        {
          assert s[2..][i] == s[i + 2];
        }
      }
    } else {
      assert s == [s[0], s[1]] + s[2..];
    }
  }

  /** A string of plain characters is printed as it is, between quotes: slashes included. */
  lemma {:induction false} PlainStringText(s: string)
    requires forall i :: 0 <= i < |s| ==> Plain(s[i])
    ensures Print(Str(s)) == ['\"'] + s + ['\"']
  {
    PlainEscapes(s);
  }

  lemma {:induction false} PlainEscapes(s: string)
    requires forall i :: 0 <= i < |s| ==> Plain(s[i])
    ensures EscapeAll(s) == s
  {
    if s != "" {
      PlainEscapes(s[1..]);
      assert Plain(s[0]) && s == [s[0]] + s[1..];
    }
  }

  /** Every printed escape is in lower case. */
  lemma EscapeLower(c: char)
    requires !Plain(c)
    ensures LowerHex(Escape(c))
  {
    hide Hex4;
    if c as int < 0x1_0000 {
      Hex4Lower(c as int);
    } else {
      var v := c as int - 0x1_0000;
      Hex4Lower(0xD800 + v / 0x400);
      Hex4Lower(0xDC00 + v % 0x400);
    }
  }

  lemma Hex4Lower(n: nat)
    requires n < 0x1_0000
    ensures LowerHex(Hex4(n))
  {
  }

  // ----- Whole values -----

  /** The part of `s` before `rest` is printable ASCII. */
  predicate AsciiBefore(s: string, rest: string) {
    |rest| <= |s| && forall i :: 0 <= i < |s| - |rest| ==> ' ' <= s[i] <= '~'
  }

  lemma {:induction false} ReadKeepsSuffix(s: string, str: string, rest: string)
    requires ReadStringBody(s) == Some((str, rest))
    ensures |rest| < |s| && rest == s[|s| - |rest|..]
    decreases |s|
  {
    if s[0] != '\"' {
      var (c, after) := ReadStringChar(s).value;
      CharKeepsSuffix(s, c, after);
      ReadKeepsSuffix(after, str[1..], rest);
    }
  }

  lemma CharKeepsSuffix(s: string, c: char, rest: string)
    requires ReadStringChar(s) == Some((c, rest))
    ensures |rest| < |s| && rest == s[|s| - |rest|..]
  {
  }

  lemma {:induction false} StringShortest(s: string, str: string, rest: string)
    requires ReadStringBody(s) == Some((str, rest)) && AsciiBefore(s, rest)
    ensures |EscapeAll(str)| + 1 + |rest| <= |s|
    decreases |s|
  {
    hide ReadStringChar, Escape;
    if s[0] == '\"' {
    } else {
      var (c, after) := ReadStringChar(s).value;
      CharKeepsSuffix(s, c, after);
      EscapeShortest(s, c, after);
      assert ReadStringBody(after) == Some((str[1..], rest));
      ReadKeepsSuffix(after, str[1..], rest);
      StringShortest(after, str[1..], rest);
      assert str == [c] + str[1..];
    }
  }

  lemma {:induction false} DecimalShortest(d: string)
    requires AllDigits(d) && d != ""
    ensures |Decimal(Value(d))| <= |d|
  {
    var n := Value(d);
    if |d| == 1 {
      assert d[..0] == "";
    } else {
      DecimalShortest(d[..|d| - 1]);
      assert n / 10 == Value(d[..|d| - 1]);
    }
  }

  lemma NaturalShortest(s: string, n: nat, rest: string)
    requires ReadNatural(s) == Some((n, rest))
    ensures |Decimal(n)| + |rest| <= |s|
    ensures rest == s[|s| - |rest|..]
  {
    var k := DigitSpan(s);
    DecimalShortest(s[..k]);
  }

  /** A negative number needs its sign; "-0" reads as 0, which has a shorter text. */
  lemma NumberShortest(s: string, n: nat, rest: string)
    requires ReadNatural(s) == Some((n, rest))
    ensures |PrintInt(n)| + |rest| <= |s| && |PrintInt(0 - n)| + |rest| <= |s| + 1
  {
    NaturalShortest(s, n, rest);
  }

  lemma {:induction false} ReadSuffix(s: string, j: Json, rest: string)
    requires ReadValue(s) == Some((j, rest))
    ensures |rest| < |s| && rest == s[|s| - |rest|..]
    decreases |s|, 0
  {
    hide ReadStringBody, ReadNatural, ReadItems, ReadMembers;
    if s[0] == '\"' {
      ReadKeepsSuffix(s[1..], j.s, rest);
    } else if s[0] == '[' {
      if !(|s| > 1 && s[1] == ']') {
        ReadItemsSuffix(s[1..], j.items, rest);
      }
    } else if s[0] == '{' {
      if !(|s| > 1 && s[1] == '}') {
        ReadMembersSuffix(s[1..], j.members, rest);
      }
    } else if s[0] == '-' {
      var (n, after) := ReadNatural(s[1..]).value;
      NaturalShortest(s[1..], n, after);
    } else if IsDigit(s[0]) {
      var (n, after) := ReadNatural(s).value;
      NaturalShortest(s, n, after);
    }
  }

  lemma {:induction false} ReadItemsSuffix(s: string, items: List<Json>, rest: string)
    requires ReadItems(s) == Some((items, rest))
    ensures |rest| < |s| && rest == s[|s| - |rest|..]
    decreases |s|, 1
  {
    hide ReadValue;
    var (j, after) := ReadValue(s).value;
    ReadSuffix(s, j, after);
    if after[0] == ',' {
      ReadItemsSuffix(after[1..], items.tail, rest);
    }
  }

  lemma {:induction false} ReadMembersSuffix(s: string, ms: List<Member>, rest: string)
    requires ReadMembers(s) == Some((ms, rest))
    ensures |rest| < |s| && rest == s[|s| - |rest|..]
    decreases |s|, 1
  {
    hide ReadValue, ReadStringBody;
    var (key, after) := ReadStringBody(s[1..]).value;
    ReadKeepsSuffix(s[1..], key, after);
    var (j, after2) := ReadValue(after[1..]).value;
    ReadSuffix(after[1..], j, after2);
    if after2[0] == ',' {
      ReadMembersSuffix(after2[1..], ms.tail, rest);
    }
  }

  /** Cutting off a read prefix keeps the rest of the printable part printable. */
  lemma AsciiLater(s: string, after: string, rest: string)
    requires AsciiBefore(s, rest) && |rest| <= |after| <= |s| && after == s[|s| - |after|..]
    ensures AsciiBefore(after, rest) && AsciiBefore(s, after)
  {
  }

  lemma {:induction false} ValueShortest(s: string, j: Json, rest: string)
    requires ReadValue(s) == Some((j, rest)) && AsciiBefore(s, rest)
    ensures |Print(j)| + |rest| <= |s|
    decreases |s|, 0
  {
    hide ReadStringBody, ReadNatural, ReadItems, ReadMembers, EscapeAll, PrintInt, AsciiBefore;
    ReadSuffix(s, j, rest);
    if s[0] == '\"' {
      ReadKeepsSuffix(s[1..], j.s, rest);
      AsciiLater(s, s[1..], rest);
      StringShortest(s[1..], j.s, rest);
    } else if s[0] == '[' {
      if !(|s| > 1 && s[1] == ']') {
        ReadItemsSuffix(s[1..], j.items, rest);
        AsciiLater(s, s[1..], rest);
        ItemsShortest(s[1..], j.items, rest);
      }
    } else if s[0] == '{' {
      if !(|s| > 1 && s[1] == '}') {
        ReadMembersSuffix(s[1..], j.members, rest);
        AsciiLater(s, s[1..], rest);
        MembersShortest(s[1..], j.members, rest);
      }
    } else if s[0] == '-' {
      var (n, after) := ReadNatural(s[1..]).value;
      NumberShortest(s[1..], n, after);
    } else if IsDigit(s[0]) {
      var (n, after) := ReadNatural(s).value;
      NumberShortest(s, n, after);
    }
  }

  lemma {:induction false} ItemsShortest(s: string, items: List<Json>, rest: string)
    requires ReadItems(s) == Some((items, rest)) && AsciiBefore(s, rest)
    ensures |PrintItems(items)| + 1 + |rest| <= |s|
    decreases |s|, 1
  {
    hide ReadValue, Print, AsciiBefore;
    ReadItemsSuffix(s, items, rest);
    var (j, after) := ReadValue(s).value;
    ReadSuffix(s, j, after);
    if after[0] == ']' {
      AsciiLater(s, after, rest);
      ValueShortest(s, j, after);
    } else {
      ReadItemsSuffix(after[1..], items.tail, rest);
      AsciiLater(s, after, rest);
      AsciiLater(after, after[1..], rest);
      ValueShortest(s, j, after);
      ItemsShortest(after[1..], items.tail, rest);
    }
  }

  lemma {:induction false} MembersShortest(s: string, ms: List<Member>, rest: string)
    requires ReadMembers(s) == Some((ms, rest)) && AsciiBefore(s, rest)
    ensures |PrintMembers(ms)| + 1 + |rest| <= |s|
    decreases |s|, 1
  {
    hide ReadValue, ReadStringBody, PrintMember, AsciiBefore;
    var (key, after) := ReadStringBody(s[1..]).value;
    var (j, after2) := ReadValue(after[1..]).value;
    ReadKeepsSuffix(s[1..], key, after);
    ReadSuffix(after[1..], j, after2);
    if after2[0] == ',' {
      ReadMembersSuffix(after2[1..], ms.tail, rest);
    }
    AsciiLater(s, after2, rest);
    MemberShortest(s, key, after, j, after2);
    if after2[0] == ',' {
      AsciiLater(after2, after2[1..], rest);
      MembersShortest(after2[1..], ms.tail, rest);
    }
  }

  lemma {:induction false} MemberShortest(s: string, key: string, after: string, j: Json, rest: string)
    requires s != "" && s[0] == '\"' && ReadStringBody(s[1..]) == Some((key, after))
    requires after != "" && after[0] == ':' && ReadValue(after[1..]) == Some((j, rest)) && AsciiBefore(s, rest)
    ensures |PrintMember(Member(key, j))| + |rest| <= |s|
    decreases |s|, 0
  {
    hide ReadValue, ReadStringBody, Print, EscapeAll, AsciiBefore;
    ReadKeepsSuffix(s[1..], key, after);
    ReadSuffix(after[1..], j, rest);
    AsciiLater(s, s[1..], rest);
    AsciiLater(s[1..], after, rest);
    AsciiLater(after, after[1..], rest);
    StringShortest(s[1..], key, after);
    ValueShortest(after[1..], j, rest);
  }

  /** No printable-ASCII text of the key-sorted value is shorter than its canonical text. */
  lemma DumpsShortest(j: Json, t: string)
    requires Ascii(t) && Parse(t) == Some(Canon(j))
    ensures |Dumps(j)| <= |t|
  {
    ValueShortest(t, Canon(j), "");
  }

  // ----- Building texts -----

  lemma PlainMember(key: string, j: Json)
    requires forall i :: 0 <= i < |key| ==> Plain(key[i])
    ensures PrintMember(Member(key, j)) == ['\"'] + key + ['\"', ':'] + Print(j)
  {
    hide EscapeAll, Print;
    PlainEscapes(key);
  }

  lemma OneMemberText(key: string, value: Json)
    requires forall i :: 0 <= i < |key| ==> Plain(key[i])
    ensures Print(Obj(Field(key, value, Nil))) == ['{'] + (['\"'] + key + ['\"', ':'] + Print(value)) + ['}']
  {
    hide PrintMember;
    PlainMember(key, value);
  }

  /** A member as it stands in the text; `mark` is the key between quotes, with its colon. */
  lemma MarkedMember(key: string, mark: string, value: Json)
    requires forall i :: 0 <= i < |key| ==> Plain(key[i])
    requires mark == ['\"'] + key + ['\"', ':']
    ensures PrintMember(Member(key, value)) == mark + Print(value)
    ensures Print(Obj(Field(key, value, Nil))) == "{" + (mark + Print(value)) + "}"
  {
    hide Print;
    PlainMember(key, value);
    OneMemberText(key, value);
  }

  lemma Quoted(s: string, quoted: string)
    requires forall i :: 0 <= i < |s| ==> Plain(s[i])
    requires quoted == ['\"'] + s + ['\"']
    ensures Print(Str(s)) == quoted
  {
    PlainStringText(s);
  }

  lemma JoinThree(a: string, b: string, c: string)
    ensures ['{'] + (a + [','] + (b + [','] + c)) + ['}'] == "{" + a + "," + b + "," + c + "}"
  {
  }

  lemma ThreeMembers(k1: string, v1: Json, k2: string, v2: Json, k3: string, v3: Json)
    ensures Print(Obj(Field(k1, v1, Field(k2, v2, Field(k3, v3, Nil))))) ==
            ['{'] + (PrintMember(Member(k1, v1)) + [','] + (PrintMember(Member(k2, v2)) + [','] + PrintMember(Member(k3, v3)))) + ['}']
  {
    hide PrintMember;
    assert PrintMembers(Field(k3, v3, Nil)) == PrintMember(Member(k3, v3));
    assert PrintMembers(Field(k2, v2, Field(k3, v3, Nil))) == PrintMember(Member(k2, v2)) + [','] + PrintMember(Member(k3, v3));
  }

  // ----- The marks themselves -----

  const EXAMPLE_STRING := "x/y\"\\\n\U{E9}\U{1F600}"

  const EXAMPLE_ESCAPED := "x/y" + "\\\"" + "\\\\" + "\\n" + "\\u00e9" + "\\ud83d\\ude00"

  const EXAMPLE_LIST := Arr(Cons(Bool(true), Cons(Bool(false), Cons(Null, Cons(Num(-12), Nil)))))

  const EXAMPLE := Obj(Cons(Member("b/", EXAMPLE_LIST), Cons(Member("ab", Obj(Nil)), Cons(Member("a", Str(EXAMPLE_STRING)), Nil))))

  /** Letters of every kind, each mark of the syntax, and a key that is a prefix of another. */
  lemma ExampleText()
    ensures Dumps(EXAMPLE) == "{" + ("\"a\":" + ("\"" + EXAMPLE_ESCAPED + "\"")) + "," + ("\"ab\":" + "{}") + ","
                              + ("\"b/\":" + "[true,false,null,-12]") + "}"
  {
    hide EscapeAll, Canon, Escape, PrintMember, Print;
    var s := Str(EXAMPLE_STRING);
    ExampleOrder();
    ExampleStringText();
    ExampleList();
    EmptyObject();
    MarkedMember("a", "\"a\":", s);
    MarkedMember("ab", "\"ab\":", Obj(Nil));
    MarkedMember("b/", "\"b/\":", EXAMPLE_LIST);
    ThreeMembers("a", s, "ab", Obj(Nil), "b/", EXAMPLE_LIST);
    JoinThree(PrintMember(Member("a", s)), PrintMember(Member("ab", Obj(Nil))), PrintMember(Member("b/", EXAMPLE_LIST)));
  }

  lemma ExampleStringText()
    ensures Print(Str(EXAMPLE_STRING)) == "\"" + EXAMPLE_ESCAPED + "\""
  {
    hide EscapeAll;
    ExampleString();
  }

  lemma EmptyObject()
    ensures Print(Obj(Nil)) == "{}"
  {
  }

  lemma ExampleOrder()
    ensures Canon(EXAMPLE)
            == Obj(Cons(Member("a", Str(EXAMPLE_STRING)), Cons(Member("ab", Obj(Nil)), Cons(Member("b/", EXAMPLE_LIST), Nil))))
  {
    var a, ab, b := Member("a", Str(EXAMPLE_STRING)), Member("ab", Obj(Nil)), Member("b/", EXAMPLE_LIST);
    assert Canon(EXAMPLE_LIST) == EXAMPLE_LIST;
    assert Less("a", "ab") && Less("ab", "b/") && Less("a", "b/");
    assert CanonMembers(Cons(a, Nil)) == Cons(a, Nil);
    assert CanonMembers(Cons(ab, Cons(a, Nil))) == Cons(a, Cons(ab, Nil));
    assert CanonMembers(Cons(b, Cons(ab, Cons(a, Nil)))) == Cons(a, Cons(ab, Cons(b, Nil)));
  }

  lemma ExampleList()
    ensures Print(EXAMPLE_LIST) == "[true,false,null,-12]"
  {
    assert Decimal(12) == Decimal(1) + "2" && Decimal(1) == "1";
  }

  lemma ExampleString()
    ensures EscapeAll(EXAMPLE_STRING) == EXAMPLE_ESCAPED
  {
    hide Escape, EscapeAll;
    PlainEscapes("x/y");
    OneMore("x/y", '\"');
    OneMore("x/y\"", '\\');
    OneMore("x/y\"\\", '\n');
    OneMore("x/y\"\\\n", '\U{E9}');
    OneMore("x/y\"\\\n\U{E9}", '\U{1F600}');
    ExampleEscapes();
    assert "x/y" + ['\"'] + ['\\'] + ['\n'] + ['\U{E9}'] + ['\U{1F600}'] == EXAMPLE_STRING;
    assert "x/y" + ['\"'] == "x/y\"" && "x/y\"" + ['\\'] == "x/y\"\\" && "x/y\"\\" + ['\n'] == "x/y\"\\\n";
    assert "x/y\"\\\n" + ['\U{E9}'] == "x/y\"\\\n\U{E9}";
  }

  /** The two-letter escapes, and the first characters on either side of the printable range. */
  lemma EscapeTable()
    ensures Escape('\r') == "\\r" && Escape('\t') == "\\t" && Escape(8 as char) == "\\b" && Escape(12 as char) == "\\f"
    ensures Escape('/') == "/" && Escape(' ') == " " && Escape('~') == "~"
    ensures Escape(31 as char) == "\\u001f" && Escape(127 as char) == "\\u007f"
  {
    hide Hex4;
    EdgeHex();
  }

  lemma EdgeHex()
    ensures Hex4(31) == "001f" && Hex4(127) == "007f"
  {
    assert HexDigit(0) == '0' && HexDigit(1) == '1' && HexDigit(7) == '7' && HexDigit(15) == 'f';
  }

  lemma ExampleEscapes()
    ensures Escape('\"') == "\\\"" && Escape('\\') == "\\\\" && Escape('\n') == "\\n"
    ensures Escape('\U{E9}') == "\\u00e9" && Escape('\U{1F600}') == "\\ud83d\\ude00"
  {
    hide Hex4;
    ExampleHex();
    assert '\U{E9}' as int == 0xE9 && '\U{1F600}' as int == 0x1F600;
    assert 0xF600 / 0x400 == 0x3D && 0xF600 % 0x400 == 0x200;
    assert Escape('\U{1F600}') == ['\\', 'u'] + Hex4(0xD83D) + ['\\', 'u'] + Hex4(0xDE00);
  }

  lemma ExampleHex()
    ensures Hex4(0xE9) == "00e9" && Hex4(0xD83D) == "d83d" && Hex4(0xDE00) == "de00"
  {
    assert HexDigit(0) == '0' && HexDigit(3) == '3' && HexDigit(8) == '8' && HexDigit(9) == '9';
    assert HexDigit(13) == 'd' && HexDigit(14) == 'e';
  }

  lemma {:induction false} OneMore(s: string, c: char)
    ensures EscapeAll(s + [c]) == EscapeAll(s) + Escape(c)
  {
    hide Escape;
    if s == "" {
      assert [c][1..] == "" && EscapeAll("") == "";
    } else {
      OneMore(s[1..], c);
      assert (s + [c])[1..] == s[1..] + [c];
    }
  }
}
