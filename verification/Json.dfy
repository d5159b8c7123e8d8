/** JSON values and the canonical text `json.dumps(v, sort_keys=True, separators=(",", ":"))`. */
module Json {
  import opened Basics
  import opened Text

  /** A Python value made of None, bool, int, str, list and string-keyed dict; a dict keeps its insertion order. */
  datatype Json =
    | Null
    | Bool(b: bool)
    | Num(n: int)
    | Str(s: string)
    | Arr(items: List<Json>)
    | Obj(members: List<Member>)

  datatype Member = Member(key: string, value: Json)

  function Keys(ms: List<Member>): set<string> {
    match ms
    case Nil => {}
    case Cons(m, rest) => {m.key} + Keys(rest)
  }

  /** No dict holds a key twice, at any depth. */
  predicate WellFormed(j: Json) {
    match j
    case Arr(items) => WellFormedItems(items)
    case Obj(members) => WellFormedMembers(members)
    case _ => true
  }

  predicate WellFormedItems(items: List<Json>) {
    match items
    case Nil => true
    case Cons(j, rest) => WellFormed(j) && WellFormedItems(rest)
  }

  predicate WellFormedMembers(ms: List<Member>) {
    match ms
    case Nil => true
    case Cons(m, rest) => m.key !in Keys(rest) && WellFormed(m.value) && WellFormedMembers(rest)
  }

  /** `d[key]`, or None for a missing key. */
  function Lookup(ms: List<Member>, key: string): Option<Json> {
    match ms
    case Nil => None
    case Cons(m, rest) => if m.key == key then Some(m.value) else Lookup(rest, key)
  }

  /** One more member in front, for writing dicts out. */
  function Field(key: string, value: Json, rest: List<Member>): List<Member> {
    Cons(Member(key, value), rest)
  }

  /** `j[key]`; None stands for KeyError and TypeError alike. */
  function Subscript(j: Json, key: string): Option<Json> {
    if j.Obj? then Lookup(j.members, key) else None
  }

  // ----- Equality up to key order -----

  /** What a value means once the order of object keys is forgotten. */
  datatype Datum =
    | VNull
    | VBool(b: bool)
    | VNum(n: int)
    | VStr(s: string)
    | VArr(items: List<Datum>)
    | VObj(members: map<string, Datum>)

  function Meaning(j: Json): Datum {
    match j
    case Null => VNull
    case Bool(b) => VBool(b)
    case Num(n) => VNum(n)
    case Str(s) => VStr(s)
    case Arr(items) => VArr(ItemsMeaning(items))
    case Obj(members) => VObj(MembersMeaning(members))
  }

  function ItemsMeaning(items: List<Json>): List<Datum> {
    match items
    case Nil => Nil
    case Cons(j, rest) => Cons(Meaning(j), ItemsMeaning(rest))
  }

  function MembersMeaning(ms: List<Member>): (r: map<string, Datum>)
    ensures r.Keys == Keys(ms)
  {
    match ms
    case Nil => map[]
    case Cons(m, rest) => MembersMeaning(rest)[m.key := Meaning(m.value)]
  }

  // ----- Sorting keys at every depth -----

  function Insert(m: Member, ms: List<Member>): (r: List<Member>)
    ensures Keys(r) == Keys(ms) + {m.key}
  {
    match ms
    case Nil => Cons(m, Nil)
    case Cons(first, rest) => if Less(first.key, m.key) then Cons(first, Insert(m, rest)) else Cons(m, ms)
  }

  /** The value with every object's keys in code-point order. */
  function Canon(j: Json): Json {
    match j
    case Arr(items) => Arr(CanonItems(items))
    case Obj(members) => Obj(CanonMembers(members))
    case _ => j
  }

  function CanonItems(items: List<Json>): List<Json> {
    match items
    case Nil => Nil
    case Cons(j, rest) => Cons(Canon(j), CanonItems(rest))
  }

  function CanonMembers(ms: List<Member>): (r: List<Member>)
    ensures Keys(r) == Keys(ms)
  {
    match ms
    case Nil => Nil
    case Cons(m, rest) => Insert(Member(m.key, Canon(m.value)), CanonMembers(rest))
  }

  // ----- Printing, RFC 8259 sections 4 and 7, ASCII only -----

  function Hex4(n: nat): (s: string)
    requires n < 0x1_0000
    ensures |s| == 4
  {
    [HexDigit(n / 4096), HexDigit(n / 256 % 16), HexDigit(n / 16 % 16), HexDigit(n % 16)]
  }

  /** One character of a string literal; a character above U+FFFF becomes a surrogate pair. */
  function Escape(c: char): (s: string)
    ensures s != "" && s[0] != '\"'
  {
    if c == '\"' then "\\\""
    else if c == '\\' then "\\\\"
    else if c == '\n' then "\\n"
    else if c == '\r' then "\\r"
    else if c == '\t' then "\\t"
    else if c as int == 0x08 then "\\b"
    else if c as int == 0x0C then "\\f"
    else if ' ' <= c <= '~' then [c]
    else if c as int < 0x1_0000 then ['\\', 'u'] + Hex4(c as int)
    else
      var v := c as int - 0x1_0000;
      ['\\', 'u'] + Hex4(0xD800 + v / 0x400) + ['\\', 'u'] + Hex4(0xDC00 + v % 0x400)
  }

  function EscapeAll(s: string): string {
    if s == "" then "" else Escape(s[0]) + EscapeAll(s[1..])
  }

  function PrintString(s: string): string {
    ['\"'] + EscapeAll(s) + ['\"']
  }

  function PrintInt(n: int): string {
    if n < 0 then ['-'] + Decimal(-n) else Decimal(n)
  }

  /** Compact text, keys in the order given. */
  function Print(j: Json): string {
    match j
    case Null => "null"
    case Bool(b) => if b then "true" else "false"
    case Num(n) => PrintInt(n)
    case Str(s) => PrintString(s)
    case Arr(items) => ['['] + PrintItems(items) + [']']
    case Obj(members) => ['{'] + PrintMembers(members) + ['}']
  }

  function PrintItems(items: List<Json>): string {
    match items
    case Nil => ""
    case Cons(j, Nil) => Print(j)
    case Cons(j, rest) => Print(j) + [','] + PrintItems(rest)
  }

  function PrintMember(m: Member): string {
    PrintString(m.key) + [':'] + Print(m.value)
  }

  function PrintMembers(ms: List<Member>): string {
    match ms
    case Nil => ""
    case Cons(m, Nil) => PrintMember(m)
    case Cons(m, rest) => PrintMember(m) + [','] + PrintMembers(rest)
  }

  /** `json.dumps(j, sort_keys=True, separators=(",", ":"))`: distinct keys, so sorting first or while printing is the same. */
  function Dumps(j: Json): string {
    Print(Canon(j))
  }

  // ----- Reading compact JSON text back -----

  function HexValue(c: char): Option<nat> {
    if '0' <= c <= '9' then Some(c as int - 48)
    else if 'a' <= c <= 'f' then Some(c as int - 87)
    else if 'A' <= c <= 'F' then Some(c as int - 55)
    else None
  }

  function ReadHex4(s: string): (r: Option<(nat, string)>)
    ensures r.Some? ==> |r.value.1| < |s| && r.value.0 < 0x1_0000
  {
    if |s| < 4 then None
    else
      var a :- HexValue(s[0]);
      var b :- HexValue(s[1]);
      var c :- HexValue(s[2]);
      var d :- HexValue(s[3]);
      assert a < 16 && b < 16 && c < 16 && d < 16;
      Some((4096 * a + 256 * b + 16 * c + d, s[4..]))
  }

  /** After `\u`: a scalar value, or a high surrogate followed by an escaped low one. */
  function ReadUnicode(s: string): (r: Option<(char, string)>)
    ensures r.Some? ==> |r.value.1| < |s|
  {
    var (n, rest) :- ReadHex4(s);
    if n < 0xD800 || n >= 0xE000 then Some((n as char, rest))
    else if n < 0xDC00 && |rest| >= 2 && rest[0] == '\\' && rest[1] == 'u' then
      var (low, rest2) :- ReadHex4(rest[2..]);
      if 0xDC00 <= low < 0xE000
      then Some(((0x1_0000 + (n - 0xD800) * 0x400 + (low - 0xDC00)) as char, rest2))
      else None
    else None
  }

  function ReadStringChar(s: string): (r: Option<(char, string)>)
    ensures r.Some? ==> |r.value.1| < |s|
  {
    if s == "" || s[0] < ' ' then None
    else if s[0] != '\\' then Some((s[0], s[1..]))
    else if |s| == 1 then None
    else
      match s[1]
      case '\"' => Some(('\"', s[2..]))
      case '\\' => Some(('\\', s[2..]))
      case '/' => Some(('/', s[2..]))
      case 'n' => Some(('\n', s[2..]))
      case 'r' => Some(('\r', s[2..]))
      case 't' => Some(('\t', s[2..]))
      case 'b' => Some((0x08 as char, s[2..]))
      case 'f' => Some((0x0C as char, s[2..]))
      case 'u' => ReadUnicode(s[2..])
      case _ => None
  }

  /** The characters up to the closing quote. */
  function ReadStringBody(s: string): (r: Option<(string, string)>)
    ensures r.Some? ==> |r.value.1| < |s|
    decreases |s|
  {
    if s == "" then None
    else if s[0] == '\"' then Some(("", s[1..]))
    else
      var (c, rest) :- ReadStringChar(s);
      var (cs, rest2) :- ReadStringBody(rest);
      Some(([c] + cs, rest2))
  }

  function DigitSpan(s: string): (k: nat)
    ensures k <= |s| && AllDigits(s[..k])
    ensures k < |s| ==> !IsDigit(s[k])
  {
    if s == "" || !IsDigit(s[0]) then 0 else 1 + DigitSpan(s[1..])
  }

  /** `0` or a digit string without a leading zero. */
  function ReadNatural(s: string): (r: Option<(nat, string)>)
    ensures r.Some? ==> |r.value.1| < |s|
  {
    var k := DigitSpan(s);
    if k == 0 || (k > 1 && s[0] == '0') then None else Some((Value(s[..k]), s[k..]))
  }

  function ReadLiteral(s: string, word: string, j: Json): (r: Option<(Json, string)>)
    requires word != ""
    ensures r.Some? ==> |r.value.1| < |s|
  {
    if word <= s then Some((j, s[|word|..])) else None
  }

  function ReadValue(s: string): (r: Option<(Json, string)>)
    ensures r.Some? ==> |r.value.1| < |s|
    decreases |s|, 0
  {
    if s == "" then None
    else if s[0] == '\"' then
      var (str, rest) :- ReadStringBody(s[1..]);
      Some((Str(str), rest))
    else if s[0] == '[' then
      if |s| > 1 && s[1] == ']' then Some((Arr(Nil), s[2..]))
      else var (items, rest) :- ReadItems(s[1..]); Some((Arr(items), rest))
    else if s[0] == '{' then
      if |s| > 1 && s[1] == '}' then Some((Obj(Nil), s[2..]))
      else var (members, rest) :- ReadMembers(s[1..]); Some((Obj(members), rest))
    else if s[0] == '-' then
      var (n, rest) :- ReadNatural(s[1..]);
      var negated: int := 0 - n;
      Some((Num(negated), rest))
    else if IsDigit(s[0]) then
      var (n, rest) :- ReadNatural(s);
      Some((Num(n), rest))
    else if s[0] == 'n' then ReadLiteral(s, "null", Null)
    else if s[0] == 't' then ReadLiteral(s, "true", Bool(true))
    else ReadLiteral(s, "false", Bool(false))
  }

  /** One or more values up to the closing bracket. */
  function ReadItems(s: string): (r: Option<(List<Json>, string)>)
    ensures r.Some? ==> |r.value.1| < |s|
    decreases |s|, 1
  {
    var (j, rest) :- ReadValue(s);
    if rest == "" then None
    else if rest[0] == ']' then Some((Cons(j, Nil), rest[1..]))
    else if rest[0] == ',' then
      var (js, rest2) :- ReadItems(rest[1..]);
      Some((Cons(j, js), rest2))
    else None
  }

  /** One or more members up to the closing brace. */
  function ReadMembers(s: string): (r: Option<(List<Member>, string)>)
    ensures r.Some? ==> |r.value.1| < |s|
    decreases |s|, 1
  {
    if s == "" || s[0] != '\"' then None
    else
      var (key, rest) :- ReadStringBody(s[1..]);
      if rest == "" || rest[0] != ':' then None
      else
        var (j, rest2) :- ReadValue(rest[1..]);
        if rest2 == "" then None
        else if rest2[0] == '}' then Some((Cons(Member(key, j), Nil), rest2[1..]))
        else if rest2[0] == ',' then
          var (ms, rest3) :- ReadMembers(rest2[1..]);
          Some((Cons(Member(key, j), ms), rest3))
        else None
  }

  /** A whole document. */
  function Parse(s: string): Option<Json> {
    var (j, rest) :- ReadValue(s);
    if rest == "" then Some(j) else None
  }

  // ----- Reading undoes printing -----

  lemma HexDigitValue(d: nat)
    requires d < 16
    ensures HexValue(HexDigit(d)) == Some(d)
  {
  }

  lemma FourNibbles(n: nat)
    requires n < 0x1_0000
    ensures 4096 * (n / 4096) + 256 * (n / 256 % 16) + 16 * (n / 16 % 16) + n % 16 == n
  {
    var low := n / 16;
    var mid := low / 16;
    assert n / 256 == mid && n / 4096 == mid / 16;
  }

  lemma ReadPrintedHex(n: nat, rest: string)
    requires n < 0x1_0000
    ensures ReadHex4(Hex4(n) + rest) == Some((n, rest))
  {
    FourNibbles(n);
    HexDigitValue(n / 4096);
    HexDigitValue(n / 256 % 16);
    HexDigitValue(n / 16 % 16);
    HexDigitValue(n % 16);
    var s := Hex4(n) + rest;
    assert s[4..] == rest;
    assert s[0] == HexDigit(n / 4096) && s[1] == HexDigit(n / 256 % 16);
    assert s[2] == HexDigit(n / 16 % 16) && s[3] == HexDigit(n % 16);
  }

  lemma ReadPrintedSurrogates(c: char, rest: string)
    requires c as int >= 0x1_0000
    ensures ReadStringChar(Escape(c) + rest) == Some((c, rest))
  {
    hide ReadHex4, Hex4;
    var v := c as int - 0x1_0000;
    var high, low := 0xD800 + v / 0x400, 0xDC00 + v % 0x400;
    var after := ['\\', 'u'] + Hex4(low) + rest;
    assert (Escape(c) + rest)[2..] == Hex4(high) + after;
    ReadPrintedHex(high, after);
    assert after[2..] == Hex4(low) + rest;
    ReadPrintedHex(low, rest);
  }

  lemma ReadEscape(c: char, rest: string)
    ensures ReadStringChar(Escape(c) + rest) == Some((c, rest))
  {
    hide ReadHex4, Hex4;
    var s := Escape(c) + rest;
    if c as int >= 0x1_0000 {
      ReadPrintedSurrogates(c, rest);
    } else if c == '\"' || c == '\\' || c == '\n' || c == '\r' || c == '\t' || c as int == 0x08 || c as int == 0x0C {
      assert s[2..] == rest;
    } else if ' ' <= c <= '~' {
      assert s[1..] == rest;
    } else {
      assert s[2..] == Hex4(c as int) + rest;
      ReadPrintedHex(c as int, rest);
    }
  }

  lemma ReadOneMore(c: char, cs: string, after: string, rest: string)
    requires ReadStringBody(after) == Some((cs, rest))
    ensures ReadStringBody(Escape(c) + after) == Some(([c] + cs, rest))
  {
    ReadEscape(c, after);
  }

  lemma {:induction false} ReadEscapedString(str: string, rest: string)
    ensures ReadStringBody(EscapeAll(str) + ['\"'] + rest) == Some((str, rest))
  {
    if str == "" {
      assert (EscapeAll(str) + ['\"'] + rest)[1..] == rest;
    } else {
      var after := EscapeAll(str[1..]) + ['\"'] + rest;
      ReadEscapedString(str[1..], rest);
      ReadOneMore(str[0], str[1..], after, rest);
      assert EscapeAll(str) + ['\"'] + rest == Escape(str[0]) + after;
      assert [str[0]] + str[1..] == str;
    }
  }

  /** A number is followed by something that cannot continue it. */
  predicate EndsNumber(rest: string) {
    rest == "" || !IsDigit(rest[0])
  }

  lemma {:induction false} DigitSpanExact(digits: string, rest: string)
    requires AllDigits(digits) && EndsNumber(rest)
    ensures DigitSpan(digits + rest) == |digits|
  {
    if digits == "" {
      assert digits + rest == rest;
    } else {
      assert (digits + rest)[1..] == digits[1..] + rest;
      DigitSpanExact(digits[1..], rest);
    }
  }

  lemma ReadDecimal(n: nat, rest: string)
    requires EndsNumber(rest)
    ensures ReadNatural(Decimal(n) + rest) == Some((n, rest))
  {
    DecimalValue(n);
    DigitSpanExact(Decimal(n), rest);
    assert (Decimal(n) + rest)[..|Decimal(n)|] == Decimal(n);
    assert (Decimal(n) + rest)[|Decimal(n)|..] == rest;
  }

  lemma ReadPrintedNegative(n: nat, rest: string)
    requires EndsNumber(rest)
    ensures ReadValue(['-'] + Decimal(n) + rest) == Some((Num(0 - n), rest))
  {
    hide ReadStringBody, ReadItems, ReadMembers, ReadNatural, ReadLiteral, Decimal;
    var s := ['-'] + Decimal(n) + rest;
    assert s[1..] == Decimal(n) + rest;
    ReadDecimal(n, rest);
  }

  lemma ReadPrintedInt(n: int, rest: string)
    requires EndsNumber(rest)
    ensures ReadValue(PrintInt(n) + rest) == Some((Num(n), rest))
  {
    hide ReadStringBody, ReadItems, ReadMembers, ReadNatural, ReadLiteral, Decimal;
    if n < 0 {
      ReadPrintedNegative(-n, rest);
    } else {
      ReadDecimal(n, rest);
    }
  }

  /** No printed value starts like the end of a list or of an object. */
  lemma PrintStart(j: Json)
    ensures Print(j) != "" && Print(j)[0] != ']' && Print(j)[0] != '}'
  {
    match j
    case Num(n) => assert AllDigits(Decimal(if n < 0 then -n else n));
    case _ =>
  }

  lemma {:induction false} ReadPrinted(j: Json, rest: string)
    requires EndsNumber(rest)
    ensures ReadValue(Print(j) + rest) == Some((j, rest))
    decreases j, 0
  {
    hide ReadItems, ReadMembers, ReadStringBody, EscapeAll, PrintInt, ReadNatural;
    var s := Print(j) + rest;
    match j
    case Null => assert s[..4] == "null" && s[4..] == rest;
    case Bool(b) => assert s[|Print(j)|..] == rest && Print(j) <= s;
    case Num(n) => ReadPrintedInt(n, rest);
    case Str(str) =>
      assert s[1..] == EscapeAll(str) + ['\"'] + rest;
      ReadEscapedString(str, rest);
    case Arr(items) =>
      if items == Nil {
        assert s[2..] == rest;
      } else {
        assert s[1..] == PrintItems(items) + [']'] + rest;
        PrintStart(items.head);
        ReadPrintedItems(items, rest);
      }
    case Obj(members) =>
      if members == Nil {
        assert s[2..] == rest;
      } else {
        assert s[1..] == PrintMembers(members) + ['}'] + rest;
        ReadPrintedMembers(members, rest);
      }
  }

  lemma {:induction false} ReadPrintedItems(items: List<Json>, rest: string)
    requires items.Cons?
    ensures ReadItems(PrintItems(items) + [']'] + rest) == Some((items, rest))
    decreases items, 1
  {
    hide ReadValue, Print;
    var s := PrintItems(items) + [']'] + rest;
    var after := if items.tail == Nil then [']'] + rest else [','] + (PrintItems(items.tail) + [']'] + rest);
    assert s == Print(items.head) + after;
    ReadPrinted(items.head, after);
    if items.tail == Nil {
      assert after[1..] == rest;
    } else {
      assert after[1..] == PrintItems(items.tail) + [']'] + rest;
      ReadPrintedItems(items.tail, rest);
    }
  }

  lemma {:induction false} ReadPrintedMembers(ms: List<Member>, rest: string)
    requires ms.Cons?
    ensures ReadMembers(PrintMembers(ms) + ['}'] + rest) == Some((ms, rest))
    decreases ms, 1
  {
    hide ReadValue, ReadStringBody, Print, EscapeAll;
    var s := PrintMembers(ms) + ['}'] + rest;
    var m := ms.head;
    var after := if ms.tail == Nil then ['}'] + rest else [','] + (PrintMembers(ms.tail) + ['}'] + rest);
    var value := [':'] + (Print(m.value) + after);
    assert s == PrintMember(m) + after;
    assert s[1..] == EscapeAll(m.key) + ['\"'] + value;
    ReadEscapedString(m.key, value);
    assert value[1..] == Print(m.value) + after;
    ReadPrinted(m.value, after);
    if ms.tail == Nil {
      assert after[1..] == rest;
    } else {
      assert after[1..] == PrintMembers(ms.tail) + ['}'] + rest;
      ReadPrintedMembers(ms.tail, rest);
    }
  }

  /** Parsing the canonical text gives back the key-sorted value. */
  lemma ParseDumps(j: Json)
    ensures Parse(Dumps(j)) == Some(Canon(j))
  {
    ReadPrinted(Canon(j), "");
    assert Dumps(j) + "" == Dumps(j);
  }
}
