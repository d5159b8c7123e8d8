/** Which texts `uuid.UUID(text)` accepts: every lookup of a commit parses the task id it gets back. */
module Uuid {
  import opened Text

  // ----- The constructor -----

  /** `s.replace(pattern, "")`. */
  function Remove(s: string, pattern: string): (r: string)
    requires pattern != ""
    ensures |r| <= |s|
  {
    if |s| < |pattern| then s
    else if s[..|pattern|] == pattern then Remove(s[|pattern|..], pattern)
    else [s[0]] + Remove(s[1..], pattern)
  }

  predicate IsBrace(c: char) {
    c == '{' || c == '}'
  }

  /** `s.strip("{}")`. */
  function StripBraces(s: string): (r: string)
    ensures |r| <= |s|
  {
    if s == "" then ""
    else if IsBrace(s[0]) then StripBraces(s[1..])
    else if IsBrace(s[|s| - 1]) then StripBraces(s[..|s| - 1])
    else s
  }

  /** What is left to be read as a number. */
  function Bare(s: string): (r: string)
    ensures |r| <= |s|
  {
    Remove(StripBraces(Remove(Remove(s, "urn:"), "uuid:")), "-")
  }

  predicate IsHexDigit(c: char) {
    '0' <= c <= '9' || 'a' <= c <= 'f' || 'A' <= c <= 'F'
  }

  /** Hex digits, single underscores allowed between them. */
  predicate IsHexRun(s: string) {
    && s != "" && s[0] != '_' && s[|s| - 1] != '_'
    && (forall i :: 0 <= i < |s| ==> IsHexDigit(s[i]) || s[i] == '_')
    && (forall i :: 0 < i < |s| && s[i] == '_' ==> s[i - 1] != '_')
  }

  predicate IsSpace(c: char) {
    c == ' ' || 9 <= c as int <= 13
  }

  function TrimSpace(s: string): string {
    if s == "" then ""
    else if IsSpace(s[0]) then TrimSpace(s[1..])
    else if IsSpace(s[|s| - 1]) then TrimSpace(s[..|s| - 1])
    else s
  }

  /** `int(s, 16)` accepts the text: spaces around, a sign, a `0x` prefix with an underscore after it, then digits. */
  predicate IsHexLiteral(s: string) {
    var t := TrimSpace(s);
    var u := if t != "" && t[0] == '+' then t[1..] else t;
    var v := if |u| >= 2 && u[0] == '0' && (u[1] == 'x' || u[1] == 'X')
             then (if |u| > 2 && u[2] == '_' then u[3..] else u[2..])
             else u;
    IsHexRun(v)
  }

  predicate IsUuidText(s: string) {
    |Bare(s)| == 32 && IsHexLiteral(Bare(s))
  }

  /** The text of the ValueError for a text it refuses. */
  function Complaint(s: string): string {
    if |Bare(s)| != 32 then "badly formed hexadecimal UUID string"
    else "invalid literal for int() with base 16: '" + Bare(s) + "'"
  }

  // ----- Which ids are refused -----

  /** Nothing shorter than 32 characters is accepted. */
  lemma ShortTextRefused(s: string)
    requires |s| < 32
    ensures !IsUuidText(s)
  {
  }

  // ----- The ids contexts draw -----

  function HexPad(n: nat, w: nat): (s: string)
    ensures |s| == w && forall i :: 0 <= i < w ==> IsHexDigit(s[i])
  {
    if w == 0 then "" else HexPad(n / 16, w - 1) + [HexDigit(n % 16)]
  }

  /** `str(uuid)`: 32 lower-case hex digits in five groups. */
  function UuidText(n: nat): string {
    var d := HexPad(n, 32);
    d[..8] + "-" + (d[8..12] + "-" + (d[12..16] + "-" + (d[16..20] + "-" + d[20..])))
  }

  lemma {:induction false} RemoveAbsent(s: string, pattern: string, c: char)
    requires c in pattern && c !in s
    ensures Remove(s, pattern) == s
  {
    if |s| >= |pattern| {
      var i :| 0 <= i < |pattern| && pattern[i] == c;
      assert s[..|pattern|][i] != pattern[i];
      RemoveAbsent(s[1..], pattern, c);
      assert s == [s[0]] + s[1..];
    }
  }

  lemma {:induction false} RemoveHyphen(a: string, b: string)
    requires '-' !in a
    ensures Remove(a + "-" + b, "-") == a + Remove(b, "-")
  {
    var s := a + "-" + b;
    if a == "" {
      assert s[..1] == "-" && s[1..] == b;
    } else {
      assert s[..1] != "-" by {
        assert s[..1][0] == a[0];
      }
      assert s[1..] == a[1..] + "-" + b;
      RemoveHyphen(a[1..], b);
      assert a == [a[0]] + a[1..];
    }
  }

  lemma HexRunUuid(d: string)
    requires |d| == 32 && forall i :: 0 <= i < |d| ==> IsHexDigit(d[i])
    ensures IsHexLiteral(d)
  {
    assert IsHexDigit(d[0]) && IsHexDigit(d[1]) && IsHexDigit(d[31]);
    assert TrimSpace(d) == d;
  }

  /** Every id a context draws is accepted, and reads back as the digits drawn. */
  lemma DrawnIsUuid(n: nat)
    ensures IsUuidText(UuidText(n)) && Bare(UuidText(n)) == HexPad(n, 32)
  {
    hide Remove;
    var d, s := HexPad(n, 32), UuidText(n);
    var a, b, c, e, f := d[..8], d[8..12], d[12..16], d[16..20], d[20..];
    var s4 := e + "-" + f;
    var s3 := c + "-" + s4;
    var s2 := b + "-" + s3;
    assert s == a + "-" + s2;
    assert IsHexDigit(s[0]) && IsHexDigit(s[|s| - 1]) by {
      assert s[0] == d[0] && s[|s| - 1] == d[31];
    }
    assert forall i :: 0 <= i < |s| ==> IsHexDigit(s[i]) || s[i] == '-';
    RemoveAbsent(s, "urn:", ':');
    RemoveAbsent(s, "uuid:", ':');
    assert StripBraces(s) == s;
    RemoveHyphen(a, s2);
    RemoveHyphen(b, s3);
    RemoveHyphen(c, s4);
    RemoveHyphen(e, f);
    RemoveAbsent(f, "-", '-');
    assert a + (b + (c + (e + f))) == d;
    HexRunUuid(d);
  }

  /** Braces do not matter. */
  lemma BracedIsUuid(n: nat)
    ensures IsUuidText("{" + HexPad(n, 32) + "}")
  {
    hide Remove, IsHexLiteral;
    var d := HexPad(n, 32);
    var b := "{" + d + "}";
    HexRunUuid(d);
    assert IsHexDigit(d[0]) && IsHexDigit(d[31]);
    assert forall i :: 0 <= i < |b| ==> IsHexDigit(b[i]) || IsBrace(b[i]);
    RemoveAbsent(b, "urn:", ':');
    RemoveAbsent(b, "uuid:", ':');
    RemoveAbsent(d, "-", '-');
    assert b[1..] == d + "}" && b[1..][..32] == d;
    assert StripBraces(d) == d;
    assert StripBraces(b) == StripBraces(b[1..]);
    assert !IsBrace(b[1..][0]);
  }

  /** Nor does the URN prefix. */
  lemma UrnIsUuid(n: nat)
    ensures IsUuidText("urn:" + ("uuid:" + HexPad(n, 32)))
  {
    hide Remove, IsHexLiteral;
    var d := HexPad(n, 32);
    HexRunUuid(d);
    assert IsHexDigit(d[0]) && IsHexDigit(d[31]);
    RemovePrefix("urn:", "uuid:" + d);
    RemoveUrn(d);
    RemovePrefix("uuid:", d);
    RemoveAbsent(d, "uuid:", ':');
    RemoveAbsent(d, "-", '-');
    assert StripBraces(d) == d;
  }

  lemma RemovePrefix(pattern: string, s: string)
    requires pattern != ""
    ensures Remove(pattern + s, pattern) == Remove(s, pattern)
  {
    assert (pattern + s)[..|pattern|] == pattern && (pattern + s)[|pattern|..] == s;
  }

  /** "uuid:" holds no "urn:". */
  lemma RemoveUrn(d: string)
    requires forall i :: 0 <= i < |d| ==> IsHexDigit(d[i])
    ensures Remove("uuid:" + d, "urn:") == "uuid:" + d
  {
    hide Remove, IsHexDigit;
    assert ':' !in d by {
      NoColon(d);
    }
    RemoveAbsent(d, "urn:", ':');
    var s1 := [':'] + d;
    var s2 := ['d'] + s1;
    var s3 := ['i'] + s2;
    var s4 := ['u'] + s3;
    NotAtHead(':', d, "urn:", 0);
    NotAtHead('d', s1, "urn:", 0);
    NotAtHead('i', s2, "urn:", 0);
    NotAtHead('u', s3, "urn:", 1);
    NotAtHead('u', s4, "urn:", 1);
    assert "uuid:" + d == ['u'] + s4;
  }

  lemma NoColon(d: string)
    requires forall i :: 0 <= i < |d| ==> IsHexDigit(d[i])
    ensures ':' !in d
  {
  }

  lemma NotAtHead(c: char, t: string, pattern: string, j: nat)
    requires j < |pattern| && j <= |t| && ([c] + t)[j] != pattern[j] && Remove(t, pattern) == t
    ensures Remove([c] + t, pattern) == [c] + t
  {
    var s := [c] + t;
    assert s[1..] == t;
    if |s| >= |pattern| {
      assert s[..|pattern|][j] == s[j];
    }
  }

  /** Of 32 characters without marks, blanks or a leading zero, exactly the hex digits are accepted. */
  lemma PlainTextIsUuid(s: string)
    requires |s| == 32 && s[0] != '0'
    requires forall c :: c in s ==> c != '-' && c != ':' && c != '{' && c != '}' && c != '+' && c != '_' && !IsSpace(c)
    ensures IsUuidText(s) <==> forall i :: 0 <= i < |s| ==> IsHexDigit(s[i])
  {
    hide Remove;
    assert s[0] in s && s[31] in s;
    RemoveAbsent(s, "urn:", ':');
    RemoveAbsent(s, "uuid:", ':');
    RemoveAbsent(s, "-", '-');
    assert StripBraces(s) == s && TrimSpace(s) == s;
    assert forall i :: 0 <= i < |s| ==> s[i] in s;
  }

  /** The forms `int(text, 16)` takes, and some it does not. */
  lemma LiteralForms()
    ensures IsHexLiteral("1f") && IsHexLiteral("0x1f") && IsHexLiteral("0X1F") && IsHexLiteral("+1f") && IsHexLiteral("1_f")
    ensures IsHexLiteral("0x_1") && IsHexLiteral(" 1\n")
    ensures !IsHexLiteral("1__f") && !IsHexLiteral("_1") && !IsHexLiteral("1_") && !IsHexLiteral("0x") && !IsHexLiteral("")
  {
    hide IsHexRun;
    assert TrimSpace(" 1\n") == TrimSpace("1\n") && TrimSpace("1\n") == TrimSpace("1") by {
      assert " 1\n"[1..] == "1\n" && "1\n"[..1] == "1";
    }
    assert "0x1f"[2..] == "1f" && "0X1F"[2..] == "1F" && "+1f"[1..] == "1f" && "0x_1"[3..] == "1" && "0x"[2..] == "";
    Runs();
  }

  lemma Runs()
    ensures IsHexRun("1f") && IsHexRun("1F") && IsHexRun("1_f") && IsHexRun("1")
    ensures !IsHexRun("1__f") && !IsHexRun("_1") && !IsHexRun("1_") && !IsHexRun("")
  {
    assert "1__f"[2] == '_' && "1__f"[1] == '_';
  }
}
