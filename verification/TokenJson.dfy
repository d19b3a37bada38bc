/** The JSON text of a flat object of strings and integers, as `json.dumps` prints it with
    compact separators and ASCII escapes, and the reader of sections 6 and 7 of RFC 8259
    for that text. Other JSON documents read as None. */
module TokenJson {
  import opened Text

  datatype Json = JInt(i: int) | JStr(s: string)

  type Member = (string, Json)

  // ----- strings -----

  function Hex(d: nat): char
    requires d < 16
  {
    if d < 10 then ('0' as int + d) as char else ('a' as int + (d - 10)) as char
  }

  function HexValue(c: char): Option<nat> {
    if '0' <= c <= '9' then Some(c as int - '0' as int)
    else if 'a' <= c <= 'f' then Some(c as int - 'a' as int + 10)
    else if 'A' <= c <= 'F' then Some(c as int - 'A' as int + 10)
    else None
  }

  /** `\uXXXX` */
  function Unit(n: nat): (r: string)
    requires n < 0x1_0000
    ensures |r| == 6 && r[0] == '\\' && r[1] == 'u'
  {
    ['\\', 'u', Hex(n / 16 / 16 / 16), Hex(n / 16 / 16 % 16), Hex(n / 16 % 16), Hex(n % 16)]
  }

  function ReadUnit(s: string): Option<nat> {
    if |s| < 6 || s[0] != '\\' || s[1] != 'u' then None
    else match (HexValue(s[2]), HexValue(s[3]), HexValue(s[4]), HexValue(s[5]))
      case (Some(a), Some(b), Some(c), Some(d)) => Some(((a * 16 + b) * 16 + c) * 16 + d)
      case _ => None
  }

  /** The two-character escapes: the letter after the backslash. */
  function ShortEscape(c: char): Option<char> {
    if c == '\"' then Some('\"')
    else if c == '\\' then Some('\\')
    else if c as int == 8 then Some('b')
    else if c as int == 9 then Some('t')
    else if c as int == 10 then Some('n')
    else if c as int == 12 then Some('f')
    else if c as int == 13 then Some('r')
    else None
  }

  function ShortUnescape(e: char): Option<char> {
    if e == '\"' then Some('\"')
    else if e == '\\' then Some('\\')
    else if e == '/' then Some('/')
    else if e == 'b' then Some(8 as char)
    else if e == 't' then Some(9 as char)
    else if e == 'n' then Some(10 as char)
    else if e == 'f' then Some(12 as char)
    else if e == 'r' then Some(13 as char)
    else None
  }

  predicate Plain(c: char) {
    32 <= c as int <= 126 && c != '\"' && c != '\\'
  }

  /** Every character comes out as printable ASCII; beyond the basic plane as a surrogate pair. */
  function Escape(c: char): (r: string)
    ensures r != ""
  {
    if Plain(c) then [c]
    else match ShortEscape(c)
      case Some(e) => ['\\', e]
      case None =>
        if c as int < 0x1_0000 then Unit(c as int)
        else Unit(0xD800 + (c as int - 0x1_0000) / 0x400) + Unit(0xDC00 + (c as int - 0x1_0000) % 0x400)
  }

  function EscapeAll(s: string): string {
    if s == "" then "" else Escape(s[0]) + EscapeAll(s[1..])
  }

  /** One character, escaped or not, and how much text it took. A lone surrogate reads as None. */
  function ReadChar(s: string): (r: Option<(char, nat)>)
    ensures r.Some? ==> 0 < r.value.1 <= |s|
  {
    if s == "" || s[0] == '\"' || s[0] as int < 32 then None
    else if s[0] != '\\' then Some((s[0], 1))
    else if |s| < 2 then None
    else if s[1] != 'u' then
      (match ShortUnescape(s[1]) case Some(c) => Some((c, 2)) case None => None)
    else match ReadUnit(s)
      case None => None
      case Some(n) =>
        if n < 0xD800 || 0xE000 <= n < 0x1_0000 then Some((n as char, 6))
        else if n < 0xDC00 then
          (match ReadUnit(s[6..])
           case Some(m) =>
             if 0xDC00 <= m < 0xE000 then Some(((0x1_0000 + (n - 0xD800) * 0x400 + (m - 0xDC00)) as char, 12))
             else None
           case None => None)
        else None
  }

  /** The rest of a string after its opening quote, and the text after the closing one. */
  function ReadString(s: string): (r: Option<(string, string)>)
    ensures r.Some? ==> |r.value.1| < |s|
    decreases |s|
  {
    if s == "" then None
    else if s[0] == '\"' then Some(("", s[1..]))
    else match ReadChar(s)
      case None => None
      case Some(ck) =>
        match ReadString(s[ck.1..])
        case None => None
        case Some(tr) => Some(([ck.0] + tr.0, tr.1))
  }

  lemma {:induction false} UnitRoundTrip(n: nat, rest: string)
    requires n < 0x1_0000
    ensures ReadUnit(Unit(n) + rest) == Some(n)
  {
    hide Hex, HexValue;
    var s := Unit(n) + rest;
    HexRoundTrip(n / 16 / 16 / 16);
    HexRoundTrip(n / 16 / 16 % 16);
    HexRoundTrip(n / 16 % 16);
    HexRoundTrip(n % 16);
  }

  lemma {:induction false} HexRoundTrip(d: nat)
    requires d < 16
    ensures HexValue(Hex(d)) == Some(d)
  {
  }

  /** A character beyond the basic plane, from its surrogate pair. */
  lemma {:induction false} PairRoundTrip(c: char, rest: string)
    requires c as int >= 0x1_0000
    ensures ReadChar(Escape(c) + rest) == Some((c, 12))
  {
    hide ReadUnit, Unit, ShortUnescape;
    var k := c as int - 0x1_0000;
    var n, m := 0xD800 + k / 0x400, 0xDC00 + k % 0x400;
    var s := Unit(n) + (Unit(m) + rest);
    assert Escape(c) + rest == s;
    UnitRoundTrip(n, Unit(m) + rest);
    assert s[6..] == Unit(m) + rest;
    UnitRoundTrip(m, rest);
    assert s[0] == '\\' && s[1] == 'u';
  }

  lemma {:induction false} CharRoundTrip(c: char, rest: string)
    ensures ReadChar(Escape(c) + rest) == Some((c, |Escape(c)|))
    ensures (Escape(c) + rest)[0] != '\"'
  {
    hide ReadUnit, Unit;
    if !Plain(c) && ShortEscape(c).None? {
      if c as int < 0x1_0000 {
        UnitRoundTrip(c as int, rest);
      } else {
        PairRoundTrip(c, rest);
      }
    }
  }

  lemma {:induction false} StringRoundTrip(v: string, rest: string)
    ensures ReadString(EscapeAll(v) + "\"" + rest) == Some((v, rest))
  {
    var s := EscapeAll(v) + "\"" + rest;
    hide ReadChar, Escape;
    if v == "" {
      assert s[1..] == rest;
    } else {
      var tail := EscapeAll(v[1..]) + "\"" + rest;
      assert s == Escape(v[0]) + tail;
      CharRoundTrip(v[0], tail);
      assert s[|Escape(v[0])|..] == tail;
      StringRoundTrip(v[1..], rest);
      assert v == [v[0]] + v[1..];
    }
  }

  // ----- integers -----

  function PrintInt(i: int): string {
    if i < 0 then "-" + Decimal(-i) else Decimal(i)
  }

  /** The longest run of digits at the front. */
  function DigitRun(s: string): (k: nat)
    ensures k <= |s|
    ensures forall i | 0 <= i < k :: IsDigit(s[i])
    ensures k < |s| ==> !IsDigit(s[k])
  {
    if s != "" && IsDigit(s[0]) then 1 + DigitRun(s[1..]) else 0
  }

  /** A natural number without leading zeros, and what follows it. */
  function ReadDigits(t: string): (r: Option<(nat, string)>)
    ensures r.Some? ==> |r.value.1| < |t|
  {
    var k := DigitRun(t);
    if k == 0 || (k > 1 && t[0] == '0') then None else Some((Number(t[..k]), t[k..]))
  }

  function ReadInt(s: string): (r: Option<(int, string)>)
    ensures r.Some? ==> |r.value.1| < |s|
  {
    if s != "" && s[0] == '-' then
      match ReadDigits(s[1..]) case None => None case Some(nr) => var i: int := 0 - (nr.0 as int); Some((i, nr.1))
    else
      match ReadDigits(s) case None => None case Some(nr) => var i: int := nr.0 as int; Some((i, nr.1))
  }

  lemma {:induction false} DigitRunIs(d: string, rest: string)
    requires forall i | 0 <= i < |d| :: IsDigit(d[i])
    requires rest == "" || !IsDigit(rest[0])
    ensures DigitRun(d + rest) == |d|
  {
    assert forall i | 0 <= i < |d| :: (d + rest)[i] == d[i];
    assert rest != "" ==> (d + rest)[|d|] == rest[0];
  }

  lemma {:induction false} ZeroAlone(n: nat)
    requires Decimal(n)[0] == '0'
    ensures |Decimal(n)| == 1
  {
    DecimalRoundTrip(n);
  }

  lemma {:induction false} DigitsRoundTrip(n: nat, rest: string)
    requires rest == "" || !IsDigit(rest[0])
    ensures ReadDigits(Decimal(n) + rest) == Some((n, rest))
    ensures Decimal(n) != "" && IsDigit(Decimal(n)[0])
  {
    hide Number, Decimal, DigitRun;
    var d := Decimal(n);
    DecimalRoundTrip(n);
    DigitRunIs(d, rest);
    assert (d + rest)[..|d|] == d && (d + rest)[|d|..] == rest;
    assert (d + rest)[0] == d[0];
    if d[0] == '0' { ZeroAlone(n); }
  }

  lemma {:induction false} IntRoundTrip(i: int, rest: string)
    requires rest == "" || !IsDigit(rest[0])
    ensures ReadInt(PrintInt(i) + rest) == Some((i, rest))
    ensures PrintInt(i) != "" && PrintInt(i)[0] != '\"'
  {
    hide Decimal, ReadDigits;
    var n: nat := if i < 0 then -i else i;
    DigitsRoundTrip(n, rest);
    assert (PrintInt(i) + rest)[0] == PrintInt(i)[0];
    if i < 0 {
      assert (PrintInt(i) + rest)[1..] == Decimal(n) + rest;
    }
  }

  // ----- objects -----

  function PrintValue(v: Json): string {
    match v
    case JInt(i) => PrintInt(i)
    case JStr(s) => "\"" + EscapeAll(s) + "\""
  }

  function PrintMember(m: Member): string {
    "\"" + EscapeAll(m.0) + "\":" + PrintValue(m.1)
  }

  function PrintMembers(ms: seq<Member>): string {
    if ms == [] then ""
    else if |ms| == 1 then PrintMember(ms[0])
    else PrintMember(ms[0]) + "," + PrintMembers(ms[1..])
  }

  /** `json.dumps` of an object whose members come in this order. */
  function Print(ms: seq<Member>): string {
    "{" + PrintMembers(ms) + "}"
  }

  function ReadValue(s: string): (r: Option<(Json, string)>)
    ensures r.Some? ==> |r.value.1| < |s|
  {
    if s != "" && s[0] == '\"' then
      (match ReadString(s[1..]) case None => None case Some(tr) => Some((JStr(tr.0), tr.1)))
    else
      (match ReadInt(s) case None => None case Some(ir) => Some((JInt(ir.0), ir.1)))
  }

  function ReadMember(s: string): (r: Option<(Member, string)>)
    ensures r.Some? ==> |r.value.1| < |s|
  {
    if s == "" || s[0] != '\"' then None
    else match ReadString(s[1..])
      case None => None
      case Some(kr) =>
        if kr.1 == "" || kr.1[0] != ':' then None
        else match ReadValue(kr.1[1..])
          case None => None
          case Some(vr) => Some(((kr.0, vr.0), vr.1))
  }

  /** One or more members up to the closing brace, which must end the text. */
  function ReadMembers(s: string): Option<seq<Member>>
    decreases |s|
  {
    match ReadMember(s)
    case None => None
    case Some(mr) =>
      if mr.1 == "}" then Some([mr.0])
      else if mr.1 == "" || mr.1[0] != ',' then None
      else match ReadMembers(mr.1[1..])
        case None => None
        case Some(ms) => Some([mr.0] + ms)
  }

  function Read(s: string): Option<seq<Member>> {
    if s == "{}" then Some([])
    else if s == "" || s[0] != '{' then None
    else ReadMembers(s[1..])
  }

  lemma {:induction false} ValueRoundTrip(v: Json, rest: string)
    requires rest == "" || !IsDigit(rest[0])
    ensures ReadValue(PrintValue(v) + rest) == Some((v, rest))
  {
    hide ReadString, ReadInt, PrintInt, EscapeAll;
    var s := PrintValue(v) + rest;
    match v
    case JInt(i) =>
      IntRoundTrip(i, rest);
    case JStr(t) =>
      assert s[1..] == EscapeAll(t) + "\"" + rest;
      StringRoundTrip(t, rest);
  }

  lemma {:induction false} MemberRoundTrip(m: Member, rest: string)
    requires rest == "" || !IsDigit(rest[0])
    ensures ReadMember(PrintMember(m) + rest) == Some((m, rest))
  {
    hide ReadString, ReadValue, EscapeAll, PrintValue;
    var s := PrintMember(m) + rest;
    var after := ":" + PrintValue(m.1) + rest;
    assert s[1..] == EscapeAll(m.0) + "\"" + after;
    StringRoundTrip(m.0, after);
    assert after[1..] == PrintValue(m.1) + rest;
    ValueRoundTrip(m.1, rest);
  }

  lemma {:induction false} MembersRoundTrip(ms: seq<Member>)
    requires ms != []
    ensures ReadMembers(PrintMembers(ms) + "}") == Some(ms)
  {
    hide ReadMember, PrintMember;
    if |ms| == 1 {
      MemberRoundTrip(ms[0], "}");
      assert ms == [ms[0]];
    } else {
      var rest := "," + PrintMembers(ms[1..]) + "}";
      assert PrintMembers(ms) + "}" == PrintMember(ms[0]) + rest;
      MemberRoundTrip(ms[0], rest);
      assert rest[1..] == PrintMembers(ms[1..]) + "}";
      assert |rest| > 1;
      MembersRoundTrip(ms[1..]);
      assert ms == [ms[0]] + ms[1..];
    }
  }

  /** Reading a printed object gives its members back, whatever characters and numbers they hold. */
  lemma {:induction false} ObjectRoundTrip(ms: seq<Member>)
    ensures Read(Print(ms)) == Some(ms)
  {
    hide ReadMembers, PrintValue, EscapeAll;
    if ms != [] {
      MembersRoundTrip(ms);
      assert PrintMember(ms[0])[0] == '\"';
      assert PrintMembers(ms) != "";
      assert Print(ms)[1..] == PrintMembers(ms) + "}";
    }
  }

  // ----- the text is ASCII -----

  predicate Ascii(s: string) {
    forall i | 0 <= i < |s| :: s[i] as int < 128
  }

  lemma {:induction false} EscapeAscii(c: char)
    ensures Ascii(Escape(c))
  {
  }

  lemma {:induction false} EscapeAllAscii(s: string)
    ensures Ascii(EscapeAll(s))
  {
    if s != "" {
      EscapeAscii(s[0]);
      EscapeAllAscii(s[1..]);
    }
  }

  lemma {:induction false} ValueAscii(v: Json)
    ensures Ascii(PrintValue(v))
  {
    match v
    case JInt(i) => DecimalRoundTrip(if i < 0 then -i else i);
    case JStr(s) => EscapeAllAscii(s);
  }

  lemma {:induction false} AsciiJoin(a: string, b: string)
    requires Ascii(a) && Ascii(b)
    ensures Ascii(a + b)
  {
  }

  lemma {:induction false} MemberAscii(m: Member)
    ensures Ascii(PrintMember(m))
  {
    hide EscapeAll, PrintValue, Ascii;
    EscapeAllAscii(m.0);
    ValueAscii(m.1);
    QuotesAscii();
    AsciiJoin("\"", EscapeAll(m.0));
    AsciiJoin("\"" + EscapeAll(m.0), "\":");
    AsciiJoin("\"" + EscapeAll(m.0) + "\":", PrintValue(m.1));
  }

  lemma {:induction false} QuotesAscii()
    ensures Ascii("") && Ascii("\"") && Ascii("\":") && Ascii(",")
  {
  }

  lemma {:induction false} MembersAscii(ms: seq<Member>)
    ensures Ascii(PrintMembers(ms))
  {
    hide PrintMember, Ascii;
    QuotesAscii();
    if ms != [] {
      MemberAscii(ms[0]);
      MembersAscii(ms[1..]);
      AsciiJoin(PrintMember(ms[0]), ",");
      AsciiJoin(PrintMember(ms[0]) + ",", PrintMembers(ms[1..]));
    }
  }

  predicate AllPlain(s: string) {
    forall i | 0 <= i < |s| :: 32 <= s[i] as int <= 126 && s[i] != '\"' && s[i] != '\\'
  }

  lemma {:induction false} PlainStays(s: string)
    requires AllPlain(s)
    ensures EscapeAll(s) == s
  {
    if s != "" {
      PlainStays(s[1..]);
      assert s == [s[0]] + s[1..];
    }
  }

  /** A quote and a backslash are written after a backslash, and these control characters as a letter. */
  lemma {:induction false} ShortEscapesAre(c: char)
    ensures c == '\"' || c == '\\' ==> Escape(c) == ['\\', c]
    ensures c == '\n' ==> Escape(c) == ['\\', 'n']
    ensures c == '\r' ==> Escape(c) == ['\\', 'r']
    ensures c == '\t' ==> Escape(c) == ['\\', 't']
  {
  }

  /** Other characters are written as the four lower-case hexadecimal digits of their number. */
  lemma {:induction false} UnitIs(n: nat)
    requires n < 0x1_0000
    ensures ReadUnit(Unit(n)) == Some(n) && forall i | 2 <= i < 6 :: '0' <= Unit(n)[i] <= '9' || 'a' <= Unit(n)[i] <= 'f'
  {
    hide Hex, HexValue;
    UnitRoundTrip(n, "");
    assert Unit(n) + "" == Unit(n);
    HexIsLower(n / 16 / 16 / 16);
    HexIsLower(n / 16 / 16 % 16);
    HexIsLower(n / 16 % 16);
    HexIsLower(n % 16);
  }

  lemma {:induction false} HexIsLower(d: nat)
    requires d < 16
    ensures '0' <= Hex(d) <= '9' || 'a' <= Hex(d) <= 'f'
  {
  }

  lemma {:induction false} IntMember(key: string, i: int)
    requires AllPlain(key)
    ensures PrintMember((key, JInt(i))) == "\"" + key + "\":" + PrintInt(i)
  {
    PlainStays(key);
  }

  lemma {:induction false} TextMember(key: string, s: string)
    requires AllPlain(key) && AllPlain(s)
    ensures PrintMember((key, JStr(s))) == "\"" + key + "\":" + ("\"" + s + "\"")
  {
    PlainStays(key);
    PlainStays(s);
  }
}
