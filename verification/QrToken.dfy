/** Short-lived QR tokens and stored ticket payloads (apps/registrations/services.py): how a
    scanned payload is turned into a ticket lookup. Times are microseconds since the epoch. */
module QrToken {
  import opened Text
  import opened TokenJson
  import Base64Url

  const PREFIX := "TICKET:"
  const TOKEN_TTL_SECONDS := 15
  const SECOND := 1_000_000

  datatype Record = Record(ticketId: string, iat: int, exp: int, nonce: string)

  /** The members of a token in the order `sort_keys` prints them. */
  function Members(r: Record): seq<Member> {
    [("exp", JInt(r.exp)), ("iat", JInt(r.iat)), ("nonce", JStr(r.nonce)), ("ticket_id", JStr(r.ticketId))]
  }

  /** The dictionary `json.loads` builds: a repeated key keeps its last value. */
  function Dictionary(ms: seq<Member>): map<string, Json> {
    if ms == [] then map[]
    else Dictionary(ms[..|ms| - 1])[ms[|ms| - 1].0 := ms[|ms| - 1].1]
  }

  // ----- the token codec -----

  function AsciiBytes(s: string): seq<Base64Url.Byte>
    requires Ascii(s)
  {
    seq(|s|, i requires 0 <= i < |s| => s[i] as int)
  }

  /** UTF-8 decoding of ASCII bytes; a text with any other byte is outside this model. */
  function AsciiText(bs: seq<Base64Url.Byte>): Option<string> {
    if forall i | 0 <= i < |bs| :: bs[i] < 128
    then Some(seq(|bs|, i requires 0 <= i < |bs| => bs[i] as char))
    else None
  }

  function EncodeToken(r: Record): string {
    PrintAscii(Members(r));
    Base64Url.StripPad(Base64Url.Encode(AsciiBytes(Print(Members(r)))))
  }

  function DecodeToken(raw: string): Option<map<string, Json>> {
    if !Ascii(raw) then None
    else match Base64Url.Decode(Base64Url.Repad(raw))
      case None => None
      case Some(bytes) =>
        match AsciiText(bytes)
        case None => None
        case Some(text) =>
          match Read(text)
          case None => None
          case Some(ms) => Some(Dictionary(ms))
  }

  lemma {:induction false} PrintAscii(ms: seq<Member>)
    ensures Ascii(Print(ms))
  {
    MembersAscii(ms);
  }

  /** A decoded token holds exactly the four fields it was made from. */
  lemma {:induction false} TokenRoundTrip(r: Record)
    ensures DecodeToken(EncodeToken(r)) ==
            Some(map["exp" := JInt(r.exp), "iat" := JInt(r.iat), "nonce" := JStr(r.nonce),
                     "ticket_id" := JStr(r.ticketId)])
  {
    hide Print, Read, Members, Dictionary, Base64Url.Encode, Base64Url.Decode, Base64Url.StripPad, Base64Url.Repad;
    var ms := Members(r);
    var text := Print(ms);
    PrintAscii(ms);
    var bytes := AsciiBytes(text);
    TokenAscii(bytes);
    Base64Url.StripRepadLossless(bytes);
    assert AsciiText(bytes) == Some(text) by {
      assert seq(|bytes|, i requires 0 <= i < |bytes| => bytes[i] as char) == text;
    }
    ObjectRoundTrip(ms);
    DictionaryOfMembers(r);
  }

  lemma {:induction false} FourMembers(a: Member, b: Member, c: Member, d: Member)
    ensures PrintMembers([a, b, c, d])
            == PrintMember(a) + ("," + (PrintMember(b) + ("," + (PrintMember(c) + ("," + PrintMember(d))))))
  {
    hide PrintMember;
    assert PrintMembers([d]) == PrintMember(d);
    assert [c, d][1..] == [d] && [b, c, d][1..] == [c, d] && [a, b, c, d][1..] == [b, c, d];
    assert PrintMembers([c, d]) == PrintMember(c) + ("," + PrintMember(d));
    assert PrintMembers([b, c, d]) == PrintMember(b) + ("," + PrintMembers([c, d]));
  }

  /** The JSON text of a token whose texts need no escapes: its keys in order, without spaces. */
  lemma {:induction false} TokenText(r: Record)
    requires AllPlain(r.ticketId) && AllPlain(r.nonce)
    ensures var exp, iat := "\"" + "exp" + "\":" + PrintInt(r.exp), "\"" + "iat" + "\":" + PrintInt(r.iat);
      var nonce := "\"" + "nonce" + "\":" + ("\"" + r.nonce + "\"");
      var id := "\"" + "ticket_id" + "\":" + ("\"" + r.ticketId + "\"");
      Print(Members(r)) == "{" + (exp + ("," + (iat + ("," + (nonce + ("," + id)))))) + "}"
  {
    hide PrintMember, PrintInt, PrintMembers;
    var ms := Members(r);
    FourMembers(ms[0], ms[1], ms[2], ms[3]);
    IntMember("exp", r.exp);
    IntMember("iat", r.iat);
    TextMember("nonce", r.nonce);
    TextMember("ticket_id", r.ticketId);
  }

  lemma {:induction false} DictionaryOfMembers(r: Record)
    ensures Dictionary(Members(r)) ==
            map["exp" := JInt(r.exp), "iat" := JInt(r.iat), "nonce" := JStr(r.nonce),
                "ticket_id" := JStr(r.ticketId)]
  {
    var ms := Members(r);
    assert ms[..3][..2] == ms[..2] && ms[..2][..1] == ms[..1] && ms[..1][..0] == [];
    assert Dictionary(ms[..1]) == map["exp" := JInt(r.exp)];
    assert Dictionary(ms[..2]) == map["exp" := JInt(r.exp), "iat" := JInt(r.iat)];
    assert Dictionary(ms[..3]) == map["exp" := JInt(r.exp), "iat" := JInt(r.iat), "nonce" := JStr(r.nonce)];
  }

  lemma {:induction false} TokenAscii(bs: seq<Base64Url.Byte>)
    ensures Ascii(Base64Url.StripPad(Base64Url.Encode(bs)))
  {
    StripPrefix(Base64Url.Encode(bs));
  }

  lemma {:induction false} StripPrefix(s: string)
    ensures Base64Url.StripPad(s) <= s
  {
    if s != "" && s[|s| - 1] == '=' {
      StripPrefix(s[..|s| - 1]);
    }
  }

  // ----- resolving a scanned payload -----

  datatype Lookup = ById(id: string) | ByCode(code: string) | Refused

  /** `int(t.timestamp())`: truncation toward zero. */
  function Seconds(t: int): int {
    if t >= 0 then t / SECOND else -((-t) / SECOND)
  }

  function BuildPayload(value: string): string {
    PREFIX + value
  }

  /** The payload `issue_registration_qr` hands out at time `now`. */
  function IssuePayload(ticketId: string, nonce: string, now: int): string {
    BuildPayload(EncodeToken(Record(ticketId, Seconds(now), Seconds(now + TOKEN_TTL_SECONDS * SECOND), nonce)))
  }

  function Resolve(payload: string, now: int): Lookup {
    var value := if PREFIX <= payload then payload[|PREFIX|..] else payload;
    match DecodeToken(value)
    case Some(d) =>
      if d == map[] then ByCode(value)
      else if "exp" in d && d["exp"].JInt? && "ticket_id" in d && d["ticket_id"].JStr? && d["exp"].i > Seconds(now)
      then ById(d["ticket_id"].s)
      else Refused
    case None => ByCode(value)
  }

  /** A token is good for its own ticket in exactly the fifteen whole seconds that start with the
      second it was issued in. */
  lemma {:induction false} IssuedTokenWindow(ticketId: string, nonce: string, issued: int, scanned: int)
    requires issued >= 0 && scanned >= issued
    ensures Resolve(IssuePayload(ticketId, nonce, issued), scanned) ==
            if Seconds(scanned) < Seconds(issued) + TOKEN_TTL_SECONDS then ById(ticketId) else Refused
  {
    hide DecodeToken, EncodeToken;
    var r := Record(ticketId, Seconds(issued), Seconds(issued + TOKEN_TTL_SECONDS * SECOND), nonce);
    TokenRoundTrip(r);
    var payload := IssuePayload(ticketId, nonce, issued);
    assert payload[|PREFIX|..] == EncodeToken(r);
    var d := DecodeToken(EncodeToken(r)).value;
    assert "exp" in d;
  }

  /** So every scan age up to 14 s is accepted and no age of 15 s or more is. */
  lemma {:induction false} IssuedTokenAges(ticketId: string, nonce: string, issued: int, age: nat)
    requires issued >= 0
    ensures age <= 14 * SECOND ==> Resolve(IssuePayload(ticketId, nonce, issued), issued + age) == ById(ticketId)
    ensures age >= 15 * SECOND ==> Resolve(IssuePayload(ticketId, nonce, issued), issued + age) == Refused
  {
    IssuedTokenWindow(ticketId, nonce, issued, issued + age);
  }

  // ----- ticket codes -----

  predicate UpperHex(c: char) {
    IsDigit(c) || 'A' <= c <= 'F'
  }

  /** `TK-` and the ten upper-case hexadecimal digits of five random bytes. */
  predicate GeneratedCode(code: string) {
    |code| == 13 && code[..3] == "TK-" && forall i | 3 <= i < 13 :: UpperHex(code[i])
  }

  lemma {:induction false} ReadSymbols(s: string)
    requires forall i | 0 <= i < |s| :: Base64Url.Classify(s[i]).Some? && Base64Url.Classify(s[i]).value.Sym?
    ensures |Base64Url.Read(s)| == |s| && Base64Url.Pad !in Base64Url.Read(s)
  {
    if s != "" {
      ReadSymbols(s[1..]);
    }
  }

  lemma {:induction false} ReadPads(n: nat)
    ensures Base64Url.Read(seq(n, _ => '=')) == Base64Url.Pads(n)
  {
    if n > 0 {
      assert seq(n, _ => '=')[1..] == seq(n - 1, _ => '=');
      ReadPads(n - 1);
      assert Base64Url.Pads(n) == [Base64Url.Pad] + Base64Url.Pads(n - 1);
    }
  }

  /** Thirteen symbols are one more than three groups, so a ticket code never reads as a token. */
  lemma {:induction false} CodeIsNoToken(code: string)
    requires GeneratedCode(code)
    ensures DecodeToken(code) == None
  {
    var pads := Base64Url.PadCount(|code|);
    assert code[0] == "TK-"[0] && code[1] == "TK-"[1] && code[2] == "TK-"[2];
    ReadSymbols(code);
    ReadPads(pads);
    Base64Url.ReadConcat(code, seq(pads, _ => '='));
    Base64Url.LoneSymbolFails(Base64Url.Read(code), pads, 0, 0);
  }

  /** The payload stored with a ticket resolves by its code, at any time. */
  lemma {:induction false} StoredPayloadResolves(code: string, now: int)
    requires GeneratedCode(code)
    ensures Resolve(BuildPayload(code), now) == ByCode(code)
  {
    CodeIsNoToken(code);
    assert BuildPayload(code)[|PREFIX|..] == code;
  }
}
