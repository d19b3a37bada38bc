/** Base64url as the token code uses it: the encoder of section 5 of RFC 4648, and the
    lenient decoder of Python's `binascii.a2b_base64`, which skips foreign characters. */
module Base64Url {
  import opened Text

  type Byte = x: int | 0 <= x < 256

  /** What the decoder sees in a text: symbols of the alphabet, by value, and pad characters. */
  datatype Token = Sym(v: nat) | Pad

  predicate InRange(ts: seq<Token>) {
    forall i | 0 <= i < |ts| :: ts[i].Sym? ==> ts[i].v < 64
  }

  // ----- spelling -----

  function Symbol(v: nat): char
    requires v < 64
  {
    if v < 26 then ('A' as int + v) as char
    else if v < 52 then ('a' as int + (v - 26)) as char
    else if v < 62 then ('0' as int + (v - 52)) as char
    else if v == 62 then '-' else '_'
  }

  /** `urlsafe_b64decode` maps '-' and '_' onto '+' and '/', so both spellings are read. */
  function Classify(c: char): (r: Option<Token>)
    ensures r.Some? && r.value.Sym? ==> r.value.v < 64
  {
    if 'A' <= c <= 'Z' then Some(Sym(c as int - 'A' as int))
    else if 'a' <= c <= 'z' then Some(Sym(c as int - 'a' as int + 26))
    else if '0' <= c <= '9' then Some(Sym(c as int - '0' as int + 52))
    else if c == '-' || c == '+' then Some(Sym(62))
    else if c == '_' || c == '/' then Some(Sym(63))
    else if c == '=' then Some(Pad)
    else None
  }

  function Glyph(t: Token): char
    requires t.Sym? ==> t.v < 64
  {
    if t.Pad? then '=' else Symbol(t.v)
  }

  function Spell(ts: seq<Token>): string
    requires InRange(ts)
  {
    seq(|ts|, i requires 0 <= i < |ts| => Glyph(ts[i]))
  }

  function Read(s: string): seq<Token> {
    if s == "" then []
    else (match Classify(s[0]) case None => [] case Some(t) => [t]) + Read(s[1..])
  }

  lemma {:induction false} GlyphRoundTrip(t: Token)
    requires t.Sym? ==> t.v < 64
    ensures Classify(Glyph(t)) == Some(t)
    ensures Glyph(t) == '=' <==> t == Pad
  {
  }

  lemma {:induction false} ReadSpell(ts: seq<Token>)
    requires InRange(ts)
    ensures Read(Spell(ts)) == ts
  {
    if ts != [] {
      ReadSpell(ts[1..]);
      GlyphRoundTrip(ts[0]);
      assert Spell(ts)[1..] == Spell(ts[1..]);
      assert ts == [ts[0]] + ts[1..];
    }
  }

  lemma {:induction false} SpellPadless(ts: seq<Token>)
    requires InRange(ts) && Pad !in ts
    ensures '=' !in Spell(ts)
  {
    forall i | 0 <= i < |ts| ensures Spell(ts)[i] != '=' {
      GlyphRoundTrip(ts[i]);
    }
  }

  lemma {:induction false} ReadConcat(a: string, b: string)
    ensures Read(a + b) == Read(a) + Read(b)
  {
    if a != "" {
      ReadConcat(a[1..], b);
      assert (a + b)[1..] == a[1..] + b;
    } else {
      assert a + b == b;
    }
  }

  // ----- bytes and symbol values -----

  function Group(a: Byte, b: Byte, c: Byte): (vs: seq<nat>)
    ensures |vs| == 4 && forall i | 0 <= i < 4 :: vs[i] < 64
  {
    [a / 4, a % 4 * 16 + b / 16, b % 16 * 4 + c / 64, c % 64]
  }

  function Ungroup(p: nat, q: nat, r: nat, s: nat): (bs: seq<Byte>)
    requires p < 64 && q < 64 && r < 64 && s < 64
    ensures |bs| == 3
  {
    [p * 4 + q / 16, q % 16 * 16 + r / 4, r % 4 * 64 + s]
  }

  /** Three bytes are spread over four six-bit values; a last group of one or two bytes makes
      two or three. */
  function Values(bs: seq<Byte>): (vs: seq<nat>)
    ensures forall i | 0 <= i < |vs| :: vs[i] < 64
    ensures |vs| % 4 != 1
  {
    if bs == [] then []
    else if |bs| == 1 then Group(bs[0], 0, 0)[..2]
    else if |bs| == 2 then Group(bs[0], bs[1], 0)[..3]
    else Group(bs[0], bs[1], bs[2]) + Values(bs[3..])
  }

  /** The bytes that symbol values stand for, group by group. */
  function Bytes(vs: seq<nat>): seq<Byte>
    requires forall i | 0 <= i < |vs| :: vs[i] < 64
  {
    if |vs| < 2 then []
    else if |vs| == 2 then Ungroup(vs[0], vs[1], 0, 0)[..1]
    else if |vs| == 3 then Ungroup(vs[0], vs[1], vs[2], 0)[..2]
    else Ungroup(vs[0], vs[1], vs[2], vs[3]) + Bytes(vs[4..])
  }

  /** One group: bits shifted from byte to byte and back. */
  lemma {:induction false} GroupRoundTrip(a: Byte, b: Byte, c: Byte)
    ensures var vs := Group(a, b, c); Ungroup(vs[0], vs[1], vs[2], vs[3]) == [a, b, c]
  {
  }

  /** The bits that a short group leaves out are zero. */
  lemma {:induction false} ShortGroup(a: Byte, b: Byte)
    ensures Group(a, 0, 0)[2] == 0 && Group(a, 0, 0)[3] == 0 && Group(a, b, 0)[3] == 0
  {
  }

  lemma {:induction false} BytesValues(bs: seq<Byte>)
    ensures Bytes(Values(bs)) == bs
  {
    hide Group, Ungroup;
    var vs := Values(bs);
    if |bs| > 2 {
      BytesValues(bs[3..]);
      GroupRoundTrip(bs[0], bs[1], bs[2]);
      assert vs[4..] == Values(bs[3..]);
      assert bs == [bs[0], bs[1], bs[2]] + bs[3..];
    } else if |bs| > 0 {
      var b := if |bs| == 2 then bs[1] else 0;
      GroupRoundTrip(bs[0], b, 0);
      ShortGroup(bs[0], b);
    }
  }

  // ----- the codec -----

  function Syms(vs: seq<nat>): seq<Token> {
    seq(|vs|, i requires 0 <= i < |vs| => Sym(vs[i]))
  }

  function Pads(n: nat): seq<Token> {
    seq(n, _ => Pad)
  }

  /** `-n % 4` as Python computes it: what fills `n` up to a multiple of four. */
  function PadCount(n: nat): (k: nat)
    ensures k < 4 && (n + k) % 4 == 0
  {
    (4 - n % 4) % 4
  }

  /** Symbols, then the pads that fill the last group. */
  function Encode(bs: seq<Byte>): string {
    var vs := Values(bs);
    Spell(Syms(vs) + Pads(PadCount(|vs|)))
  }

  /** The decoder's loop over the text: `quad` symbols of the current group are read and `pads`
      pad characters since the last one. The result is the symbol values in order, or None for
      an unfinished group. */
  function Scan(ts: seq<Token>, quad: nat, pads: nat): Option<seq<nat>>
    requires quad < 4
  {
    if ts == [] then (if quad == 0 then Some([]) else None)
    else match ts[0]
      case Pad =>
        if quad >= 2 && quad + pads + 1 >= 4 then Some([])
        else Scan(ts[1..], quad, if quad >= 2 then pads + 1 else pads)
      case Sym(v) =>
        match Scan(ts[1..], (quad + 1) % 4, 0)
        case None => None
        case Some(vs) => Some([v] + vs)
  }

  lemma {:induction false} ReadInRange(s: string)
    ensures InRange(Read(s))
  {
    if s != "" {
      ReadInRange(s[1..]);
    }
  }

  lemma {:induction false} ScanInRange(ts: seq<Token>, quad: nat, pads: nat)
    requires InRange(ts) && quad < 4
    ensures Scan(ts, quad, pads).Some? ==>
              forall i | 0 <= i < |Scan(ts, quad, pads).value| :: Scan(ts, quad, pads).value[i] < 64
  {
    if ts != [] {
      ScanInRange(ts[1..], quad, if quad >= 2 then pads + 1 else pads);
      ScanInRange(ts[1..], (quad + 1) % 4, 0);
    }
  }

  function Decode(s: string): Option<seq<Byte>> {
    ReadInRange(s);
    ScanInRange(Read(s), 0, 0);
    match Scan(Read(s), 0, 0)
    case None => None
    case Some(vs) => Some(Bytes(vs))
  }

  /** Values read before the rest of the text. */
  function After(vs: seq<nat>, rest: Option<seq<nat>>): Option<seq<nat>> {
    match rest case None => None case Some(ws) => Some(vs + ws)
  }

  lemma {:induction false} ScanSym(ts: seq<Token>, quad: nat)
    requires quad < 4 && ts != [] && ts[0].Sym?
    ensures Scan(ts, quad, 0) == After([ts[0].v], Scan(ts[1..], (quad + 1) % 4, 0))
  {
  }

  lemma {:induction false} AfterOneMore(v: nat, vs: seq<nat>, rest: Option<seq<nat>>)
    ensures After([v], After(vs, rest)) == After([v] + vs, rest)
    ensures After([], rest) == rest
  {
    if rest.Some? {
      assert [v] + (vs + rest.value) == [v] + vs + rest.value;
      assert [] + rest.value == rest.value;
    }
  }

  lemma {:induction false} Quad(quad: nat, n: nat)
    requires quad < 4 && n > 0
    ensures ((quad + 1) % 4 + (n - 1)) % 4 == (quad + n) % 4
  {
  }

  lemma {:induction false} ScanSyms(vs: seq<nat>, rest: seq<Token>, quad: nat)
    requires quad < 4
    ensures Scan(Syms(vs) + rest, quad, 0) == After(vs, Scan(rest, (quad + |vs|) % 4, 0))
  {
    hide Scan, After;
    var all := Syms(vs) + rest;
    if vs != [] {
      ScanSyms(vs[1..], rest, (quad + 1) % 4);
      assert all[1..] == Syms(vs[1..]) + rest;
      Quad(quad, |vs|);
      ScanSym(all, quad);
      AfterOneMore(vs[0], vs[1..], Scan(rest, (quad + |vs|) % 4, 0));
      assert vs == [vs[0]] + vs[1..];
    } else {
      assert all == rest;
      AfterOneMore(0, [], Scan(rest, quad, 0));
    }
  }

  /** The decoder stops at the pads that complete a group. */
  lemma {:induction false} ScanPads(quad: nat)
    requires quad < 4 && quad != 1
    ensures Scan(Pads(PadCount(quad)), quad, 0) == Some([])
  {
    if quad == 2 {
      assert Pads(2)[1..] == Pads(1);
      assert Scan(Pads(1), 2, 1) == Some([]);
    }
  }

  lemma {:induction false} ScanEncoding(vs: seq<nat>)
    requires |vs| % 4 != 1
    ensures Scan(Syms(vs) + Pads(PadCount(|vs|)), 0, 0) == Some(vs)
  {
    hide Scan;
    ScanSyms(vs, Pads(PadCount(|vs|)), 0);
    assert PadCount(|vs|) == PadCount(|vs| % 4);
    ScanPads(|vs| % 4);
    assert vs + [] == vs;
  }

  /** The decoder inverts the encoder. */
  lemma {:induction false} DecodeEncode(bs: seq<Byte>)
    ensures Decode(Encode(bs)) == Some(bs)
  {
    hide Scan, Read, Spell, Values, Bytes, PadCount;
    var vs := Values(bs);
    ReadSpell(Syms(vs) + Pads(PadCount(|vs|)));
    ScanEncoding(vs);
    BytesValues(bs);
  }

  // ----- stripping the pads and adding them back -----

  /** `rstrip("=")` */
  function StripPad(s: string): string {
    if s != "" && s[|s| - 1] == '=' then StripPad(s[..|s| - 1]) else s
  }

  /** `s + "=" * (-len(s) % 4)` */
  function Repad(s: string): string {
    s + seq(PadCount(|s|), _ => '=')
  }

  lemma {:induction false} StripPads(s: string, n: nat)
    requires '=' !in s
    ensures StripPad(s + seq(n, _ => '=')) == s
  {
    var t := s + seq(n, _ => '=');
    if n > 0 {
      assert t[..|t| - 1] == s + seq(n - 1, _ => '=');
      StripPads(s, n - 1);
    } else {
      assert t == s;
      assert s != "" ==> s[|s| - 1] in s;
    }
  }

  /** Stripping the pads and adding them back loses nothing, for every byte string. */
  lemma {:induction false} StripRepadLossless(bs: seq<Byte>)
    ensures Repad(StripPad(Encode(bs))) == Encode(bs)
    ensures Decode(Repad(StripPad(Encode(bs)))) == Some(bs)
    ensures forall c | c in StripPad(Encode(bs)) :: c != '='
  {
    var vs := Values(bs);
    var n := PadCount(|vs|);
    SpellPadless(Syms(vs));
    assert Encode(bs) == Spell(Syms(vs)) + seq(n, _ => '=');
    StripPads(Spell(Syms(vs)), n);
    DecodeEncode(bs);
  }

  // ----- texts that are no encoding -----

  /** A token stream whose symbols number one more than a multiple of four never decodes,
      however many pads follow. */
  lemma {:induction false} LoneSymbolFails(ts: seq<Token>, k: nat, quad: nat, pads: nat)
    requires Pad !in ts && quad < 4
    requires (quad + |ts|) % 4 == 1
    ensures Scan(ts + seq(k, _ => Pad), quad, pads) == None
    decreases |ts| + k
  {
    var all := ts + seq(k, _ => Pad);
    if ts != [] {
      assert all[1..] == ts[1..] + seq(k, _ => Pad);
      LoneSymbolFails(ts[1..], k, (quad + 1) % 4, 0);
    } else if k > 0 {
      assert all[1..] == [] + seq(k - 1, _ => Pad);
      LoneSymbolFails([], k - 1, quad, pads);
    }
  }

  /** The alphabet: A to Z, a to z, 0 to 9, "-" and "_". */
  lemma {:induction false} AlphabetIs(v: nat)
    requires v < 64
    ensures [Symbol(0), Symbol(25), Symbol(26), Symbol(51), Symbol(52), Symbol(61), Symbol(62), Symbol(63)] == "AZaz09-_"
    ensures v !in {0, 26, 52, 62, 63} ==> Symbol(v) as int == Symbol(v - 1) as int + 1
  {
  }

  /** The order of the bits: three bytes and the four symbols for them are one number. */
  lemma {:induction false} GroupIsNumber(a: Byte, b: Byte, c: Byte)
    ensures var vs := Group(a, b, c); ((vs[0] * 64 + vs[1]) * 64 + vs[2]) * 64 + vs[3] == (a * 256 + b) * 256 + c
  {
  }
}
