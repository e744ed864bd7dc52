/** `URLDecoder.decode(s, UTF_8)`, the library call the thumbnail extraction
    relies on, with its partner `URLEncoder.encode(s, UTF_8)`.

    Decoding turns `+` into a space and every run of `%XX` escapes into bytes
    that are then read as UTF-8; an ill-formed escape makes the whole call fail
    (`None`, Java's `IllegalArgumentException`). Ill-formed UTF-8 never fails:
    each maximal ill-formed subpart becomes U+FFFD. As in the JDK's decoder, a
    lead byte `ED` accepts any continuation byte and an encoded surrogate is
    replaced only once its whole sequence has been read. */
module UrlDecoding {
  import opened Wrappers

  type Byte = x: int | 0 <= x < 256

  const Replacement: char := '\U{FFFD}'

  // ---------------------------------------------------------------------------
  // Hex escapes
  // ---------------------------------------------------------------------------

  /** `Character.digit(c, 16)` on ASCII characters. */
  function HexDigit(c: char): (d: Option<nat>)
    ensures d.Some? ==> d.value < 16
    ensures d.Some? <==> '0' <= c <= '9' || 'a' <= c <= 'f' || 'A' <= c <= 'F'
  {
    if '0' <= c <= '9' then Some(c as int - '0' as int)
    else if 'a' <= c <= 'f' then Some(c as int - 'a' as int + 10)
    else if 'A' <= c <= 'F' then Some(c as int - 'A' as int + 10)
    else None
  }

  /** The upper-case hex digit `URLEncoder` writes for `d`. */
  function HexChar(d: nat): (c: char)
    requires d < 16
    ensures HexDigit(c) == Some(d)
  {
    if d < 10 then ('0' as int + d) as char else ('A' as int + d - 10) as char
  }

  /** `Integer.parseInt` of the two characters after a `%`, radix 16, followed
      by the decoder's check for a negative value. A leading sign is accepted by
      `parseInt`: `+F` reads as 15, `-0` as 0, and any other `-X` is negative. */
  function ParseEscape(a: char, b: char): (r: Option<Byte>)
    ensures HexDigit(a).Some? && HexDigit(b).Some? ==> r == Some(HexDigit(a).value * 16 + HexDigit(b).value)
    ensures r.Some? ==> HexDigit(b).Some?
    ensures r.Some? ==> HexDigit(a).Some? || (a == '+' && r.value == HexDigit(b).value) || (a == '-' && r.value == 0)
  {
    match HexDigit(b)
    case None => None
    case Some(low) =>
      if a == '+' then Some(low)
      else if a == '-' then (if low == 0 then Some(0) else None)
      else match HexDigit(a)
        case None => None
        case Some(high) => Some(high * 16 + low)
  }

  // ---------------------------------------------------------------------------
  // UTF-8
  // ---------------------------------------------------------------------------

  /** The length of the sequence a lead byte announces; 0 for a byte that cannot
      start one (a continuation byte, C0, C1, F5..FF). */
  function SequenceLength(lead: Byte): (n: nat)
    ensures n <= 4
  {
    if lead < 0x80 then 1
    else if 0xC2 <= lead <= 0xDF then 2
    else if 0xE0 <= lead <= 0xEF then 3
    else if 0xF0 <= lead <= 0xF4 then 4
    else 0
  }

  /** Whether `b` may stand at position `k` (1..3) of a sequence led by `lead`;
      the second byte's range rules out overlong forms and code points above
      U+10FFFF. Surrogates (`ED A0..BF`) are not ruled out here: the JDK
      checks them after reading the whole sequence (see `CodePoint`). */
  predicate Fits(lead: Byte, k: nat, b: Byte) {
    if k != 1 then 0x80 <= b <= 0xBF
    else if lead == 0xE0 then 0xA0 <= b <= 0xBF
    else if lead == 0xF0 then 0x90 <= b <= 0xBF
    else if lead == 0xF4 then 0x80 <= b <= 0x8F
    else 0x80 <= b <= 0xBF
  }

  /** How many bytes from the start of `bs`, at most `n`, form a valid prefix of
      an `n`-byte sequence (the lead byte counts as one). */
  function PrefixLength(bs: seq<Byte>, n: nat, k: nat): (m: nat)
    requires 1 <= k <= n && k <= |bs|
    requires forall j :: 1 <= j < k ==> Fits(bs[0], j, bs[j])
    ensures k <= m <= n && m <= |bs|
    ensures forall j :: 1 <= j < m ==> Fits(bs[0], j, bs[j])
    ensures m < n ==> m == |bs| || !Fits(bs[0], m, bs[m])
    decreases n - k
  {
    if k < n && k < |bs| && Fits(bs[0], k, bs[k]) then PrefixLength(bs, n, k + 1) else k
  }

  predicate CompleteSequence(bs: seq<Byte>) {
    && |bs| >= 1
    && SequenceLength(bs[0]) == |bs|
    && forall j :: 1 <= j < |bs| ==> Fits(bs[0], j, bs[j])
  }

  /** The character a complete sequence encodes; U+FFFD for an encoded
      surrogate, which is no character. */
  function CodePoint(bs: seq<Byte>): (c: char)
    requires CompleteSequence(bs)
    ensures |bs| == 3 && bs[0] == 0xED && bs[1] >= 0xA0 ==> c == Replacement
  {
    if |bs| == 1 then bs[0] as char
    else if |bs| == 2 then
      ((bs[0] as int - 0xC0) * 64 + (bs[1] as int - 0x80)) as char
    else if |bs| == 3 then
      assert Fits(bs[0], 1, bs[1]) && Fits(bs[0], 2, bs[2]);
      var cp := (bs[0] as int - 0xE0) * 4096 + (bs[1] as int - 0x80) * 64 + (bs[2] as int - 0x80);
      if 0xD800 <= cp <= 0xDFFF then Replacement else cp as char
    else
      assert Fits(bs[0], 1, bs[1]) && Fits(bs[0], 2, bs[2]) && Fits(bs[0], 3, bs[3]);
      ((bs[0] as int - 0xF0) * 0x40000 + (bs[1] as int - 0x80) * 4096 + (bs[2] as int - 0x80) * 64 + (bs[3] as int - 0x80)) as char
  }

  /** `new String(bytes, UTF_8)`: well-formed sequences decode to their
      character, every maximal ill-formed subpart to one U+FFFD. */
  function Utf8Decode(bs: seq<Byte>): (r: string)
    ensures |r| <= |bs|
    decreases |bs|
  {
    if bs == [] then []
    else
      var n := SequenceLength(bs[0]);
      if n == 0 then [Replacement] + Utf8Decode(bs[1..])
      else
        var m := PrefixLength(bs, n, 1);
        if m == n then [CodePoint(bs[..n])] + Utf8Decode(bs[n..])
        else [Replacement] + Utf8Decode(bs[m..])
  }

  /** The UTF-8 encoding of one character. */
  function Utf8Encode1(c: char): (bs: seq<Byte>)
    ensures CompleteSequence(bs)
  {
    var cp := c as int;
    if cp < 0x80 then [cp]
    else if cp < 0x800 then [0xC0 + cp / 64, 0x80 + cp % 64]
    else if cp < 0x10000 then [0xE0 + cp / 4096, 0x80 + (cp / 64) % 64, 0x80 + cp % 64]
    else [0xF0 + cp / 0x40000, 0x80 + (cp / 4096) % 64, 0x80 + (cp / 64) % 64, 0x80 + cp % 64]
  }

  function Utf8Encode(s: string): (bs: seq<Byte>)
    ensures |bs| >= |s|
  {
    if s == [] then [] else Utf8Encode1(s[0]) + Utf8Encode(s[1..])
  }

  lemma CodePointOfEncoding(c: char)
    ensures CodePoint(Utf8Encode1(c)) == c
  {
    var cp := c as int;
    if cp < 0x80 {
    } else if cp < 0x800 {
      CodePointOfTwoBytes(c);
    } else if cp < 0x10000 {
      CodePointOfThreeBytes(c);
    } else {
      CodePointOfFourBytes(c);
    }
  }

  lemma CodePointOfTwoBytes(c: char)
    requires 0x80 <= c as int < 0x800
    ensures CodePoint(Utf8Encode1(c)) == c
  {
    var cp := c as int;
    var bs := Utf8Encode1(c);
    assert bs == [0xC0 + cp / 64, 0x80 + cp % 64];
    assert cp == (cp / 64) * 64 + cp % 64;
    assert (bs[0] as int - 0xC0) * 64 + (bs[1] as int - 0x80) == cp;
  }

  lemma CodePointOfThreeBytes(c: char)
    requires 0x800 <= c as int < 0x10000
    ensures CodePoint(Utf8Encode1(c)) == c
  {
    var cp := c as int;
    var bs := Utf8Encode1(c);
    assert bs == [0xE0 + cp / 4096, 0x80 + (cp / 64) % 64, 0x80 + cp % 64];
    assert cp / 64 == (cp / 4096) * 64 + (cp / 64) % 64;
    assert cp == (cp / 64) * 64 + cp % 64;
    assert (bs[0] as int - 0xE0) * 4096 + (bs[1] as int - 0x80) * 64 + (bs[2] as int - 0x80) == cp;
  }

  lemma CodePointOfFourBytes(c: char)
    requires 0x10000 <= c as int
    ensures CodePoint(Utf8Encode1(c)) == c
  {
    var cp := c as int;
    var bs := Utf8Encode1(c);
    assert bs == [0xF0 + cp / 0x40000, 0x80 + (cp / 4096) % 64, 0x80 + (cp / 64) % 64, 0x80 + cp % 64];
    assert cp / 4096 == (cp / 0x40000) * 64 + (cp / 4096) % 64;
    assert cp / 64 == (cp / 4096) * 64 + (cp / 64) % 64;
    assert cp == (cp / 64) * 64 + cp % 64;
    assert (bs[0] as int - 0xF0) * 0x40000 + (bs[1] as int - 0x80) * 4096 + (bs[2] as int - 0x80) * 64 + (bs[3] as int - 0x80) == cp;
  }

  /** A well-formed sequence is decoded as its character, whatever follows. */
  lemma DecodeWellFormedHead(bs: seq<Byte>, rest: seq<Byte>)
    requires CompleteSequence(bs)
    ensures Utf8Decode(bs + rest) == [CodePoint(bs)] + Utf8Decode(rest)
  {
    var all := bs + rest;
    assert all[0] == bs[0];
    var m := PrefixLength(all, |bs|, 1);
    assert m == |bs|;
    assert all[..|bs|] == bs;
    assert all[|bs|..] == rest;
  }

  /** An encoded surrogate cut off before its third byte is one ill-formed
      subpart, and so gives one U+FFFD. */
  lemma CutSurrogateIsOneReplacement(b: Byte, rest: seq<Byte>)
    requires 0xA0 <= b <= 0xBF
    requires rest == [] || rest[0] < 0x80 || rest[0] > 0xBF
    ensures Utf8Decode([0xED, b] + rest) == [Replacement] + Utf8Decode(rest)
  {
    var all := [0xED, b] + rest;
    assert all[0] == 0xED && all[1] == b;
    assert PrefixLength(all, 3, 1) == 2;
    assert all[2..] == rest;
  }

  /** A whole encoded surrogate is read as one sequence and gives one U+FFFD. */
  lemma WholeSurrogateIsOneReplacement(b: Byte, c: Byte, rest: seq<Byte>)
    requires 0xA0 <= b <= 0xBF && 0x80 <= c <= 0xBF
    ensures Utf8Decode([0xED, b, c] + rest) == [Replacement] + Utf8Decode(rest)
  {
    var all := [0xED, b, c] + rest;
    assert all[..3] == [0xED, b, c];
    assert CompleteSequence(all[..3]);
    DecodeWellFormedHead([0xED, b, c], rest);
  }

  /** Decoding an encoding gives back the text. */
  lemma {:induction false} Utf8RoundTrip(s: string)
    ensures Utf8Decode(Utf8Encode(s)) == s
  {
    if s != [] {
      Utf8RoundTrip(s[1..]);
      DecodeWellFormedHead(Utf8Encode1(s[0]), Utf8Encode(s[1..]));
      CodePointOfEncoding(s[0]);
    }
  }

  lemma Utf8EncodeAppend(a: string, b: string)
    ensures Utf8Encode(a + b) == Utf8Encode(a) + Utf8Encode(b)
  {
    if a != [] {
      assert (a + b)[1..] == a[1..] + b;
      Utf8EncodeAppend(a[1..], b);
    } else {
      assert a + b == b;
    }
  }

  // ---------------------------------------------------------------------------
  // URLDecoder.decode
  // ---------------------------------------------------------------------------

  /** Decoding of `s`, where `run` holds the bytes of the escapes read so far in
      the current run; the run is decoded as one byte string once a character
      that is not `%` (or the end) is reached. */
  function DecodeRest(s: string, run: seq<Byte>): (r: Option<string>)
    decreases |s|
  {
    if s == [] then Some(Utf8Decode(run))
    else if s[0] == '%' then
      if |s| < 3 then None     // incomplete trailing escape
      else
        var b :- ParseEscape(s[1], s[2]);
        DecodeRest(s[3..], run + [b])
    else
      var tail :- DecodeRest(s[1..], []);
      Some(Utf8Decode(run) + [if s[0] == '+' then ' ' else s[0]] + tail)
  }

  /** `URLDecoder.decode(s, UTF_8)`; `None` where it throws. */
  function Decode(s: string): (r: Option<string>)
    ensures (forall i :: 0 <= i < |s| ==> s[i] != '%') ==> r.Some? && |r.value| == |s|
  {
    NoEscapesDecode(s);
    DecodeRest(s, [])
  }

  /** Without a `%`, decoding cannot fail and only turns `+` into a space. */
  lemma {:induction false} NoEscapesDecode(s: string)
    ensures (forall i :: 0 <= i < |s| ==> s[i] != '%') ==>
              && DecodeRest(s, []).Some?
              && |DecodeRest(s, []).value| == |s|
              && forall i :: 0 <= i < |s| ==> DecodeRest(s, []).value[i] == (if s[i] == '+' then ' ' else s[i])
  {
    if s != [] && forall i :: 0 <= i < |s| ==> s[i] != '%' {
      NoEscapesDecode(s[1..]);
      assert forall i :: 0 <= i < |s[1..]| ==> s[1..][i] != '%';
    }
  }

  /** A string without `%` or `+` decodes to itself. */
  lemma DecodePlain(s: string)
    requires forall i :: 0 <= i < |s| ==> s[i] != '%' && s[i] != '+'
    ensures Decode(s) == Some(s)
  {
    NoEscapesDecode(s);
    var r := DecodeRest(s, []).value;
    assert r == s by {
      assert |r| == |s| && forall i :: 0 <= i < |s| ==> r[i] == s[i];
    }
  }

  // ---------------------------------------------------------------------------
  // URLEncoder.encode, the partner
  // ---------------------------------------------------------------------------

  /** The characters `URLEncoder` leaves as they are. */
  predicate IsUnreserved(c: char) {
    'a' <= c <= 'z' || 'A' <= c <= 'Z' || '0' <= c <= '9' || c == '-' || c == '_' || c == '.' || c == '*'
  }

  function Escapes(bs: seq<Byte>): (s: string)
    ensures |s| == 3 * |bs|
  {
    if bs == [] then [] else ['%', HexChar(bs[0] / 16), HexChar(bs[0] % 16)] + Escapes(bs[1..])
  }

  /** What `URLEncoder` writes for one character. */
  function EncodeChar(c: char): (s: string)
    ensures |s| >= 1
    ensures s[0] == '%' <==> !IsUnreserved(c) && c != ' '
  {
    if IsUnreserved(c) then [c]
    else if c == ' ' then ['+']
    else Escapes(Utf8Encode1(c))
  }

  /** `URLEncoder.encode(s, UTF_8)`. */
  function Encode(s: string): (r: string)
  {
    if s == [] then [] else EncodeChar(s[0]) + Encode(s[1..])
  }

  /** A character other than `%` ends the pending run and stands for itself
      (`+` for a space). */
  lemma DecodeLiteral(c: char, rest: string, run: seq<Byte>)
    requires c != '%'
    ensures DecodeRest([c] + rest, run) ==
              if DecodeRest(rest, []).Some?
              then Some(Utf8Decode(run) + [if c == '+' then ' ' else c] + DecodeRest(rest, []).value)
              else None
  {
    assert ([c] + rest)[1..] == rest;
  }

  /** A run of escapes adds its bytes to the pending run. */
  lemma {:induction false} DecodeEscapes(bs: seq<Byte>, rest: string, run: seq<Byte>)
    ensures DecodeRest(Escapes(bs) + rest, run) == DecodeRest(rest, run + bs)
  {
    if bs == [] {
      assert Escapes(bs) + rest == rest;
      assert run + bs == run;
    } else {
      var e := Escapes(bs) + rest;
      assert e[0] == '%' && e[1] == HexChar(bs[0] / 16) && e[2] == HexChar(bs[0] % 16);
      assert ParseEscape(e[1], e[2]) == Some(bs[0]);
      assert e[3..] == Escapes(bs[1..]) + rest;
      DecodeEscapes(bs[1..], rest, run + [bs[0]]);
      assert run + [bs[0]] + bs[1..] == run + bs;
    }
  }

  lemma DecodeEncodeLiteralStep(s: string, prefix: string)
    requires s != [] && (IsUnreserved(s[0]) || s[0] == ' ')
    requires DecodeRest(Encode(s[1..]), []) == Some(s[1..])
    ensures DecodeRest(Encode(s), Utf8Encode(prefix)) == Some(prefix + s)
  {
    var x := if s[0] == ' ' then '+' else s[0];
    assert Encode(s) == [x] + Encode(s[1..]);
    assert (if x == '+' then ' ' else x) == s[0];
    DecodeLiteralAfterRun(x, Encode(s[1..]), prefix, s[1..]);
    JoinHead(prefix, s);
  }

  lemma JoinHead(prefix: string, s: string)
    requires s != []
    ensures prefix + [s[0]] + s[1..] == prefix + s
  {
    assert [s[0]] + s[1..] == s;
  }

  /** `DecodeLiteral` after a run that encodes `prefix`. */
  lemma DecodeLiteralAfterRun(c: char, rest: string, prefix: string, t: string)
    requires c != '%'
    requires DecodeRest(rest, []) == Some(t)
    ensures DecodeRest([c] + rest, Utf8Encode(prefix)) == Some(prefix + [if c == '+' then ' ' else c] + t)
  {
    DecodeLiteral(c, rest, Utf8Encode(prefix));
    Utf8RoundTrip(prefix);
  }

  lemma DecodeEncodeEscapeStep(s: string, prefix: string)
    requires s != [] && !IsUnreserved(s[0]) && s[0] != ' '
    requires DecodeRest(Encode(s[1..]), Utf8Encode(prefix + [s[0]])) == Some(prefix + [s[0]] + s[1..])
    ensures DecodeRest(Encode(s), Utf8Encode(prefix)) == Some(prefix + s)
  {
    var bs := Utf8Encode1(s[0]);
    assert Encode(s) == Escapes(bs) + Encode(s[1..]);
    DecodeEscapes(bs, Encode(s[1..]), Utf8Encode(prefix));
    RunGrows(prefix, s[0]);
    JoinHead(prefix, s);
  }

  /** Encoding one more character extends the run by its bytes. */
  lemma RunGrows(prefix: string, c: char)
    ensures Utf8Encode(prefix) + Utf8Encode1(c) == Utf8Encode(prefix + [c])
  {
    Utf8EncodeAppend(prefix, [c]);
    assert Utf8Encode([c]) == Utf8Encode1(c) + Utf8Encode([]);
    assert Utf8Encode1(c) + [] == Utf8Encode1(c);
  }

  /** Decoding an encoding, after a run that encodes `prefix`, gives back
      `prefix` followed by the text. */
  lemma {:induction false} DecodeEncodeFrom(s: string, prefix: string)
    ensures DecodeRest(Encode(s), Utf8Encode(prefix)) == Some(prefix + s)
  {
    if s == [] {
      Utf8RoundTrip(prefix);
      assert prefix + s == prefix;
    } else if IsUnreserved(s[0]) || s[0] == ' ' {
      DecodeEncodeFrom(s[1..], []);
      assert Utf8Encode([]) == [];
      assert [] + s[1..] == s[1..];
      DecodeEncodeLiteralStep(s, prefix);
    } else {
      DecodeEncodeFrom(s[1..], prefix + [s[0]]);
      DecodeEncodeEscapeStep(s, prefix);
    }
  }

  /** `URLDecoder.decode` inverts `URLEncoder.encode`. */
  lemma DecodeEncode(s: string)
    ensures Decode(Encode(s)) == Some(s)
  {
    DecodeEncodeFrom(s, []);
    assert Utf8Encode([]) == [];
    assert [] + s == s;
  }

  /** Encoded text never holds a character `decode` would reject on its own. */
  lemma EncodeOnlyEscapesWhole(s: string)
    ensures Decode(Encode(s)).Some?
  {
    DecodeEncode(s);
  }

  /** The ways `decode` throws: an escape cut short by the end of the text, a
      non-hex digit, and a negative value read through `parseInt`'s sign. */
  lemma DecodeRejects(s: string)
    requires s == "a%" || s == "a%4" || s == "%G1" || s == "%-1" || s == "%41%"
    ensures Decode(s) == None
  {
    if s == "a%" || s == "a%4" {
      assert s[0] != '%' && s[1..][0] == '%' && |s[1..]| < 3;
      assert DecodeRest(s[1..], []) == None;
    } else if s == "%G1" || s == "%-1" {
      assert s[0] == '%' && ParseEscape(s[1], s[2]) == None;
    } else {
      assert s[0] == '%' && ParseEscape(s[1], s[2]) == Some(0x41);
      assert s[3..] == "%" && DecodeRest(s[3..], [0x41]) == None;
      assert [] + [0x41] == [0x41];
      assert DecodeRest(s, []) == DecodeRest(s[3..], [0x41]);
    }
  }

  /** An escaped surrogate gives one U+FFFD, whether its run holds all three
      bytes or is cut off after two by the end of the text or by a literal. */
  lemma DecodeEscapedSurrogate(s: string)
    requires s == "%ED%A0" || s == "%ED%A0A" || s == "%ED%A0%80"
    ensures Decode(s) == Some(if s == "%ED%A0A" then [Replacement, 'A'] else [Replacement])
  {
    assert s[0] == '%' && ParseEscape(s[1], s[2]) == Some(0xED);
    assert s[3..][0] == '%' && ParseEscape(s[3..][1], s[3..][2]) == Some(0xA0);
    assert [] + [0xED] == [0xED] && [0xED] + [0xA0] == [0xED, 0xA0];
    assert DecodeRest(s, []) == DecodeRest(s[3..][3..], [0xED, 0xA0]);
    var t := s[3..][3..];
    if s == "%ED%A0" {
      assert t == [];
      CutSurrogateIsOneReplacement(0xA0, []);
      assert [0xED, 0xA0] + [] == [0xED, 0xA0];
      assert Utf8Decode([0xED, 0xA0]) == [Replacement] + Utf8Decode([]) == [Replacement];
      assert DecodeRest(t, [0xED, 0xA0]) == Some([Replacement]);
    } else if s == "%ED%A0A" {
      assert t == "A" && t[1..] == [];
      CutSurrogateIsOneReplacement(0xA0, []);
      assert [0xED, 0xA0] + [] == [0xED, 0xA0];
      assert t == ['A'] + [];
      DecodeLiteral('A', [], [0xED, 0xA0]);
      assert Utf8Decode([0xED, 0xA0]) == [Replacement] + Utf8Decode([]) == [Replacement];
      assert DecodeRest([], []) == Some([]);
      assert [Replacement] + ['A'] + [] == [Replacement, 'A'];
      assert DecodeRest(t, [0xED, 0xA0]) == Some([Replacement, 'A']);
    } else {
      assert t[0] == '%' && ParseEscape(t[1], t[2]) == Some(0x80) && t[3..] == [];
      WholeSurrogateIsOneReplacement(0xA0, 0x80, []);
      assert [0xED, 0xA0, 0x80] + [] == [0xED, 0xA0, 0x80];
      assert [0xED, 0xA0] + [0x80] == [0xED, 0xA0, 0x80];
      assert DecodeRest(t, [0xED, 0xA0]) == DecodeRest(t[3..], [0xED, 0xA0, 0x80]);
      assert Utf8Decode([0xED, 0xA0, 0x80]) == [Replacement] + Utf8Decode([]) == [Replacement];
      assert DecodeRest(t, [0xED, 0xA0]) == Some([Replacement]);
    }
    assert Decode(s) == DecodeRest(s, []);
  }

  /** `parseInt`'s sign is accepted where it does not make the value negative. */
  lemma DecodeSignedEscapes(s: string)
    requires s == "%+1%-0"
    ensures Decode(s) == Some([1 as char, 0 as char])
  {
    assert s[0] == '%' && ParseEscape(s[1], s[2]) == Some(1);
    assert s[3..][0] == '%' && ParseEscape(s[3..][1], s[3..][2]) == Some(0);
    assert s[3..][3..] == [];
    var bs: seq<Byte> := [1, 0];
    assert Utf8Decode(bs[1..]) == [0 as char];
    assert Utf8Decode(bs) == [1 as char, 0 as char];
    assert DecodeRest(s[3..][3..], [1, 0]) == Some([1 as char, 0 as char]);
    assert [] + [1] == [1] && [1] + [0] == [1, 0];
    assert DecodeRest(s[3..], [1]) == DecodeRest(s[3..][3..], [1, 0]);
    assert DecodeRest(s, []) == DecodeRest(s[3..], [1]);
  }
}
