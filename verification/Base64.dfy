/** Base64 with the URL-safe alphabet and without padding (section 5 of RFC 4648, padding left out as section 3.2
    allows), as encoded by the service and read back by Python's lenient decoder. */
module Base64 {
  import opened Common

  type Byte = x: int | 0 <= x < 256
  type Sextet = x: int | 0 <= x < 64

  function EncodeSextet(v: Sextet): char {
    if v < 26 then ('A' as int + v) as char
    else if v < 52 then ('a' as int + v - 26) as char
    else if v < 62 then ('0' as int + v - 52) as char
    else if v == 62 then '-' else '_'
  }

  /** The value of a character; None for characters the decoder skips. The standard alphabet is read too. */
  function DecodeChar(c: char): Option<Sextet> {
    if 'A' <= c <= 'Z' then Some(c as int - 'A' as int)
    else if 'a' <= c <= 'z' then Some(c as int - 'a' as int + 26)
    else if '0' <= c <= '9' then Some(c as int - '0' as int + 52)
    else if c == '-' || c == '+' then Some(62)
    else if c == '_' || c == '/' then Some(63)
    else None
  }

  lemma SextetRoundTrip(v: Sextet)
    ensures DecodeChar(EncodeSextet(v)) == Some(v)
    ensures EncodeSextet(v) != '=' && EncodeSextet(v) != '.' && EncodeSextet(v) < 128 as char
  {
  }

  // ---- Encoding ----

  function Padding(n: nat): string {
    seq(n, i => '=')
  }

  /** The four characters of a full group of three bytes. */
  function Quad(x: Byte, y: Byte, z: Byte): string {
    [EncodeSextet(x / 4), EncodeSextet(x % 4 * 16 + y / 16), EncodeSextet(y % 16 * 4 + z / 64), EncodeSextet(z % 64)]
  }

  /** The standard encoding: four characters for three bytes, the last group filled up with '='. */
  function Padded(b: seq<Byte>): string {
    if |b| == 0 then ""
    else if |b| == 1 then [EncodeSextet(b[0] / 4), EncodeSextet(b[0] % 4 * 16), '=', '=']
    else if |b| == 2 then
      [EncodeSextet(b[0] / 4), EncodeSextet(b[0] % 4 * 16 + b[1] / 16), EncodeSextet(b[1] % 16 * 4), '=']
    else
      Quad(b[0], b[1], b[2]) + Padded(b[3..])
  }

  function StripPadding(s: string): string {
    if s != "" && s[|s| - 1] == '=' then StripPadding(s[..|s| - 1]) else s
  }

  function Encode(b: seq<Byte>): string {
    StripPadding(Padded(b))
  }

  /** No '=' and no dot, and nothing outside ASCII. */
  predicate Clean(s: string) {
    forall c :: c in s ==> c != '=' && c != '.' && c < 128 as char
  }

  /** The characters that carry bits. */
  function Body(b: seq<Byte>): string {
    if |b| == 0 then ""
    else if |b| == 1 then [EncodeSextet(b[0] / 4), EncodeSextet(b[0] % 4 * 16)]
    else if |b| == 2 then [EncodeSextet(b[0] / 4), EncodeSextet(b[0] % 4 * 16 + b[1] / 16), EncodeSextet(b[1] % 16 * 4)]
    else Quad(b[0], b[1], b[2]) + Body(b[3..])
  }

  lemma StripOne(s: string)
    ensures StripPadding(s + "=") == StripPadding(s)
  {
    assert (s + "=")[..|s|] == s;
  }

  lemma StripNone(s: string)
    requires Clean(s)
    ensures StripPadding(s) == s
  {
    assert s != "" ==> s[|s| - 1] in s;
  }

  lemma {:induction false} StripAfter(s: string, n: nat)
    requires Clean(s)
    ensures StripPadding(s + Padding(n)) == s
  {
    if n == 0 {
      assert s + Padding(0) == s;
      StripNone(s);
    } else {
      assert s + Padding(n) == (s + Padding(n - 1)) + "=";
      StripOne(s + Padding(n - 1));
      StripAfter(s, n - 1);
    }
  }

  lemma {:induction false} BodyIsClean(b: seq<Byte>)
    ensures Clean(Body(b))
  {
    forall v: Sextet ensures EncodeSextet(v) != '=' && EncodeSextet(v) != '.' && EncodeSextet(v) < 128 as char {
      SextetRoundTrip(v);
    }
    if |b| >= 3 {
      BodyIsClean(b[3..]);
    }
  }

  /** How many '=' complete the last group. */
  function Missing(length: nat): nat {
    (4 - length % 4) % 4
  }

  lemma LastGroup(b: seq<Byte>)
    requires 1 <= |b| <= 2
    ensures |Body(b)| == |b| + 1 && Padded(b) == Body(b) + Padding(3 - |b|)
  {
    assert Padding(1) == "=" && Padding(2) == "==";
  }

  lemma {:induction false} BodyLength(b: seq<Byte>)
    ensures |Body(b)| == 4 * (|b| / 3) + (if |b| % 3 == 0 then 0 else |b| % 3 + 1)
  {
    if |b| >= 3 {
      BodyLength(b[3..]);
      assert |b| / 3 == |b[3..]| / 3 + 1 && |b| % 3 == |b[3..]| % 3;
    }
  }

  lemma RemainderOfLength(groups: nat, extra: nat)
    requires extra < 4
    ensures (4 * groups + extra) % 4 == extra
  {
  }

  lemma MissingRepeats(n: nat)
    ensures Missing(4 + n) == Missing(n)
  {
  }

  lemma Reassociate(a: string, b: string, c: string)
    ensures a + (b + c) == (a + b) + c
  {
  }

  lemma {:induction false} PaddedBody(b: seq<Byte>)
    ensures Padded(b) == Body(b) + Padding(Missing(|Body(b)|))
  {
    if |b| >= 3 {
      var quad, rest := Quad(b[0], b[1], b[2]), Body(b[3..]);
      PaddedBody(b[3..]);
      MissingRepeats(|rest|);
      Reassociate(quad, rest, Padding(Missing(|rest|)));
      assert Body(b) == quad + rest && |quad| == 4;
    } else if |b| >= 1 {
      LastGroup(b);
    }
  }

  lemma EncodeIsBody(b: seq<Byte>)
    ensures Encode(b) == Body(b)
  {
    BodyIsClean(b);
    PaddedBody(b);
    StripAfter(Body(b), Missing(|Body(b)|));
  }

  /** The encoding without padding has no dot, no '=' and nothing outside ASCII; its length is never 1 modulo 4, and the
      padding that the decoder puts back is the padding that was cut off. */
  lemma {:induction false} EncodeShape(b: seq<Byte>)
    ensures Clean(Encode(b)) && |Encode(b)| % 4 == (if |b| % 3 == 0 then 0 else |b| % 3 + 1)
    ensures Padded(b) == Encode(b) + Padding(Missing(|Encode(b)|))
  {
    EncodeIsBody(b);
    BodyIsClean(b);
    PaddedBody(b);
    BodyLength(b);
    RemainderOfLength(|b| / 3, if |b| % 3 == 0 then 0 else |b| % 3 + 1);
  }

  // ---- Decoding ----

  /** CPython's non-strict decoder: quad characters of the current group have been read, leaving the bits `left`; pads
      counts the '=' seen in it. Foreign characters are skipped, a complete padding ends the input. */
  function Scan(s: string, quad: int, left: int, pads: nat): Option<seq<int>>
    requires 0 <= quad < 4
  {
    if s == "" then (if quad == 0 then Some([]) else None)
    else if s[0] == '=' then
      if quad >= 2 && quad + pads + 1 >= 4 then Some([])
      else Scan(s[1..], quad, left, if quad >= 2 then pads + 1 else pads)
    else
      match DecodeChar(s[0])
      case None => Scan(s[1..], quad, left, pads)
      case Some(v) =>
        if quad == 0 then Scan(s[1..], 1, v, 0)
        else if quad == 1 then Emit(left * 4 + v / 16, Scan(s[1..], 2, v % 16, 0))
        else if quad == 2 then Emit(left * 16 + v / 4, Scan(s[1..], 3, v % 4, 0))
        else Emit(left * 64 + v, Scan(s[1..], 0, 0, 0))
  }

  function Emit(b: int, rest: Option<seq<int>>): Option<seq<int>> {
    if rest.Some? then Some([b] + rest.value) else None
  }

  predicate IsAscii(s: string) {
    forall c :: c in s ==> c < 128 as char
  }

  /** None where the service's decoder raises. */
  function Decode(s: string): Option<seq<int>> {
    if !IsAscii(s) then None else Scan(s + Padding(Missing(|s|)), 0, 0, 0)
  }

  lemma ScanSextet(v: Sextet, rest: string, quad: int, left: int, pads: nat)
    requires 0 <= quad < 4
    ensures Scan([EncodeSextet(v)] + rest, quad, left, pads) ==
            if quad == 0 then Scan(rest, 1, v, 0)
            else if quad == 1 then Emit(left * 4 + v / 16, Scan(rest, 2, v % 16, 0))
            else if quad == 2 then Emit(left * 16 + v / 4, Scan(rest, 3, v % 4, 0))
            else Emit(left * 64 + v, Scan(rest, 0, 0, 0))
  {
    SextetRoundTrip(v);
    assert ([EncodeSextet(v)] + rest)[1..] == rest;
  }

  /** A full group yields three bytes, and a padded one the bytes its characters hold. */
  lemma ScanFour(p: Sextet, q: Sextet, r: Sextet, s: Sextet, rest: string)
    ensures Scan([EncodeSextet(p), EncodeSextet(q), EncodeSextet(r), EncodeSextet(s)] + rest, 0, 0, 0)
            == Emit(p * 4 + q / 16, Emit(q % 16 * 16 + r / 4, Emit(r % 4 * 64 + s, Scan(rest, 0, 0, 0))))
  {
    var a, b, c, d := [EncodeSextet(p)], [EncodeSextet(q)], [EncodeSextet(r)], [EncodeSextet(s)];
    assert [EncodeSextet(p), EncodeSextet(q), EncodeSextet(r), EncodeSextet(s)] + rest == a + (b + (c + (d + rest)));
    ScanSextet(p, b + (c + (d + rest)), 0, 0, 0);
    ScanSextet(q, c + (d + rest), 1, p, 0);
    ScanSextet(r, d + rest, 2, q % 16, 0);
    ScanSextet(s, rest, 3, r % 4, 0);
  }

  lemma ScanThree(p: Sextet, q: Sextet, r: Sextet)
    ensures Scan([EncodeSextet(p), EncodeSextet(q), EncodeSextet(r), '='], 0, 0, 0)
            == Some([p * 4 + q / 16, q % 16 * 16 + r / 4])
  {
    var a, b, c := [EncodeSextet(p)], [EncodeSextet(q)], [EncodeSextet(r)];
    assert [EncodeSextet(p), EncodeSextet(q), EncodeSextet(r), '='] == a + (b + (c + "="));
    ScanSextet(p, b + (c + "="), 0, 0, 0);
    ScanSextet(q, c + "=", 1, p, 0);
    ScanSextet(r, "=", 2, q % 16, 0);
    assert Scan("=", 3, r % 4, 0) == Some([]);
    var x, y := p * 4 + q / 16, q % 16 * 16 + r / 4;
    assert [x] + ([y] + []) == [x, y];
  }

  lemma ScanTwo(p: Sextet, q: Sextet)
    ensures Scan([EncodeSextet(p), EncodeSextet(q), '=', '='], 0, 0, 0) == Some([p * 4 + q / 16])
  {
    var a, b := [EncodeSextet(p)], [EncodeSextet(q)];
    assert [EncodeSextet(p), EncodeSextet(q), '=', '='] == a + (b + "==");
    ScanSextet(p, b + "==", 0, 0, 0);
    ScanSextet(q, "==", 1, p, 0);
    assert "=="[1..] == "=";
    assert Scan("=", 2, q % 16, 1) == Some([]);
    assert Scan("==", 2, q % 16, 0) == Some([]);
    assert [p * 4 + q / 16] + [] == [p * 4 + q / 16];
  }

  /** Cutting three bytes into sextets and putting them together again. */
  lemma BitsRejoin(x: Byte, y: Byte, z: Byte)
    ensures (x / 4) * 4 + (x % 4 * 16 + y / 16) / 16 == x
    ensures (x % 4 * 16 + y / 16) % 16 * 16 + (y % 16 * 4 + z / 64) / 4 == y
    ensures (y % 16 * 4 + z / 64) % 4 * 64 + z % 64 == z
  {
  }

  lemma ScanQuad(x: Byte, y: Byte, z: Byte, rest: string)
    ensures Scan(Quad(x, y, z) + rest, 0, 0, 0) == Emit(x, Emit(y, Emit(z, Scan(rest, 0, 0, 0))))
  {
    ScanFour(x / 4, x % 4 * 16 + y / 16, y % 16 * 4 + z / 64, z % 64, rest);
    BitsRejoin(x, y, z);
  }

  lemma ScanLastTwo(x: Byte, y: Byte)
    ensures Scan(Padded([x, y]), 0, 0, 0) == Some([x, y])
  {
    ScanThree(x / 4, x % 4 * 16 + y / 16, y % 16 * 4);
    BitsRejoin(x, y, 0);
  }

  lemma ScanLastOne(x: Byte)
    ensures Scan(Padded([x]), 0, 0, 0) == Some([x])
  {
    ScanTwo(x / 4, x % 4 * 16);
    BitsRejoin(x, 0, 0);
  }

  lemma {:induction false} ScanPadded(b: seq<Byte>)
    ensures Scan(Padded(b), 0, 0, 0) == Some(b)
  {
    if |b| == 1 {
      ScanLastOne(b[0]);
      assert b == [b[0]];
    } else if |b| == 2 {
      ScanLastTwo(b[0], b[1]);
      assert b == [b[0], b[1]];
    } else if |b| >= 3 {
      ScanQuad(b[0], b[1], b[2], Padded(b[3..]));
      ScanPadded(b[3..]);
      assert b == [b[0]] + ([b[1]] + ([b[2]] + b[3..]));
    }
  }

  // ---- What the encoding looks like ----

  predicate IsUrlSafe(c: char) {
    'A' <= c <= 'Z' || 'a' <= c <= 'z' || '0' <= c <= '9' || c == '-' || c == '_'
  }

  /** Table 2 of RFC 4648: the capitals, the small letters and the digits in their order, then the two URL-safe
      characters. */
  lemma AlphabetOrder(v: Sextet)
    ensures EncodeSextet(0) == 'A' && EncodeSextet(26) == 'a' && EncodeSextet(52) == '0'
    ensures EncodeSextet(62) == '-' && EncodeSextet(63) == '_'
    ensures v < 61 && v != 25 && v != 51 ==> EncodeSextet(v + 1) as int == EncodeSextet(v) as int + 1
    ensures IsUrlSafe(EncodeSextet(v))
  {
  }

  /** The decoder reads the two characters of the standard alphabet like the URL-safe ones, and refuses a text with
      anything outside ASCII. */
  lemma DecoderReadsBothAlphabets(s: string, c: char)
    ensures DecodeChar('+') == DecodeChar('-') && DecodeChar('/') == DecodeChar('_')
    ensures c in s && c as int >= 128 ==> Decode(s).None?
  {
  }

  function Bits(x: int, y: int, z: int): int {
    x * 65536 + y * 256 + z
  }

  /** The bits that characters hold, the first ones first. */
  function Held(chars: string): Option<int> {
    if chars == "" then Some(0)
    else match (Held(chars[..|chars| - 1]), DecodeChar(chars[|chars| - 1]))
      case (Some(n), Some(v)) => Some(n * 64 + v)
      case _ => None
  }

  lemma HeldByNext(s: string, n: int, r: Sextet)
    requires Held(s) == Some(n)
    ensures Held(s + [EncodeSextet(r)]) == Some(n * 64 + r)
  {
    SextetRoundTrip(r);
    assert (s + [EncodeSextet(r)])[..|s|] == s;
  }

  lemma HeldByTwo(p: Sextet, q: Sextet)
    ensures Held([EncodeSextet(p), EncodeSextet(q)]) == Some(p * 64 + q)
  {
    HeldByNext("", 0, p);
    HeldByNext("" + [EncodeSextet(p)], p, q);
    assert "" + [EncodeSextet(p)] + [EncodeSextet(q)] == [EncodeSextet(p), EncodeSextet(q)];
  }

  lemma HeldByThree(p: Sextet, q: Sextet, r: Sextet)
    ensures Held([EncodeSextet(p), EncodeSextet(q), EncodeSextet(r)]) == Some((p * 64 + q) * 64 + r)
  {
    var s := [EncodeSextet(p), EncodeSextet(q)];
    HeldByTwo(p, q);
    HeldByNext(s, p * 64 + q, r);
    assert s + [EncodeSextet(r)] == [EncodeSextet(p), EncodeSextet(q), EncodeSextet(r)];
  }

  lemma HeldByQuad(x: Byte, y: Byte, z: Byte)
    ensures Held(Quad(x, y, z)) == Some(Bits(x, y, z))
  {
    var p: Sextet, q: Sextet, r: Sextet, s: Sextet := x / 4, x % 4 * 16 + y / 16, y % 16 * 4 + z / 64, z % 64;
    var three := [EncodeSextet(p), EncodeSextet(q), EncodeSextet(r)];
    HeldByThree(p, q, r);
    HeldByNext(three, (p * 64 + q) * 64 + r, s);
    assert three + [EncodeSextet(s)] == Quad(x, y, z);
  }

  /** A last group of one or two bytes gives the two or three characters that hold its bits, followed by zeros. */
  lemma LastGroupEncodes(x: Byte, y: Byte)
    ensures |Encode([x])| == 2 && Held(Encode([x])) == Some(Bits(0, 0, x) * 16)
    ensures |Encode([x, y])| == 3 && Held(Encode([x, y])) == Some(Bits(0, x, y) * 4)
  {
    EncodeIsBody([x]);
    HeldByTwo(x / 4, x % 4 * 16);
    EncodeIsBody([x, y]);
    HeldByThree(x / 4, x % 4 * 16 + y / 16, y % 16 * 4);
  }

  /** Three bytes give the four characters that hold their 24 bits, and the rest follows. */
  lemma GroupEncodes(b: seq<Byte>)
    requires |b| >= 3
    ensures |Encode(b)| >= 4 && Held(Encode(b)[..4]) == Some(Bits(b[0], b[1], b[2]))
    ensures Encode(b)[4..] == Encode(b[3..])
  {
    EncodeIsBody(b);
    EncodeIsBody(b[3..]);
    HeldByQuad(b[0], b[1], b[2]);
    assert Body(b)[..4] == Quad(b[0], b[1], b[2]);
  }

  lemma {:induction false} BodyIsUrlSafe(b: seq<Byte>)
    ensures forall c :: c in Body(b) ==> IsUrlSafe(c)
  {
    forall v: Sextet ensures IsUrlSafe(EncodeSextet(v)) {
      AlphabetOrder(v);
    }
    if |b| >= 3 {
      BodyIsUrlSafe(b[3..]);
    }
  }

  /** Every character of an encoding is a letter, a digit, '-' or '_'. */
  lemma EncodeIsUrlSafe(b: seq<Byte>)
    ensures forall c :: c in Encode(b) ==> IsUrlSafe(c)
  {
    EncodeIsBody(b);
    BodyIsUrlSafe(b);
  }

  /** The decoder skips what is neither in one of the two alphabets nor padding. */
  lemma {:induction false} ForeignIsSkipped(a: string, c: char, b: string, quad: int, left: int, pads: nat)
    requires 0 <= quad < 4 && !IsUrlSafe(c) && c != '+' && c != '/' && c != '='
    ensures Scan(a + [c] + b, quad, left, pads) == Scan(a + b, quad, left, pads)
  {
    var s, t := a + [c] + b, a + b;
    if a == "" {
      assert s[1..] == b == t;
    } else {
      assert s[1..] == a[1..] + [c] + b && t[1..] == a[1..] + b;
      forall q, l, n: nat | 0 <= q < 4 ensures Scan(s[1..], q, l, n) == Scan(t[1..], q, l, n) {
        ForeignIsSkipped(a[1..], c, b, q, l, n);
      }
    }
  }

  /** Every byte sequence is read back exactly. */
  lemma RoundTrip(b: seq<Byte>)
    ensures Decode(Encode(b)) == Some(b)
  {
    EncodeShape(b);
    ScanPadded(b);
  }
}
