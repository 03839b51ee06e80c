/**
 The public ids of Sends (src/services/vault.ts): base64url texts, without padding, of the sixteen bytes
 of a UUID. The hexadecimal digits come first, then the groups of six bits, and last the two functions
 of the server and what one undoes of the other.
 */
module AccessIds {

  import opened Base
  import opened Text
  import opened Numerals

  type Bytes = seq<nat>

  ghost predicate AreBytes(b: Bytes) {
    forall i | 0 <= i < |b| :: b[i] < 256
  }

  // ------------------------------------------------------------------------------ hexadecimal

  predicate IsLowerHex(s: string) {
    AllDigits(s, Hex) && IsLower(s)
  }

  /** A canonical UUID text: five groups of lower-case hexadecimal digits. */
  predicate IsUuid(u: string) {
    && |u| == 36 && u[8] == '-' && u[13] == '-' && u[18] == '-' && u[23] == '-'
    && IsLowerHex(u[..8]) && IsLowerHex(u[9..13]) && IsLowerHex(u[14..18]) && IsLowerHex(u[19..23])
    && IsLowerHex(u[24..])
  }

  function RemoveDashes(s: string): string {
    if s == "" then "" else (if s[0] == '-' then "" else [s[0]]) + RemoveDashes(s[1..])
  }

  function Hyphenate(hex: string): string
    requires |hex| == 32
  {
    hex[..8] + "-" + hex[8..12] + "-" + hex[12..16] + "-" + hex[16..20] + "-" + hex[20..]
  }

  function ByteAt(hex: string, i: nat): nat
    requires 2 * i + 2 <= |hex|
  {
    Radix(hex[2 * i..2 * i + 2], Hex)
  }

  function HexBytes(hex: string, n: nat): (b: Bytes)
    requires 2 * n <= |hex|
    ensures |b| == n
  {
    seq(n, i requires 0 <= i < n => ByteAt(hex, i))
  }

  function HexPair(b: nat): string
    requires b < 256
  {
    [DigitChar(b / 16), DigitChar(b % 16)]
  }

  /** Buffer.toString("hex"). */
  function HexText(b: Bytes): (s: string)
    requires AreBytes(b)
    ensures |s| == 2 * |b|
  {
    if b == [] then "" else HexText(b[..|b| - 1]) + HexPair(b[|b| - 1])
  }

  lemma RadixOfPair(s: string)
    requires |s| == 2
    ensures Radix(s, Hex) == 16 * DigitValue(s[0]) + DigitValue(s[1])
  {
    RadixStep("", s[0], Hex);
    RadixStep([s[0]], s[1], Hex);
    assert "" + [s[0]] == [s[0]] && [s[0]] + [s[1]] == s;
  }

  lemma PairOfDigits(p: nat, q: nat)
    requires p < 16 && q < 16
    ensures 16 * p + q < 256 && HexPair(16 * p + q) == [DigitChar(p), DigitChar(q)]
  {
    var b := 16 * p + q;
    assert b / 16 == p && b % 16 == q;
  }

  lemma PairReadsBack(s: string)
    requires |s| == 2 && IsLowerHex(s)
    ensures Radix(s, Hex) < 256 && HexPair(Radix(s, Hex)) == s
  {
    RadixOfPair(s);
    PairOfDigits(DigitValue(s[0]), DigitValue(s[1]));
  }

  lemma PairAdded(b: Bytes, pair: string)
    requires AreBytes(b) && |pair| == 2 && IsLowerHex(pair)
    ensures Radix(pair, Hex) < 256 && AreBytes(b + [Radix(pair, Hex)])
    ensures HexText(b + [Radix(pair, Hex)]) == HexText(b) + pair
  {
    PairReadsBack(pair);
    assert (b + [Radix(pair, Hex)])[..|b|] == b;
  }

  lemma OneMoreByte(hex: string, n: nat)
    requires 0 < 2 * n <= |hex|
    ensures HexBytes(hex, n) == HexBytes(hex, n - 1) + [Radix(hex[2 * (n - 1)..2 * (n - 1) + 2], Hex)]
  {
  }

  lemma {:induction false} HexReadsBack(hex: string, n: nat)
    requires 2 * n <= |hex| && IsLowerHex(hex)
    ensures AreBytes(HexBytes(hex, n)) && HexText(HexBytes(hex, n)) == hex[..2 * n]
  {
    if n > 0 {
      HexReadsBack(hex, n - 1);
      var pair := hex[2 * (n - 1)..2 * (n - 1) + 2];
      PairAdded(HexBytes(hex, n - 1), pair);
      OneMoreByte(hex, n);
      assert hex[..2 * n] == hex[..2 * (n - 1)] + pair;
    }
  }

  lemma {:induction false} DashesGo(a: string, rest: string)
    requires '-' !in a
    ensures RemoveDashes(a + rest) == a + RemoveDashes(rest)
  {
    if a == "" {
      assert a + rest == rest;
    } else {
      DashesGo(a[1..], rest);
      assert (a + rest)[1..] == a[1..] + rest;
      assert a == [a[0]] + a[1..];
    }
  }

  lemma DashGoes(rest: string)
    ensures RemoveDashes("-" + rest) == RemoveDashes(rest)
  {
    assert ("-" + rest)[1..] == rest;
  }

  /** A UUID without its dashes is 32 digits, and hyphenating them gives the UUID. */
  lemma UuidDigits(u: string)
    requires IsUuid(u)
    ensures |RemoveDashes(u)| == 32 && IsLowerHex(RemoveDashes(u)) && Hyphenate(RemoveDashes(u)) == u
  {
    var a, b, c, d, e := u[..8], u[9..13], u[14..18], u[19..23], u[24..];
    FiveParts(a, b, c, d, e);
    UuidText(u);
    var hex := a + (b + (c + (d + e)));
    FiveSlices(a, b, c, d, e);
    assert IsLowerHex(hex);
  }

  lemma UuidText(u: string)
    requires |u| == 36 && u[8] == '-' && u[13] == '-' && u[18] == '-' && u[23] == '-'
    ensures u == u[..8] + ("-" + (u[9..13] + ("-" + (u[14..18] + ("-" + (u[19..23] + ("-" + (u[24..] + ""))))))))
    ensures u == u[..8] + "-" + u[9..13] + "-" + u[14..18] + "-" + u[19..23] + "-" + u[24..]
  {
  }

  lemma FiveSlices(a: string, b: string, c: string, d: string, e: string)
    requires |a| == 8 && |b| == 4 && |c| == 4 && |d| == 4 && |e| == 12
    ensures var hex := a + (b + (c + (d + e)));
            hex[..8] == a && hex[8..12] == b && hex[12..16] == c && hex[16..20] == d && hex[20..] == e
  {
  }

  lemma FiveParts(a: string, b: string, c: string, d: string, e: string)
    requires '-' !in a && '-' !in b && '-' !in c && '-' !in d && '-' !in e
    ensures RemoveDashes(a + ("-" + (b + ("-" + (c + ("-" + (d + ("-" + (e + ""))))))))) == a + (b + (c + (d + e)))
  {
    DashesGo(e, "");
    DashGoes(e + "");
    DashesGo(d, "-" + (e + ""));
    DashGoes(d + ("-" + (e + "")));
    DashesGo(c, "-" + (d + ("-" + (e + ""))));
    DashGoes(c + ("-" + (d + ("-" + (e + "")))));
    DashesGo(b, "-" + (c + ("-" + (d + ("-" + (e + ""))))));
    DashGoes(b + ("-" + (c + ("-" + (d + ("-" + (e + "")))))));
    DashesGo(a, "-" + (b + ("-" + (c + ("-" + (d + ("-" + (e + ""))))))));
    assert e + "" == e;
  }

  // ------------------------------------------------------------------------------ base64url

  function SextetChar(v: nat): char
    requires v < 64
  {
    if v < 26 then ('A' as int + v) as char
    else if v < 52 then ('a' as int + v - 26) as char
    else if v < 62 then ('0' as int + v - 52) as char
    else if v == 62 then '-'
    else '_'
  }

  /** The value of a character of either base64 alphabet; 64 for any other. */
  function Sextet(c: char): nat {
    if 'A' <= c <= 'Z' then c as int - 'A' as int
    else if 'a' <= c <= 'z' then c as int - 'a' as int + 26
    else if '0' <= c <= '9' then c as int - '0' as int + 52
    else if c == '-' || c == '+' then 62
    else if c == '_' || c == '/' then 63
    else 64
  }

  predicate InAlphabet(s: string) {
    forall i | 0 <= i < |s| :: Sextet(s[i]) < 64
  }

  predicate AreSextets(v: seq<nat>) {
    forall i | 0 <= i < |v| :: v[i] < 64
  }

  function Letters(v: seq<nat>): (s: string)
    requires AreSextets(v)
    ensures |s| == |v|
  {
    seq(|v|, i requires 0 <= i < |v| => SextetChar(v[i]))
  }

  function SextetsOf(s: string): (v: seq<nat>)
    requires InAlphabet(s)
    ensures |v| == |s| && AreSextets(v)
  {
    seq(|s|, i requires 0 <= i < |s| => Sextet(s[i]))
  }

  predicate IsUrlSafe(c: char) {
    'A' <= c <= 'Z' || 'a' <= c <= 'z' || '0' <= c <= '9' || c == '-' || c == '_'
  }

  lemma LettersReadBack(v: seq<nat>)
    requires AreSextets(v)
    ensures InAlphabet(Letters(v)) && SextetsOf(Letters(v)) == v
  {
    forall i | 0 <= i < |v|
      ensures Sextet(Letters(v)[i]) == v[i]
    {
    }
  }

  /** Bytes in groups of six bits, the last group filled with zeros. */
  function Pack(b: Bytes): (v: seq<nat>)
    requires AreBytes(b)
    ensures AreSextets(v)
  {
    if b == [] then []
    else if |b| == 1 then [b[0] / 4, b[0] % 4 * 16]
    else if |b| == 2 then [b[0] / 4, b[0] % 4 * 16 + b[1] / 16, b[1] % 16 * 4]
    else Quad(b[0], b[1], b[2]) + Pack(b[3..])
  }

  function Quad(x: nat, y: nat, z: nat): (v: seq<nat>)
    requires x < 256 && y < 256 && z < 256
    ensures AreSextets(v) && |v| == 4
  {
    [x / 4, x % 4 * 16 + y / 16, y % 16 * 4 + z / 64, z % 64]
  }

  /** Whole bytes out of groups of six bits; spare bits, and a lone last group, are dropped. */
  function Unpack(v: seq<nat>): (b: Bytes)
    requires AreSextets(v)
    ensures AreBytes(b)
  {
    if |v| <= 1 then []
    else if |v| == 2 then [v[0] * 4 + v[1] / 16]
    else if |v| == 3 then [v[0] * 4 + v[1] / 16, v[1] % 16 * 16 + v[2] / 4]
    else Triple(v[0], v[1], v[2], v[3]) + Unpack(v[4..])
  }

  function Triple(p: nat, q: nat, r: nat, t: nat): (b: Bytes)
    requires p < 64 && q < 64 && r < 64 && t < 64
    ensures AreBytes(b) && |b| == 3
  {
    [p * 4 + q / 16, q % 16 * 16 + r / 4, r % 4 * 64 + t]
  }

  lemma TripleOfQuad(x: nat, y: nat, z: nat)
    requires x < 256 && y < 256 && z < 256
    ensures var v := Quad(x, y, z); Triple(v[0], v[1], v[2], v[3]) == [x, y, z]
  {
    Digits16(x % 4, y / 16);
    Digits4(y % 16, z / 64);
  }

  lemma Digits16(high: nat, low: nat)
    requires low < 16
    ensures (high * 16 + low) / 16 == high && (high * 16 + low) % 16 == low
  {
  }

  lemma Digits4(high: nat, low: nat)
    requires low < 4
    ensures (high * 4 + low) / 4 == high && (high * 4 + low) % 4 == low
  {
  }

  lemma Digits64(high: nat, low: nat)
    requires low < 64
    ensures (high * 64 + low) / 64 == high && (high * 64 + low) % 64 == low
  {
  }

  lemma {:induction false} UnpackOfPack(b: Bytes)
    requires AreBytes(b)
    ensures Unpack(Pack(b)) == b
  {
    if |b| >= 3 {
      UnpackOfPack(b[3..]);
      var quad := Quad(b[0], b[1], b[2]);
      TripleOfQuad(b[0], b[1], b[2]);
      assert Pack(b)[4..] == Pack(b[3..]);
      assert b == [b[0], b[1], b[2]] + b[3..];
    } else if |b| == 2 {
      assert b == [b[0], b[1]];
      UnpackOfTwo(b[0], b[1]);
    } else if |b| == 1 {
      assert b == [b[0]];
      UnpackOfOne(b[0]);
    }
  }

  lemma UnpackOfOne(x: nat)
    requires x < 256
    ensures Unpack(Pack([x])) == [x]
  {
    assert Pack([x]) == [x / 4, x % 4 * 16];
  }

  lemma UnpackOfTwo(x: nat, y: nat)
    requires x < 256 && y < 256
    ensures Unpack(Pack([x, y])) == [x, y]
  {
    Digits16(x % 4, y / 16);
    assert Pack([x, y]) == [x / 4, x % 4 * 16 + y / 16, y % 16 * 4];
  }

  /** Groups of six bits without spare bits and without a lone last group. */
  function Rounded(v: seq<nat>): (w: seq<nat>)
    requires AreSextets(v)
    ensures AreSextets(w)
  {
    if |v| <= 1 then []
    else if |v| == 2 then [v[0], v[1] / 16 * 16]
    else if |v| == 3 then [v[0], v[1], v[2] / 4 * 4]
    else [v[0], v[1], v[2], v[3]] + Rounded(v[4..])
  }

  lemma {:induction false} PackOfUnpack(v: seq<nat>)
    requires AreSextets(v)
    ensures Pack(Unpack(v)) == Rounded(v)
  {
    if |v| >= 4 {
      PackOfUnpack(v[4..]);
      QuadOfTriple(v[0], v[1], v[2], v[3]);
      assert Unpack(v)[3..] == Unpack(v[4..]);
    } else if |v| == 3 {
      PackOfThree(v[0], v[1], v[2]);
      assert v == [v[0], v[1], v[2]];
    } else if |v| == 2 {
      PackOfTwo(v[0], v[1]);
      assert v == [v[0], v[1]];
    }
  }

  lemma QuadOfTriple(p: nat, q: nat, r: nat, t: nat)
    requires p < 64 && q < 64 && r < 64 && t < 64
    ensures var b := Triple(p, q, r, t); Quad(b[0], b[1], b[2]) == [p, q, r, t]
  {
    QuadOfDigits(p, q / 16, q % 16, r / 4, r % 4, t);
  }

  lemma QuadOfDigits(p: nat, a: nat, b: nat, c: nat, d: nat, t: nat)
    requires p < 64 && a < 4 && b < 16 && c < 16 && d < 4 && t < 64
    ensures Quad(p * 4 + a, b * 16 + c, d * 64 + t) == [p, a * 16 + b, c * 4 + d, t]
  {
    Digits4(p, a);
    Digits16(b, c);
    Digits64(d, t);
  }

  lemma PackOfTwo(p: nat, q: nat)
    requires p < 64 && q < 64
    ensures Pack(Unpack([p, q])) == [p, q / 16 * 16]
  {
    var x := p * 4 + q / 16;
    Digits4(p, q / 16);
    assert Unpack([p, q]) == [x];
    assert Pack([x]) == [x / 4, x % 4 * 16];
  }

  lemma PackOfThree(p: nat, q: nat, r: nat)
    requires p < 64 && q < 64 && r < 64
    ensures Pack(Unpack([p, q, r])) == [p, q, r / 4 * 4]
  {
    var x, y := p * 4 + q / 16, q % 16 * 16 + r / 4;
    Digits4(p, q / 16);
    assert Unpack([p, q, r]) == [x, y];
    assert Pack([x, y]) == [x / 4, x % 4 * 16 + y / 16, y % 16 * 4];
  }

  /** Base64url without padding (section 5 of RFC 4648). */
  function Encode(b: Bytes): string
    requires AreBytes(b)
  {
    Letters(Pack(b))
  }

  function Decode(s: string): (b: Bytes)
    requires InAlphabet(s)
    ensures AreBytes(b)
  {
    Unpack(SextetsOf(s))
  }

  /** A text in the URL-safe alphabet, without spare bits and without a lone last character. */
  function Canonical(s: string): string
    requires InAlphabet(s)
  {
    Letters(Rounded(SextetsOf(s)))
  }

  lemma DecodeEncode(b: Bytes)
    requires AreBytes(b)
    ensures InAlphabet(Encode(b)) && Decode(Encode(b)) == b
  {
    LettersReadBack(Pack(b));
    UnpackOfPack(b);
  }

  lemma EncodeDecode(s: string)
    requires InAlphabet(s)
    ensures Encode(Decode(s)) == Canonical(s)
  {
    PackOfUnpack(SextetsOf(s));
  }

  // ------------------------------------------------------------------------------ access ids

  /** The sixteen bytes of a UUID. */
  function BytesOf(uuid: string): (b: Bytes)
    requires IsUuid(uuid)
    ensures |b| == 16 && AreBytes(b)
  {
    UuidDigits(uuid);
    HexReadsBack(RemoveDashes(uuid), 16);
    HexBytes(RemoveDashes(uuid), 16)
  }

  function AccessIdOf(uuid: string): string
    requires IsUuid(uuid)
  {
    Encode(BytesOf(uuid))
  }

  /** Fills the sixteen bytes from the digits, pair by pair. */
  method SendAccessId(sendUuid: string) returns (accessId: string)
    requires IsUuid(sendUuid)
    ensures accessId == AccessIdOf(sendUuid)
  {
    var hex := RemoveDashes(sendUuid);
    UuidDigits(sendUuid);
    var bytes := new nat[16];
    for i := 0 to 16
      invariant forall j | 0 <= j < i :: bytes[j] == ByteAt(hex, j)
    {
      bytes[i] := Radix(hex[i * 2..i * 2 + 2], Hex);
    }
    assert bytes[..] == BytesOf(sendUuid);
    accessId := Encode(bytes[..]);
  }

  /**
   * The lookup of an access id. `clean` is what the base64 decoder takes a text for: the characters
   * of its alphabet, up to the first one that ends the text.
   */
  function AccessIdToSendUuid(accessId: string, clean: string -> string): Option<string>
    requires InAlphabet(clean(accessId))
  {
    var bytes := Decode(clean(accessId));
    if |bytes| != 16 then None else Some(Hyphenate(HexText(bytes)))
  }

  lemma PairValue(b: nat)
    requires b < 256
    ensures Radix(HexPair(b), Hex) == b && IsLowerHex(HexPair(b))
  {
    RadixOfPair(HexPair(b));
    DigitOfChar(b / 16);
    DigitOfChar(b % 16);
  }

  lemma {:induction false} DigitsAreHex(b: Bytes)
    requires AreBytes(b)
    ensures IsLowerHex(HexText(b))
  {
    if b != [] {
      DigitsAreHex(b[..|b| - 1]);
      PairValue(b[|b| - 1]);
    }
  }

  lemma {:induction false} DigitPair(b: Bytes, i: nat)
    requires AreBytes(b) && i < |b|
    ensures ByteAt(HexText(b), i) == b[i]
  {
    var n := |b| - 1;
    var before, s := HexText(b[..n]), HexText(b);
    if i < n {
      DigitPair(b[..n], i);
      assert s[2 * i..2 * i + 2] == before[2 * i..2 * i + 2];
    } else {
      PairValue(b[n]);
      assert s[2 * n..2 * n + 2] == HexPair(b[n]);
    }
  }

  lemma DigitsOfBytes(b: Bytes)
    requires AreBytes(b)
    ensures IsLowerHex(HexText(b)) && HexBytes(HexText(b), |b|) == b
  {
    DigitsAreHex(b);
    forall i | 0 <= i < |b|
      ensures ByteAt(HexText(b), i) == b[i]
    {
      DigitPair(b, i);
    }
  }

  /** The UUID text of sixteen bytes is a UUID and has those bytes. */
  lemma UuidOfBytes(b: Bytes)
    requires AreBytes(b) && |b| == 16
    ensures var u := Hyphenate(HexText(b)); IsUuid(u) && BytesOf(u) == b
  {
    var hex := HexText(b);
    DigitsOfBytes(b);
    HyphenatedSlices(hex);
    UuidDigits(Hyphenate(hex));
    SameDigits(RemoveDashes(Hyphenate(hex)), hex);
  }

  lemma HyphenatedSlices(hex: string)
    requires |hex| == 32
    ensures var u := Hyphenate(hex);
            && |u| == 36 && u[8] == '-' && u[13] == '-' && u[18] == '-' && u[23] == '-'
            && u[..8] == hex[..8] && u[9..13] == hex[8..12] && u[14..18] == hex[12..16]
            && u[19..23] == hex[16..20] && u[24..] == hex[20..]
  {
    var a, b, c, d, e := hex[..8], hex[8..12], hex[12..16], hex[16..20], hex[20..];
    var u := Hyphenate(hex);
    assert u == a + "-" + b + "-" + c + "-" + d + "-" + e;
    assert u[..8] == a;
    assert u[9..13] == b;
    assert u[14..18] == c;
    assert u[19..23] == d;
    assert u[24..] == e;
  }

  lemma SameDigits(s: string, t: string)
    requires |s| == 32 && |t| == 32 && Hyphenate(s) == Hyphenate(t)
    ensures s == t
  {
    HyphenatedSlices(s);
    HyphenatedSlices(t);
    assert s == s[..8] + s[8..12] + s[12..16] + s[16..20] + s[20..];
    assert t == t[..8] + t[8..12] + t[12..16] + t[16..20] + t[20..];
  }

  /**
   * Looking an access id up finds a Send exactly when the text, in canonical spelling, is that
   * Send's access id; in particular every Send is found under its own access id.
   */
  lemma LookupIffAccessId(accessId: string, clean: string -> string, uuid: string)
    requires InAlphabet(clean(accessId)) && IsUuid(uuid)
    ensures AccessIdToSendUuid(accessId, clean) == Some(uuid) <==> Canonical(clean(accessId)) == AccessIdOf(uuid)
  {
    var text := clean(accessId);
    var found := Decode(text);
    EncodeDecode(text);
    DecodeEncode(found);
    DecodeEncode(BytesOf(uuid));
    assert Canonical(text) == AccessIdOf(uuid) <==> found == BytesOf(uuid);
    if |found| == 16 {
      UuidOfBytes(found);
    }
    TextOfUuid(uuid);
  }

  lemma TextOfUuid(uuid: string)
    requires IsUuid(uuid)
    ensures Hyphenate(HexText(BytesOf(uuid))) == uuid
  {
    UuidDigits(uuid);
    HexReadsBack(RemoveDashes(uuid), 16);
    assert RemoveDashes(uuid)[..32] == RemoveDashes(uuid);
  }

  lemma {:induction false} CanonicalStays(b: Bytes)
    requires AreBytes(b)
    ensures InAlphabet(Encode(b)) && Canonical(Encode(b)) == Encode(b)
  {
    DecodeEncode(b);
    EncodeDecode(Encode(b));
  }

  /** A Send is found under its own access id. */
  lemma AccessIdReadsBack(uuid: string, clean: string -> string)
    requires IsUuid(uuid) && clean(AccessIdOf(uuid)) == AccessIdOf(uuid)
    ensures InAlphabet(AccessIdOf(uuid)) && AccessIdToSendUuid(AccessIdOf(uuid), clean) == Some(uuid)
  {
    CanonicalStays(BytesOf(uuid));
    LookupIffAccessId(AccessIdOf(uuid), clean, uuid);
  }

  /** So no two Sends share an access id. */
  lemma AccessIdsAreDistinct(a: string, b: string)
    requires IsUuid(a) && IsUuid(b)
    ensures AccessIdOf(a) == AccessIdOf(b) <==> a == b
  {
    AccessIdReadsBack(a, text => text);
    AccessIdReadsBack(b, text => text);
  }

  lemma {:induction false} PackLength(b: Bytes)
    requires AreBytes(b)
    ensures |Pack(b)| == (|b| * 4 + 2) / 3
    decreases |b|
  {
    if |b| >= 3 { PackLength(b[3..]); }
  }

  /** An access id is twenty-two characters of the URL-safe alphabet. */
  lemma AccessIdIsUrlSafe(uuid: string)
    requires IsUuid(uuid)
    ensures |AccessIdOf(uuid)| == 22 && forall i | 0 <= i < 22 :: IsUrlSafe(AccessIdOf(uuid)[i])
  {
    PackLength(BytesOf(uuid));
    assert forall v: nat | v < 64 :: IsUrlSafe(SextetChar(v));
  }
}
