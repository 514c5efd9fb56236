/** Registry keys of tenant instances: four identifiers joined so that the joined
    text can be taken apart in one way only. */
module InstanceIdentity {
  import Text

  newtype CodeUnit = u: int | 0 <= u < 0x1_0000  // of a UTF-16 string

  type JsString = seq<CodeUnit>

  datatype Identity = Identity(environment: JsString, tenantId: JsString, databaseId: JsString, generation: JsString)

  const COLON: CodeUnit := 58

  predicate HighSurrogate(u: CodeUnit) { 0xD800 <= u <= 0xDBFF }

  predicate LowSurrogate(u: CodeUnit) { 0xDC00 <= u <= 0xDFFF }

  /** Bytes of the UTF-8 encoding; a lone surrogate is encoded as U+FFFD. */
  function Utf8Length(s: JsString): nat {
    if s == [] then 0
    else if s[0] < 0x80 then 1 + Utf8Length(s[1..])
    else if s[0] < 0x800 then 2 + Utf8Length(s[1..])
    else if HighSurrogate(s[0]) && |s| > 1 && LowSurrogate(s[1]) then 4 + Utf8Length(s[2..])
    else 3 + Utf8Length(s[1..])
  }

  // That length is the number of bytes

  const REPLACEMENT: int := 0xFFFD

  /** The code points of a UTF-16 string. */
  function CodePoints(s: JsString): seq<int> {
    if s == [] then []
    else if HighSurrogate(s[0]) && |s| > 1 && LowSurrogate(s[1]) then
      [0x1_0000 + (s[0] as int - 0xD800) * 0x400 + (s[1] as int - 0xDC00)] + CodePoints(s[2..])
    else if HighSurrogate(s[0]) || LowSurrogate(s[0]) then [REPLACEMENT] + CodePoints(s[1..])
    else [s[0] as int] + CodePoints(s[1..])
  }

  predicate LoneAt(s: JsString, i: nat)
    requires i < |s|
  {
    (HighSurrogate(s[i]) && !(i + 1 < |s| && LowSurrogate(s[i + 1])))
    || (LowSurrogate(s[i]) && !(i > 0 && HighSurrogate(s[i - 1])))
  }

  /** The UTF-16 code units of a code point. */
  function Units(point: int): seq<int> {
    if point < 0x1_0000 then [point]
    else [0xD800 + (point - 0x1_0000) / 0x400, 0xDC00 + (point - 0x1_0000) % 0x400]
  }

  function AllUnits(points: seq<int>): seq<int> {
    if points == [] then [] else Units(points[0]) + AllUnits(points[1..])
  }

  function Numbers(s: JsString): (r: seq<int>)
    ensures |r| == |s| && forall i :: 0 <= i < |s| ==> r[i] == s[i] as int
  {
    seq(|s|, i requires 0 <= i < |s| => s[i] as int)
  }

  /** No code point is a surrogate. */
  lemma {:induction false} PointsAreScalars(s: JsString, i: nat)
    requires i < |CodePoints(s)|
    ensures 0 <= CodePoints(s)[i] < 0xD800 || 0xE000 <= CodePoints(s)[i] < 0x11_0000
  {
    if i > 0 {
      if HighSurrogate(s[0]) && |s| > 1 && LowSurrogate(s[1]) {
        PointsAreScalars(s[2..], i - 1);
      } else {
        PointsAreScalars(s[1..], i - 1);
      }
    }
  }

  /** A string without lone surrogates is given back by its code points. */
  lemma {:induction false} PointsGiveUnits(s: JsString)
    requires forall i :: 0 <= i < |s| ==> !LoneAt(s, i)
    ensures AllUnits(CodePoints(s)) == Numbers(s)
  {
    if s != [] {
      var points := CodePoints(s);
      assert !LoneAt(s, 0);
      if HighSurrogate(s[0]) {
        var rest := s[2..];
        forall i | 0 <= i < |rest| ensures !LoneAt(rest, i) {
          assert !LoneAt(s, i + 2);
        }
        PointsGiveUnits(rest);
        assert points[1..] == CodePoints(rest);
        assert Units(points[0]) == [s[0] as int, s[1] as int];
      } else {
        var rest := s[1..];
        forall i | 0 <= i < |rest| ensures !LoneAt(rest, i) {
          assert !LoneAt(s, i + 1);
        }
        PointsGiveUnits(rest);
        assert points[1..] == CodePoints(rest);
      }
    }
  }

  function PointBytes(point: int): seq<int> {
    if point < 0x80 then [point]
    else if point < 0x800 then [0xC0 + point / 64, 0x80 + point % 64]
    else if point < 0x1_0000 then [0xE0 + point / 4096, 0x80 + point / 64 % 64, 0x80 + point % 64]
    else [0xF0 + point / 0x4_0000, 0x80 + point / 4096 % 64, 0x80 + point / 64 % 64, 0x80 + point % 64]
  }

  function Utf8Bytes(points: seq<int>): seq<int> {
    if points == [] then [] else PointBytes(points[0]) + Utf8Bytes(points[1..])
  }

  /** The bytes of a code point give it back. */
  lemma PointFromBytes(point: int)
    requires 0 <= point < 0x11_0000
    ensures var b := PointBytes(point);
      point == if |b| == 1 then b[0]
               else if |b| == 2 then (b[0] - 0xC0) * 64 + (b[1] - 0x80)
               else if |b| == 3 then ((b[0] - 0xE0) * 64 + (b[1] - 0x80)) * 64 + (b[2] - 0x80)
               else (((b[0] - 0xF0) * 64 + (b[1] - 0x80)) * 64 + (b[2] - 0x80)) * 64 + (b[3] - 0x80)
  {
    assert point / 4096 == point / 64 / 64 && point / 0x4_0000 == point / 4096 / 64;
  }

  lemma {:induction false} LengthIsBytes(s: JsString)
    ensures Utf8Length(s) == |Utf8Bytes(CodePoints(s))|
  {
    if s != [] {
      var points := CodePoints(s);
      if HighSurrogate(s[0]) && |s| > 1 && LowSurrogate(s[1]) {
        LengthIsBytes(s[2..]);
        assert points[1..] == CodePoints(s[2..]);
      } else {
        LengthIsBytes(s[1..]);
        assert points[1..] == CodePoints(s[1..]);
      }
    }
  }

  predicate IsAscii(text: string) {
    forall i :: 0 <= i < |text| ==> text[i] as int < 128
  }

  function Ascii(text: string): (s: JsString)
    requires IsAscii(text)
    ensures |s| == |text| && forall i :: 0 <= i < |text| ==> s[i] as int == text[i] as int
  {
    seq(|text|, i requires 0 <= i < |text| => text[i] as int as CodeUnit)
  }

  lemma DecimalIsAscii(n: nat)
    ensures IsAscii(Text.Decimal(n)) && forall i :: 0 <= i < |Text.Decimal(n)| ==> Text.Decimal(n)[i] != ':'
  {
    Text.DecimalHasOnlyDigits(n);
  }

  function EncodePart(value: JsString): JsString {
    DecimalIsAscii(Utf8Length(value));
    Ascii(Text.Decimal(Utf8Length(value))) + [COLON] + value
  }

  function CanonicalInstanceIdentity(identity: Identity): JsString {
    Ascii("triplex-instance-v1:") + EncodeParts(identity)
  }

  function EncodeParts(identity: Identity): JsString {
    EncodePart(identity.environment)
    + (EncodePart(identity.tenantId) + (EncodePart(identity.databaseId) + EncodePart(identity.generation)))
  }

  /** A string is strictly longer, in UTF-8, than each of its proper prefixes, even
      one that cuts a surrogate pair in two. */
  lemma {:induction false} Utf8Grows(s: JsString, rest: JsString)
    requires rest != []
    ensures Utf8Length(s + rest) > Utf8Length(s)
  {
    var whole := s + rest;
    if s == [] {
      assert whole == rest;
    } else {
      assert whole[0] == s[0] && whole[1..] == s[1..] + rest;
      Utf8Grows(s[1..], rest);
      if |s| > 1 {
        assert whole[2..] == s[2..] + rest;
        Utf8Grows(s[2..], rest);
      }
    }
  }

  lemma SameLengthPrefixes(x: JsString, y: JsString, r: JsString, s: JsString)
    requires x + r == y + s && Utf8Length(x) == Utf8Length(y) && |x| <= |y|
    ensures x == y && r == s
  {
    assert y == (x + r)[..|y|] == x + r[..|y| - |x|];
    if |x| < |y| {
      Utf8Grows(x, r[..|y| - |x|]);
    } else {
      assert r == (x + r)[|x|..] && s == (y + s)[|y|..];
    }
  }

  lemma AsciiInjective(a: string, b: string)
    requires IsAscii(a) && IsAscii(b) && Ascii(a) == Ascii(b)
    ensures a == b
  {
    forall i | 0 <= i < |a| ensures a[i] == b[i] {
      assert Ascii(a)[i] == Ascii(b)[i];
    }
  }

  /** The length field ends at the first colon. */
  lemma LengthFieldEnds(x: JsString, whole: JsString)
    requires EncodePart(x) <= whole
    ensures var n := |Text.Decimal(Utf8Length(x))|;
      n < |whole| && whole[n] == COLON && forall j :: 0 <= j < n ==> whole[j] != COLON
  {
    var digits := Text.Decimal(Utf8Length(x));
    DecimalIsAscii(Utf8Length(x));
    forall j | 0 <= j < |digits| ensures whole[j] != COLON {
      assert whole[j] == EncodePart(x)[j] == Ascii(digits)[j];
    }
    assert whole[|digits|] == EncodePart(x)[|digits|];
  }

  lemma SameLengthField(x: JsString, y: JsString, whole: JsString)
    requires EncodePart(x) <= whole && EncodePart(y) <= whole
    ensures Utf8Length(x) == Utf8Length(y)
  {
    var dx, dy := Text.Decimal(Utf8Length(x)), Text.Decimal(Utf8Length(y));
    DecimalIsAscii(Utf8Length(x));
    DecimalIsAscii(Utf8Length(y));
    LengthFieldEnds(x, whole);
    LengthFieldEnds(y, whole);
    assert Ascii(dx) == whole[..|dx|] == Ascii(dy);
    AsciiInjective(dx, dy);
    Text.DecimalInjective(Utf8Length(x), Utf8Length(y));
  }

  /** An encoded part at the front of a text can be read off it in one way only. */
  lemma PartParsesOneWay(x: JsString, y: JsString, r: JsString, s: JsString)
    requires EncodePart(x) + r == EncodePart(y) + s
    ensures x == y && r == s
  {
    var whole := EncodePart(x) + r;
    SameLengthField(x, y, whole);
    var n := |EncodePart(x)| - |x|;
    assert x + r == whole[n..] == y + s;
    if |x| <= |y| { SameLengthPrefixes(x, y, r, s); } else { SameLengthPrefixes(y, x, s, r); }
  }

  lemma PartsInjective(a: Identity, b: Identity)
    requires EncodeParts(a) == EncodeParts(b)
    ensures a == b
  {
    var a4, b4 := EncodePart(a.generation), EncodePart(b.generation);
    var a3, b3 := EncodePart(a.databaseId) + a4, EncodePart(b.databaseId) + b4;
    PartParsesOneWay(a.environment, b.environment, EncodePart(a.tenantId) + a3, EncodePart(b.tenantId) + b3);
    PartParsesOneWay(a.tenantId, b.tenantId, a3, b3);
    PartParsesOneWay(a.databaseId, b.databaseId, a4, b4);
    assert a4 + [] == a4 && b4 + [] == b4;
    PartParsesOneWay(a.generation, b.generation, [], []);
  }

  lemma SamePrefix(prefix: JsString, a: JsString, b: JsString)
    requires prefix + a == prefix + b
    ensures a == b
  {
    assert a == (prefix + a)[|prefix|..] && b == (prefix + b)[|prefix|..];
  }

  /** Distinct identities never share a registry key. */
  lemma CanonicalInjective(a: Identity, b: Identity)
    requires CanonicalInstanceIdentity(a) == CanonicalInstanceIdentity(b)
    ensures a == b
  {
    SamePrefix(Ascii("triplex-instance-v1:"), EncodeParts(a), EncodeParts(b));
    PartsInjective(a, b);
  }

  predicate SameInstanceIdentity(left: Identity, right: Identity) {
    CanonicalInstanceIdentity(left) == CanonicalInstanceIdentity(right)
  }

  lemma SameKeyIffSameIdentity(left: Identity, right: Identity)
    ensures SameInstanceIdentity(left, right) <==> left == right
  {
    if SameInstanceIdentity(left, right) { CanonicalInjective(left, right); }
  }

  /** The provider's name of an instance; the constructor stands for the hash of the
      canonical text. */
  datatype InstanceKey = InstanceKey(canonical: JsString)

  function ProviderInstanceKey(identity: Identity): InstanceKey {
    InstanceKey(CanonicalInstanceIdentity(identity))
  }

  lemma ProviderKeyInjective(a: Identity, b: Identity)
    requires ProviderInstanceKey(a) == ProviderInstanceKey(b)
    ensures a == b
  {
    CanonicalInjective(a, b);
  }
}
