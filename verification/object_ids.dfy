/**
 * Mongo object ids: twelve bytes, printed as 24 lower-case hexadecimal digits.
 * This is a stand-in for the bson library's `ObjectId.isValid`, `new ObjectId(string)`
 * and `toString()`, with the behaviour of bson 4.x: a string is accepted when it is
 * 24 hexadecimal digits of either case, or 12 single-byte characters taken as raw bytes.
 */
module ObjectIds {
  import opened Wrappers

  type Byte = x: int | 0 <= x < 256

  type Bytes12 = b: seq<Byte> | |b| == 12 witness [0, 0, 0, 0, 0, 0, 0, 0, 0, 0, 0, 0]

  datatype ObjectId = ObjectId(bytes: Bytes12)

  predicate IsHexChar(c: char) {
    '0' <= c <= '9' || 'a' <= c <= 'f' || 'A' <= c <= 'F'
  }

  /** The digits `toString` prints. */
  predicate IsLowerHexChar(c: char) {
    '0' <= c <= '9' || 'a' <= c <= 'f'
  }

  function HexValue(c: char): (v: nat)
    requires IsHexChar(c)
    ensures v < 16
  {
    if '0' <= c <= '9' then c as int - '0' as int
    else if 'a' <= c <= 'f' then c as int - 'a' as int + 10
    else c as int - 'A' as int + 10
  }

  function HexChar(v: nat): (c: char)
    requires v < 16
    ensures IsLowerHexChar(c)
    ensures HexValue(c) == v
  {
    if v < 10 then ('0' as int + v) as char else ('a' as int + v - 10) as char
  }

  /** A lower-case digit is the one `HexChar` prints for its value. */
  lemma HexCharOfValue(c: char)
    requires IsLowerHexChar(c)
    ensures HexChar(HexValue(c)) == c
  {
  }

  predicate IsHexString(s: string) {
    forall i :: 0 <= i < |s| ==> IsHexChar(s[i])
  }

  /** Twelve characters below U+0080: the legacy byte-string form. */
  predicate IsByteString(s: string) {
    |s| == 12 && forall i :: 0 <= i < |s| ==> s[i] as int < 128
  }

  /** `ObjectId.isValid(s)` for a string `s`. */
  predicate IsValid(s: string) {
    IsByteString(s) || (|s| == 24 && IsHexString(s))
  }

  /** The form `toString` prints: exactly 24 lower-case hexadecimal digits. */
  predicate IsCanonical(s: string) {
    |s| == 24 && forall i :: 0 <= i < |s| ==> IsLowerHexChar(s[i])
  }

  /** `new ObjectId(s)` for a valid string `s`. */
  function Parse(s: string): ObjectId
    requires IsValid(s)
  {
    if |s| == 12 then
      ObjectId(seq(12, i requires 0 <= i < 12 => s[i] as int))
    else
      ObjectId(seq(12, i requires 0 <= i < 12 => 16 * HexValue(s[2 * i]) + HexValue(s[2 * i + 1])))
  }

  /** Mongoose's cast of a string to an object id: fails exactly where `isValid` does. */
  function FromString(s: string): (r: Option<ObjectId>)
    ensures r.Some? <==> IsValid(s)
  {
    if IsValid(s) then Some(Parse(s)) else None
  }

  /** `id.toString()`: two lower-case digits per byte, high nibble first. */
  function ToString(id: ObjectId): (s: string)
    ensures IsCanonical(s)
  {
    seq(24, i requires 0 <= i < 24 =>
      if i % 2 == 0 then HexChar(id.bytes[i / 2] / 16) else HexChar(id.bytes[i / 2] % 16))
  }

  /** Printing an id and parsing the text gives the id back. */
  lemma ParseToString(id: ObjectId)
    ensures IsValid(ToString(id))
    ensures Parse(ToString(id)) == id
  {
    var s := ToString(id);
    assert IsHexString(s);
    var p := Parse(s);
    forall i | 0 <= i < 12 ensures p.bytes[i] == id.bytes[i] {
      assert s[2 * i] == HexChar(id.bytes[i] / 16);
      assert s[2 * i + 1] == HexChar(id.bytes[i] % 16);
    }
    assert p.bytes == id.bytes;
  }

  /** A canonical string is what its parsed id prints. */
  lemma ToStringParse(s: string)
    requires IsCanonical(s)
    ensures IsValid(s)
    ensures ToString(Parse(s)) == s
  {
    assert IsHexString(s);
    var id := Parse(s);
    var t := ToString(id);
    forall i | 0 <= i < 24 ensures t[i] == s[i] {
      var k := i / 2;
      var hi := HexValue(s[2 * k]);
      var lo := HexValue(s[2 * k + 1]);
      assert id.bytes[k] == 16 * hi + lo;
      assert id.bytes[k] / 16 == hi;
      assert id.bytes[k] % 16 == lo;
      HexCharOfValue(s[2 * k]);
      HexCharOfValue(s[2 * k + 1]);
    }
  }

  /** A valid string prints back identically exactly when it is canonical. */
  lemma RoundTripIffCanonical(s: string)
    requires IsValid(s)
    ensures ToString(Parse(s)) == s <==> IsCanonical(s)
  {
    if IsCanonical(s) {
      ToStringParse(s);
    }
  }

  /** Distinct ids print differently, so the printed form identifies the id. */
  lemma ToStringInjective(a: ObjectId, b: ObjectId)
    requires ToString(a) == ToString(b)
    ensures a == b
  {
    ParseToString(a);
    ParseToString(b);
  }
}
