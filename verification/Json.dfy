/**
 The two JSON facts the tape's byte layout rests on: how a string is spelled, and how a
 number is (encoding/json, section 7 of RFC 8259), plus the splice that turns a signed
 body into a record line (internal/audit/audit.go).
 */
module Json {
  import opened Bytes

  // ------------------------------------------------------------------ decimal numbers

  const TEN20: nat := 100_000_000_000_000_000_000

  /** The decimal spelling of n. */
  function Decimal(n: nat): (d: Bytes)
    ensures |d| > 0 && forall i | 0 <= i < |d| :: 48 <= d[i] <= 57
  {
    if n < 10 then [48 + n as byte] else Decimal(n / 10) + [48 + (n % 10) as byte]
  }

  /** The number a run of digits spells, read from the left. */
  function ReadDecimal(d: Bytes): (n: nat)
    requires forall i | 0 <= i < |d| :: 48 <= d[i] <= 57
  {
    if d == [] then 0 else 10 * ReadDecimal(d[..|d| - 1]) + (d[|d| - 1] - 48) as nat
  }

  /** The spelling of a number reads back as that number, and starts with 0 only for 0. */
  lemma {:induction false} DecimalReads(n: nat)
    ensures ReadDecimal(Decimal(n)) == n && (Decimal(n)[0] == 48 <==> n == 0)
  {
    if n >= 10 {
      DecimalReads(n / 10);
      assert Decimal(n)[..|Decimal(n)| - 1] == Decimal(n / 10);
    }
  }

  /** A smaller number never takes more digits. */
  lemma {:induction false} DecimalMonotone(m: nat, n: nat)
    requires m <= n
    ensures |Decimal(m)| <= |Decimal(n)|
    decreases n
  {
    if m >= 10 { DecimalMonotone(m / 10, n / 10); }
  }

  /** Counting down by one loses at most one digit. */
  lemma {:induction false} DecimalStep(n: nat)
    requires n > 0
    ensures |Decimal(n - 1)| <= |Decimal(n)| <= |Decimal(n - 1)| + 1
    decreases n
  {
    DecimalMonotone(n - 1, n);
    if n >= 10 && n % 10 == 0 {
      assert n / 10 - 1 == (n - 1) / 10;
      DecimalStep(n / 10);
    }
  }

  function Pow10(k: nat): (p: nat)
    ensures p > 0
  {
    if k == 0 then 1 else 10 * Pow10(k - 1)
  }

  lemma {:induction false} DecimalLength(n: nat, k: nat)
    requires k > 0 && n < Pow10(k)
    ensures |Decimal(n)| <= k
    decreases k
  {
    if n >= 10 {
      assert Pow10(k) == 10 * Pow10(k - 1);
      assert k == 1 ==> Pow10(k) == 10;
      DecimalLength(n / 10, k - 1);
    }
  }

  lemma DecimalUint64(n: nat)
    requires n < TEN20
    ensures |Decimal(n)| <= 20
  {
    assert Pow10(5) == 100_000;
    assert Pow10(10) == 10_000_000_000;
    assert Pow10(15) == 1_000_000_000_000_000;
    assert Pow10(20) == TEN20;
    DecimalLength(n, 20);
  }

  // ------------------------------------------------------------------ strings

  /** A byte encoding/json copies unchanged: printable ASCII minus the five it escapes. */
  predicate PlainByte(c: byte) {
    0x20 <= c <= 0x7e && c != 34 && c != 92 && c != 60 && c != 62 && c != 38
  }

  /** isPlainJSONString, and plainASCIIJSON: the same set of strings. */
  predicate Plain(s: Bytes) {
    forall i | 0 <= i < |s| :: PlainByte(s[i])
  }

  /** What json.Marshal of one string guarantees: no raw newline, one to six bytes a byte. */
  ghost predicate Spells(enc: Bytes -> Bytes, s: Bytes) {
    && |s| + 2 <= |enc(s)| <= 6 * |s| + 2
    && NoNewline(enc(s))
    && (Plain(s) ==> enc(s) == [34] + s + [34])
  }

  ghost predicate IsEncoder(enc: Bytes -> Bytes) {
    forall s :: Spells(enc, s)
  }

  /** appendJSONString: the plain spelling written directly, everything else marshaled. */
  function AppendJSONString(enc: Bytes -> Bytes, dst: Bytes, s: Bytes): (r: Bytes) {
    if Plain(s) then dst + [34] + s + [34] else dst + enc(s)
  }

  /** The direct path and the marshaler agree, whichever is taken. */
  lemma AppendJSONStringExact(enc: Bytes -> Bytes, dst: Bytes, s: Bytes)
    requires IsEncoder(enc)
    ensures AppendJSONString(enc, dst, s) == dst + enc(s)
  {
    assert Spells(enc, s);
    assert Plain(s) ==> dst + [34] + s + [34] == dst + ([34] + s + [34]);
  }

  lemma AppendSplits(enc: Bytes -> Bytes, dst: Bytes, s: Bytes)
    ensures AppendJSONString(enc, dst, s) == dst + AppendJSONString(enc, [], s)
  {
    assert [] + [34] + s + [34] == [34] + s + [34] && [] + enc(s) == enc(s);
    assert dst + [34] + s + [34] == dst + ([34] + s + [34]);
  }

  /** jsonEncodedStringLen: the length of the spelling, without building a plain one. */
  function EncodedLen(enc: Bytes -> Bytes, s: Bytes): (n: nat) {
    if Plain(s) then |s| + 2 else |enc(s)|
  }

  lemma EncodedLenExact(enc: Bytes -> Bytes, s: Bytes)
    requires IsEncoder(enc)
    ensures EncodedLen(enc, s) == |enc(s)| && |s| + 2 <= EncodedLen(enc, s) <= 6 * |s| + 2
  {
    assert Spells(enc, s);
  }

  // ------------------------------------------------------------------ the signed line

  datatype Result<+T> = Ok(value: T) | NotAnObject

  /** The bytes of `,"_hmac":`. */
  const MAC_FIELD: Bytes := [44, 34, 95, 104, 109, 97, 99, 34, 58]

  /** signedRecordLine: the body with the MAC spliced in before its closing brace. */
  function SignedRecordLine(enc: Bytes -> Bytes, body: Bytes, mac: Bytes): (r: Result<Bytes>) {
    if |body| == 0 || body[|body| - 1] != 125 then NotAnObject
    else Ok(AppendJSONString(enc, body[..|body| - 1] + MAC_FIELD, mac) + [125])
  }

  /** isCanonicalSignedLine: the same comparison made in place, without building the line. */
  function IsCanonicalSignedLine(enc: Bytes -> Bytes, line: Bytes, body: Bytes, mac: Bytes): (r: Result<bool>) {
    if |body| == 0 || body[|body| - 1] != 125 then NotAnObject
    else
      var prefix := body[..|body| - 1];
      if !(prefix <= line) then Ok(false)
      else
        var tail := line[|prefix|..];
        if |tail| < |MAC_FIELD| + 1 || tail[..|MAC_FIELD|] != MAC_FIELD || tail[|tail| - 1] != 125 then Ok(false)
        else Ok(tail[|MAC_FIELD|..|tail| - 1] == AppendJSONString(enc, [], mac))
  }

  /** Comparing from both ends decides equality with a three-part string. */
  lemma FramedExact(tail: Bytes, field: Bytes, e: Bytes)
    ensures tail == field + e + [125] <==>
            && |tail| >= |field| + 1 && tail[..|field|] == field && tail[|tail| - 1] == 125
            && tail[|field|..|tail| - 1] == e
  {
    if |tail| >= |field| + 1 && tail[..|field|] == field && tail[|tail| - 1] == 125 {
      assert tail == field + tail[|field|..|tail| - 1] + [125];
    }
  }

  /** The verifier's check accepts exactly the line the writer builds, for every line, body and MAC. */
  lemma CanonicalExact(enc: Bytes -> Bytes, line: Bytes, body: Bytes, mac: Bytes)
    ensures IsCanonicalSignedLine(enc, line, body, mac).NotAnObject? <==> SignedRecordLine(enc, body, mac).NotAnObject?
    ensures SignedRecordLine(enc, body, mac).Ok? ==>
              IsCanonicalSignedLine(enc, line, body, mac) == Ok(line == SignedRecordLine(enc, body, mac).value)
  {
    if |body| > 0 && body[|body| - 1] == 125 {
      hide AppendJSONString;
      var prefix := body[..|body| - 1];
      AppendSplits(enc, prefix + MAC_FIELD, mac);
      var e := AppendJSONString(enc, [], mac);
      assert prefix + MAC_FIELD + e + [125] == prefix + (MAC_FIELD + e + [125]);
      if prefix <= line {
        var tail := line[|prefix|..];
        assert line == prefix + tail;
        FramedExact(tail, MAC_FIELD, e);
      }
    }
  }

  lemma SignedRecordLineShape(enc: Bytes -> Bytes, body: Bytes, mac: Bytes)
    requires IsEncoder(enc) && |body| >= 2 && body[0] == 123 && body[|body| - 1] == 125 && NoNewline(body)
    ensures var r := SignedRecordLine(enc, body, mac);
            && r.Ok? && |r.value| == |body| + |MAC_FIELD| + |enc(mac)|
            && r.value[0] == 123 && r.value[|r.value| - 1] == 125 && NoNewline(r.value)
  {
    var head := body[..|body| - 1] + MAC_FIELD;
    AppendJSONStringExact(enc, head, mac);
    assert Spells(enc, mac);
    var line := head + enc(mac) + [125];
    assert NoNewline(head);
    assert NoNewline(line);
  }
}
