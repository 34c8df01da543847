/**
 * The serverless endpoint `netlify/functions/schedule-reminders.js`: it
 * checks the request, then hands each of at most 80 reminders to OneSignal
 * and reports how many were scheduled, failed or left over. The idempotency
 * key of every notification is made a UUID (RFC 4122 layout) by `toUuid`,
 * and the REST key becomes an `Authorization` header by `toAuthHeader`.
 * The HTTP call and the date parser are parameters.
 */
module Reminders {
  import opened Wrappers
  import opened Text

  // ---------------------------------------------------------------------------
  // toUuid

  /** The UUID text form of section 3 of RFC 4122, as the source's regular expression accepts it (any letter case, versions 1-5, variant 8/9/a/b). */
  predicate IsUuidText(s: string) {
    && |s| == 36
    && (forall i :: 0 <= i < 36 ==> if i == 8 || i == 13 || i == 18 || i == 23 then s[i] == '-' else IsHexDigit(s[i]))
    && '1' <= s[14] <= '5'
    && (s[19] == '8' || s[19] == '9' || s[19] == 'a' || s[19] == 'b' || s[19] == 'A' || s[19] == 'B')
  }

  /** The UTF-16 code units of one character, as `charCodeAt` sees them. */
  function CodeUnits(c: char): (us: seq<bv32>)
    ensures 1 <= |us| <= 2
  {
    var n := c as int;
    if n < 0x10000 then [n as bv32]
    else [(0xD800 + (n - 0x10000) / 0x400) as bv32, (0xDC00 + (n - 0x10000) % 0x400) as bv32]
  }

  /** A string as the sequence of UTF-16 code units JavaScript indexes. */
  function Utf16(s: string): (us: seq<bv32>)
    ensures |us| >= |s|
  {
    if s == [] then [] else Utf16(s[..|s| - 1]) + CodeUnits(s[|s| - 1])
  }

  const FnvOffsetBasis: bv32 := 2166136261
  const FnvPrime: bv32 := 16777619

  /** One round of 32-bit FNV-1a: `hash ^= unit; hash = Math.imul(hash, prime)`; `Math.imul` is the product modulo 2^32. */
  function FnvStep(hash: bv32, unit: bv32): bv32 {
    (hash ^ unit) * FnvPrime
  }

  /** 32-bit FNV-1a of a run of code units. */
  function Fnv(us: seq<bv32>): bv32 {
    if us == [] then FnvOffsetBasis else FnvStep(Fnv(us[..|us| - 1]), us[|us| - 1])
  }

  /** The FNV-1a test vector: the 32-bit hash of "a" is 0xe40c292c. */
  lemma FnvOfA()
    ensures Fnv(Utf16("a")) == 0xe40c292c
  {
    assert "a"[..0] == [];
    assert Utf16("a") == [0x61];
    assert [0x61 as bv32][..0] == [];
  }

  /** The lower-case hexadecimal digit of a value below 16. */
  function NibbleChar(n: bv32): (c: char)
    requires n < 16
    ensures IsLowerHexDigit(c)
  {
    if n == 0 then '0' else if n == 1 then '1' else if n == 2 then '2' else if n == 3 then '3'
    else if n == 4 then '4' else if n == 5 then '5' else if n == 6 then '6' else if n == 7 then '7'
    else if n == 8 then '8' else if n == 9 then '9' else if n == 10 then 'a' else if n == 11 then 'b'
    else if n == 12 then 'c' else if n == 13 then 'd' else if n == 14 then 'e' else 'f'
  }

  /** The value of a hexadecimal digit, either case. */
  function DigitBits(c: char): (n: bv32)
    requires IsHexDigit(c)
    ensures n < 16
  {
    if c == '0' then 0 else if c == '1' then 1 else if c == '2' then 2 else if c == '3' then 3
    else if c == '4' then 4 else if c == '5' then 5 else if c == '6' then 6 else if c == '7' then 7
    else if c == '8' then 8 else if c == '9' then 9 else if c == 'a' || c == 'A' then 10
    else if c == 'b' || c == 'B' then 11 else if c == 'c' || c == 'C' then 12
    else if c == 'd' || c == 'D' then 13 else if c == 'e' || c == 'E' then 14 else 15
  }

  /** `chunk(value)`: `(value >>> 0).toString(16).padStart(8, "0")`, the eight hexadecimal digits of the value, most significant first. */
  function Chunk(v: bv32): (s: string)
    ensures |s| == 8
  {
    [ NibbleChar(v >> 28), NibbleChar((v >> 24) & 0xf), NibbleChar((v >> 20) & 0xf), NibbleChar((v >> 16) & 0xf),
      NibbleChar((v >> 12) & 0xf), NibbleChar((v >> 8) & 0xf), NibbleChar((v >> 4) & 0xf), NibbleChar(v & 0xf) ]
  }

  /** `parseInt(digits, 16)` for at most eight digits. */
  function ParseHex(s: string): bv32
    requires |s| <= 8 && forall i :: 0 <= i < |s| ==> IsHexDigit(s[i])
  {
    if s == [] then 0 else (ParseHex(s[..|s| - 1]) << 4) | DigitBits(s[|s| - 1])
  }

  /** Reading a digit back gives the value it was written from. */
  lemma DigitBitsOfNibble(n: bv32)
    requires n < 16
    ensures DigitBits(NibbleChar(n)) == n
  {
  }

  /** Appending one digit shifts the value one place and adds the digit. */
  lemma ParseHexStep(s: string, k: nat)
    requires k < |s| <= 8 && forall i :: 0 <= i < |s| ==> IsHexDigit(s[i])
    ensures ParseHex(s[..k + 1]) == (ParseHex(s[..k]) << 4) | DigitBits(s[k])
  {
    assert s[..k + 1][..k] == s[..k];
  }

  /** The value above bit `4 * m`, grown one digit at a time. */
  lemma NibbleJoin(v: bv32)
    ensures ((v >> 28) << 4) | ((v >> 24) & 0xf) == v >> 24
    ensures ((v >> 24) << 4) | ((v >> 20) & 0xf) == v >> 20
    ensures ((v >> 20) << 4) | ((v >> 16) & 0xf) == v >> 16
    ensures ((v >> 16) << 4) | ((v >> 12) & 0xf) == v >> 12
    ensures ((v >> 12) << 4) | ((v >> 8) & 0xf) == v >> 8
    ensures ((v >> 8) << 4) | ((v >> 4) & 0xf) == v >> 4
    ensures ((v >> 4) << 4) | (v & 0xf) == v
  {
  }

  /** The digit of a chunk at position `k`, read back. */
  lemma ChunkDigitBits(v: bv32)
    ensures DigitBits(Chunk(v)[0]) == v >> 28
    ensures DigitBits(Chunk(v)[1]) == (v >> 24) & 0xf
    ensures DigitBits(Chunk(v)[2]) == (v >> 20) & 0xf
    ensures DigitBits(Chunk(v)[3]) == (v >> 16) & 0xf
    ensures DigitBits(Chunk(v)[4]) == (v >> 12) & 0xf
    ensures DigitBits(Chunk(v)[5]) == (v >> 8) & 0xf
    ensures DigitBits(Chunk(v)[6]) == (v >> 4) & 0xf
    ensures DigitBits(Chunk(v)[7]) == v & 0xf
  {
    DigitBitsOfNibble(v >> 28);
    DigitBitsOfNibble((v >> 24) & 0xf);
    DigitBitsOfNibble((v >> 20) & 0xf);
    DigitBitsOfNibble((v >> 16) & 0xf);
    DigitBitsOfNibble((v >> 12) & 0xf);
    DigitBitsOfNibble((v >> 8) & 0xf);
    DigitBitsOfNibble((v >> 4) & 0xf);
    DigitBitsOfNibble(v & 0xf);
  }

  /** Parsing a chunk's eight digits gives back the value: `ParseHex` inverts `Chunk`. */
  lemma ChunkRoundTrip(v: bv32)
    ensures (forall i :: 0 <= i < 8 ==> IsHexDigit(Chunk(v)[i])) && ParseHex(Chunk(v)) == v
  {
    ChunkDigits(v);
    ChunkDigitBits(v);
    NibbleJoin(v);
    var s := Chunk(v);
    assert s[..0] == [];
    ParseHexStep(s, 0);
    ParseHexStep(s, 1);
    ParseHexStep(s, 2);
    ParseHexStep(s, 3);
    ParseHexStep(s, 4);
    ParseHexStep(s, 5);
    ParseHexStep(s, 6);
    ParseHexStep(s, 7);
    assert s[..8] == s;
  }

  /** `(raw & 0x3fff) | 0x8000`: the variant bits 10 over the low 14 bits. */
  function ClockSeq(raw: bv32): bv32 {
    (raw & 0x3fff) | 0x8000
  }

  /** The 32 hexadecimal digits `h1 h2 h3 h4` drawn from the hash. */
  function HashHex(hash: bv32): (hex: string)
    ensures |hex| == 32
  {
    Chunk(hash) + Chunk(hash ^ 0x9e3779b9) + Chunk(hash ^ 0x85ebca6b) + Chunk(hash ^ 0xc2b2ae35)
  }

  /** Every digit of a chunk is a lower-case hexadecimal digit. */
  lemma ChunkDigits(v: bv32)
    ensures forall i :: 0 <= i < 8 ==> IsLowerHexDigit(Chunk(v)[i])
  {
  }

  /** Every digit of the hash's hexadecimal form is a lower-case hexadecimal digit. */
  lemma HashHexDigits(hash: bv32)
    ensures forall i :: 0 <= i < 32 ==> IsLowerHexDigit(HashHex(hash)[i])
  {
    var hex := HashHex(hash);
    ChunkDigits(hash);
    ChunkDigits(hash ^ 0x9e3779b9);
    ChunkDigits(hash ^ 0x85ebca6b);
    ChunkDigits(hash ^ 0xc2b2ae35);
    forall i | 0 <= i < 32
      ensures IsLowerHexDigit(hex[i])
    {
      if i < 8 { assert hex[i] == Chunk(hash)[i]; }
      else if i < 16 { assert hex[i] == Chunk(hash ^ 0x9e3779b9)[i - 8]; }
      else if i < 24 { assert hex[i] == Chunk(hash ^ 0x85ebca6b)[i - 16]; }
      else { assert hex[i] == Chunk(hash ^ 0xc2b2ae35)[i - 24]; }
    }
  }

  /**
   * The 8-4-4-4-12 layout of the hash: version digit 4, and a clock sequence
   * of four digits (`toString(16).padStart(4, "0")`: the last four of the
   * eight, since the value is below 0x10000) with the variant bits set.
   */
  function HashedUuid(hash: bv32): string {
    var hex := HashHex(hash);
    HashHexDigits(hash);
    var clock := ClockSeq(ParseHex(hex[16..20]));
    hex[..8] + "-" + hex[8..12] + "-" + "4" + hex[13..16] + "-" + Chunk(clock)[4..] + "-" + hex[20..32]
  }

  /** `toUuid(seed)`: a UUID after trimming is kept, lower-cased; anything else is hashed. */
  function UuidOf(seed: string): string {
    var source := Trim(seed);
    if IsUuidText(source) then LowerAscii(source) else HashedUuid(Fnv(Utf16(source)))
  }

  /** The clock sequence's leading digit is 8, 9, a or b: the variant of section 4.1.1 of RFC 4122. */
  lemma ClockSeqDigit(raw: bv32)
    ensures var d := Chunk(ClockSeq(raw))[4];
      d == '8' || d == '9' || d == 'a' || d == 'b'
  {
    var v := ClockSeq(raw);
    assert 8 <= (v >> 12) & 0xf <= 11;
  }

  /** Five runs of lower-case digits joined by dashes, with a 4 before the third, have the UUID layout. */
  lemma UuidLayout(a: string, b: string, c: string, d: string, e: string)
    requires |a| == 8 && |b| == 4 && |c| == 3 && |d| == 4 && |e| == 12
    requires forall i :: 0 <= i < |a| ==> IsLowerHexDigit(a[i])
    requires forall i :: 0 <= i < |b| ==> IsLowerHexDigit(b[i])
    requires forall i :: 0 <= i < |c| ==> IsLowerHexDigit(c[i])
    requires forall i :: 0 <= i < |d| ==> IsLowerHexDigit(d[i])
    requires forall i :: 0 <= i < |e| ==> IsLowerHexDigit(e[i])
    ensures var u := a + "-" + b + "-" + "4" + c + "-" + d + "-" + e;
      && |u| == 36 && u[14] == '4' && u[19] == d[0] && u[..8] == a
      && forall i :: 0 <= i < 36 ==> if i == 8 || i == 13 || i == 18 || i == 23 then u[i] == '-' else IsLowerHexDigit(u[i])
  {
    var u := a + "-" + b + "-" + "4" + c + "-" + d + "-" + e;
    forall i | 0 <= i < 36
      ensures if i == 8 || i == 13 || i == 18 || i == 23 then u[i] == '-' else IsLowerHexDigit(u[i])
    {
      if i < 8 { assert u[i] == a[i]; }
      else if 8 < i < 13 { assert u[i] == b[i - 9]; }
      else if 14 < i < 18 { assert u[i] == c[i - 15]; }
      else if 18 < i < 23 { assert u[i] == d[i - 19]; }
      else if 23 < i { assert u[i] == e[i - 24]; }
    }
    assert u[..8] == a;
  }

  /** A hashed id is a lower-case version-4 UUID whose first eight digits are the hash. */
  lemma HashedUuidShape(hash: bv32)
    ensures var u := HashedUuid(hash);
      && IsUuidText(u) && NoUpperCase(u)
      && u[14] == '4'
      && (u[19] == '8' || u[19] == '9' || u[19] == 'a' || u[19] == 'b')
      && u[..8] == Chunk(hash)
  {
    var hex := HashHex(hash);
    var raw := ParseHex(hex[16..20]);
    var d := Chunk(ClockSeq(raw))[4..];
    ClockSeqDigit(raw);
    HashHexDigits(hash);
    ChunkDigits(ClockSeq(raw));
    assert hex[..8] == Chunk(hash);
    UuidLayout(hex[..8], hex[8..12], hex[13..16], d, hex[20..32]);
  }

  /** Lower-casing a UUID keeps it a UUID, now without capitals. */
  lemma LowerUuid(s: string)
    requires IsUuidText(s)
    ensures IsUuidText(LowerAscii(s)) && NoUpperCase(LowerAscii(s))
  {
  }

  /** `toUuid` always yields a lower-case UUID, and the version digit is 4 whenever the input was not already a UUID. */
  lemma UuidOfShape(seed: string)
    ensures IsUuidText(UuidOf(seed)) && NoUpperCase(UuidOf(seed))
    ensures !IsUuidText(Trim(seed)) ==> UuidOf(seed)[14] == '4'
  {
    var source := Trim(seed);
    if IsUuidText(source) {
      LowerUuid(source);
    } else {
      HashedUuidShape(Fnv(Utf16(source)));
    }
  }

  /** Applying `toUuid` to its own result changes nothing. */
  lemma UuidOfIdempotent(seed: string)
    ensures UuidOf(UuidOf(seed)) == UuidOf(seed)
  {
    var u := UuidOf(seed);
    UuidOfShape(seed);
    assert !IsWhitespace(u[0]) && !IsWhitespace(u[35]);
    TrimTrimmed(u);
    assert LowerAscii(u) == u;
  }

  /** The UUID's fields as pieces of the four chunks. */
  lemma HashedUuidParts(hash: bv32)
    ensures var h2, h3 := Chunk(hash ^ 0x9e3779b9), Chunk(hash ^ 0x85ebca6b);
      HashedUuid(hash) == Chunk(hash) + "-" + h2[..4] + "-" + "4" + h2[5..] + "-"
        + Chunk(ClockSeq(ParseHex(h3[..4])))[4..] + "-" + h3[4..] + Chunk(hash ^ 0xc2b2ae35)
  {
    var hex := HashHex(hash);
    var h2, h3 := Chunk(hash ^ 0x9e3779b9), Chunk(hash ^ 0x85ebca6b);
    assert hex[..8] == Chunk(hash);
    assert hex[8..12] == h2[..4];
    assert hex[13..16] == h2[5..];
    assert hex[16..20] == h3[..4];
    assert hex[20..32] == h3[4..] + Chunk(hash ^ 0xc2b2ae35);
  }

  /** The clock sequence drawn from digits `04f7`. */
  lemma BlankClockSeq()
    ensures Chunk(ClockSeq(ParseHex("04f7")))[4..] == "84f7"
  {
    assert "04f7"[..3] == "04f" && "04f"[..2] == "04" && "04"[..1] == "0" && "0"[..0] == "";
    assert ParseHex("0") == 0;
    assert ParseHex("04") == 0x04;
    assert ParseHex("04f") == 0x04f;
    assert ParseHex("04f7") == 0x04f7;
    assert ClockSeq(0x04f7) == 0x84f7;
    assert Chunk(0x84f7) == "000084f7";
  }

  /** The four chunks of the empty string's hash. */
  lemma BlankChunks()
    ensures Chunk(FnvOffsetBasis) == "811c9dc5"
    ensures Chunk(FnvOffsetBasis ^ 0x9e3779b9) == "1f2be47c"
    ensures Chunk(FnvOffsetBasis ^ 0x85ebca6b) == "04f757ae"
    ensures Chunk(FnvOffsetBasis ^ 0xc2b2ae35) == "43ae33f0"
  {
  }

  /** The empty string's hash laid out as a UUID. */
  lemma BlankHashedUuid()
    ensures HashedUuid(FnvOffsetBasis) == "811c9dc5" + "-" + "1f2b" + "-" + "447c" + "-" + "84f7" + "-" + "57ae43ae33f0"
  {
    HashedUuidParts(FnvOffsetBasis);
    BlankChunks();
    BlankClockSeq();
    assert "1f2be47c"[..4] == "1f2b" && "4" + "1f2be47c"[5..] == "447c";
    assert "04f757ae"[..4] == "04f7" && "04f757ae"[4..] + "43ae33f0" == "57ae43ae33f0";
  }

  /** A blank seed hashes the empty string: the FNV-1a offset basis 0x811c9dc5 laid out as a UUID. */
  lemma BlankSeedUuid()
    ensures UuidOf("  ") == "811c9dc5" + "-" + "1f2b" + "-" + "447c" + "-" + "84f7" + "-" + "57ae43ae33f0"
  {
    assert Trim("  ") == [];
    assert Utf16([]) == [];
    assert !IsUuidText([]);
    BlankHashedUuid();
  }

  /** `toUuid`, with the hashing loop over the code units. */
  method ToUuid(seed: string) returns (id: string)
    ensures id == UuidOf(seed)
  {
    var source := Trim(seed);
    if IsUuidText(source) {
      return LowerAscii(source);
    }
    var hash := HashUnits(Utf16(source));
    id := HashedUuid(hash);
  }

  /** The hash loop of `toUuid`, one code unit per round. */
  method HashUnits(units: seq<bv32>) returns (hash: bv32)
    ensures hash == Fnv(units)
  {
    hash := FnvOffsetBasis;
    var i := 0;
    while i < |units|
      invariant 0 <= i <= |units|
      invariant hash == Fnv(units[..i])
    {
      assert units[..i + 1][..i] == units[..i];
      hash := FnvStep(hash, units[i]);
      i := i + 1;
    }
    assert units[..|units|] == units;
  }

  // ---------------------------------------------------------------------------
  // toAuthHeader

  /** `toAuthHeader(rawKey)`: blank gives no header, a `Key`/`key` prefix is normalised, `Basic` passes, anything else gets `Key `. */
  function AuthHeader(rawKey: Option<string>): string {
    Normalized(Trim(rawKey.GetOr("")))
  }

  /** The header made from an already trimmed key. */
  function Normalized(key: string): string {
    if key == [] then ""
    else if StartsWith(key, "Key ") || StartsWith(key, "key ") then "Key " + Trim(key[4..])
    else if StartsWith(key, "Basic ") then key
    else "Key " + key
  }

  /** The header is empty exactly for a blank key; otherwise it is a `Key` or a `Basic` credential. */
  lemma AuthHeaderCases(rawKey: Option<string>)
    ensures var a := AuthHeader(rawKey);
      && (a == "" <==> forall i :: 0 <= i < |rawKey.GetOr("")| ==> IsWhitespace(rawKey.GetOr("")[i]))
      && (a != "" ==> StartsWith(a, "Key ") || StartsWith(a, "Basic "))
  {
    TrimResult(rawKey.GetOr(""));
  }

  /** Normalising a header that is already normalised changes nothing. */
  lemma AuthHeaderIdempotent(rawKey: Option<string>)
    ensures AuthHeader(Some(AuthHeader(rawKey))) == AuthHeader(rawKey)
  {
    var key := Trim(rawKey.GetOr(""));
    TrimResult(rawKey.GetOr(""));
    var a := AuthHeader(rawKey);
    if key != [] {
      if StartsWith(key, "Key ") || StartsWith(key, "key ") {
        var t := Trim(key[4..]);
        assert |key| > 4;
        assert !IsWhitespace(key[4..][|key| - 5]);
        TrimResult(key[4..]);
        assert t != [] && a == "Key " + t;
        KeyPrefixedJoin(t);
      } else if StartsWith(key, "Basic ") {
        TrimTrimmed(key);
        assert a[0] == 'B';
      } else {
        KeyPrefixedJoin(key);
      }
    }
  }

  lemma KeyPrefixedJoin(t: string)
    requires t != [] && IsTrimmed(t)
    ensures AuthHeader(Some("Key " + t)) == "Key " + t
  {
    var a := "Key " + t;
    assert a[0] == 'K' && a[|a| - 1] == t[|t| - 1];
    assert a[..4] == "Key " && a[4..] == t;
    KeyPrefixed(a);
  }

  /** A trimmed `Key ` header whose credential is trimmed and non-blank normalises to itself. */
  lemma KeyPrefixed(a: string)
    requires |a| > 4 && a[..4] == "Key " && IsTrimmed(a) && IsTrimmed(a[4..])
    ensures AuthHeader(Some(a)) == a
  {
    KeyNormalized(a);
    TrimTrimmed(a);
  }

  lemma KeyNormalized(a: string)
    requires |a| > 4 && a[..4] == "Key " && IsTrimmed(a[4..])
    ensures Normalized(a) == a
  {
    var t := a[4..];
    assert StartsWith(a, "Key ");
    assert a == a[..4] + t;
    TrimTrimmed(t);
  }

  // ---------------------------------------------------------------------------
  // The handler

  const MaxRemindersPerRequest := 80
  const MaxFailuresReported := 8

  /** The server's configuration: `undefined` variables are `None`. */
  datatype Env = Env(viteAppId: Option<string>, appId: Option<string>, restApiKey: Option<string>)

  /** `VITE_ONESIGNAL_APP_ID || ONESIGNAL_APP_ID`, with `""` for neither. */
  function AppIdOf(env: Env): string {
    if env.viteAppId.Some? && env.viteAppId.value != "" then env.viteAppId.value
    else env.appId.GetOr("")
  }

  predicate MissingEnv(env: Env) {
    AppIdOf(env) == "" || env.restApiKey.GetOr("") == ""
  }

  /** A reminder as posted: a field that is not a string is `None`. */
  datatype RawReminder = RawReminder(title: Option<string>, message: Option<string>, sendAfter: Option<string>, idempotencyKey: Option<string>)

  /**
   * The parsed body. The body `null` parses to `NullPayload`; any other body
   * that is not an object, or does not parse, is a `Payload` whose fields are
   * `None`. An element of `reminders` that is `null` or `undefined` is `None`.
   */
  datatype Payload =
    | NullPayload
    | Payload(subscriptionId: Option<string>, reminders: Option<seq<Option<RawReminder>>>)

  datatype Request = Request(httpMethod: string, payload: Payload)

  /** What one call to the OneSignal API sends. */
  datatype Notification = Notification(
    authorization: string,
    appId: string,
    subscriptionId: string,
    heading: string,
    contents: string,
    sendAfter: string,
    idempotencyKey: string)

  /** How a call ended: accepted, refused with a response text, or an exception with a message. */
  datatype SendOutcome = Accepted | Refused(errorText: string) | Threw(message: string)

  datatype Failure = Failure(idempotencyKey: string, reason: string)

  /** How one pass of the loop ends; reading a field of a `null` element throws a `TypeError` that ends the handler. */
  datatype Outcome = Scheduled | Failed(failure: Failure) | Aborted

  datatype Body =
    | ErrorBody(error: string, required: seq<string>)
    | Counts(scheduled: nat, failed: nat, skipped: nat, failures: Option<seq<Failure>>)

  datatype Response = Response(status: nat, body: Body)

  /** The handler either returns a response or its promise is rejected with a `TypeError`. */
  datatype HandlerResult = Returned(response: Response) | ThrewTypeError

  predicate Answers(r: HandlerResult, status: nat) {
    r.Returned? && r.response.status == status
  }

  /** The fields of a reminder after the defaults and trimming of the loop body. */
  datatype Prepared = Prepared(title: string, message: string, sendAfter: string, idempotencyKey: string)

  function Prepare(r: RawReminder): Prepared {
    Prepared(
      if r.title.Some? then Trim(r.title.value) else "Habit reminder",
      if r.message.Some? then Trim(r.message.value) else "",
      r.sendAfter.GetOr(""),
      if r.idempotencyKey.Some? then Trim(r.idempotencyKey.value) else "")
  }

  /** The check before sending; `validDate` stands for `!isNaN(new Date(sendAfter).getTime())`. */
  predicate IsValid(p: Prepared, validDate: string -> bool) {
    p.message != "" && p.sendAfter != "" && p.idempotencyKey != "" && validDate(p.sendAfter)
  }

  /** The fixed part of every notification of one request. */
  datatype Batch = Batch(authorization: string, appId: string, subscriptionId: string)

  function NotificationOf(b: Batch, p: Prepared): Notification {
    Notification(b.authorization, b.appId, b.subscriptionId, p.title, p.message, p.sendAfter, UuidOf(p.idempotencyKey))
  }

  /** The outcome of reminder `i`; `send(i, n)` is the answer of the API to the `i`-th call. */
  function OutcomeOf(b: Batch, i: nat, r: Option<RawReminder>, validDate: string -> bool, send: (nat, Notification) -> SendOutcome): Outcome {
    if r.None? then Aborted
    else
      var p := Prepare(r.value);
      if !IsValid(p, validDate) then Failed(Failure(p.idempotencyKey, "Invalid reminder payload"))
      else
        match send(i, NotificationOf(b, p))
        case Accepted => Scheduled
        case Refused(text) => Failed(Failure(p.idempotencyKey, if text != "" then text else "OneSignal API error"))
        case Threw(message) => Failed(Failure(p.idempotencyKey, if message != "" then message else "Network error"))
  }

  function Outcomes(b: Batch, rs: seq<Option<RawReminder>>, validDate: string -> bool, send: (nat, Notification) -> SendOutcome): (os: seq<Outcome>)
    ensures |os| == |rs|
  {
    seq(|rs|, i requires 0 <= i < |rs| => OutcomeOf(b, i, rs[i], validDate, send))
  }

  /** No pass of the loop threw. */
  predicate Completes(os: seq<Outcome>) {
    forall j :: 0 <= j < |os| ==> !os[j].Aborted?
  }

  predicate HasNull(rs: seq<Option<RawReminder>>) {
    exists j :: 0 <= j < |rs| && rs[j].None?
  }

  /** The loop throws exactly when one of the reminders it reads is `null`. */
  lemma CompletesIffNoNull(b: Batch, rs: seq<Option<RawReminder>>, validDate: string -> bool, send: (nat, Notification) -> SendOutcome)
    ensures Completes(Outcomes(b, rs, validDate, send)) <==> !HasNull(rs)
  {
    var os := Outcomes(b, rs, validDate, send);
    if HasNull(rs) {
      var j :| 0 <= j < |rs| && rs[j].None?;
      assert os[j].Aborted?;
    }
  }

  /** A `null` reminder makes the loop throw. */
  lemma AbortedAt(b: Batch, rs: seq<Option<RawReminder>>, i: nat, validDate: string -> bool, send: (nat, Notification) -> SendOutcome)
    requires i < |rs| && rs[i].None?
    ensures !Completes(Outcomes(b, rs, validDate, send))
  {
    assert Outcomes(b, rs, validDate, send)[i].Aborted?;
  }

  function ScheduledCount(os: seq<Outcome>): nat {
    if os == [] then 0 else ScheduledCount(os[..|os| - 1]) + (if os[|os| - 1].Scheduled? then 1 else 0)
  }

  /** The failures in order. */
  function FailuresOf(os: seq<Outcome>): (fs: seq<Failure>)
    ensures |fs| <= |os|
  {
    if os == [] then []
    else FailuresOf(os[..|os| - 1]) + (if os[|os| - 1].Failed? then [os[|os| - 1].failure] else [])
  }

  /** Each outcome is counted once, as scheduled or as a failure, exactly when no pass threw. */
  lemma {:induction false} CountsAddUp(os: seq<Outcome>)
    ensures ScheduledCount(os) + |FailuresOf(os)| <= |os|
    ensures ScheduledCount(os) + |FailuresOf(os)| == |os| <==> Completes(os)
  {
    if os != [] {
      var front := os[..|os| - 1];
      CountsAddUp(front);
      assert forall j :: 0 <= j < |front| ==> front[j] == os[j];
    }
  }

  /** Counting one more outcome adds it to the scheduled count or to the failures. */
  lemma CountsStep(os: seq<Outcome>, o: Outcome)
    ensures ScheduledCount(os + [o]) == ScheduledCount(os) + (if o.Scheduled? then 1 else 0)
    ensures FailuresOf(os + [o]) == FailuresOf(os) + (if o.Failed? then [o.failure] else [])
  {
    assert (os + [o])[..|os|] == os;
  }

  /** The outcomes of one more reminder are those of the shorter run and that reminder's own. */
  lemma OutcomesStep(b: Batch, rs: seq<Option<RawReminder>>, i: nat, validDate: string -> bool, send: (nat, Notification) -> SendOutcome)
    requires i < |rs|
    ensures Outcomes(b, rs[..i + 1], validDate, send) == Outcomes(b, rs[..i], validDate, send) + [OutcomeOf(b, i, rs[i], validDate, send)]
  {
  }

  function Take<T>(s: seq<T>, n: nat): (r: seq<T>)
    ensures |r| <= n && |r| <= |s|
  {
    if |s| <= n then s else s[..n]
  }

  /** `typeof payload.subscriptionId === "string" ? payload.subscriptionId.trim() : ""`. */
  function SubscriptionOf(p: Payload): string
    requires p.Payload?
  {
    if p.subscriptionId.Some? then Trim(p.subscriptionId.value) else ""
  }

  /** `Array.isArray(payload.reminders) ? payload.reminders : []`. */
  function RemindersOf(p: Payload): seq<Option<RawReminder>>
    requires p.Payload?
  {
    p.reminders.GetOr([])
  }

  /** The handler's answer, as a value. */
  function HandleOf(req: Request, env: Env, validDate: string -> bool, send: (nat, Notification) -> SendOutcome): HandlerResult {
    if req.httpMethod != "POST" then Returned(Response(405, ErrorBody("Method not allowed", [])))
    else if MissingEnv(env) then
      Returned(Response(500, ErrorBody("Missing OneSignal server env vars",
        ["VITE_ONESIGNAL_APP_ID (or ONESIGNAL_APP_ID)", "ONESIGNAL_REST_API_KEY"])))
    else if req.payload.NullPayload? then ThrewTypeError
    else if SubscriptionOf(req.payload) == "" then Returned(Response(400, ErrorBody("subscriptionId is required", [])))
    else if RemindersOf(req.payload) == [] then Returned(Response(200, Counts(0, 0, 0, None)))
    else BatchResponse(Batch(AuthHeader(env.restApiKey), AppIdOf(env), SubscriptionOf(req.payload)), RemindersOf(req.payload), validDate, send)
  }

  /** The answer for a non-empty batch: the first 80 reminders are sent, the rest skipped, the first 8 failures listed. */
  function BatchResponse(b: Batch, reminders: seq<Option<RawReminder>>, validDate: string -> bool, send: (nat, Notification) -> SendOutcome): HandlerResult {
    var limited := Take(reminders, MaxRemindersPerRequest);
    var os := Outcomes(b, limited, validDate, send);
    if !Completes(os) then ThrewTypeError
    else
      Returned(Response(200, Counts(ScheduledCount(os), |FailuresOf(os)|, |reminders| - |limited|,
        Some(Take(FailuresOf(os), MaxFailuresReported)))))
  }

  /** No subscription id, or one made only of whitespace. */
  predicate BlankSubscription(sub: Option<string>) {
    sub.None? || forall i :: 0 <= i < |sub.value| ==> IsWhitespace(sub.value[i])
  }

  /** The checks come in order: method, configuration, subscription; each refusal has its status. */
  lemma HandleRefusals(req: Request, env: Env, validDate: string -> bool, send: (nat, Notification) -> SendOutcome)
    ensures var r := HandleOf(req, env, validDate, send);
      && (Answers(r, 405) <==> req.httpMethod != "POST")
      && (Answers(r, 500) <==> req.httpMethod == "POST" && MissingEnv(env))
      && (Answers(r, 400) <==> req.httpMethod == "POST" && !MissingEnv(env) && req.payload.Payload? && BlankSubscription(req.payload.subscriptionId))
  {
    if req.payload.Payload? && req.payload.subscriptionId.Some? {
      TrimResult(req.payload.subscriptionId.value);
    }
    if req.httpMethod == "POST" && !MissingEnv(env) && req.payload.Payload? && SubscriptionOf(req.payload) != "" && RemindersOf(req.payload) != [] {
      BatchStatus(Batch(AuthHeader(env.restApiKey), AppIdOf(env), SubscriptionOf(req.payload)), RemindersOf(req.payload), validDate, send);
    }
  }

  /** A batch is answered with 200 unless it throws. */
  lemma BatchStatus(b: Batch, reminders: seq<Option<RawReminder>>, validDate: string -> bool, send: (nat, Notification) -> SendOutcome)
    ensures var r := BatchResponse(b, reminders, validDate, send);
      r.ThrewTypeError? || Answers(r, 200)
    ensures BatchResponse(b, reminders, validDate, send).ThrewTypeError? <==> HasNull(Take(reminders, MaxRemindersPerRequest))
  {
    CompletesIffNoNull(b, Take(reminders, MaxRemindersPerRequest), validDate, send);
  }

  /** The handler throws on the body `null`, and on a `null` among the first 80 reminders of a request that passes the checks. */
  lemma HandleThrows(req: Request, env: Env, validDate: string -> bool, send: (nat, Notification) -> SendOutcome)
    ensures HandleOf(req, env, validDate, send).ThrewTypeError? <==>
      && req.httpMethod == "POST" && !MissingEnv(env)
      && (|| req.payload.NullPayload?
          || (SubscriptionOf(req.payload) != "" && HasNull(Take(RemindersOf(req.payload), MaxRemindersPerRequest))))
  {
    if req.httpMethod == "POST" && !MissingEnv(env) && req.payload.Payload? && SubscriptionOf(req.payload) != "" && RemindersOf(req.payload) != [] {
      BatchStatus(Batch(AuthHeader(env.restApiKey), AppIdOf(env), SubscriptionOf(req.payload)), RemindersOf(req.payload), validDate, send);
    }
  }

  /** A request that passes the checks and holds no `null` reminder is answered with 200; an empty batch has zero counts and no failure list. */
  lemma HandleAccepts(req: Request, env: Env, validDate: string -> bool, send: (nat, Notification) -> SendOutcome)
    ensures var r := HandleOf(req, env, validDate, send);
      && (Answers(r, 200) <==>
          && req.httpMethod == "POST" && !MissingEnv(env) && req.payload.Payload?
          && SubscriptionOf(req.payload) != "" && !HasNull(Take(RemindersOf(req.payload), MaxRemindersPerRequest)))
      && (Answers(r, 200) && RemindersOf(req.payload) == [] ==> r.response.body == Counts(0, 0, 0, None))
  {
    if req.httpMethod == "POST" && !MissingEnv(env) && req.payload.Payload? && SubscriptionOf(req.payload) != "" && RemindersOf(req.payload) != [] {
      BatchStatus(Batch(AuthHeader(env.restApiKey), AppIdOf(env), SubscriptionOf(req.payload)), RemindersOf(req.payload), validDate, send);
    }
  }

  /**
   * A batch answer counts at most 80 reminders, each as scheduled or failed,
   * reports the rest as skipped, and lists the first 8 failures in order.
   */
  lemma HandleCounts(req: Request, env: Env, validDate: string -> bool, send: (nat, Notification) -> SendOutcome)
    requires Answers(HandleOf(req, env, validDate, send), 200)
    requires req.payload.Payload? && RemindersOf(req.payload) != []
    ensures var b := HandleOf(req, env, validDate, send).response.body;
      var n := |RemindersOf(req.payload)|;
      var processed := if n < MaxRemindersPerRequest then n else MaxRemindersPerRequest;
      var batch := Batch(AuthHeader(env.restApiKey), AppIdOf(env), SubscriptionOf(req.payload));
      var os := Outcomes(batch, Take(RemindersOf(req.payload), MaxRemindersPerRequest), validDate, send);
      && b.Counts?
      && b.scheduled + b.failed == processed
      && b.skipped == n - processed
      && b.failed == |FailuresOf(os)|
      && b.failures == Some(Take(FailuresOf(os), MaxFailuresReported))
      && |b.failures.value| == if b.failed < MaxFailuresReported then b.failed else MaxFailuresReported
  {
    BatchCounts(Batch(AuthHeader(env.restApiKey), AppIdOf(env), SubscriptionOf(req.payload)), RemindersOf(req.payload), validDate, send);
  }

  lemma BatchCounts(b: Batch, reminders: seq<Option<RawReminder>>, validDate: string -> bool, send: (nat, Notification) -> SendOutcome)
    requires BatchResponse(b, reminders, validDate, send).Returned?
    ensures var body := BatchResponse(b, reminders, validDate, send).response.body;
      var processed := if |reminders| < MaxRemindersPerRequest then |reminders| else MaxRemindersPerRequest;
      var os := Outcomes(b, Take(reminders, MaxRemindersPerRequest), validDate, send);
      && body.Counts?
      && body.scheduled + body.failed == processed
      && body.skipped == |reminders| - processed
      && body.failed == |FailuresOf(os)|
      && body.failures == Some(Take(FailuresOf(os), MaxFailuresReported))
      && |body.failures.value| == if body.failed < MaxFailuresReported then body.failed else MaxFailuresReported
  {
    CountsAddUp(Outcomes(b, Take(reminders, MaxRemindersPerRequest), validDate, send));
  }

  /** A reminder without a message, a send time, a key, or with a date that does not parse fails without a call. */
  lemma InvalidFailsUnsent(b: Batch, i: nat, r: RawReminder, validDate: string -> bool, send: (nat, Notification) -> SendOutcome)
    requires !IsValid(Prepare(r), validDate)
    ensures OutcomeOf(b, i, Some(r), validDate, send) == Failed(Failure(Prepare(r).idempotencyKey, "Invalid reminder payload"))
    ensures forall other: (nat, Notification) -> SendOutcome :: OutcomeOf(b, i, Some(r), validDate, other) == OutcomeOf(b, i, Some(r), validDate, send)
  {
  }

  /** Every notification sent carries a lower-case UUID as its idempotency key. */
  lemma SentKeyIsUuid(b: Batch, r: RawReminder)
    ensures var n := NotificationOf(b, Prepare(r));
      IsUuidText(n.idempotencyKey) && NoUpperCase(n.idempotencyKey)
  {
    UuidOfShape(Prepare(r).idempotencyKey);
  }

  /** One pass of the loop body: read the reminder's fields, check them, and send it when it is valid. */
  method SendReminder(batch: Batch, i: nat, r: Option<RawReminder>, validDate: string -> bool, send: (nat, Notification) -> SendOutcome)
    returns (outcome: Outcome)
    ensures outcome == OutcomeOf(batch, i, r, validDate, send)
  {
    if r.None? {
      return Aborted;
    }
    var p := Prepare(r.value);
    var uuid := ToUuid(p.idempotencyKey);
    if !IsValid(p, validDate) {
      return Failed(Failure(p.idempotencyKey, "Invalid reminder payload"));
    }
    var answer := send(i, Notification(batch.authorization, batch.appId, batch.subscriptionId, p.title, p.message, p.sendAfter, uuid));
    match answer {
      case Accepted =>
        outcome := Scheduled;
      case Refused(text) =>
        outcome := Failed(Failure(p.idempotencyKey, if text != "" then text else "OneSignal API error"));
      case Threw(message) =>
        outcome := Failed(Failure(p.idempotencyKey, if message != "" then message else "Network error"));
    }
  }

  /** The part of the handler after the checks: the loop over the first 80 reminders, then the answer. */
  method SendBatch(batch: Batch, reminders: seq<Option<RawReminder>>, validDate: string -> bool, send: (nat, Notification) -> SendOutcome)
    returns (result: HandlerResult)
    ensures result == BatchResponse(batch, reminders, validDate, send)
  {
    var limited := Take(reminders, MaxRemindersPerRequest);
    var completed, scheduled, failed, failures := SendAll(batch, limited, validDate, send);
    if !completed {
      return ThrewTypeError;
    }
    result := Returned(Response(200, Counts(scheduled, failed, |reminders| - |limited|, Some(Take(failures, MaxFailuresReported)))));
  }

  /**
   * The loop that sends each reminder in turn and updates the counters and
   * the failure list; it stops when a pass throws.
   */
  method SendAll(batch: Batch, limited: seq<Option<RawReminder>>, validDate: string -> bool, send: (nat, Notification) -> SendOutcome)
    returns (completed: bool, scheduled: nat, failed: nat, failures: seq<Failure>)
    ensures var os := Outcomes(batch, limited, validDate, send);
      && completed == Completes(os)
      && (completed ==> scheduled == ScheduledCount(os) && failures == FailuresOf(os) && failed == |failures|)
  {
    scheduled, failed, failures := 0, 0, [];
    var i := 0;
    while i < |limited|
      invariant 0 <= i <= |limited|
      invariant scheduled + failed == i
      invariant scheduled == ScheduledCount(Outcomes(batch, limited[..i], validDate, send))
      invariant failures == FailuresOf(Outcomes(batch, limited[..i], validDate, send)) && failed == |failures|
    {
      var outcome := SendReminder(batch, i, limited[i], validDate, send);
      if outcome.Aborted? {
        AbortedAt(batch, limited, i, validDate, send);
        return false, scheduled, failed, failures;
      }
      OutcomesStep(batch, limited, i, validDate, send);
      CountsStep(Outcomes(batch, limited[..i], validDate, send), outcome);
      if outcome.Scheduled? {
        scheduled := scheduled + 1;
      } else {
        failed := failed + 1;
        failures := failures + [outcome.failure];
      }
      i := i + 1;
    }
    assert limited[..|limited|] == limited;
    CountsAddUp(Outcomes(batch, limited, validDate, send));
    completed := true;
  }

  /** The handler: the checks in order, then the batch. */
  method Handle(req: Request, env: Env, validDate: string -> bool, send: (nat, Notification) -> SendOutcome) returns (result: HandlerResult)
    ensures result == HandleOf(req, env, validDate, send)
  {
    if req.httpMethod != "POST" {
      return Returned(Response(405, ErrorBody("Method not allowed", [])));
    }
    var appId := AppIdOf(env);
    var authHeader := AuthHeader(env.restApiKey);
    if appId == "" || env.restApiKey.GetOr("") == "" {
      return Returned(Response(500, ErrorBody("Missing OneSignal server env vars",
        ["VITE_ONESIGNAL_APP_ID (or ONESIGNAL_APP_ID)", "ONESIGNAL_REST_API_KEY"])));
    }
    if req.payload.NullPayload? {
      return ThrewTypeError;
    }
    var subscriptionId := if req.payload.subscriptionId.Some? then Trim(req.payload.subscriptionId.value) else "";
    var reminders := req.payload.reminders.GetOr([]);
    if subscriptionId == "" {
      return Returned(Response(400, ErrorBody("subscriptionId is required", [])));
    }
    if |reminders| == 0 {
      return Returned(Response(200, Counts(0, 0, 0, None)));
    }
    result := SendBatch(Batch(authHeader, appId, subscriptionId), reminders, validDate, send);
  }
}
