/** The user-id link token (utils/encryption.js): a user id encrypted with AES-256 in CBC
    mode (FIPS 197, NIST SP 800-38A section 6.2, PKCS#7 padding) under a key derived with
    scrypt (RFC 7914), framed as `hex(iv) + ':' + hex(ciphertext)`.

    The cipher, the key derivation and the UTF-8 text codec are library code: they are
    passed in as a `Crypto` value, and `Lawful` states the only facts about them that the
    framing relies on. The framing, the format check and the error wrapping are modelled
    exactly. */
module Encryption {

  import opened Wrappers
  import Strings

  type Byte = b: int | 0 <= b < 256

  /** The library calls made by the codec. */
  datatype Crypto = Crypto(
    /** `crypto.scryptSync(password, salt, keylen)` */
    scrypt: (string, string, nat) -> seq<Byte>,
    /** AES-256-CBC encryption with PKCS#7 padding: key, iv, plaintext. */
    encrypt: (seq<Byte>, seq<Byte>, seq<Byte>) -> seq<Byte>,
    /** AES-256-CBC decryption: `None` when the final block's padding is bad. */
    decrypt: (seq<Byte>, seq<Byte>, seq<Byte>) -> Option<seq<Byte>>,
    /** UTF-8 encoding of a string and (lenient, total) decoding of bytes. */
    utf8Encode: string -> seq<Byte>,
    utf8Decode: seq<Byte> -> string)

  /** What the codec assumes of the libraries: scrypt yields as many bytes as asked for,
      decryption under the same key and IV inverts encryption, and UTF-8 decoding inverts
      encoding. */
  ghost predicate Lawful(c: Crypto) {
    && (forall pw, salt, n :: |c.scrypt(pw, salt, n)| == n)
    && (forall key, iv, m :: |key| == KEY_LENGTH && |iv| == IV_LENGTH ==>
          c.decrypt(key, iv, c.encrypt(key, iv, m)) == Some(m))
    && (forall s :: c.utf8Decode(c.utf8Encode(s)) == s)
  }

  const FALLBACK_SECRET := "fallback-secret-key-do-not-use-in-production"
  const SALT := "salt"
  const KEY_LENGTH := 32
  const IV_LENGTH := 16
  const ENCRYPT_FAILED := "Failed to encrypt user ID"
  const DECRYPT_FAILED := "Failed to decrypt user ID"

  /** The secret the key is derived from: `ENCRYPTION_SECRET`, or the fixed development
      fallback when that variable is unset or empty. */
  function KeySecret(env: Option<string>): (secret: string)
    ensures secret != ""
    ensures env.Some? && env.value != "" ==> secret == env.value
    ensures env.None? || env.value == "" ==> secret == FALLBACK_SECRET
  {
    if env.None? || env.value == "" then FALLBACK_SECRET else env.value
  }

  /** `getEncryptionKey`: a deterministic function of the configuration, so encryption and
      decryption under one configuration use one key. */
  function EncryptionKey(c: Crypto, env: Option<string>): (key: seq<Byte>)
    ensures Lawful(c) ==> |key| == KEY_LENGTH
  {
    c.scrypt(KeySecret(env), SALT, KEY_LENGTH)
  }

  function HexDigit(d: nat): char
    requires d < 16
  {
    "0123456789abcdef"[d]
  }

  predicate IsHexChar(ch: char) {
    ('0' <= ch <= '9') || ('a' <= ch <= 'f') || ('A' <= ch <= 'F')
  }

  function HexValue(ch: char): (v: nat)
    requires IsHexChar(ch)
    ensures v < 16
  {
    if '0' <= ch <= '9' then (ch - '0') as nat
    else if 'a' <= ch <= 'f' then (ch - 'a') as nat + 10
    else (ch - 'A') as nat + 10
  }

  /** `buffer.toString('hex')`: two lower-case hex digits per byte. */
  function HexEncode(bytes: seq<Byte>): (s: string)
    ensures |s| == 2 * |bytes|
    ensures forall k :: 0 <= k < |s| ==> IsHexChar(s[k])
  {
    if |bytes| == 0 then ""
    else [HexDigit(bytes[0] / 16), HexDigit(bytes[0] % 16)] + HexEncode(bytes[1..])
  }

  /** Node's hex decoding (`Buffer.from(s, 'hex')`): reads pairs of hex digits from the
      start and stops at the first pair that is not two hex digits; an odd last digit is
      ignored. It never fails. (`decipher.update(s, 'hex')` decodes the same way, but first
      refuses text of odd length: see `DecryptUserId`.) */
  function HexDecode(s: string): seq<Byte>
  {
    if |s| >= 2 && IsHexChar(s[0]) && IsHexChar(s[1]) then
      [HexValue(s[0]) * 16 + HexValue(s[1])] + HexDecode(s[2..])
    else []
  }

  /** Whether a text has an even number of characters, counted two at a time. */
  predicate EvenLength(s: string)
    decreases |s|
  {
    if |s| < 2 then |s| == 0 else EvenLength(s[2..])
  }

  /** `EvenLength` is evenness of the length. */
  lemma {:induction false} EvenLengthExactly(s: string)
    ensures EvenLength(s) <==> |s| % 2 == 0
    decreases |s|
  {
    if |s| >= 2 {
      EvenLengthExactly(s[2..]);
    }
  }

  /** One more character after an even-length text makes it odd. */
  lemma {:induction false} OneMoreIsOdd(s: string, ch: char)
    requires EvenLength(s)
    ensures !EvenLength(s + [ch])
    decreases |s|
  {
    if |s| >= 2 {
      assert (s + [ch])[2..] == s[2..] + [ch];
      OneMoreIsOdd(s[2..], ch);
    }
  }

  /** Hex text always has even length. */
  lemma {:induction false} HexIsEvenLength(bytes: seq<Byte>)
    ensures EvenLength(HexEncode(bytes))
  {
    EvenLengthExactly(HexEncode(bytes));
  }

  /** Hex encoding never produces the separator `:`. */
  lemma HexHasNoColon(bytes: seq<Byte>)
    ensures ':' !in HexEncode(bytes)
  {
    var s := HexEncode(bytes);
    forall k | 0 <= k < |s| ensures s[k] != ':' {
      assert IsHexChar(s[k]);
    }
  }

  /** Reading a digit back gives its value. */
  lemma HexDigitValue(d: nat)
    requires d < 16
    ensures IsHexChar(HexDigit(d)) && HexValue(HexDigit(d)) == d
  {
  }

  /** The two digits written for a byte read back as that byte. */
  lemma HexPairValue(b: Byte) returns (hi: char, lo: char)
    ensures hi == HexDigit(b / 16) && lo == HexDigit(b % 16)
    ensures IsHexChar(hi) && IsHexChar(lo) && HexValue(hi) * 16 + HexValue(lo) == b
  {
    hi, lo := HexDigit(b / 16), HexDigit(b % 16);
    HexDigitValue(b / 16);
    HexDigitValue(b % 16);
  }

  /** Decoding reads a leading pair of hex digits as one byte. */
  lemma HexDecodePair(hi: char, lo: char, rest: string)
    requires IsHexChar(hi) && IsHexChar(lo)
    ensures HexDecode([hi, lo] + rest) == [HexValue(hi) * 16 + HexValue(lo)] + HexDecode(rest)
  {
    assert ([hi, lo] + rest)[2..] == rest;
  }

  /** Decoding what was encoded gives back the bytes. */
  lemma {:induction false} HexRoundTrip(bytes: seq<Byte>)
    ensures HexDecode(HexEncode(bytes)) == bytes
  {
    if |bytes| > 0 {
      var hi, lo := HexPairValue(bytes[0]);
      assert HexEncode(bytes) == [hi, lo] + HexEncode(bytes[1..]);
      HexRoundTrip(bytes[1..]);
      HexDecodePair(hi, lo, HexEncode(bytes[1..]));
      assert bytes == [bytes[0]] + bytes[1..];
    }
  }

  /** `encryptUserId(userId)` with the fresh random IV `iv`: `hex(iv) + ':' + hex(ct)`.
      A null or undefined id (`None`; `toString` throws) and a library failure become the
      single error `ENCRYPT_FAILED`. */
  function EncryptUserId(c: Crypto, env: Option<string>, userId: Option<string>, iv: seq<Byte>)
    : (r: Result<string, string>)
    requires |iv| == IV_LENGTH
    ensures r.Err? ==> r.error == ENCRYPT_FAILED
    ensures Lawful(c) ==> (r.Ok? <==> userId.Some?)
    ensures r.Ok? ==> |r.value| > 2 * IV_LENGTH && r.value[..2 * IV_LENGTH] == HexEncode(iv)
                      && r.value[2 * IV_LENGTH] == ':'
  {
    var key := EncryptionKey(c, env);
    if userId.None? || |key| != KEY_LENGTH then Err(ENCRYPT_FAILED)
    else
      var ct := c.encrypt(key, iv, c.utf8Encode(userId.value));
      Ok(HexEncode(iv) + ":" + HexEncode(ct))
  }

  /** `decryptUserId(token)`: the token must split on `:` into exactly two parts, the
      first must decode to a 16-byte IV, the second must have an even number of characters
      (`decipher.update` refuses odd-length hex text), and the ciphertext's padding must
      check; every failure becomes the single error `DECRYPT_FAILED`. */
  function DecryptUserId(c: Crypto, env: Option<string>, token: string): (r: Result<string, string>)
    ensures r.Err? ==> r.error == DECRYPT_FAILED
    ensures |Strings.Split(token, ':')| != 2 ==> r.Err?
    ensures |Strings.Split(token, ':')| == 2 && !EvenLength(Strings.Split(token, ':')[1]) ==> r.Err?
  {
    var parts := Strings.Split(token, ':');
    var key := EncryptionKey(c, env);
    if |parts| != 2 then Err(DECRYPT_FAILED)
    else
      var iv := HexDecode(parts[0]);
      if |iv| != IV_LENGTH || |key| != KEY_LENGTH || !EvenLength(parts[1]) then Err(DECRYPT_FAILED)
      else
        match c.decrypt(key, iv, HexDecode(parts[1]))
        case None => Err(DECRYPT_FAILED)
        case Some(plain) => Ok(c.utf8Decode(plain))
  }

  /** The format check in terms of the token's text: a token without exactly one `:` is
      rejected. */
  lemma RejectsWithoutOneColon(c: Crypto, env: Option<string>, token: string)
    requires Strings.Count(token, ':') != 1
    ensures DecryptUserId(c, env, token) == Err(DECRYPT_FAILED)
  {
    Strings.SplitFacts(token, ':');
  }

  /** Every token `EncryptUserId` produces has exactly one `:`, splits into two parts and
      passes the format check, and its first part is the 32-digit hex IV. */
  lemma {:induction false} TokenShape(c: Crypto, env: Option<string>, userId: string, iv: seq<Byte>)
    requires |iv| == IV_LENGTH && Lawful(c)
    ensures EncryptUserId(c, env, Some(userId), iv).Ok?
    ensures var t := EncryptUserId(c, env, Some(userId), iv).value;
            Strings.Count(t, ':') == 1 &&
            Strings.Split(t, ':') == [HexEncode(iv), t[2 * IV_LENGTH + 1..]] &&
            |Strings.Split(t, ':')[0]| == 2 * IV_LENGTH
  {
    var key := EncryptionKey(c, env);
    var ct := HexEncode(c.encrypt(key, iv, c.utf8Encode(userId)));
    var t := HexEncode(iv) + ":" + ct;
    HexHasNoColon(iv);
    HexHasNoColon(c.encrypt(key, iv, c.utf8Encode(userId)));
    Strings.SplitTwo(HexEncode(iv), ':', ct);
    assert t == HexEncode(iv) + [':'] + ct;
    assert t[2 * IV_LENGTH + 1..] == ct;
    Strings.SplitFacts(t, ':');
  }

  /** A token `a:b` whose parts hold no `:` splits into `[a, b]`. */
  lemma SplitToken(a: string, b: string)
    requires ':' !in a && ':' !in b
    ensures Strings.Split(a + ":" + b, ':') == [a, b]
  {
    assert a + ":" + b == a + [':'] + b;
    Strings.SplitTwo(a, ':', b);
  }

  /** Decrypting a token `a:b` whose parts hold no `:`, whose first part is a 16-byte IV
      and whose second part has even length: the cipher's answer decides. */
  lemma DecryptOfParts(c: Crypto, env: Option<string>, a: string, b: string, plain: seq<Byte>)
    requires ':' !in a && ':' !in b && EvenLength(b)
    requires |HexDecode(a)| == IV_LENGTH && |EncryptionKey(c, env)| == KEY_LENGTH
    requires c.decrypt(EncryptionKey(c, env), HexDecode(a), HexDecode(b)) == Some(plain)
    ensures DecryptUserId(c, env, a + ":" + b) == Ok(c.utf8Decode(plain))
  {
    SplitToken(a, b);
  }

  /** Round trip: under one configuration, decrypting the token made for a user id gives
      back that id, whichever IV was drawn. */
  lemma {:induction false} RoundTrip(c: Crypto, env: Option<string>, userId: string, iv: seq<Byte>)
    requires |iv| == IV_LENGTH && Lawful(c)
    ensures EncryptUserId(c, env, Some(userId), iv).Ok?
    ensures DecryptUserId(c, env, EncryptUserId(c, env, Some(userId), iv).value) == Ok(userId)
  {
    var key := EncryptionKey(c, env);
    var ct := c.encrypt(key, iv, c.utf8Encode(userId));
    HexHasNoColon(iv);
    HexHasNoColon(ct);
    HexRoundTrip(iv);
    HexRoundTrip(ct);
    HexIsEvenLength(ct);
    DecryptOfParts(c, env, HexEncode(iv), HexEncode(ct), c.utf8Encode(userId));
  }

  /** An issued token with one more hex digit appended is refused: its ciphertext part
      then has odd length. */
  lemma {:induction false} ExtraDigitRejected(c: Crypto, env: Option<string>, userId: string,
                                              iv: seq<Byte>, digit: char)
    requires |iv| == IV_LENGTH && Lawful(c) && IsHexChar(digit)
    ensures EncryptUserId(c, env, Some(userId), iv).Ok?
    ensures DecryptUserId(c, env, EncryptUserId(c, env, Some(userId), iv).value + [digit])
            == Err(DECRYPT_FAILED)
  {
    var key := EncryptionKey(c, env);
    var ct := HexEncode(c.encrypt(key, iv, c.utf8Encode(userId)));
    HexHasNoColon(iv);
    HexHasNoColon(c.encrypt(key, iv, c.utf8Encode(userId)));
    HexRoundTrip(iv);
    assert HexEncode(iv) + ":" + ct + [digit] == HexEncode(iv) + ":" + (ct + [digit]);
    HexIsEvenLength(c.encrypt(key, iv, c.utf8Encode(userId)));
    OneMoreIsOdd(ct, digit);
    SplitToken(HexEncode(iv), ct + [digit]);
  }
}
