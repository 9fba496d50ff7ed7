/** Zero-knowledge tokens: random-key and passphrase formats, on the server's side and in the
    browser. AES-GCM, Argon2id and UTF-8 are parameters. */
module Tokens {
  import opened Common
  import opened Base64Url

  const NONCE_LEN := 12
  const SALT_LEN := 16
  const PASSPHRASE_PREFIX := "a2"

  /** `derive` is None for a salt the key derivation refuses. */
  datatype Crypto = Crypto(seal: (seq<Byte>, seq<Byte>, seq<Byte>) -> seq<Byte>,
                           open: (seq<Byte>, seq<Byte>, seq<Byte>) -> Option<seq<Byte>>,
                           derive: (seq<Byte>, seq<Byte>) -> Option<seq<Byte>>,
                           utf8: string -> seq<Byte>,
                           text: seq<Byte> -> Option<string>)
  {
    predicate DerivesKey(passphrase: seq<Byte>, salt: seq<Byte>) {
      derive(passphrase, salt).Some? && |derive(passphrase, salt).value| == 32
    }

    /** Opening inverts sealing under the same key and nonce, text survives its encoding, and a
        salt of the generated length yields a key. */
    ghost predicate Inverts() {
      && (forall key, nonce, plain :: open(key, nonce, seal(key, nonce, plain)) == Some(plain))
      && (forall s :: text(utf8(s)) == Some(s))
      && (forall passphrase, salt :: |salt| == SALT_LEN ==> DerivesKey(passphrase, salt))
    }
  }

  /** AES accepts 128, 192 and 256 bit keys and raises otherwise. */
  predicate ValidKey(key: seq<Byte>) { |key| == 16 || |key| == 24 || |key| == 32 }

  lemma KeyLengths(key: seq<Byte>)
    ensures ValidKey(key) <==> |key| in {16, 24, 32}
  {
  }

  // ---- Framing ----

  function Frame(nonce: seq<Byte>, sealed: seq<Byte>): string { Encode(nonce + sealed) }

  /** Slices past the end are empty, as in Python and JavaScript. */
  function Take(raw: seq<Byte>, n: nat): seq<Byte> { if |raw| <= n then raw else raw[..n] }

  function Drop(raw: seq<Byte>, n: nat): seq<Byte> { if |raw| <= n then [] else raw[n..] }

  /** `raw` is the frame as one side decoded it. */
  function OpenFrame(c: Crypto, key: Option<seq<Byte>>, raw: Option<seq<Byte>>): Option<seq<Byte>> {
    if raw.None? || key.None? || !ValidKey(key.value) then None
    else c.open(key.value, Take(raw.value, NONCE_LEN), Drop(raw.value, NONCE_LEN))
  }

  function TextOf(c: Crypto, plain: Option<seq<Byte>>): Option<string> {
    if plain.None? then None else c.text(plain.value)
  }

  // ---- Random key ----

  function Encrypt(c: Crypto, key: string, plaintext: string, nonce: seq<Byte>): Option<string> {
    var k := PyDecode(key);
    if k.None? || !ValidKey(k.value) then None
    else Some(Frame(nonce, c.seal(k.value, nonce, c.utf8(plaintext))))
  }

  function Decrypt(c: Crypto, key: string, token: string): Option<string> {
    TextOf(c, OpenFrame(c, PyDecode(key), PyDecode(token)))
  }

  function DecryptInBrowser(c: Crypto, key: string, token: string): Option<seq<Byte>> {
    OpenFrame(c, JsDecode(key), JsDecode(token))
  }

  // ---- Passphrase ----

  predicate IsPassphraseToken(token: string) {
    PASSPHRASE_PREFIX + "." <= token
  }

  function Join(salt: string, frame: string): string {
    PASSPHRASE_PREFIX + "." + salt + "." + frame
  }

  /** None when the key cannot be derived. */
  function EncryptWithPassphrase(c: Crypto, passphrase: string, plaintext: string, salt: seq<Byte>,
                                 nonce: seq<Byte>): Option<string> {
    var key := c.derive(c.utf8(passphrase), salt);
    if key.None? || !ValidKey(key.value) then None
    else Some(Join(Encode(salt), Frame(nonce, c.seal(key.value, nonce, c.utf8(plaintext)))))
  }

  /** `split(".")`. */
  function Split(text: string): (parts: seq<string>)
    ensures parts != []
  {
    if text == "" then [""]
    else
      var rest := Split(text[1..]);
      if text[0] == '.' then [""] + rest else [[text[0]] + rest[0]] + rest[1..]
  }

  function OpenParts(c: Crypto, passphrase: string, salt: Option<seq<Byte>>, raw: Option<seq<Byte>>): Option<seq<Byte>> {
    if salt.None? then None else OpenFrame(c, c.derive(c.utf8(passphrase), salt.value), raw)
  }

  /** Python insists on exactly three parts. */
  function OpenInPython(c: Crypto, passphrase: string, token: string): Option<seq<Byte>> {
    var parts := Split(token);
    if |parts| != 3 || parts[0] != PASSPHRASE_PREFIX then None
    else OpenParts(c, passphrase, PyDecode(parts[1]), PyDecode(parts[2]))
  }

  function DecryptWithPassphrase(c: Crypto, passphrase: string, token: string): Option<string> {
    TextOf(c, OpenInPython(c, passphrase, token))
  }

  /** The browser takes the second and third part, whatever else there is; a missing one throws. */
  function OpenInBrowser(c: Crypto, passphrase: string, token: string): Option<seq<Byte>> {
    var parts := Split(token);
    if |parts| < 3 then None else OpenParts(c, passphrase, JsDecode(parts[1]), JsDecode(parts[2]))
  }

  // ---- Splitting ----

  lemma {:induction false} SplitJoin(head: string, tail: string)
    requires '.' !in head
    ensures Split(head + "." + tail) == [head] + Split(tail)
  {
    var text := head + "." + tail;
    if head == "" {
      assert text[0] == '.' && text[1..] == tail;
    } else {
      assert text[0] == head[0] && text[1..] == head[1..] + "." + tail;
      SplitJoin(head[1..], tail);
      assert [head[0]] + head[1..] == head;
      assert ([head[1..]] + Split(tail))[1..] == Split(tail);
    }
  }

  lemma {:induction false} SplitWhole(text: string)
    requires '.' !in text
    ensures Split(text) == [text]
  {
    if text != "" {
      SplitWhole(text[1..]);
      assert [text[0]] + text[1..] == text;
    }
  }

  lemma {:induction false} FirstPart(text: string)
    ensures |Split(text)[0]| <= |text| && text[..|Split(text)[0]|] == Split(text)[0]
    ensures |Split(text)| >= 2 ==> |Split(text)[0]| < |text| && text[|Split(text)[0]|] == '.'
  {
    if text != "" { FirstPart(text[1..]); }
  }

  /** The prefix test is the test of the first part. */
  lemma ClassifiedByFirstPart(token: string)
    ensures IsPassphraseToken(token) <==> |Split(token)| >= 2 && Split(token)[0] == "a2"
  {
    if IsPassphraseToken(token) {
      assert token == "a2" + "." + token[3..];
      SplitJoin("a2", token[3..]);
    } else {
      FirstPart(token);
    }
  }

  // ---- Round trips ----

  lemma FrameOpens(c: Crypto, key: seq<Byte>, nonce: seq<Byte>, plain: seq<Byte>)
    requires c.Inverts() && |nonce| == NONCE_LEN && ValidKey(key)
    ensures var frame := Frame(nonce, c.seal(key, nonce, plain));
            && OpenFrame(c, Some(key), PyDecode(frame)) == Some(plain)
            && PyDecode(frame) == JsDecode(frame) && '.' !in frame
  {
    var sealed := c.seal(key, nonce, plain);
    RoundTrip(nonce + sealed);
    EncodingShape(nonce + sealed);
    assert Take(nonce + sealed, NONCE_LEN) == nonce && Drop(nonce + sealed, NONCE_LEN) == sealed;
  }

  /** For every key string that encryption accepts, every nonce and every text: the token is the
      encoding of the nonce and the ciphertext behind it, decrypts to the text, in the browser too when it takes the key, and is never taken for a passphrase
      token. */
  lemma RandomKeyRoundTrip(c: Crypto, key: string, plaintext: string, nonce: seq<Byte>)
    requires c.Inverts() && |nonce| == 12 && Encrypt(c, key, plaintext, nonce).Some?
    ensures var token := Encrypt(c, key, plaintext, nonce).value;
            && token == Encode(nonce + c.seal(PyDecode(key).value, nonce, c.utf8(plaintext)))
            && Decrypt(c, key, token) == Some(plaintext)
            && (JsDecode(key).Some? ==> DecryptInBrowser(c, key, token) == Some(c.utf8(plaintext)))
            && !IsPassphraseToken(token) && Split(token) == [token]
  {
    var token := Encrypt(c, key, plaintext, nonce).value;
    FrameOpens(c, PyDecode(key).value, nonce, c.utf8(plaintext));
    if JsDecode(key).Some? { SameBytes(key); }
    SplitWhole(token);
    ClassifiedByFirstPart(token);
  }

  /** The encoding of random bytes is accepted as a key when they are 16, 24 or 32, and read alike on
      both sides. */
  lemma GeneratedKeysWork(c: Crypto, key: seq<Byte>, plaintext: string, nonce: seq<Byte>)
    ensures Encrypt(c, Encode(key), plaintext, nonce).Some? <==> |key| == 16 || |key| == 24 || |key| == 32
    ensures PyDecode(Encode(key)) == JsDecode(Encode(key)) == Some(key)
  {
    RoundTrip(key);
    KeyLengths(key);
  }

  lemma SplitThree(a: string, b: string, rest: string)
    requires '.' !in a && '.' !in b
    ensures Split(a + "." + b + "." + rest) == [a, b] + Split(rest)
  {
    assert a + "." + b + "." + rest == a + "." + (b + "." + rest);
    SplitJoin(a, b + "." + rest);
    SplitJoin(b, rest);
    assert [a] + ([b] + Split(rest)) == [a, b] + Split(rest);
  }

  lemma SplitJoined(salt: string, frame: string)
    requires '.' !in salt && '.' !in frame
    ensures Split(Join(salt, frame)) == [PASSPHRASE_PREFIX, salt, frame]
  {
    SplitThree(PASSPHRASE_PREFIX, salt, frame);
    SplitWhole(frame);
  }

  /** The parts of a passphrase token and what they open to. */
  lemma TokenParts(c: Crypto, passphrase: string, plaintext: string, salt: seq<Byte>, nonce: seq<Byte>)
    returns (frame: string)
    requires c.Inverts() && |salt| == SALT_LEN && |nonce| == NONCE_LEN
    ensures '.' !in frame && '.' !in Encode(salt)
    ensures EncryptWithPassphrase(c, passphrase, plaintext, salt, nonce) == Some(Join(Encode(salt), frame))
    ensures PyDecode(Encode(salt)) == JsDecode(Encode(salt)) == Some(salt) && PyDecode(frame) == JsDecode(frame)
    ensures OpenParts(c, passphrase, Some(salt), PyDecode(frame)) == Some(c.utf8(plaintext))
    ensures var key := c.derive(c.utf8(passphrase), salt);
            key.Some? && frame == Encode(nonce + c.seal(key.value, nonce, c.utf8(plaintext)))
  {
    assert c.DerivesKey(c.utf8(passphrase), salt);
    var key := c.derive(c.utf8(passphrase), salt).value;
    frame := Frame(nonce, c.seal(key, nonce, c.utf8(plaintext)));
    FrameOpens(c, key, nonce, c.utf8(plaintext));
    RoundTrip(salt);
    EncodingShape(salt);
  }

  /** For every passphrase, text, salt and nonce: the token has the parts "a2", salt, and nonce with
      ciphertext, is classified as a passphrase token, and decrypts to the text on both sides. */
  lemma PassphraseRoundTrip(c: Crypto, passphrase: string, plaintext: string, salt: seq<Byte>, nonce: seq<Byte>)
    requires c.Inverts() && |salt| == 16 && |nonce| == 12
    ensures var token := EncryptWithPassphrase(c, passphrase, plaintext, salt, nonce);
            var key := c.derive(c.utf8(passphrase), salt);
            && token.Some? && IsPassphraseToken(token.value) && key.Some?
            && Split(token.value) == ["a2", Encode(salt), Encode(nonce + c.seal(key.value, nonce, c.utf8(plaintext)))]
            && DecryptWithPassphrase(c, passphrase, token.value) == Some(plaintext)
            && OpenInBrowser(c, passphrase, token.value) == Some(c.utf8(plaintext))
  {
    var frame := TokenParts(c, passphrase, plaintext, salt, nonce);
    SplitJoined(Encode(salt), frame);
    ClassifiedByFirstPart(Join(Encode(salt), frame));
  }

  // ---- A cipher that keeps nothing secret ----

  function CharBytes(c: char): seq<Byte> {
    [c as int / 65536, c as int / 256 % 256, c as int % 256]
  }

  function CharFrom(a: Byte, b: Byte, c: Byte): char {
    var n := a * 65536 + b * 256 + c;
    if n < 0xD800 || 0xE000 <= n < 0x11_0000 then n as char else '?'
  }

  function Wide(text: string): seq<Byte> {
    if text == "" then [] else CharBytes(text[0]) + Wide(text[1..])
  }

  function Narrow(bytes: seq<Byte>): string {
    if |bytes| < 3 then "" else [CharFrom(bytes[0], bytes[1], bytes[2])] + Narrow(bytes[3..])
  }

  lemma {:induction false} NarrowWide(text: string)
    ensures Narrow(Wide(text)) == text
  {
    if text != "" {
      NarrowWide(text[1..]);
      assert Wide(text)[3..] == Wide(text[1..]);
    }
  }

  function Glass(): Crypto {
    Crypto((key, nonce, plain) => plain, (key, nonce, sealed) => Some(sealed),
           (passphrase, salt) => Some(seq(32, _ => 0)), text => Wide(text), bytes => Some(Narrow(bytes)))
  }

  lemma GlassInverts()
    ensures Glass().Inverts()
  {
    forall s: string ensures Glass().text(Glass().utf8(s)) == Some(s) { NarrowWide(s); }
  }

  // ---- The two sides compared ----

  ghost predicate SameResult(c: Crypto, passphrase: string, token: string) {
    OpenInPython(c, passphrase, token) == OpenInBrowser(c, passphrase, token)
  }

  /** Under every cipher and passphrase both sides make the same of the token. */
  ghost predicate SidesAgree(token: string) {
    forall c: Crypto, passphrase: string :: c.Inverts() ==> SameResult(c, passphrase, token)
  }

  predicate ReadInPython(parts: seq<string>)
    requires |parts| >= 3
  {
    PyDecode(parts[1]).Some? && PyDecode(parts[2]).Some?
  }

  predicate ReadInBrowser(parts: seq<string>)
    requires |parts| >= 3
  {
    JsDecode(parts[1]).Some? && JsDecode(parts[2]).Some?
  }

  /** A token with the prefix: with three parts the sides agree exactly when salt and frame are
      readable on both or on neither; with more parts, exactly when the browser reads them not. */
  lemma {:induction false} SidesAgreeIff(token: string)
    requires IsPassphraseToken(token)
    ensures SidesAgree(token) <==>
            var parts := Split(token);
            |parts| < 3 || (if |parts| == 3 then ReadInPython(parts) <==> ReadInBrowser(parts) else !ReadInBrowser(parts))
  {
    var parts := Split(token);
    ClassifiedByFirstPart(token);
    if |parts| >= 3 {
      if |parts| == 3 && ReadInPython(parts) && ReadInBrowser(parts) {
        SameBytes(parts[1]);
        SameBytes(parts[2]);
      } else if ReadInBrowser(parts) || (|parts| == 3 && ReadInPython(parts)) {
        GlassInverts();
        assert !SameResult(Glass(), "", token);
      } else {
        forall c: Crypto, passphrase: string | c.Inverts() ensures SameResult(c, passphrase, token) {
        }
      }
    }
  }

  /** With salt and frame spelled in the URL alphabet only the number of parts tells them apart. */
  lemma SpelledSidesAgreeIff(token: string)
    requires IsPassphraseToken(token) && |Split(token)| >= 3
    requires InAlphabet(ToStd(Split(token)[1])) && InAlphabet(ToStd(Split(token)[2]))
    ensures SidesAgree(token) <==>
            var parts := Split(token);
            |parts| == 3 || |parts[1]| % 4 == 1 || |parts[2]| % 4 == 1
  {
    SidesAgreeIff(token);
    AlphabetAgrees(Split(token)[1]);
    AlphabetAgrees(Split(token)[2]);
  }

  lemma SplitAppended(salt: string, frame: string, junk: string)
    requires '.' !in salt && '.' !in frame
    ensures Split(Join(salt, frame) + "." + junk) == [PASSPHRASE_PREFIX, salt, frame] + Split(junk)
  {
    var head := PASSPHRASE_PREFIX + "." + salt + ".";
    assert head + frame + "." + junk == head + (frame + "." + junk);
    SplitThree(PASSPHRASE_PREFIX, salt, frame + "." + junk);
    SplitJoin(frame, junk);
  }

  /** A valid token with anything appended after a further dot still opens in the browser only. */
  lemma BrowserIgnoresExtraParts(c: Crypto, passphrase: string, plaintext: string, salt: seq<Byte>, nonce: seq<Byte>,
                                 junk: string)
    requires c.Inverts() && |salt| == 16 && |nonce| == 12
    ensures var token := EncryptWithPassphrase(c, passphrase, plaintext, salt, nonce);
            && token.Some?
            && OpenInPython(c, passphrase, token.value + "." + junk) == None
            && OpenInBrowser(c, passphrase, token.value + "." + junk) == Some(c.utf8(plaintext))
  {
    var frame := TokenParts(c, passphrase, plaintext, salt, nonce);
    SplitAppended(Encode(salt), frame, junk);
  }

  lemma SameTail(head: string, a: string, b: string)
    requires head + a == head + b
    ensures a == b
  {
    assert a == (head + a)[|head|..] && b == (head + b)[|head|..];
  }

  lemma NoDots(a: string, b: string, at: nat)
    requires at <= |a| && '.' !in a && '.' !in b
    ensures '.' !in a[..at] + b + a[at..]
  {
  }

  /** A valid token with four characters of junk anywhere in its salt opens in Python only. */
  lemma PythonIgnoresJunk(c: Crypto, passphrase: string, plaintext: string, salt: seq<Byte>, nonce: seq<Byte>,
                          frame: string, at: nat, junk: string)
    requires c.Inverts() && |salt| == 16 && |nonce| == 12 && at <= |Encode(salt)|
    requires EncryptWithPassphrase(c, passphrase, plaintext, salt, nonce) == Some(Join(Encode(salt), frame))
    requires Junk(junk) && |junk| == 4 && '.' !in junk
    ensures var token := Join(Encode(salt)[..at] + junk + Encode(salt)[at..], frame);
            && DecryptWithPassphrase(c, passphrase, token) == Some(plaintext)
            && OpenInBrowser(c, passphrase, token) == None
  {
    var spoiled := Encode(salt)[..at] + junk + Encode(salt)[at..];
    var frame' := TokenParts(c, passphrase, plaintext, salt, nonce);
    SameTail(PASSPHRASE_PREFIX + "." + Encode(salt) + ".", frame, frame');
    EncodingSpelled(salt);
    JunkInside(Encode(salt), at, junk);
    NoDots(Encode(salt), junk, at);
    SplitJoined(spoiled, frame);
  }
}
