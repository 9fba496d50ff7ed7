/** Secrets in item and channel configurations: encrypted at rest, redacted on read, kept when
    the redacted form is written back. Fernet is a parameter. */
module SealedConfig {
  import opened Common
  import opened AlertModel

  const PREFIX := "enc:v1:"
  const REDACTED := "__redacted__"
  const SEALED_TARGET_FIELDS := ["url", "to"]

  /** Fernet tokens depend on a timestamp and a random vector, here the second argument. */
  datatype Fernet = Fernet(seal: (string, int) -> string, open: string -> Option<string>)
  {
    ghost predicate Inverts() {
      forall plain, nonce :: open(seal(plain, nonce)) == Some(plain)
    }
  }

  predicate IsEncrypted(value: string) { PREFIX <= value }

  function EncryptSecret(f: Fernet, plain: string, nonce: int): string {
    if IsEncrypted(plain) then plain else PREFIX + f.seal(plain, nonce)
  }

  /** Plaintext and undecryptable values come back unchanged. */
  function DecryptSecret(f: Fernet, value: string): string {
    if !IsEncrypted(value) then value
    else var plain := f.open(value[|PREFIX|..]); if plain.Some? then plain.value else value
  }

  // ---- Configurations ----

  /** JSON values, as far as sealing looks at them: null, text, or something else with its Python
      truth value and its `str()`. */
  datatype Json = Null | Text(s: string) | Other(truthy: bool, shown: string)
  {
    predicate Truthy() { if Text? then s != "" else Other? && truthy }

    function Str(): string {
      match this
      case Null => "None"
      case Text(s) => s
      case Other(_, shown) => shown
    }

    /** `in (None, "", REDACTED)` */
    predicate LeftBlank() { this == Null || this == Text("") || this == Text(REDACTED) }
  }

  type Config = map<string, Json>

  function Get(config: Config, field: string): Json {
    if field in config then config[field] else Null
  }

  function Pop(config: Config, field: string): Config {
    map k | k in config && k != field :: config[k]
  }

  /** A write-only secret: dropped when blank or redacted, encrypted otherwise. */
  function SealSecret(f: Fernet, config: Config, field: string, nonce: int): Config {
    var v := Get(config, field);
    if !v.Truthy() || v == Text(REDACTED) then Pop(config, field)
    else config[field := Text(EncryptSecret(f, v.Str(), nonce))]
  }

  function RedactSecret(config: Config, field: string): Config {
    if Get(config, field).Truthy() then config[field := Text(REDACTED)] else config
  }

  /** A blank or redacted secret stands for the stored one. */
  function KeepSecret(stored: Config, submitted: Config, field: string): Config {
    if Get(submitted, field).LeftBlank() && Get(stored, field).Truthy()
    then submitted[field := stored[field]] else submitted
  }

  function SealedTarget(f: Fernet, v: Json, nonce: int): Json {
    if v.Truthy() then Text(EncryptSecret(f, v.Str(), nonce)) else v
  }

  function SealTarget(f: Fernet, config: Config, field: string, nonce: int): Config {
    var v := Get(config, field);
    if v.Truthy() then config[field := SealedTarget(f, v, nonce)] else config
  }

  function ShownTarget(f: Fernet, v: Json): Json {
    if v.Truthy() then Text(DecryptSecret(f, v.Str())) else v
  }

  function ShowTarget(f: Fernet, config: Config, field: string): Config {
    var v := Get(config, field);
    if v.Truthy() then config[field := ShownTarget(f, v)] else config
  }

  // ---- Items ----

  function SealItem(f: Fernet, config: Config, nonce: int): Config {
    SealSecret(f, config, "community", nonce)
  }

  function ReadItem(config: Config): Config {
    RedactSecret(config, "community")
  }

  function UpdatedItem(f: Fernet, stored: Config, submitted: Config, nonce: int): Config {
    SealItem(f, KeepSecret(stored, submitted, "community"), nonce)
  }

  // ---- Channels ----

  function SealChannel(f: Fernet, config: Config, nonce: string -> int): Config {
    SealTarget(f, SealTarget(f, SealSecret(f, config, "secret", nonce("secret")), "url", nonce("url")), "to", nonce("to"))
  }

  function ReadChannel(f: Fernet, config: Config): Config {
    ShowTarget(f, ShowTarget(f, RedactSecret(config, "secret"), "url"), "to")
  }

  function UpdatedChannel(f: Fernet, stored: Config, submitted: Config, nonce: string -> int): Config {
    SealChannel(f, KeepSecret(stored, submitted, "secret"), nonce)
  }

  class Item {
    const fernet: Fernet
    var columns: map<string, Json>
    var config: Config

    constructor (fernet: Fernet, columns: map<string, Json>, submitted: Config, nonce: int)
      ensures this.fernet == fernet && this.columns == columns && config == SealItem(fernet, submitted, nonce)
    {
      this.fernet, this.columns := fernet, columns;
      config := SealItem(fernet, submitted, nonce);
    }

    /** `payload` holds the submitted columns but the configuration, which comes apart. */
    method Update(payload: map<string, Json>, submitted: Option<Config>, nonce: int)
      modifies this
      ensures columns == old(columns) + payload
      ensures config == if submitted.None? then old(config) else UpdatedItem(fernet, old(config), submitted.value, nonce)
    {
      if submitted.Some? {
        var replacement := submitted.value;
        if Get(replacement, "community").LeftBlank() && Get(config, "community").Truthy() {
          replacement := replacement["community" := config["community"]];
        }
        config := SealItem(fernet, replacement, nonce);
      }
      var pending := payload.Keys;
      while pending != {}
        invariant pending <= payload.Keys
        invariant columns.Keys == old(columns).Keys + (payload.Keys - pending)
        invariant forall k :: k in columns ==>
          columns[k] == if k in payload.Keys - pending then payload[k] else old(columns)[k]
        invariant config == if submitted.None? then old(config) else UpdatedItem(fernet, old(config), submitted.value, nonce)
      {
        var field :| field in pending;
        columns := columns[field := payload[field]];
        pending := pending - {field};
      }
    }
  }

  /** A configuration is submitted together with the channel type it is for. */
  datatype Submission = Submission(kind: ChannelType, config: Config)

  class Channel {
    const fernet: Fernet
    var name: string
    var enabled: bool
    var minSeverity: Severity
    var kind: ChannelType
    var config: Config

    constructor (fernet: Fernet, name: string, enabled: bool, minSeverity: Severity, submitted: Submission,
                 nonce: string -> int)
      ensures this.fernet == fernet && this.name == name && this.enabled == enabled
      ensures this.minSeverity == minSeverity && kind == submitted.kind
      ensures config == SealChannel(fernet, submitted.config, nonce)
    {
      this.fernet, this.name, this.enabled, this.minSeverity := fernet, name, enabled, minSeverity;
      kind, config := submitted.kind, SealChannel(fernet, submitted.config, nonce);
    }

    method Seal(submitted: Config, nonce: string -> int) returns (sealed: Config)
      ensures sealed == SealChannel(fernet, submitted, nonce)
    {
      sealed := SealSecret(fernet, submitted, "secret", nonce("secret"));
      ghost var start := sealed;
      for i := 0 to |SEALED_TARGET_FIELDS|
        invariant i == 0 ==> sealed == start
        invariant i == 1 ==> sealed == SealTarget(fernet, start, "url", nonce("url"))
        invariant i == 2 ==> sealed == SealTarget(fernet, SealTarget(fernet, start, "url", nonce("url")), "to", nonce("to"))
      {
        var field := SEALED_TARGET_FIELDS[i];
        var v := Get(sealed, field);
        if v.Truthy() {
          sealed := sealed[field := Text(EncryptSecret(fernet, v.Str(), nonce(field)))];
        }
      }
    }

    method Update(newName: Option<string>, newEnabled: Option<bool>, newSeverity: Option<Severity>,
                  submitted: Option<Submission>, nonce: string -> int)
      modifies this
      ensures name == Or(newName, old(name)) && enabled == Or(newEnabled, old(enabled))
      ensures minSeverity == Or(newSeverity, old(minSeverity))
      ensures kind == if submitted.None? then old(kind) else submitted.value.kind
      ensures config == if submitted.None? then old(config)
                        else UpdatedChannel(fernet, old(config), submitted.value.config, nonce)
    {
      if newName.Some? {
        name := newName.value;
      }
      if newEnabled.Some? {
        enabled := newEnabled.value;
      }
      if newSeverity.Some? {
        minSeverity := newSeverity.value;
      }
      if submitted.Some? {
        kind := submitted.value.kind;
        config := Seal(KeepSecret(config, submitted.value.config, "secret"), nonce);
      }
    }
  }

  // ---- Field encryption ----

  lemma DecryptsUnder(f: Fernet, plain: string, nonce: int)
    requires f.Inverts()
    ensures DecryptSecret(f, EncryptSecret(f, plain, nonce)) == plain <==>
            !IsEncrypted(plain) || f.open(plain[|PREFIX|..]) == None || f.open(plain[|PREFIX|..]) == Some(plain)
  {
    if !IsEncrypted(plain) {
      var token := f.seal(plain, nonce);
      assert (PREFIX + token)[|PREFIX|..] == token;
    }
  }

  function Unmark(token: string, value: string): Option<string> {
    if value == token then Some("")
    else if token + "#" <= value then Some(value[|token| + 1..]) else None
  }

  /** A cipher whose ciphertexts start with `token` and to which `token` itself opens too. */
  function Marking(token: string): Fernet {
    Fernet((plain, nonce) => token + "#" + plain, value => Unmark(token, value))
  }

  lemma MarkingInverts(token: string)
    ensures Marking(token).Inverts()
  {
    forall plain, nonce ensures Marking(token).open(Marking(token).seal(plain, nonce)) == Some(plain) {
      assert (token + "#" + plain)[|token| + 1..] == plain;
    }
  }

  ghost predicate SurvivesStorage(f: Fernet, plain: string, nonce: int) {
    DecryptSecret(f, EncryptSecret(f, plain, nonce)) == plain
  }

  /** Encrypting and decrypting gives a secret back under every cipher exactly when it does not
      already carry the encryption prefix. */
  lemma {:induction false} EncryptDecryptIff(plain: string)
    ensures (forall f: Fernet, nonce: int :: f.Inverts() ==> SurvivesStorage(f, plain, nonce)) <==> !IsEncrypted(plain)
  {
    if IsEncrypted(plain) {
      var f := Marking(plain[|PREFIX|..]);
      MarkingInverts(plain[|PREFIX|..]);
      assert f.open(plain[|PREFIX|..]) == Some("") && plain != "";
      assert !SurvivesStorage(f, plain, 0);
    } else {
      forall f: Fernet, nonce: int | f.Inverts() ensures SurvivesStorage(f, plain, nonce) {
        DecryptsUnder(f, plain, nonce);
      }
    }
  }

  // ---- Lens laws of a write-only secret ----

  /** The field is absent or holds ciphertext. */
  predicate SecretSealed(config: Config, field: string) {
    field in config ==> config[field].Text? && IsEncrypted(config[field].s)
  }

  lemma SealingSeals(f: Fernet, config: Config, field: string, nonce: int)
    ensures SecretSealed(SealSecret(f, config, field, nonce), field)
  {
  }

  lemma EncryptedIsNotBlank(value: string)
    requires IsEncrypted(value)
    ensures value != "" && value != REDACTED
  {
    assert value[0] == 'e' && REDACTED[0] == '_';
  }

  /** Sealing a sealed secret again changes nothing. */
  lemma ResealingIsIdentity(f: Fernet, config: Config, field: string, nonce: int)
    requires SecretSealed(config, field)
    ensures SealSecret(f, config, field, nonce) == config
  {
    if field in config {
      EncryptedIsNotBlank(config[field].s);
      assert config[field := config[field]] == config;
    } else {
      assert Pop(config, field) == config;
    }
  }

  /** Writing back what was read keeps the whole configuration bit-identical exactly when the
      secret is stored sealed: a legacy plaintext is encrypted, an empty field is dropped. */
  lemma WriteBackIff(f: Fernet, stored: Config, field: string, nonce: int)
    ensures SealSecret(f, KeepSecret(stored, RedactSecret(stored, field), field), field, nonce) == stored
       <==> SecretSealed(stored, field)
  {
    var kept := KeepSecret(stored, RedactSecret(stored, field), field);
    assert kept == stored by {
      if Get(stored, field).Truthy() { assert stored[field := Text(REDACTED)][field := stored[field]] == stored; }
    }
    if SecretSealed(stored, field) {
      ResealingIsIdentity(f, stored, field, nonce);
    } else {
      SealingSeals(f, stored, field, nonce);
    }
  }

  /** A fresh plaintext is stored encrypted and decrypts to itself; the other fields are the
      submitted ones. */
  lemma FreshSecretIsStored(f: Fernet, stored: Config, submitted: Config, field: string, plain: string, nonce: int)
    requires f.Inverts() && field in submitted && submitted[field] == Text(plain)
    requires plain != "" && plain != REDACTED && !IsEncrypted(plain)
    ensures var after := SealSecret(f, KeepSecret(stored, submitted, field), field, nonce);
            && field in after && after[field].Text? && IsEncrypted(after[field].s)
            && DecryptSecret(f, after[field].s) == plain
            && Pop(after, field) == Pop(submitted, field)
  {
    DecryptsUnder(f, plain, nonce);
  }

  // ---- Items ----

  /** Every stored item configuration is sealed, so reading and writing back changes nothing. */
  lemma ItemLens(f: Fernet, stored: Config, submitted: Config, nonce: int, later: int)
    ensures var after := UpdatedItem(f, stored, submitted, nonce);
            && SecretSealed(after, "community")
            && UpdatedItem(f, after, ReadItem(after), later) == after
            && SealItem(f, after, later) == after
  {
    var kept := KeepSecret(stored, submitted, "community");
    SealingSeals(f, kept, "community", nonce);
    ResealingIsIdentity(f, UpdatedItem(f, stored, submitted, nonce), "community", later);
    WriteBackIff(f, UpdatedItem(f, stored, submitted, nonce), "community", later);
  }

  // ---- Channels ----

  predicate TargetSealed(config: Config, field: string) {
    Get(config, field).Truthy() ==> config[field].Text? && IsEncrypted(config[field].s)
  }

  predicate ChannelSealed(config: Config) {
    SecretSealed(config, "secret") && TargetSealed(config, "url") && TargetSealed(config, "to")
  }

  lemma ChannelSealing(f: Fernet, config: Config, nonce: string -> int, later: string -> int)
    ensures var once := SealChannel(f, config, nonce); ChannelSealed(once) && SealChannel(f, once, later) == once
  {
    var once := SealChannel(f, config, nonce);
    SealingSeals(f, config, "secret", nonce("secret"));
    assert ChannelSealed(once);
    ResealingIsIdentity(f, once, "secret", later("secret"));
    forall field, n | field == "url" || field == "to" ensures SealTarget(f, once, field, n) == once {
      if Get(once, field).Truthy() { assert once[field := once[field]] == once; }
    }
  }

  /** What the owner sees of a target. */
  function Shown(f: Fernet, config: Config, field: string): Json {
    ShownTarget(f, Get(config, field))
  }

  /** What the owner sees does not decrypt any further. A URL or a mail address never looks
      encrypted, and a target whose key is gone is shown as stored, so both qualify. */
  predicate Stable(f: Fernet, shown: Json) {
    shown.Truthy() ==> DecryptSecret(f, shown.Str()) == shown.Str()
  }

  /** The web form and the API always submit a webhook's secret field, null when it has none. */
  function Resubmitted(f: Fernet, stored: Config, webhook: bool): Config {
    var shown := ReadChannel(f, stored);
    if webhook && "secret" !in shown then shown["secret" := Null] else shown
  }

  lemma ReadChannelFields(f: Fernet, stored: Config, webhook: bool)
    requires ChannelSealed(stored)
    ensures var s := Resubmitted(f, stored, webhook);
            && Get(s, "url") == Shown(f, stored, "url") && Get(s, "to") == Shown(f, stored, "to")
            && Get(s, "secret") == (if "secret" in stored then Text(REDACTED) else Null)
            && forall k :: k != "secret" && k != "url" && k != "to" ==> (k in s <==> k in stored) && Get(s, k) == Get(stored, k)
  {
  }

  lemma SealChannelFields(f: Fernet, config: Config, nonce: string -> int)
    ensures var s := SealChannel(f, config, nonce);
            && Get(s, "secret") == Get(SealSecret(f, config, "secret", nonce("secret")), "secret")
            && Get(s, "url") == SealedTarget(f, Get(config, "url"), nonce("url"))
            && Get(s, "to") == SealedTarget(f, Get(config, "to"), nonce("to"))
            && forall k :: k != "secret" && k != "url" && k != "to" ==> (k in s <==> k in config) && Get(s, k) == Get(config, k)
  {
  }

  /** Writing back exactly what the read schema returned keeps the stored secret bit-identical and
      touches no other field than the two targets. */
  lemma {:induction false} ChannelLens(f: Fernet, stored: Config, webhook: bool, nonce: string -> int)
    requires ChannelSealed(stored)
    ensures var after := UpdatedChannel(f, stored, Resubmitted(f, stored, webhook), nonce);
            && Get(after, "secret") == Get(stored, "secret")
            && forall k :: k != "secret" && k != "url" && k != "to" ==> Get(after, k) == Get(stored, k)
  {
    ReadChannelFields(f, stored, webhook);
    SealChannelFields(f, KeepSecret(stored, Resubmitted(f, stored, webhook), "secret"), nonce);
    if "secret" in stored { EncryptedIsNotBlank(stored["secret"].s); }
  }

  /** `v` is stored: a target that is set holds ciphertext. */
  lemma ShownAfterSealing(f: Fernet, v: Json, nonce: int)
    requires f.Inverts() && (v.Truthy() ==> v.Text?)
    ensures var shown := ShownTarget(f, v);
            ShownTarget(f, SealedTarget(f, shown, nonce)) == shown <==> Stable(f, shown)
  {
    var shown := ShownTarget(f, v);
    if shown.Truthy() { DecryptsUnder(f, shown.Str(), nonce); }
  }

  /** After the same write-back a target is shown unchanged exactly when what was shown is stable. */
  lemma {:induction false} TargetLensIff(f: Fernet, stored: Config, webhook: bool, nonce: string -> int, field: string)
    requires f.Inverts() && ChannelSealed(stored) && (field == "url" || field == "to")
    ensures var after := UpdatedChannel(f, stored, Resubmitted(f, stored, webhook), nonce);
            Shown(f, after, field) == Shown(f, stored, field) <==> Stable(f, Shown(f, stored, field))
  {
    ReadChannelFields(f, stored, webhook);
    SealChannelFields(f, KeepSecret(stored, Resubmitted(f, stored, webhook), "secret"), nonce);
    ShownAfterSealing(f, Get(stored, field), nonce(field));
  }

  // ---- What is stored and shown, value by value ----

  /** Text with the prefix is stored as it is, any other one as the prefix and its ciphertext. */
  ghost predicate StoredAs(f: Fernet, plain: string, nonce: int, stored: Json) {
    stored == Text(if "enc:v1:" <= plain then plain else "enc:v1:" + f.seal(plain, nonce))
  }

  /** A submitted secret that is absent, null, empty or the redaction mark keeps the one in store, or
      stays absent without one; any other text is encrypted. */
  ghost predicate SecretRule(f: Fernet, kept: Json, submitted: Json, nonce: int, after: Json) {
    if submitted == Null || submitted == Text("") || submitted == Text("__redacted__") then
      && (kept.Text? && kept.s != "" && kept.s != "__redacted__" ==> StoredAs(f, kept.s, nonce, after))
      && (kept == Null || kept == Text("") ==> after == Null)
    else
      && (submitted.Text? ==> StoredAs(f, submitted.s, nonce, after))
      && (submitted.Other? && submitted.truthy ==> StoredAs(f, submitted.shown, nonce, after))
      && (submitted.Other? && !submitted.truthy ==> after == Null)
  }

  lemma SecretStored(f: Fernet, stored: Config, submitted: Config, field: string, nonce: int)
    ensures SecretRule(f, Get(stored, field), Get(submitted, field), nonce,
                       Get(SealSecret(f, KeepSecret(stored, submitted, field), field, nonce), field))
  {
  }

  /** An updated item holds its community by that rule, and every other field as submitted. */
  lemma ItemRule(f: Fernet, stored: Config, submitted: Config, nonce: int, field: string)
    ensures var after := UpdatedItem(f, stored, submitted, nonce);
            && SecretRule(f, Get(stored, "community"), Get(submitted, "community"), nonce, Get(after, "community"))
            && (field != "community" ==> Get(after, field) == Get(submitted, field) && (field in after <==> field in submitted))
  {
    SecretStored(f, stored, submitted, "community", nonce);
  }

  /** The owner never sees a community, only that there is one; everything else is shown as stored. */
  lemma ItemShown(stored: Config, field: string)
    ensures var shown := ReadItem(stored);
            && (Get(stored, "community").Text? && Get(stored, "community") != Text("") ==> Get(shown, "community") == Text("__redacted__"))
            && (field != "community" ==> Get(shown, field) == Get(stored, field) && (field in shown <==> field in stored))
  {
  }

  /** A target that is set is stored encrypted; other values stay. */
  ghost predicate TargetRule(f: Fernet, submitted: Json, nonce: int, after: Json) {
    && (submitted.Text? && submitted.s != "" ==> StoredAs(f, submitted.s, nonce, after))
    && (submitted == Null || submitted == Text("") ==> after == submitted)
  }

  lemma TargetStored(f: Fernet, v: Json, nonce: int)
    ensures TargetRule(f, v, nonce, SealedTarget(f, v, nonce))
  {
  }

  /** An updated channel holds its secret and both targets by these rules, and every other field as
      submitted. */
  lemma {:induction false} ChannelRule(f: Fernet, stored: Config, submitted: Config, nonce: string -> int, field: string)
    ensures var after := UpdatedChannel(f, stored, submitted, nonce);
            && SecretRule(f, Get(stored, "secret"), Get(submitted, "secret"), nonce("secret"), Get(after, "secret"))
            && TargetRule(f, Get(submitted, "url"), nonce("url"), Get(after, "url"))
            && TargetRule(f, Get(submitted, "to"), nonce("to"), Get(after, "to"))
            && (field != "secret" && field != "url" && field != "to" ==> Get(after, field) == Get(submitted, field))
  {
    var kept := KeepSecret(stored, submitted, "secret");
    SealChannelFields(f, kept, nonce);
    SecretStored(f, stored, submitted, "secret", nonce("secret"));
    TargetStored(f, Get(submitted, "url"), nonce("url"));
    TargetStored(f, Get(submitted, "to"), nonce("to"));
    assert forall k :: k != "secret" ==> Get(kept, k) == Get(submitted, k);
  }

  /** The owner sees that there is a secret, and both targets decrypted: a stored target without the
      prefix, or one that does not open, is shown as it is. */
  lemma {:induction false} ChannelShown(f: Fernet, stored: Config, field: string)
    ensures var shown := ReadChannel(f, stored);
            && (Get(stored, "secret").Text? && Get(stored, "secret").s != "" ==> Get(shown, "secret") == Text("__redacted__"))
            && ((field == "url" || field == "to") && Get(stored, field).Text? ==>
                  var s := Get(stored, field).s;
                  Get(shown, field) == Text(if "enc:v1:" <= s && f.open(s[7..]).Some? then f.open(s[7..]).value else s))
            && (field != "secret" && field != "url" && field != "to" ==> Get(shown, field) == Get(stored, field))
  {
  }
}
