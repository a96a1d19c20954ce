/** What the answers of the key daemon mean, in terms of the libraries and protocols alone: which bytes are
    signed by whom and with what, whom a tag is for, and what becomes of a stored seed. */
module KeypunkLaws {
  import opened Keypunk
  import opened Payload
  import opened Protocols
  import opened Wire
  import opened Wrappers

  // ----- What is signed

  predicate Summarizes(env: Environment, id: ProtocolId, raw: Bytes, summary: Bytes) {
    && id in env.protocols && env.protocols[id].decode(raw).Ok?
    && env.protocols[id].summarize(env.protocols[id].decode(raw).value) == Ok(summary)
  }

  predicate Signs(env: Environment, id: ProtocolId, seed: Bytes, path: string, raw: Bytes, entropy: Bytes,
                  signed: Bytes) {
    && id in env.protocols && env.protocols[id].decode(raw).Ok?
    && env.protocols[id].sign(seed, path, env.protocols[id].decode(raw).value, entropy) == Ok(signed)
  }

  /** The protocol with number i gives that summary, and none before it gives any. */
  ghost predicate FirstSummary(env: Environment, i: nat, raw: Bytes, summary: Bytes) {
    && i < |ORDER| && Summarizes(env, ORDER[i], raw, summary)
    && forall j, other :: 0 <= j < i ==> !Summarizes(env, ORDER[j], raw, other)
  }

  /** The protocol with number i signs, and none before it does. */
  ghost predicate FirstSignature(env: Environment, i: nat, seed: Bytes, path: string, raw: Bytes, entropy: Bytes,
                                 signed: Bytes)
  {
    && i < |ORDER| && Signs(env, ORDER[i], seed, path, raw, entropy, signed)
    && forall j, other :: 0 <= j < i ==> !Signs(env, ORDER[j], seed, path, raw, entropy, other)
  }

  /** The tag opens, under the key shared with the sender, to the hash of artifact, summary and path; or no
      protocol gives a summary. */
  ghost predicate TagAccepted(env: Environment, raw: Bytes, tag: Bytes, path: string, sender: Option<Bytes>) {
    || (forall id <- ORDER, summary :: !Summarizes(env, id, raw, summary))
    || exists i: nat, summary ::
         FirstSummary(env, i, raw, summary) &&
         env.open(env.sharedKey(if sender.Some? then sender.value else NO_PEER), tag) ==
         Ok(env.hash(raw + summary + env.toUtf8(path)))
  }

  /** The stored blob decrypts under the password to a seed, and the disk lets it be read. */
  predicate Unlocks(env: Environment, store: Store, disk: Disk, password: Bytes, seed: Bytes) {
    && disk.readSeed.None? && store.seed.Some? && env.fromUtf8(password).Ok?
    && env.decryptSeed(store.seed.value, env.fromUtf8(password).value) == Ok(seed)
  }

  /** The payload opens, under the key shared with the ephemeral one, to the encoding of fields. */
  predicate Carries(env: Environment, payload: Bytes, ephemeral: Bytes, f: Fields) {
    && env.open(env.sharedKey(ephemeral), payload) == Ok(Encode(f))
    && |f.raw| < 0x1_0000_0000 && |f.sig| < 0x1_0000_0000
  }

  /** Whether the list gives a first summary at all, and which. */
  lemma {:induction false} TryParseMeans(env: Environment, n: nat, raw: Bytes) returns (i: nat)
    requires n <= |ORDER|
    requires forall j, other :: 0 <= j < n ==> !Summarizes(env, ORDER[j], raw, other)
    ensures TryParseFrom(env, ORDER[n..], raw).Ok? ==>
              FirstSummary(env, i, raw, TryParseFrom(env, ORDER[n..], raw).value)
    ensures TryParseFrom(env, ORDER[n..], raw).Err? ==>
              forall id <- ORDER, summary :: !Summarizes(env, id, raw, summary)
    decreases |ORDER| - n
  {
    i := n;
    if n < |ORDER| {
      var id := ORDER[n];
      assert ORDER[n..][0] == id && ORDER[n..][1..] == ORDER[n + 1..];
      if ParseWith(env, id, raw).Err? {
        i := TryParseMeans(env, n + 1, raw);
      }
    } else {
      forall id, summary | id in ORDER ensures !Summarizes(env, id, raw, summary) {
        var j :| 0 <= j < |ORDER| && ORDER[j] == id;
      }
    }
  }

  lemma FirstSummaryUnique(env: Environment, i: nat, j: nat, raw: Bytes, s: Bytes, t: Bytes)
    requires FirstSummary(env, i, raw, s) && FirstSummary(env, j, raw, t)
    ensures i == j && s == t
  {}

  lemma {:induction false} TrySignMeans(env: Environment, n: nat, seed: Bytes, path: string, raw: Bytes, entropy: Bytes)
    returns (i: nat)
    requires n <= |ORDER|
    requires forall j, other :: 0 <= j < n ==> !Signs(env, ORDER[j], seed, path, raw, entropy, other)
    ensures
      var r := TrySignFrom(env, ORDER[n..], seed, path, raw, entropy);
      && (r.Ok? ==> FirstSignature(env, i, seed, path, raw, entropy, r.value))
      && (r.Err? ==> forall j, other :: 0 <= j < |ORDER| ==> !Signs(env, ORDER[j], seed, path, raw, entropy, other))
    decreases |ORDER| - n
  {
    i := n;
    if n < |ORDER| {
      var id := ORDER[n];
      assert ORDER[n..][0] == id && ORDER[n..][1..] == ORDER[n + 1..];
      if SignWith(env, id, seed, path, raw, entropy).Err? {
        i := TrySignMeans(env, n + 1, seed, path, raw, entropy);
      }
    }
  }

  lemma FirstSignatureUnique(env: Environment, i: nat, j: nat, seed: Bytes, path: string, raw: Bytes, entropy: Bytes,
                             s: Bytes, t: Bytes)
    requires FirstSignature(env, i, seed, path, raw, entropy, s) && FirstSignature(env, j, seed, path, raw, entropy, t)
    ensures i == j && s == t
  {}

  lemma SignedMeans(env: Environment, seed: Bytes, path: string, raw: Bytes, entropy: Bytes, signed: Bytes)
    ensures TrySign(env, seed, path, raw, entropy) == Ok(signed) <==>
            exists i: nat :: FirstSignature(env, i, seed, path, raw, entropy, signed)
  {
    hide TrySignFrom, Signs;
    assert ORDER[0..] == ORDER;
    var j := TrySignMeans(env, 0, seed, path, raw, entropy);
    if i: nat :| FirstSignature(env, i, seed, path, raw, entropy, signed) {
      var got := TrySign(env, seed, path, raw, entropy);
      if got.Ok? {
        FirstSignatureUnique(env, i, j, seed, path, raw, entropy, signed, got.value);
      }
    }
  }

  lemma TagMeans(env: Environment, f: Fields, path: string, sender: Option<Bytes>)
    ensures TagRefused(env, f, path, sender).None? <==> TagAccepted(env, f.raw, f.sig, path, sender)
  {
    hide FirstSummary, TryParseFrom, Summarizes;
    assert ORDER[0..] == ORDER;
    var i := TryParseMeans(env, 0, f.raw);
    var got := TryParse(env, f.raw);
    if got.Ok? {
      assert Summarizes(env, ORDER[i], f.raw, got.value) by { FirstSummarizes(env, i, f.raw, got.value); }
      forall j: nat, summary | FirstSummary(env, j, f.raw, summary) ensures summary == got.value {
        FirstSummaryUnique(env, i, j, f.raw, got.value, summary);
      }
    }
  }

  lemma FirstSummarizes(env: Environment, i: nat, raw: Bytes, summary: Bytes)
    requires FirstSummary(env, i, raw, summary)
    ensures i < |ORDER| && ORDER[i] in ORDER && Summarizes(env, ORDER[i], raw, summary)
  {}

  lemma OpenMeans(env: Environment, payload: Bytes, ephemeral: Bytes, f: Fields)
    ensures OpenPayload(env, payload, ephemeral) == Ok(f) <==> Carries(env, payload, ephemeral, f)
  {
    hide Decode, Encode;
    var plain := env.open(env.sharedKey(ephemeral), payload);
    if plain.Ok? {
      DecodeExact(plain.value);
    }
    RoundTrip(f);
  }

  /** An authorization is answered with signed bytes exactly when its payload carries fields, their tag is
      accepted for the path of the request and its sender, the stored seed unlocks with their password, and
      the first protocol that signs their artifact with that seed, at the path of the request, gives those
      bytes. */
  lemma AuthorizedIff(env: Environment, start: Store, run: seq<Event>, k: nat, signed: Bytes)
    requires k < |run| && run[k].Event? && run[k].request.AuthorizeArtifact?
    ensures
      var r, e := run[k].request, run[k];
      ResponseAt(env, start, run, k) == ArtifactAuthorized(signed) <==>
      exists f, seed, i: nat ::
        && Carries(env, r.payload, r.ephemeral, f)
        && TagAccepted(env, f.raw, f.sig, r.path, e.sender)
        && Unlocks(env, StoreAt(env, start, run, k), e.chance.disk, f.password, seed)
        && FirstSignature(env, i, seed, r.path, f.raw, e.chance.entropy, signed)
  {
    hide StoreAt, TrySign, TagAccepted, Carries, FirstSignature, TagRefused, OpenPayload, Encode, Decode;
    var e, store := run[k], StoreAt(env, start, run, k);
    var r := e.request;
    var got := OpenPayload(env, r.payload, r.ephemeral);
    forall f ensures got == Ok(f) <==> Carries(env, r.payload, r.ephemeral, f) {
      OpenMeans(env, r.payload, r.ephemeral, f);
    }
    if got.Ok? {
      var f := got.value;
      TagMeans(env, f, r.path, e.sender);
      forall seed
        ensures TrySign(env, seed, r.path, f.raw, e.chance.entropy) == Ok(signed) <==>
                exists i: nat :: FirstSignature(env, i, seed, r.path, f.raw, e.chance.entropy, signed)
      {
        SignedMeans(env, seed, r.path, f.raw, e.chance.entropy, signed);
      }
      AuthorizedStep(env, store, e, f, signed);
    }
  }

  lemma AuthorizedStep(env: Environment, store: Store, e: Event, f: Fields, signed: Bytes)
    requires e.Event? && e.request.AuthorizeArtifact?
    requires OpenPayload(env, e.request.payload, e.request.ephemeral) == Ok(f)
    ensures
      var r := e.request;
      Step(env, store, r, e.sender, e.chance).1 == ArtifactAuthorized(signed) <==>
      TagRefused(env, f, r.path, e.sender).None? &&
      exists seed :: Unlocks(env, store, e.chance.disk, f.password, seed) &&
                     TrySign(env, seed, r.path, f.raw, e.chance.entropy) == Ok(signed)
  {
    hide TrySign, TagRefused, OpenPayload;
  }

  // ----- What is previewed, and for whom

  /** A preview is answered exactly when the protocol asked for gives a summary, with a tag that seals, under
      the key shared with the sender, the hash of artifact, summary and path. */
  lemma PreviewedIff(env: Environment, store: Store, request: Request, sender: Option<Bytes>, chance: Chance,
                     raw: Bytes, summary: Bytes, tag: Bytes, key: Bytes)
    requires request.PreviewArtifact?
    ensures
      Step(env, store, request, sender, chance).1 == ArtifactPreview(raw, summary, tag, key) <==>
      && raw == request.raw && key == env.publicKey && Summarizes(env, request.protocol, raw, summary)
      && tag == env.seal(env.sharedKey(if sender.Some? then sender.value else NO_PEER), chance.nonce,
                         env.hash(raw + summary + env.toUtf8(request.path)))
  {}

  /** Where different peers share different keys with the daemon, a tag's key belongs to one sender; a
      request without a sender counts as one from a key of 32 zero bytes. */
  lemma OneSenderPerKey(env: Environment, a: Option<Bytes>, b: Option<Bytes>)
    requires forall x, y :: env.sharedKey(x) == env.sharedKey(y) ==> x == y
    ensures PeerKey(env, a) == PeerKey(env, b) <==>
            (if a.Some? then a.value else seq(32, _ => 0)) == (if b.Some? then b.value else seq(32, _ => 0))
  {
    assert NO_PEER == seq(32, _ => 0);
  }

  // ----- What a password unlocks

  /** What was sealed for the daemon by a client opens to a text. */
  predicate OpensTo(env: Environment, client: Bytes, blob: Bytes, text: string) {
    env.open(env.sharedKey(client), blob).Ok? && env.fromUtf8(env.open(env.sharedKey(client), blob).value) == Ok(text)
  }

  predicate UnlocksWith(env: Environment, store: Store, disk: Disk, client: Bytes, blob: Bytes, seed: Bytes) {
    && env.open(env.sharedKey(client), blob).Ok? &&
       Unlocks(env, store, disk, env.open(env.sharedKey(client), blob).value, seed)
  }

  lemma UnlockedMeans(env: Environment, store: Store, blob: Bytes, client: Bytes, disk: Disk, seed: Bytes)
    ensures UnlockedSeed(env, store, blob, client, disk) == Ok(seed) <==>
            UnlocksWith(env, store, disk, client, blob, seed)
  {}

  /** A viewing key is answered exactly when the password unlocks a seed of which it is the key. */
  lemma ExportedIff(env: Environment, store: Store, request: Request, sender: Option<Bytes>, chance: Chance, key: Bytes)
    requires request.ExportViewingKey?
    ensures
      Step(env, store, request, sender, chance).1 == ViewingKey(key) <==>
      exists seed ::
        && UnlocksWith(env, store, chance.disk, request.client, request.password, seed)
        && request.protocol in env.protocols &&
           env.protocols[request.protocol].viewingKey(seed, request.path) == Ok(key)
  {
    hide UnlockedSeed, UnlocksWith;
    var r := UnlockedSeed(env, store, request.password, request.client, chance.disk);
    forall seed
      ensures r == Ok(seed) <==> UnlocksWith(env, store, chance.disk, request.client, request.password, seed)
    {
      UnlockedMeans(env, store, request.password, request.client, chance.disk, seed);
    }
  }

  lemma VerifiedIff(env: Environment, store: Store, request: Request, sender: Option<Bytes>, chance: Chance)
    requires request.VerifyPassword?
    ensures
      Step(env, store, request, sender, chance).1 == PasswordVerified <==>
      exists seed :: UnlocksWith(env, store, chance.disk, request.client, request.password, seed)
  {
    hide UnlockedSeed, UnlocksWith;
    var r := UnlockedSeed(env, store, request.password, request.client, chance.disk);
    forall seed
      ensures r == Ok(seed) <==> UnlocksWith(env, store, chance.disk, request.client, request.password, seed)
    {
      UnlockedMeans(env, store, request.password, request.client, chance.disk, seed);
    }
  }

  /** The keys of a list of paths, one for each and in their order. */
  predicate AreKeysOf(env: Environment, seed: Bytes, paths: seq<(ProtocolId, string)>,
                      keys: seq<(ProtocolId, string, Bytes)>)
  {
    && |keys| == |paths|
    && forall k :: 0 <= k < |paths| ==>
                     && keys[k].0 == paths[k].0 && keys[k].1 == paths[k].1 && paths[k].0 in env.protocols
                     && env.protocols[paths[k].0].viewingKey(seed, paths[k].1) == Ok(keys[k].2)
  }

  lemma {:induction false} BulkIff(env: Environment, seed: Bytes, paths: seq<(ProtocolId, string)>,
                                   keys: seq<(ProtocolId, string, Bytes)>)
    ensures BulkKeys(env, seed, paths) == Ok(keys) <==> AreKeysOf(env, seed, paths, keys)
    decreases |paths|
  {
    if paths == [] {
    } else if keys == [] {
      BulkNotEmpty(env, seed, paths);
    } else {
      BulkIff(env, seed, paths[1..], keys[1..]);
      assert keys == [keys[0]] + keys[1..];
      BulkUnfold(env, seed, paths, keys);
      forall k | 1 <= k < |paths| ensures paths[k] == paths[1..][k - 1] {}
      if AreKeysOf(env, seed, paths, keys) {
        assert AreKeysOf(env, seed, paths[1..], keys[1..]);
      }
    }
  }

  lemma BulkNotEmpty(env: Environment, seed: Bytes, paths: seq<(ProtocolId, string)>)
    requires paths != []
    ensures BulkKeys(env, seed, paths) != Ok([])
  {}

  lemma BulkUnfold(env: Environment, seed: Bytes, paths: seq<(ProtocolId, string)>,
                   keys: seq<(ProtocolId, string, Bytes)>)
    requires paths != [] && keys != []
    ensures BulkKeys(env, seed, paths) == Ok(keys) <==>
            ViewingKeyOf(env, seed, paths[0].0, paths[0].1) == Ok(keys[0].2) && keys[0].0 == paths[0].0 &&
            keys[0].1 == paths[0].1 && BulkKeys(env, seed, paths[1..]) == Ok(keys[1..])
  {
    var rest := BulkKeys(env, seed, paths[1..]);
    if ViewingKeyOf(env, seed, paths[0].0, paths[0].1).Ok? && rest.Ok? {
      var head := (paths[0].0, paths[0].1, ViewingKeyOf(env, seed, paths[0].0, paths[0].1).value);
      assert ([head] + rest.value)[0] == head && ([head] + rest.value)[1..] == rest.value;
      assert [keys[0]] + keys[1..] == keys;
    }
  }

  // ----- A stored seed is the one that is used

  /** What is stored decrypts under its password. */
  ghost predicate Decrypts(env: Environment) {
    && (forall seed, pw, e :: env.encryptSeed(seed, pw, e).Ok? ==>
                                env.decryptSeed(env.encryptSeed(seed, pw, e).value, pw) == Ok(seed))
    && (forall phrase, pw, e :: env.encryptMnemonic(phrase, pw, e).Ok? ==>
                                  env.decryptMnemonic(env.encryptMnemonic(phrase, pw, e).value, pw) == Ok(phrase))
  }

  /** The store holds that seed and that phrase under a password. */
  ghost predicate Holds(env: Environment, store: Store, seed: Bytes, phrase: string, pw: string) {
    && store.seed.Some? && env.decryptSeed(store.seed.value, pw) == Ok(seed)
    && store.mnemonic.Some? && env.decryptMnemonic(store.mnemonic.value, pw) == Ok(phrase)
  }

  /** After a recovery phrase is restored the store holds the seed of that phrase under the password sent. */
  lemma RestoredIsHeld(env: Environment, store: Store, request: Request, sender: Option<Bytes>, chance: Chance)
    requires request.RestoreSeed? && Decrypts(env)
    requires Step(env, store, request, sender, chance).1 == SeedRestored
    ensures
      exists phrase, pw, seed ::
        && OpensTo(env, request.client, request.mnemonic, phrase) && OpensTo(env, request.client, request.password, pw)
        && env.seedOfMnemonic(phrase) == Ok(seed)
        && Holds(env, Step(env, store, request, sender, chance).0, seed, phrase, pw)
  {
    var pw := OpenString(env, request.client, request.password).value;
    var phrase := OpenString(env, request.client, request.mnemonic).value;
    var seed := env.seedOfMnemonic(phrase).value;
    PersistedIsHeld(env, store, seed, phrase, pw, chance, SeedRestored);
  }

  lemma PersistedIsHeld(env: Environment, store: Store, seed: Bytes, phrase: string, pw: string, chance: Chance,
                        done: Response)
    requires Decrypts(env) && !done.Error?
    ensures Persist(env, store, seed, phrase, pw, chance, done).1 == done ==>
              Holds(env, Persist(env, store, seed, phrase, pw, chance, done).0, seed, phrase, pw)
  {}

  /** After a seed is generated the store holds it, and the phrase answered, sealed for the client, is its
      phrase. */
  lemma GeneratedIsHeld(env: Environment, store: Store, request: Request, sender: Option<Bytes>, chance: Chance)
    requires request.GenerateSeed? && Decrypts(env)
    requires Step(env, store, request, sender, chance).1.SeedGenerated?
    ensures
      var (seed, phrase) := env.generate(chance.entropy);
      && (exists pw :: OpensTo(env, request.client, request.password, pw) &&
                       Holds(env, Step(env, store, request, sender, chance).0, seed, phrase, pw))
      && Step(env, store, request, sender, chance).1.mnemonic ==
         env.seal(env.sharedKey(request.client), chance.nonce, env.toUtf8(phrase))
  {
    var pw := OpenString(env, request.client, request.password).value;
    var generated := env.generate(chance.entropy);
    var done := SeedGenerated(env.seal(env.sharedKey(request.client), chance.nonce, env.toUtf8(generated.1)));
    PersistedIsHeld(env, store, generated.0, generated.1, pw, chance, done);
  }

  /** A request that generates or restores a seed and fails leaves the store as it was, unless only the
      writing of the phrase failed: then the new seed is stored beside the old phrase. */
  lemma FailedWriteIs(env: Environment, store: Store, request: Request, sender: Option<Bytes>, chance: Chance)
    requires (request.GenerateSeed? || request.RestoreSeed?) && Decrypts(env)
    requires Step(env, store, request, sender, chance).1.Error?
    ensures
      var store' := Step(env, store, request, sender, chance).0;
      || store' == store
      || (chance.disk.writeSeed.None? && chance.disk.writeMnemonic.Some? && store'.mnemonic == store.mnemonic &&
          exists pw, seed :: OpensTo(env, request.client, request.password, pw) && store'.seed.Some? &&
                             env.decryptSeed(store'.seed.value, pw) == Ok(seed))
    ensures chance.disk.writeSeed.None? && chance.disk.writeMnemonic.None? ==>
              Step(env, store, request, sender, chance).0 == store
    ensures chance.disk.writeSeed.Some? ==> Step(env, store, request, sender, chance).0 == store
  {
    var pw := OpenString(env, request.client, request.password);
    if pw.Ok? {
      assert OpensTo(env, request.client, request.password, pw.value);
    }
  }

  /** With an encryption that works and the phrase refused by the disk, the new seed is stored. */
  lemma SeedStoredAlone(env: Environment, store: Store, seed: Bytes, phrase: string, pw: string, chance: Chance,
                        done: Response)
    requires env.encryptSeed(seed, pw, chance.entropy).Ok? && env.encryptMnemonic(phrase, pw, chance.entropy).Ok?
    requires chance.disk.writeSeed.None? && chance.disk.writeMnemonic.Some? && Decrypts(env)
    ensures
      var store' := Persist(env, store, seed, phrase, pw, chance, done).0;
      store'.seed.Some? && env.decryptSeed(store'.seed.value, pw) == Ok(seed) && store'.mnemonic == store.mnemonic
  {}

  /** With the same password, however it was sealed, a client then gets the keys of that seed and that
      phrase, as long as the disk can be read. */
  lemma HeldIsUsed(env: Environment, store: Store, seed: Bytes, phrase: string, pw: string, client: Bytes, blob: Bytes,
                   protocol: ProtocolId, path: string, sender: Option<Bytes>, chance: Chance)
    requires Holds(env, store, seed, phrase, pw) && OpensTo(env, client, blob, pw)
    requires chance.disk.readSeed.None? && chance.disk.readMnemonic.None?
    ensures
      protocol in env.protocols && env.protocols[protocol].viewingKey(seed, path).Ok? ==>
        Step(env, store, ExportViewingKey(blob, client, protocol, path), sender, chance).1 ==
        ViewingKey(env.protocols[protocol].viewingKey(seed, path).value)
    ensures Step(env, store, ExportMnemonic(blob, client), sender, chance).1 ==
            MnemonicExported(env.seal(env.sharedKey(client), chance.nonce, env.toUtf8(phrase)))
    ensures Step(env, store, VerifyPassword(blob, client), sender, chance).1 == PasswordVerified
  {}
}
