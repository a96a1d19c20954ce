/** What the signer app answers and keeps, in terms of the seed, the session key and the files alone. */
module SignerLaws {
  import opened Protocols
  import opened Signer
  import opened Wire
  import opened Wrappers
  import K = Keypunk
  import L = KeypunkLaws

  /** The keys that a registration hands out are those of the pending paths, one for each and in their order,
      under the seed that the password unlocks. */
  lemma RegisteredKeysIff(s: Setting, a: App, password: string, disk: K.Disk, keys: seq<(ProtocolId, string, Bytes)>)
    requires a.status.AwaitingRegistration?
    ensures RegistrationKeys(s, a, password, disk) == Ok(keys) <==>
            exists seed ::
              && disk.readSeed.None? && a.store.seed.Some? &&
                 s.env.decryptSeed(a.store.seed.value, password) == Ok(seed)
              && L.AreKeysOf(s.env, seed, a.status.data.paths, keys)
  {
    hide K.BulkKeys, L.AreKeysOf;
    forall seed ensures K.BulkKeys(s.env, seed, a.status.data.paths) == Ok(keys) <==>
                        L.AreKeysOf(s.env, seed, a.status.data.paths, keys)
    {
      L.BulkIff(s.env, seed, a.status.data.paths, keys);
    }
  }

  /** What deleting leaves: after success neither file, no session and no pending request; where the seed file
      refuses, everything; where the other file does, everything but the seed file; and where there is
      nothing to delete, everything. */
  lemma DeletedIs(s: Setting, a: App, seedRefused: Option<string>, mnemonicRefused: Option<string>)
    ensures
      var b := Step(s, a, Delete(seedRefused, mnemonicRefused));
      if a.store.seed.Some? && seedRefused.Some? then b == a
      else if a.store.mnemonic.Some? && mnemonicRefused.Some? then b == a.(store := K.Store(None, a.store.mnemonic))
      else if a.store == K.Store(None, None) then b == a
      else b == App(K.Store(None, None), Idle, None)
  {}

  /** A session key is made by the first registration that gets its keys, is kept by everything but a
      deletion, and is what later registrations answer with. */
  lemma SessionIs(s: Setting, a: App, action: Action)
    ensures Step(s, a, action).session != a.session ==>
              || (action.Delete? && Step(s, a, action).session.None?)
              || (action.CompleteRegistration? && a.session.None? &&
                  Step(s, a, action).session == Some(action.generated))
    ensures action.CompleteRegistration? && a.status.AwaitingRegistration? ==>
              (RegistrationKeys(s, a, action.typed, action.disk).Ok? ==> Step(s, a, action).session.Some?)
  {
    hide RegistrationKeys;
  }

  /** A scanned challenge is answered under the session key, and the answer opens to the hash of the
      challenge; without a session it is refused. */
  lemma ChallengeIsAnswered(s: Setting, a: App, challenge: Bytes, chance: K.Chance)
    requires forall k, n, m :: s.env.open(k, s.env.seal(k, n, m)) == Ok(m)
    ensures
      var r := ScanResult(s, a, Ok(K.VerifySignerSession(challenge)), chance);
      if a.session.None? then r.response.Error?
      else
        && r.response.SessionVerified?
        && s.env.open(s.keyOf(a.session.value.secret, a.session.value.public), r.response.tag) ==
           Ok(s.env.hash(challenge))
    ensures Step(s, a, Scan(Ok(K.VerifySignerSession(challenge)), chance)) == a
  {
    if a.session.Some? {
      var key := s.keyOf(a.session.value.secret, a.session.value.public);
      assert s.env.open(key, s.env.seal(key, chance.nonce, s.env.hash(challenge))).Ok?;
    }
  }

  /** A seed that the app generates is the one whose keys a later registration with the same password hands
      out. */
  lemma GeneratedIsRegistered(s: Setting, a: App, password: Bytes, ephemeral: Bytes, chance: K.Chance,
                              data: Registration, disk: K.Disk, keys: seq<(ProtocolId, string, Bytes)>)
    requires L.Decrypts(s.env) && disk.readSeed.None?
    requires K.Step(s.env, a.store, K.GenerateSeed(password, ephemeral), Some(ephemeral), chance).1.SeedGenerated?
    ensures
      var b := Step(s, a, GenerateSeed(password, ephemeral, chance)).(status := AwaitingRegistration(data));
      exists pw :: L.OpensTo(s.env, ephemeral, password, pw) &&
                   (RegistrationKeys(s, b, pw, disk) == Ok(keys) <==>
                    L.AreKeysOf(s.env, s.env.generate(chance.entropy).0, data.paths, keys))
  {
    hide K.Step, L.Decrypts, L.OpensTo, K.BulkKeys, L.AreKeysOf;
    var request := K.GenerateSeed(password, ephemeral);
    L.GeneratedIsHeld(s.env, a.store, request, Some(ephemeral), chance);
    var b := Step(s, a, GenerateSeed(password, ephemeral, chance)).(status := AwaitingRegistration(data));
    var (seed, phrase) := s.env.generate(chance.entropy);
    var pw :| L.OpensTo(s.env, ephemeral, password, pw) &&
              L.Holds(s.env, K.Step(s.env, a.store, request, Some(ephemeral), chance).0, seed, phrase, pw);
    L.BulkIff(s.env, seed, data.paths, keys);
    assert RegistrationKeys(s, b, pw, disk) == K.BulkKeys(s.env, seed, data.paths);
  }

  /** The same for a seed that the app restores from a recovery phrase. */
  lemma RestoredIsRegistered(s: Setting, a: App, mnemonic: Bytes, password: Bytes, ephemeral: Bytes, chance: K.Chance,
                             data: Registration, disk: K.Disk, keys: seq<(ProtocolId, string, Bytes)>)
    requires L.Decrypts(s.env) && disk.readSeed.None?
    requires K.Step(s.env, a.store, K.RestoreSeed(mnemonic, password, ephemeral), Some(ephemeral), chance).1 ==
             K.SeedRestored
    ensures
      var b := Step(s, a, RestoreSeed(mnemonic, password, ephemeral, chance)).(status := AwaitingRegistration(data));
      exists phrase, pw, seed ::
        && L.OpensTo(s.env, ephemeral, mnemonic, phrase) && L.OpensTo(s.env, ephemeral, password, pw)
        && s.env.seedOfMnemonic(phrase) == Ok(seed)
        && (RegistrationKeys(s, b, pw, disk) == Ok(keys) <==> L.AreKeysOf(s.env, seed, data.paths, keys))
  {
    hide K.Step, L.Decrypts, L.OpensTo, K.BulkKeys, L.AreKeysOf;
    var request := K.RestoreSeed(mnemonic, password, ephemeral);
    L.RestoredIsHeld(s.env, a.store, request, Some(ephemeral), chance);
    var b := Step(s, a, RestoreSeed(mnemonic, password, ephemeral, chance)).(status := AwaitingRegistration(data));
    var phrase, pw, seed :|
      && L.OpensTo(s.env, ephemeral, mnemonic, phrase) && L.OpensTo(s.env, ephemeral, password, pw)
      && s.env.seedOfMnemonic(phrase) == Ok(seed)
      && L.Holds(s.env, K.Step(s.env, a.store, request, Some(ephemeral), chance).0, seed, phrase, pw);
    L.BulkIff(s.env, seed, data.paths, keys);
    assert RegistrationKeys(s, b, pw, disk) == K.BulkKeys(s.env, seed, data.paths);
  }

  /** After a registration request is scanned, in any status, the keys handed out are those of its paths, and
      the challenge that is signed opens at the payment daemon, by its key, to the hash of its challenge. */
  lemma ScannedRegistration(s: Setting, a: App, paths: seq<(ProtocolId, string)>, challenge: Bytes, paypunkdKey: Bytes,
                            chance: K.Chance, password: string, disk: K.Disk, keys: seq<(ProtocolId, string, Bytes)>,
                            session: Session, paypunkdSecret: Bytes, nonce: Bytes)
    requires s.keyOf(session.secret, paypunkdKey) == s.keyOf(paypunkdSecret, session.public)
    requires forall k, n, m :: s.env.open(k, s.env.seal(k, n, m)) == Ok(m)
    ensures
      var b := Step(s, a, Scan(Ok(K.RegisterViewingKeys(paths, challenge, paypunkdKey)), chance));
      && b.store == a.store && b.session == a.session && b.status.AwaitingRegistration?
      && (RegistrationKeys(s, b, password, disk) == Ok(keys) <==>
          exists seed ::
            && disk.readSeed.None? && a.store.seed.Some? && s.env.decryptSeed(a.store.seed.value, password) == Ok(seed)
            && L.AreKeysOf(s.env, seed, paths, keys))
      && s.env.open(s.keyOf(paypunkdSecret, session.public),
                    SignedChallenge(s, session, b.status.data.paypunkdKey, b.status.data.challenge, nonce)) ==
         Ok(s.env.hash(challenge))
  {
    hide RegistrationKeys, L.AreKeysOf, SignedChallenge;
    var b := Step(s, a, Scan(Ok(K.RegisterViewingKeys(paths, challenge, paypunkdKey)), chance));
    RegisteredKeysIff(s, b, password, disk, keys);
    ChallengeVerifies(s, session, paypunkdSecret, paypunkdKey, challenge, nonce);
  }
}
