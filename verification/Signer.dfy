/** The signer app around the key daemon: what is shown, registered and signed, as one status. */
module Signer {
  import opened Protocols
  import opened Wire
  import opened Wrappers
  import K = Keypunk
  import Payload

  /** A launch of the app: the environment of the key daemon, the app's own public key, the key shared
      by a secret and a public key, whether the app can read a summary, and the seed store and session
      key that are found on disk. */
  datatype Setting = Setting(env: K.Environment, clientKey: Bytes, keyOf: (Bytes, Bytes) -> Bytes,
                             readable: Bytes -> bool,
                             store: K.Store, session: Option<Session>)

  datatype Registration = Registration(paths: seq<(ProtocolId, string)>, challenge: Bytes, paypunkdKey: Bytes)

  datatype Status =
    | Idle
    | Previewing(raw: Bytes, summary: Bytes, path: string, protocol: ProtocolId, tag: Bytes)
    | AwaitingRegistration(data: Registration)
    | Signing
    | Signed(artifact: Bytes)
    | Failed(message: string)

  /** A session key pair, where there is one. */
  datatype Session = Session(secret: Bytes, public: Bytes)

  datatype App = App(store: K.Store, status: Status, session: Option<Session>)

  function Launched(s: Setting): App {
    App(s.store, Idle, s.session)
  }

  datatype HandleResult = HandleResult(response: K.Response, raw: Option<Bytes>, tag: Option<Bytes>,
                                       path: Option<string>)

  /** What the app is asked to do. A scanned request may fail to decode; a session key pair is made and
      saved at the first registration; each file may refuse to be deleted. */
  datatype Action =
    | Scan(request: Result<K.Request, string>, chance: K.Chance)
    | CompleteRegistration(typed: string, generated: Session, disk: K.Disk, saved: Option<string>, nonce: Bytes)
    | Approve(payload: Bytes, ephemeral: Bytes, path: string, chance: K.Chance)
    | Delete(seedRefused: Option<string>, mnemonicRefused: Option<string>)
    | GenerateSeed(password: Bytes, ephemeral: Bytes, chance: K.Chance)
    | RestoreSeed(mnemonic: Bytes, password: Bytes, ephemeral: Bytes, chance: K.Chance)

  /** The answer to a completed registration. */
  datatype Registered = Registered(keys: seq<(ProtocolId, string, Bytes)>, sessionKey: Bytes, signedChallenge: Bytes)

  function ErrorResult(message: string): HandleResult {
    HandleResult(K.Error(message), None, None, None)
  }

  /** The request that an action sends to the key daemon, or the files it deletes. */
  function EventOf(s: Setting, a: App, action: Action): Option<K.Event> {
    match action
    case Scan(Ok(request), chance) =>
      if request.RegisterViewingKeys? || request.VerifySignerSession? then None
      else Some(K.Event(request, Some(s.clientKey), chance))
    case Scan(Err(_), _) => None
    case CompleteRegistration(_, _, _, _, _) => None
    case Approve(payload, ephemeral, path, chance) =>
      if a.status.Previewing? then
        Some(K.Event(K.AuthorizeArtifact(payload, ephemeral, path), Some(s.clientKey), chance))
      else None
    case Delete(seedRefused, mnemonicRefused) =>
      if a.store.seed.Some? && seedRefused.Some? then None
      else Some(K.Removal(a.store.seed.Some?, a.store.mnemonic.Some? && mnemonicRefused.None?))
    case GenerateSeed(password, ephemeral, chance) =>
      Some(K.Event(K.GenerateSeed(password, ephemeral), Some(ephemeral), chance))
    case RestoreSeed(mnemonic, password, ephemeral, chance) =>
      Some(K.Event(K.RestoreSeed(mnemonic, password, ephemeral), Some(ephemeral), chance))
  }

  function ResponseTo(s: Setting, a: App, e: K.Event): K.Response
    requires e.Event?
  {
    K.Step(s.env, a.store, e.request, e.sender, e.chance).1
  }

  /** The preview that a response to a scanned request shows. */
  function Shown(s: Setting, request: K.Request, response: K.Response): Option<Status> {
    match (request, response)
    case (PreviewArtifact(_, protocol, path), ArtifactPreview(raw, summary, tag, _)) =>
      if s.readable(summary) then Some(Previewing(raw, summary, path, protocol, tag)) else None
    case _ => None
  }

  function RegistrationKeys(s: Setting, a: App, password: string, disk: K.Disk): Result<seq<(ProtocolId, string,
    Bytes)>, string>
    requires a.status.AwaitingRegistration?
  {
    match (disk.readSeed, a.store.seed)
    case (Some(e), _) => Err("read seed failed: " + e)
    case (None, None) => Err("no seed found")
    case (None, Some(blob)) =>
      match s.env.decryptSeed(blob, password)
      case Err(e) => Err("seed decryption failed: " + e)
      case Ok(seed) => K.BulkKeys(s.env, seed, a.status.data.paths)
  }

  /** The challenge, hashed and sealed by a session key for a peer. */
  function SignedChallenge(s: Setting, session: Session, peer: Bytes, challenge: Bytes, nonce: Bytes): Bytes {
    s.env.seal(s.keyOf(session.secret, peer), nonce, s.env.hash(challenge))
  }

  function PreviewPath(request: K.Request): Option<string> {
    match request
    case PreviewArtifact(_, _, path) => Some(path)
    case _ => None
  }

  /** What a scanned request is answered with. */
  function ScanResult(s: Setting, a: App, decoded: Result<K.Request, string>, chance: K.Chance): HandleResult {
    match decoded
    case Err(e) => ErrorResult("deserialize failed: " + e)
    case Ok(RegisterViewingKeys(_, _, _)) => ErrorResult("awaiting password on signer")
    case Ok(VerifySignerSession(challenge)) =>
      if a.session.None? then ErrorResult("no session key — register first")
      else HandleResult(K.SessionVerified(SignedChallenge(s, a.session.value, a.session.value.public, challenge,
                                                          chance.nonce)), None, None, None)
    case Ok(request) =>
      var path := PreviewPath(request);
      var response := ResponseTo(s, a, EventOf(s, a, Scan(decoded, chance)).value);
      if !response.ArtifactPreview? then HandleResult(response, None, None, path)
      else if !s.readable(response.summary) then ErrorResult("summary deserialize failed")
      else HandleResult(response, Some(response.raw), Some(response.tag), path)
  }

  function StatusAfter(s: Setting, a: App, action: Action): Status {
    match action
    case Scan(Ok(request), _) =>
      if request.RegisterViewingKeys? then
        AwaitingRegistration(Registration(request.paths, request.challenge, request.paypunkdKey))
      else if EventOf(s, a, action).None? then a.status
      else
        (match Shown(s, request, ResponseTo(s, a, EventOf(s, a, action).value))
         case None => a.status
         case Some(preview) => preview)
    case CompleteRegistration(password, _, disk, saved, _) =>
      if a.status.AwaitingRegistration? && RegistrationKeys(s, a, password, disk).Ok? && saved.None? then Idle
      else a.status
    case Approve(_, _, _, _) =>
      if !a.status.Previewing? then a.status
      else
        (match ResponseTo(s, a, EventOf(s, a, action).value)
         case ArtifactAuthorized(signed) => Signed(signed)
         case Error(message) => Failed(message)
         case _ => Failed("unexpected response"))
    case Delete(seedRefused, mnemonicRefused) =>
      if DeleteError(a, seedRefused, mnemonicRefused).Some? then a.status else Idle
    case _ => a.status
  }

  function DeleteError(a: App, seedRefused: Option<string>, mnemonicRefused: Option<string>): Option<string> {
    if a.store.seed.Some? && seedRefused.Some? then Some("failed to delete seed: " + seedRefused.value)
    else if a.store.mnemonic.Some? && mnemonicRefused.Some? then
      Some("failed to delete mnemonic: " + mnemonicRefused.value)
    else if a.store.seed.None? && a.store.mnemonic.None? then Some("no seed found to delete")
    else None
  }

  function SessionAfter(s: Setting, a: App, action: Action): Option<Session> {
    match action
    case CompleteRegistration(password, generated, disk, _, _) =>
      if a.session.None? && a.status.AwaitingRegistration? && RegistrationKeys(s, a, password, disk).Ok? then
        Some(generated)
      else a.session
    case Delete(seedRefused, mnemonicRefused) =>
      if DeleteError(a, seedRefused, mnemonicRefused).Some? then a.session else None
    case _ => a.session
  }

  function Step(s: Setting, a: App, action: Action): App {
    var e := EventOf(s, a, action);
    App(if e.None? then a.store else K.Next(s.env, a.store, e.value),
        StatusAfter(s, a, action), SessionAfter(s, a, action))
  }

  // ----- The app as it is written

  class SignerState {
    const setting: Setting
    const keypunk: K.Keypunk
    var status: Status
    var session: Option<Session>

    ghost predicate Valid()
      reads this
    {
      keypunk.env == setting.env
    }

    ghost function Value(): App
      reads this, keypunk
    {
      App(keypunk.store, status, session)
    }

    constructor (setting: Setting)
      ensures Valid() && Value() == Launched(setting) && this.setting == setting && fresh(keypunk)
    {
      this.setting := setting;
      keypunk := new K.Keypunk(setting.env, setting.store);
      status, session := Idle, setting.session;
    }

    method HandleRequest(decoded: Result<K.Request, string>, chance: K.Chance) returns (r: HandleResult)
      requires Valid()
      modifies this, keypunk
      ensures Valid() && Value() == Step(setting, old(Value()), Scan(decoded, chance))
      ensures r == ScanResult(setting, old(Value()), decoded, chance)
      ensures r.raw.Some? ==>
                status.Previewing? && r.raw == Some(status.raw) && r.tag == Some(status.tag) &&
                r.path == Some(status.path)
    {
      hide K.Step;
      if decoded.Err? {
        return ErrorResult("deserialize failed: " + decoded.error);
      }
      var request := decoded.value;
      match request {
        case RegisterViewingKeys(paths, challenge, paypunkdKey) =>
          status := AwaitingRegistration(Registration(paths, challenge, paypunkdKey));
          return ErrorResult("awaiting password on signer");
        case VerifySignerSession(challenge) =>
          if session.None? {
            return ErrorResult("no session key — register first");
          }
          var tag := SignedChallenge(setting, session.value, session.value.public, challenge, chance.nonce);
          return HandleResult(K.SessionVerified(tag), None, None, None);
        case _ =>
      }
      var path := PreviewPath(request);
      ghost var before := Value();
      var response := keypunk.HandleRequest(request, Some(setting.clientKey), chance);
      if response.ArtifactPreview? {
        if !setting.readable(response.summary) {
          return ErrorResult("summary deserialize failed");
        }
        OnlyPreviewsPreview(setting.env, before.store, request, Some(setting.clientKey), chance);
        status := Previewing(response.raw, response.summary, request.path, request.protocol, response.tag);
        return HandleResult(response, Some(response.raw), Some(response.tag), path);
      }
      return HandleResult(response, None, None, path);
    }

    method CompleteRegistration(password: string, generated: Session, disk: K.Disk, saved: Option<string>, nonce: Bytes)
      returns (r: Result<Registered, string>)
      requires Valid()
      modifies this
      ensures Valid() && Value() ==
                         Step(setting, old(Value()),
                              Action.CompleteRegistration(password, generated, disk, saved, nonce))
      ensures r.Err? ==> status == old(status)
      ensures r.Ok? <==> old(status).AwaitingRegistration? &&
                         RegistrationKeys(setting, old(Value()), password, disk).Ok? && saved.None?
      ensures r.Ok? ==>
                && status == Idle && session.Some? && r.value.sessionKey == session.value.public
                && RegistrationKeys(setting, old(Value()), password, disk) == Ok(r.value.keys)
                && r.value.signedChallenge ==
                   SignedChallenge(setting, session.value, old(status).data.paypunkdKey,
                                   old(status).data.challenge, nonce)
    {
      hide K.ViewingKeyOf;
      if !status.AwaitingRegistration? {
        return Err("no pending registration");
      }
      var data := status.data;
      if disk.readSeed.Some? {
        return Err("read seed failed: " + disk.readSeed.value);
      }
      if keypunk.store.seed.None? {
        return Err("no seed found");
      }
      var seed := setting.env.decryptSeed(keypunk.store.seed.value, password);
      if seed.Err? {
        return Err("seed decryption failed: " + seed.error);
      }
      var keys := keypunk.BulkExportViewingKeys(seed.value, data.paths);
      if keys.Err? {
        return Err(keys.error);
      }
      if session.None? {
        session := Some(generated);
      }
      if saved.Some? {
        return Err(saved.value);
      }
      var signedChallenge := SignedChallenge(setting, session.value, data.paypunkdKey, data.challenge, nonce);
      status := Idle;
      return Ok(Registered(keys.value, session.value.public, signedChallenge));
    }

    method ApproveAndSign(payload: Bytes, ephemeral: Bytes, path: string, chance: K.Chance)
      returns (r: Result<Bytes, string>)
      requires Valid()
      modifies this, keypunk
      ensures Valid() && Value() == Step(setting, old(Value()), Approve(payload, ephemeral, path, chance))
      ensures r.Ok? <==> old(status).Previewing? && status.Signed?
      ensures r.Ok? ==> status == Signed(r.value)
    {
      hide K.Step;
      if !status.Previewing? {
        return Err("no preview to sign");
      }
      status := Signing;
      var response := keypunk.HandleRequest(K.AuthorizeArtifact(payload, ephemeral, path),
                                            Some(setting.clientKey), chance);
      match response {
        case ArtifactAuthorized(signed) =>
          status := Signed(signed);
          return Ok(signed);
        case Error(message) =>
          status := Failed(message);
          return Err(message);
        case _ =>
          status := Failed("unexpected response");
          return Err("unexpected response");
      }
    }

    method GenerateSeed(password: Bytes, ephemeral: Bytes, chance: K.Chance)
      returns (r: Result<Bytes, string>)
      requires Valid()
      modifies this, keypunk
      ensures Valid() && Value() == Step(setting, old(Value()), Action.GenerateSeed(password, ephemeral, chance))
      ensures r == match K.Step(setting.env, old(keypunk.store), K.GenerateSeed(password, ephemeral),
                                Some(ephemeral), chance).1
                   case SeedGenerated(mnemonic) => Ok(mnemonic)
                   case Error(message) => Err(message)
                   case _ => Err("unexpected response")
    {
      hide K.Step;
      var response := keypunk.HandleRequest(K.GenerateSeed(password, ephemeral), Some(ephemeral), chance);
      r := match response
        case SeedGenerated(mnemonic) => Ok(mnemonic)
        case Error(message) => Err(message)
        case _ => Err("unexpected response");
    }

    method RestoreSeed(mnemonic: Bytes, password: Bytes, ephemeral: Bytes, chance: K.Chance)
      returns (r: Result<(), string>)
      requires Valid()
      modifies this, keypunk
      ensures Valid() && Value() ==
                         Step(setting, old(Value()), Action.RestoreSeed(mnemonic, password, ephemeral, chance))
      ensures r == match K.Step(setting.env, old(keypunk.store), K.RestoreSeed(mnemonic, password, ephemeral),
                                Some(ephemeral), chance).1
                   case SeedRestored => Ok(())
                   case Error(message) => Err(message)
                   case _ => Err("unexpected response")
    {
      hide K.Step;
      var response := keypunk.HandleRequest(K.RestoreSeed(mnemonic, password, ephemeral), Some(ephemeral), chance);
      r := match response
        case SeedRestored => Ok(())
        case Error(message) => Err(message)
        case _ => Err("unexpected response");
    }

    method DeleteSeed(seedRefused: Option<string>, mnemonicRefused: Option<string>) returns (r: Result<(), string>)
      requires Valid()
      modifies this, keypunk
      ensures Valid() && Value() == Step(setting, old(Value()), Delete(seedRefused, mnemonicRefused))
      ensures r.Ok? <==> DeleteError(old(Value()), seedRefused, mnemonicRefused) == None
    {
      var deletedAny := false;
      if keypunk.store.seed.Some? {
        if seedRefused.Some? {
          return Err("failed to delete seed: " + seedRefused.value);
        }
        keypunk.store := keypunk.store.(seed := None);
        deletedAny := true;
      }
      if keypunk.store.mnemonic.Some? {
        if mnemonicRefused.Some? {
          return Err("failed to delete mnemonic: " + mnemonicRefused.value);
        }
        keypunk.store := keypunk.store.(mnemonic := None);
        deletedAny := true;
      }
      if !deletedAny {
        return Err("no seed found to delete");
      }
      session := None;
      status := Idle;
      return Ok(());
    }
  }

  /** Only a preview is answered with a preview, and of the artifact asked for. */
  lemma OnlyPreviewsPreview(env: K.Environment, store: K.Store, request: K.Request, sender: Option<Bytes>,
                            chance: K.Chance)
    ensures K.Step(env, store, request, sender, chance).1.ArtifactPreview? ==>
              request.PreviewArtifact? && K.Step(env, store, request, sender, chance).1.raw == request.raw
  {
    hide K.Persist, K.UnlockedSeed, K.ViewingKeyOf, K.BulkKeys, K.OpenString, K.ParseWith, K.OpenPayload, K.TagRefused;
    if request.GenerateSeed? || request.RestoreSeed? {
      SeedAnswers(env, store, request, sender, chance);
    }
  }

  lemma SeedAnswers(env: K.Environment, store: K.Store, request: K.Request, sender: Option<Bytes>, chance: K.Chance)
    requires request.GenerateSeed? || request.RestoreSeed?
    ensures !K.Step(env, store, request, sender, chance).1.ArtifactPreview?
  {
    hide K.OpenString;
  }

  /** The payment daemon opens the signed challenge with its own secret and the session key it is given,
      and finds the hash of its challenge: both ends share a key, and opening inverts sealing. */
  lemma ChallengeVerifies(s: Setting, session: Session, paypunkdSecret: Bytes, paypunkdKey: Bytes, challenge: Bytes,
                          nonce: Bytes)
    requires s.keyOf(session.secret, paypunkdKey) == s.keyOf(paypunkdSecret, session.public)
    requires forall k, n, m :: s.env.open(k, s.env.seal(k, n, m)) == Ok(m)
    ensures s.env.open(s.keyOf(paypunkdSecret, session.public),
                       SignedChallenge(s, session, paypunkdKey, challenge, nonce)) ==
            Ok(s.env.hash(challenge))
  {
    var key := s.keyOf(session.secret, paypunkdKey);
    assert s.env.open(key, s.env.seal(key, nonce, s.env.hash(challenge))).Ok?;
  }

  // ----- Runs

  function After(s: Setting, run: seq<Action>): App {
    if run == [] then Launched(s) else Step(s, After(s, run[..|run| - 1]), run[|run| - 1])
  }

  function AsList<T>(x: Option<T>): seq<T> {
    match x
    case None => []
    case Some(v) => [v]
  }

  /** What reaches the key daemon in a run. */
  function EventsOf(s: Setting, run: seq<Action>): seq<K.Event> {
    if run == [] then []
    else
      var n := |run| - 1;
      EventsOf(s, run[..n]) + AsList(EventOf(s, After(s, run[..n]), run[n]))
  }

  function Attempts(events: seq<K.Event>): nat {
    if events == [] then 0
    else
      var n := |events| - 1;
      Attempts(events[..n]) + if events[n].Event? && events[n].request.AuthorizeArtifact? then 1 else 0
  }

  /** The action puts a preview before the user. */
  predicate ShowsPreview(s: Setting, a: App, action: Action) {
    && action.Scan? && action.request.Ok? && EventOf(s, a, action).Some?
    && Shown(s, action.request.value, ResponseTo(s, a, EventOf(s, a, action).value)).Some?
  }

  function Previews(s: Setting, run: seq<Action>): nat {
    if run == [] then 0
    else
      var n := |run| - 1;
      Previews(s, run[..n]) + if ShowsPreview(s, After(s, run[..n]), run[n]) then 1 else 0
  }

  predicate IsForwarded(action: Action) {
    action.Scan? && action.request.Ok? && action.request.value.AuthorizeArtifact?
  }

  /** Authorization requests that are scanned and handed on as they are. */
  function Forwarded(run: seq<Action>): nat {
    if run == [] then 0
    else
      var n := |run| - 1;
      Forwarded(run[..n]) + if IsForwarded(run[n]) then 1 else 0
  }

  lemma AttemptsAppend(events: seq<K.Event>, e: Option<K.Event>)
    ensures Attempts(events + AsList(e)) ==
            Attempts(events) + if e.Some? && e.value.Event? && e.value.request.AuthorizeArtifact? then 1 else 0
  {
    match e
    case None => assert events + [] == events;
    case Some(v) =>
      var all := events + [v];
      assert all[..|all| - 1] == events;
  }

  predicate Approves(a: App, action: Action) {
    action.Approve? && a.status.Previewing?
  }

  /** Approvals in front of a preview. */
  function Approvals(s: Setting, run: seq<Action>): nat {
    if run == [] then 0
    else
      var n := |run| - 1;
      Approvals(s, run[..n]) + if Approves(After(s, run[..n]), run[n]) then 1 else 0
  }

  /** One action: an authorization is attempted for an approval or for a scanned request; a preview
      shown allows one approval, and the approval uses it up. */
  lemma ActionUsesPreview(s: Setting, a: App, action: Action)
    requires !a.status.Signing?
    ensures
      var e, b := EventOf(s, a, action), Step(s, a, action);
      var attempt := if e.Some? && e.value.Event? && e.value.request.AuthorizeArtifact? then 1 else 0;
      var approval := if Approves(a, action) then 1 else 0;
      && !b.status.Signing?
      && attempt == approval + (if IsForwarded(action) then 1 else 0)
      && approval + (if b.status.Previewing? then 1 else 0) <=
         (if a.status.Previewing? then 1 else 0) + (if ShowsPreview(s, a, action) then 1 else 0)
  {
    hide K.Step, RegistrationKeys, DeleteError;
  }

  /** In every run the authorizations that reach the key daemon are the approvals and the requests scanned
      and handed on; the approvals, with the preview that waits if one does, are at most the previews
      shown; and Signing is never where the app rests. */
  lemma {:induction false} ApprovalsNeedPreviews(s: Setting, run: seq<Action>)
    ensures !After(s, run).status.Signing?
    ensures Attempts(EventsOf(s, run)) == Approvals(s, run) + Forwarded(run)
    ensures Approvals(s, run) + (if After(s, run).status.Previewing? then 1 else 0) <= Previews(s, run)
  {
    hide Step, EventOf, ShowsPreview, IsForwarded, Approves;
    if run != [] {
      var n := |run| - 1;
      ApprovalsNeedPreviews(s, run[..n]);
      ActionUsesPreview(s, After(s, run[..n]), run[n]);
      AttemptsAppend(EventsOf(s, run[..n]), EventOf(s, After(s, run[..n]), run[n]));
    }
  }

  /** An authorization request that is scanned reaches the key daemon without any preview. */
  lemma ScannedAuthorizationIsForwarded(s: Setting, payload: Bytes, ephemeral: Bytes, path: string, chance: K.Chance)
    ensures
      var run := [Scan(Ok(K.AuthorizeArtifact(payload, ephemeral, path)), chance)];
      Attempts(EventsOf(s, run)) == 1 && Previews(s, run) == 0
  {
    hide Step, ResponseTo, StatusAfter, SessionAfter, RegistrationKeys, DeleteError, EventOf, Shown;
    var request := K.AuthorizeArtifact(payload, ephemeral, path);
    var run := [Scan(Ok(request), chance)];
    var e := EventOf(s, Launched(s), run[0]);
    ForwardedEvent(s, Launched(s), request, chance);
    assert run[..0] == [];
    assert EventsOf(s, run) == EventsOf(s, []) + AsList(e);
    AttemptsAppend([], e);
    assert Attempts([]) == 0;
    assert Previews(s, []) == 0;
  }

  lemma ForwardedEvent(s: Setting, a: App, request: K.Request, chance: K.Chance)
    requires request.AuthorizeArtifact?
    ensures EventOf(s, a, Scan(Ok(request), chance)) == Some(K.Event(request, Some(s.clientKey), chance))
    ensures !ShowsPreview(s, a, Scan(Ok(request), chance))
  {
    hide ResponseTo;
  }

  /** Signed is entered only by an approval in front of a preview, and a registration that fails leaves
      the status, and so the pending data, as it was. */
  lemma SignedOnlyFromPreview(s: Setting, a: App, action: Action)
    ensures Step(s, a, action).status.Signed? ==>
              Step(s, a, action).status == a.status || (action.Approve? && a.status.Previewing?)
    ensures action.CompleteRegistration? && Step(s, a, action).status != a.status ==>
              a.status.AwaitingRegistration? && Step(s, a, action).status == Idle
  {
    hide K.Step, RegistrationKeys, DeleteError;
  }

  // ----- What is signed was previewed, over every run of the app

  lemma {:induction false} StoreAtPrefix(env: K.Environment, start: K.Store, run: seq<K.Event>, more: seq<K.Event>,
                                         k: nat)
    requires k <= |run|
    ensures K.StoreAt(env, start, run + more, k) == K.StoreAt(env, start, run, k)
  {
    hide K.Next;
    if k > 0 {
      StoreAtPrefix(env, start, run, more, k - 1);
    }
  }

  /** The store of the app is the store of the key daemon after what has reached it. */
  lemma {:induction false} StoreFollows(s: Setting, run: seq<Action>)
    ensures After(s, run).store == K.StoreAt(s.env, s.store, EventsOf(s, run), |EventsOf(s, run)|)
  {
    hide K.Next, EventOf, StatusAfter, SessionAfter;
    if run != [] {
      var n := |run| - 1;
      var events := EventsOf(s, run[..n]);
      var e := EventOf(s, After(s, run[..n]), run[n]);
      StoreFollows(s, run[..n]);
      StoreAtPrefix(s.env, s.store, events, AsList(e), |events|);
    }
  }

  /** Event k authorized this artifact. */
  predicate AuthorizedAt(s: Setting, events: seq<K.Event>, k: nat, artifact: Bytes)
    requires k < |events|
  {
    && events[k].Event? && events[k].request.AuthorizeArtifact? && events[k].sender == Some(s.clientKey)
    && K.ResponseAt(s.env, s.store, events, k) == K.ArtifactAuthorized(artifact)
  }

  lemma {:induction false} SignedWasAuthorized(s: Setting, run: seq<Action>)
    requires After(s, run).status.Signed?
    ensures exists k :: 0 <= k < |EventsOf(s, run)| &&
                        AuthorizedAt(s, EventsOf(s, run), k, After(s, run).status.artifact)
  {
    hide K.Next, K.Step, RegistrationKeys, DeleteError, Shown;
    var n := |run| - 1;
    var a := After(s, run[..n]);
    var before, e := EventsOf(s, run[..n]), EventOf(s, a, run[n]);
    var events := EventsOf(s, run);
    SignedOnlyFromPreview(s, a, run[n]);
    if run[n].Approve? && a.status.Previewing? {
      StoreFollows(s, run[..n]);
      StoreAtPrefix(s.env, s.store, before, AsList(e), |before|);
      assert AuthorizedAt(s, events, |before|, After(s, run).status.artifact);
    } else {
      SignedWasAuthorized(s, run[..n]);
      var k :| 0 <= k < |before| && AuthorizedAt(s, before, k, a.status.artifact);
      StoreAtPrefix(s.env, s.store, before, AsList(e), k);
      assert AuthorizedAt(s, events, k, a.status.artifact);
    }
  }

  /** Whenever the app holds a signed artifact, the request that signed it carries bytes that an earlier
      request previewed for the app, with the same summary and path run together (or bytes that some
      protocol decodes and cannot summarize). */
  lemma SignedWasShown(s: Setting, run: seq<Action>)
    requires After(s, run).status.Signed? && K.Lawful(s.env) && K.LongMnemonic(s.env, s.store)
    requires K.Authentic(s.env, s.store, EventsOf(s, run)) && K.CollisionFree(s.env, EventsOf(s, run))
    ensures exists k :: 0 <= k < |EventsOf(s, run)| &&
                        AuthorizedAt(s, EventsOf(s, run), k, After(s, run).status.artifact) &&
                        PreviewedOrUnsummarizable(s, EventsOf(s, run), k)
  {
    hide K.StoreAt, K.Lawful, K.LongMnemonic, K.Authentic, K.CollisionFree, K.FieldsAt, EventsOf, After, K.Step,
      K.TryParseFrom;
    SignedWasAuthorized(s, run);
    var events := EventsOf(s, run);
    var k :| 0 <= k < |events| && AuthorizedAt(s, events, k, After(s, run).status.artifact);
    K.SignedWasPreviewed(s.env, s.store, events, k);
    assert PreviewedOrUnsummarizable(s, events, k);
  }

  /** The signed artifact begins bytes that were previewed for the app, or begins with them. */
  lemma SignedOrdersShown(s: Setting, run: seq<Action>)
    requires After(s, run).status.Signed? && K.Lawful(s.env) && K.LongMnemonic(s.env, s.store)
    requires K.Authentic(s.env, s.store, EventsOf(s, run)) && K.CollisionFree(s.env, EventsOf(s, run))
    ensures exists k :: 0 <= k < |EventsOf(s, run)| &&
                        AuthorizedAt(s, EventsOf(s, run), k, After(s, run).status.artifact) &&
                        NearlyShownOrUnsummarizable(s, EventsOf(s, run), k)
  {
    hide K.StoreAt, K.Lawful, K.LongMnemonic, K.Authentic, K.CollisionFree, K.FieldsAt, EventsOf, After, K.Step,
      K.NearlyPreviewed;
    SignedWasAuthorized(s, run);
    var events := EventsOf(s, run);
    var k :| 0 <= k < |events| && AuthorizedAt(s, events, k, After(s, run).status.artifact);
    K.SignedOrdersPreviewed(s.env, s.store, events, k);
    assert NearlyShownOrUnsummarizable(s, events, k);
  }

  ghost predicate NearlyShownOrUnsummarizable(s: Setting, events: seq<K.Event>, k: nat)
    requires k < |events| && events[k].Event? && events[k].request.AuthorizeArtifact?
  {
    K.FieldsAt(s.env, events, k).Ok? &&
    var raw := K.FieldsAt(s.env, events, k).value.raw;
    K.Unsummarizable(s.env, raw) || exists j :: 0 <= j < k && K.NearlyPreviewed(s.env, s.store, events, j, k, raw)
  }

  /** Where no artifact begins another, the signed artifact itself was previewed for the app, byte for
      byte. */
  lemma SignedArtifactWasShown(s: Setting, run: seq<Action>)
    requires After(s, run).status.Signed? && K.Lawful(s.env) && K.LongMnemonic(s.env, s.store) && K.PrefixFree(s.env)
    requires K.Authentic(s.env, s.store, EventsOf(s, run)) && K.CollisionFree(s.env, EventsOf(s, run))
    ensures exists k :: 0 <= k < |EventsOf(s, run)| &&
                        AuthorizedAt(s, EventsOf(s, run), k, After(s, run).status.artifact) &&
                        ArtifactShownOrUnsummarizable(s, EventsOf(s, run), k)
  {
    hide K.StoreAt, K.Lawful, K.LongMnemonic, K.Authentic, K.CollisionFree, K.PrefixFree, K.FieldsAt, EventsOf,
      After, K.Step;
    SignedWasAuthorized(s, run);
    var events := EventsOf(s, run);
    var k :| 0 <= k < |events| && AuthorizedAt(s, events, k, After(s, run).status.artifact);
    K.SignedArtifactWasPreviewed(s.env, s.store, events, k);
    assert ArtifactShownOrUnsummarizable(s, events, k);
  }

  ghost predicate ArtifactShownOrUnsummarizable(s: Setting, events: seq<K.Event>, k: nat)
    requires k < |events| && events[k].Event? && events[k].request.AuthorizeArtifact?
  {
    K.FieldsAt(s.env, events, k).Ok? &&
    var raw := K.FieldsAt(s.env, events, k).value.raw;
    K.Unsummarizable(s.env, raw) || exists j :: 0 <= j < k && K.ArtifactPreviewed(s.env, s.store, events, j, k, raw)
  }

  predicate PreviewedOrUnsummarizable(s: Setting, events: seq<K.Event>, k: nat)
    requires k < |events| && events[k].Event? && events[k].request.AuthorizeArtifact?
  {
    K.FieldsAt(s.env, events, k).Ok? &&
    var raw := K.FieldsAt(s.env, events, k).value.raw;
    || K.Unsummarizable(s.env, raw)
    || (K.TryParse(s.env, raw).Ok? &&
        K.PreviewedBefore(s.env, s.store, events, k,
                          K.Message(s.env, raw, K.TryParse(s.env, raw).value, events[k].request.path)))
  }

  // ----- What is signed and what is on display

  /** A preview on display is of bytes that parse to a readable summary, and its tag seals the hash of what
      is displayed. */
  ghost predicate Displayed(s: Setting, status: Status) {
    status.Previewing? ==>
      && K.ParseWith(s.env, status.protocol, status.raw) == Ok(status.summary) && s.readable(status.summary)
      && exists nonce :: status.tag ==
                         s.env.seal(K.PeerKey(s.env, Some(s.clientKey)), nonce,
                                    s.env.hash(K.Message(s.env, status.raw, status.summary, status.path)))
  }

  lemma ScanDisplays(s: Setting, a: App, action: Action)
    requires Displayed(s, a.status)
    ensures Displayed(s, StatusAfter(s, a, action))
  {
    hide K.ParseWith, RegistrationKeys, DeleteError, K.Authorize;
    if action.Scan? && action.request.Ok? && action.request.value.PreviewArtifact? {
    } else {
      hide Displayed, K.Step;
      if action.Scan? && action.request.Ok? {
        OnlyPreviewsPreview(s.env, a.store, action.request.value, Some(s.clientKey), action.chance);
      }
      assert StatusAfter(s, a, action) == a.status || !StatusAfter(s, a, action).Previewing?;
    }
  }

  /** In every run, what is on display was previewed and carries the tag of that preview. */
  lemma {:induction false} DisplayedIsTagged(s: Setting, run: seq<Action>)
    ensures Displayed(s, After(s, run).status)
  {
    hide Displayed, StatusAfter, EventOf, SessionAfter;
    if run == [] {
      assert Displayed(s, Idle) by { NothingDisplayed(s); }
    } else {
      var n := |run| - 1;
      DisplayedIsTagged(s, run[..n]);
      ScanDisplays(s, After(s, run[..n]), run[n]);
    }
  }

  lemma NothingDisplayed(s: Setting)
    ensures Displayed(s, Idle)
  {}

  /** Opening inverts sealing, and the two messages that an approval compares do not collide. */
  ghost predicate Comparable(env: K.Environment, m: Bytes, m': Bytes) {
    (forall k, n, b :: env.open(k, env.seal(k, n, b)) == Ok(b)) && (env.hash(m) == env.hash(m') ==> m == m')
  }

  /** An approval that is signed signs the artifact on display, with summary and path the same when run
      together, exactly when the tag in its payload opens to what the tag on display opens to and the
      artifacts have one length; with one protocol the summary is the same apart too. */
  lemma SignsDisplayedIff(s: Setting, run: seq<Action>, action: Action)
    requires
      var a := After(s, run);
      action.Approve? && a.status.Previewing? && Step(s, a, action).status.Signed?
    requires
      var f := K.OpenPayload(s.env, action.payload, action.ephemeral);
      var shown := After(s, run).status;
      && f.Ok? && K.TryParse(s.env, f.value.raw).Ok?
      && Comparable(s.env, K.Message(s.env, f.value.raw, K.TryParse(s.env, f.value.raw).value, action.path),
                    K.Message(s.env, shown.raw, shown.summary, shown.path))
    ensures
      var f := K.OpenPayload(s.env, action.payload, action.ephemeral).value;
      var shown := After(s, run).status;
      var summary := K.TryParse(s.env, f.raw).value;
      && (SameDigest(s, f, shown) && |f.raw| == |shown.raw| <==>
          f.raw == shown.raw && summary + s.env.toUtf8(action.path) == shown.summary + s.env.toUtf8(shown.path))
      && (SameDigest(s, f, shown) ==> f.raw <= shown.raw || shown.raw <= f.raw)
      && (K.OneProtocol(s.env) && f.raw == shown.raw ==> summary == shown.summary)
  {
    hide After, K.ParseWith, K.TryParseFrom, K.UnlockAndSign, K.OpenPayload;
    var shown := After(s, run).status;
    var f := K.OpenPayload(s.env, action.payload, action.ephemeral).value;
    var key := K.PeerKey(s.env, Some(s.clientKey));
    var summary := K.TryParse(s.env, f.raw).value;
    var m, m' := K.Message(s.env, f.raw, summary, action.path), K.Message(s.env, shown.raw, shown.summary, shown.path);
    DisplayedIsTagged(s, run);
    assert K.TagRefused(s.env, f, action.path, Some(s.clientKey)).None?;
    assert s.env.open(key, f.sig) == Ok(s.env.hash(m));
    assert s.env.open(key, shown.tag) == Ok(s.env.hash(m'));
    K.ParsesSome(s.env, shown.protocol, shown.raw);
    assert m == f.raw + (summary + s.env.toUtf8(action.path));
    assert m' == shown.raw + (shown.summary + s.env.toUtf8(shown.path));
    if m == m' {
      K.MessageOrdersArtifacts(s.env, f.raw, summary, action.path, shown.raw, shown.summary, shown.path);
    }
  }

  /** The tag in a payload opens to what the tag on display opens to. */
  predicate SameDigest(s: Setting, f: Payload.Fields, shown: Status)
    requires shown.Previewing?
  {
    var key := K.PeerKey(s.env, Some(s.clientKey));
    s.env.open(key, f.sig) == s.env.open(key, shown.tag)
  }

  /** Where no artifact begins another the lengths need not be compared. */
  lemma SignsDisplayedByTag(s: Setting, run: seq<Action>, action: Action)
    requires
      var a := After(s, run);
      action.Approve? && a.status.Previewing? && Step(s, a, action).status.Signed?
    requires K.PrefixFree(s.env)
    requires
      var f := K.OpenPayload(s.env, action.payload, action.ephemeral);
      var shown := After(s, run).status;
      && f.Ok? && K.TryParse(s.env, f.value.raw).Ok?
      && Comparable(s.env, K.Message(s.env, f.value.raw, K.TryParse(s.env, f.value.raw).value, action.path),
                    K.Message(s.env, shown.raw, shown.summary, shown.path))
    ensures
      var f := K.OpenPayload(s.env, action.payload, action.ephemeral).value;
      var shown := After(s, run).status;
      var summary := K.TryParse(s.env, f.raw).value;
      SameDigest(s, f, shown) <==>
      f.raw == shown.raw && summary + s.env.toUtf8(action.path) == shown.summary + s.env.toUtf8(shown.path)
  {
    hide After, Step, K.ParseWith, K.TryParseFrom, K.OpenPayload, SameDigest, Comparable;
    var shown := After(s, run).status;
    SignsDisplayedIff(s, run, action);
    DisplayedIsTagged(s, run);
    K.ParsesSome(s.env, shown.protocol, shown.raw);
  }

  /** The payload of an earlier preview is signed while a later one is on display: of two previews, the
      second is shown and the first is approved. */
  lemma EarlierPreviewIsSigned(s: Setting, first: Bytes, second: Bytes, id: ProtocolId, path: string, chance: K.Chance,
                               payload: Bytes, ephemeral: Bytes, password: Bytes, chance': K.Chance)
    requires
      var p := K.Preview(s.env, first, id, path, Some(s.clientKey), chance.nonce);
      var q := K.Preview(s.env, second, id, path, Some(s.clientKey), chance.nonce);
      && p.ArtifactPreview? && s.readable(p.summary) && q.ArtifactPreview? && s.readable(q.summary)
      && K.TryParse(s.env, first) == Ok(p.summary)
      && K.OpenPayload(s.env, payload, ephemeral) == Ok(Payload.Fields(first, p.tag, password))
      && s.env.open(K.PeerKey(s.env, Some(s.clientKey)), p.tag) ==
         Ok(s.env.hash(K.Message(s.env, first, p.summary, path)))
      && K.UnlockAndSign(s.env, s.store, Payload.Fields(first, p.tag, password), path, chance').ArtifactAuthorized?
    ensures
      var run := [Scan(Ok(K.PreviewArtifact(first, id, path)), chance),
                  Scan(Ok(K.PreviewArtifact(second, id, path)), chance)];
      var p := K.Preview(s.env, first, id, path, Some(s.clientKey), chance.nonce);
      var a := After(s, run);
      && a.status.Previewing? && a.status.raw == second
      && Step(s, a, Approve(payload, ephemeral, path, chance')).status ==
         Signed(K.UnlockAndSign(s.env, s.store, Payload.Fields(first, p.tag, password), path, chance').signed)
  {
    hide K.Preview, K.TryParse, K.OpenPayload, K.UnlockAndSign;
    var run := [Scan(Ok(K.PreviewArtifact(first, id, path)), chance),
                Scan(Ok(K.PreviewArtifact(second, id, path)), chance)];
    assert run[..1] == [run[0]] && run[..1][..0] == [];
    assert After(s, []) == Launched(s);
    PreviewIsShown(s, Launched(s), first, id, path, chance);
    PreviewIsShown(s, After(s, run[..1]), second, id, path, chance);
  }

  lemma PreviewIsShown(s: Setting, a: App, raw: Bytes, id: ProtocolId, path: string, chance: K.Chance)
    requires
      var p := K.Preview(s.env, raw, id, path, Some(s.clientKey), chance.nonce);
      p.ArtifactPreview? && s.readable(p.summary)
    ensures
      var p := K.Preview(s.env, raw, id, path, Some(s.clientKey), chance.nonce);
      Step(s, a, Scan(Ok(K.PreviewArtifact(raw, id, path)), chance)) ==
      App(a.store, Previewing(raw, p.summary, path, id, p.tag), a.session)
  {
    hide K.ParseWith;
  }
}
