/** The key daemon: preview an artifact, then authorize it. Cryptography and the signer protocols
    are functions of an environment; what is proved holds for every run of requests. */
module Keypunk {
  import opened Wrappers
  import opened Payload
  import opened Protocols
  import opened Wire

  datatype Transaction = Transaction(content: Bytes)

  /** A signer protocol. Its parser and its signer share one decoder. */
  datatype Signer = Signer(
    decode: Bytes -> Result<Transaction, string>,
    summarize: Transaction -> Result<Bytes, string>,
    sign: (Bytes, string, Transaction, Bytes) -> Result<Bytes, string>,
    viewingKey: (Bytes, string) -> Result<Bytes, string>)
  {
    function ParseArtifact(raw: Bytes): Result<Bytes, string> {
      match decode(raw)
      case Err(e) => Err(e)
      case Ok(tx) => summarize(tx)
    }

    function Sign(seed: Bytes, path: string, raw: Bytes, entropy: Bytes): Result<Bytes, string> {
      match decode(raw)
      case Err(e) => Err(e)
      case Ok(tx) => sign(seed, path, tx, entropy)
    }
  }

  datatype Environment = Environment(
    publicKey: Bytes,
    sharedKey: Bytes -> Bytes,
    seal: (Bytes, Bytes, Bytes) -> Bytes,
    open: (Bytes, Bytes) -> Result<Bytes, string>,
    hash: Bytes -> Bytes,
    toUtf8: string -> Bytes,
    fromUtf8: Bytes -> Result<string, string>,
    generate: Bytes -> (Bytes, string),
    seedOfMnemonic: string -> Result<Bytes, string>,
    encryptSeed: (Bytes, string, Bytes) -> Result<Bytes, string>,
    decryptSeed: (Bytes, string) -> Result<Bytes, string>,
    encryptMnemonic: (string, string, Bytes) -> Result<Bytes, string>,
    decryptMnemonic: (Bytes, string) -> Result<string, string>,
    protocols: map<ProtocolId, Signer>)

  /** What is left to chance in one request: random bytes, and disk errors where there are any. */
  datatype Chance = Chance(nonce: Bytes, entropy: Bytes, disk: Disk)

  datatype Disk = Disk(readSeed: Option<string>, writeSeed: Option<string>,
                       readMnemonic: Option<string>, writeMnemonic: Option<string>)

  datatype Store = Store(seed: Option<Bytes>, mnemonic: Option<Bytes>)

  datatype Request =
    | GetEncryptionKey
    | GenerateSeed(password: Bytes, client: Bytes)
    | RestoreSeed(mnemonic: Bytes, password: Bytes, client: Bytes)
    | PreviewArtifact(raw: Bytes, protocol: ProtocolId, path: string)
    | AuthorizeArtifact(payload: Bytes, ephemeral: Bytes, path: string)
    | ExportViewingKey(password: Bytes, client: Bytes, protocol: ProtocolId, path: string)
    | VerifyPassword(password: Bytes, client: Bytes)
    | BulkExportViewingKeys(password: Bytes, client: Bytes, paths: seq<(ProtocolId, string)>)
    | ExportMnemonic(password: Bytes, client: Bytes)
    | RegisterViewingKeys(paths: seq<(ProtocolId, string)>, challenge: Bytes, paypunkdKey: Bytes)
    | VerifySignerSession(challenge: Bytes)

  datatype Response =
    | EncryptionKey(key: Bytes)
    | SeedGenerated(mnemonic: Bytes)
    | SeedRestored
    | ArtifactPreview(raw: Bytes, summary: Bytes, tag: Bytes, keypunkKey: Bytes)
    | ArtifactAuthorized(signed: Bytes)
    | ViewingKey(viewingKey: Bytes)
    | PasswordVerified
    | ViewingKeys(keys: seq<(ProtocolId, string, Bytes)>)
    | MnemonicExported(mnemonic: Bytes)
    | SessionVerified(tag: Bytes)
    | Error(message: string)

  const NO_PEER: Bytes := seq(32, _ => 0)

  /** The key under which previews for a sender are tagged. */
  function PeerKey(env: Environment, sender: Option<Bytes>): Bytes {
    env.sharedKey(match sender case Some(pk) => pk case None => NO_PEER)
  }

  /** What the tag of a preview commits to: the three parts run together. */
  function Message(env: Environment, raw: Bytes, summary: Bytes, path: string): Bytes {
    raw + summary + env.toUtf8(path)
  }

  // ----- The specification of each request

  function ParseWith(env: Environment, id: ProtocolId, raw: Bytes): Result<Bytes, string> {
    if id in env.protocols then env.protocols[id].ParseArtifact(raw) else Err("unknown protocol: " + Name(id))
  }

  function SignWith(env: Environment, id: ProtocolId, seed: Bytes, path: string, raw: Bytes,
                    entropy: Bytes): Result<Bytes, string> {
    if id in env.protocols then env.protocols[id].Sign(seed, path, raw, entropy)
    else Err("unknown protocol: " + Name(id))
  }

  function TryParseFrom(env: Environment, ids: seq<ProtocolId>, raw: Bytes): Result<Bytes, string> {
    if ids == [] then Err("no protocol could parse the artifact")
    else if ParseWith(env, ids[0], raw).Ok? then ParseWith(env, ids[0], raw)
    else TryParseFrom(env, ids[1..], raw)
  }

  function TrySignFrom(env: Environment, ids: seq<ProtocolId>, seed: Bytes, path: string, raw: Bytes,
                       entropy: Bytes): Result<Bytes, string> {
    if ids == [] then Err("no protocol could sign the artifact")
    else if SignWith(env, ids[0], seed, path, raw, entropy).Ok? then SignWith(env, ids[0], seed, path, raw, entropy)
    else TrySignFrom(env, ids[1..], seed, path, raw, entropy)
  }

  function TryParse(env: Environment, raw: Bytes): Result<Bytes, string> {
    TryParseFrom(env, ORDER, raw)
  }

  function TrySign(env: Environment, seed: Bytes, path: string, raw: Bytes, entropy: Bytes): Result<Bytes, string> {
    TrySignFrom(env, ORDER, seed, path, raw, entropy)
  }

  function Preview(env: Environment, raw: Bytes, protocol: ProtocolId, path: string, sender: Option<Bytes>,
                   nonce: Bytes): Response {
    match ParseWith(env, protocol, raw)
    case Err(e) => Error(e)
    case Ok(summary) =>
      ArtifactPreview(raw, summary,
                      env.seal(PeerKey(env, sender), nonce, env.hash(Message(env, raw, summary, path))), env.publicKey)
  }

  function OpenPayload(env: Environment, payload: Bytes, ephemeral: Bytes): Result<Fields, string> {
    match env.open(env.sharedKey(ephemeral), payload)
    case Err(e) => Err("decryption failed: " + e)
    case Ok(plaintext) => Decode(plaintext)
  }

  /** The reason for which the tag is refused, if there is one. */
  function TagRefused(env: Environment, f: Fields, path: string, sender: Option<Bytes>): Option<string> {
    match TryParse(env, f.raw)
    case Err(_) => None
    case Ok(summary) =>
      match env.open(PeerKey(env, sender), f.sig)
      case Err(_) => Some("signature verification failed: cannot decrypt")
      case Ok(digest) =>
        if digest != env.hash(Message(env, f.raw, summary, path))
        then Some("artifact verification failed: summary mismatch")
        else None
  }

  function UnlockAndSign(env: Environment, store: Store, f: Fields, path: string, chance: Chance): Response {
    match env.fromUtf8(f.password)
    case Err(_) => Error("invalid password encoding")
    case Ok(password) =>
      match (chance.disk.readSeed, store.seed)
      case (Some(e), _) => Error("read seed failed: " + e)
      case (None, None) => Error("no seed found")
      case (None, Some(blob)) =>
        match env.decryptSeed(blob, password)
        case Err(e) => Error("seed decryption failed: " + e)
        case Ok(seed) =>
          match TrySign(env, seed, path, f.raw, chance.entropy)
          case Err(e) => Error(e)
          case Ok(signed) => ArtifactAuthorized(signed)
  }

  function Authorize(env: Environment, store: Store, payload: Bytes, ephemeral: Bytes, path: string,
                     sender: Option<Bytes>, chance: Chance): Response {
    match OpenPayload(env, payload, ephemeral)
    case Err(e) => Error(e)
    case Ok(f) =>
      match TagRefused(env, f, path, sender)
      case Some(e) => Error(e)
      case None => UnlockAndSign(env, store, f, path, chance)
  }

  function OpenString(env: Environment, client: Bytes, encrypted: Bytes): Result<string, string> {
    match env.open(env.sharedKey(client), encrypted)
    case Err(e) => Err(e)
    case Ok(bytes) => env.fromUtf8(bytes)
  }

  function WriteBoth(store: Store, seedBlob: Bytes, mnemonicBlob: Bytes, disk: Disk, done: Response)
    : (Store, Response)
  {
    match (disk.writeSeed, disk.writeMnemonic)
    case (Some(e), _) => (store, Error(e))
    case (None, Some(e)) => (store.(seed := Some(seedBlob)), Error(e))
    case (None, None) => (Store(Some(seedBlob), Some(mnemonicBlob)), done)
  }

  function Persist(env: Environment, store: Store, seed: Bytes, mnemonic: string, password: string,
                   chance: Chance, done: Response): (Store, Response) {
    match (env.encryptSeed(seed, password, chance.entropy), env.encryptMnemonic(mnemonic, password, chance.entropy))
    case (Err(e), _) => (store, Error(e))
    case (Ok(_), Err(e)) => (store, Error(e))
    case (Ok(seedBlob), Ok(mnemonicBlob)) => WriteBoth(store, seedBlob, mnemonicBlob, chance.disk, done)
  }

  function Generate(env: Environment, store: Store, password: Bytes, client: Bytes, chance: Chance): (Store, Response) {
    match OpenString(env, client, password)
    case Err(e) => (store, Error(e))
    case Ok(pw) =>
      var generated := env.generate(chance.entropy);
      Persist(env, store, generated.0, generated.1, pw, chance,
              SeedGenerated(env.seal(env.sharedKey(client), chance.nonce, env.toUtf8(generated.1))))
  }

  function Restore(env: Environment, store: Store, mnemonic: Bytes, password: Bytes, client: Bytes,
                   chance: Chance): (Store, Response) {
    match OpenString(env, client, password)
    case Err(e) => (store, Error(e))
    case Ok(pw) =>
      match OpenString(env, client, mnemonic)
      case Err(e) => (store, Error(e))
      case Ok(phrase) =>
        match env.seedOfMnemonic(phrase)
        case Err(e) => (store, Error("invalid mnemonic: " + e))
        case Ok(seed) => Persist(env, store, seed, phrase, pw, chance, SeedRestored)
  }

  function UnlockedSeed(env: Environment, store: Store, password: Bytes, client: Bytes, disk: Disk): Result<Bytes,
    string> {
    match OpenString(env, client, password)
    case Err(e) => Err("password decryption failed: " + e)
    case Ok(pw) =>
      match (disk.readSeed, store.seed)
      case (Some(e), _) => Err("read seed failed: " + e)
      case (None, None) => Err("no seed found — wallet not initialized")
      case (None, Some(blob)) =>
        match env.decryptSeed(blob, pw)
        case Err(e) => Err("seed decryption failed: " + e)
        case Ok(seed) => Ok(seed)
  }

  function ViewingKeyOf(env: Environment, seed: Bytes, id: ProtocolId, path: string): Result<Bytes, string> {
    if id in env.protocols then env.protocols[id].viewingKey(seed, path) else Err("unknown protocol: " + Name(id))
  }

  function Prepend<T>(done: seq<T>, rest: Result<seq<T>, string>): Result<seq<T>, string> {
    match rest
    case Err(e) => Err(e)
    case Ok(s) => Ok(done + s)
  }

  lemma PrependOne<T>(done: seq<T>, x: T, rest: Result<seq<T>, string>)
    ensures Prepend(done, Prepend([x], rest)) == Prepend(done + [x], rest)
    ensures Prepend([], rest) == rest
  {
    if rest.Ok? {
      assert done + ([x] + rest.value) == done + [x] + rest.value;
      assert [] + rest.value == rest.value;
    }
  }

  /** The keys of a list of paths, or the first error. */
  function BulkKeys(env: Environment, seed: Bytes, paths: seq<(ProtocolId, string)>): Result<seq<(ProtocolId, string,
    Bytes)>, string> {
    if paths == [] then Ok([])
    else
      var (id, path) := paths[0];
      match ViewingKeyOf(env, seed, id, path)
      case Err(e) => Err(e)
      case Ok(key) => Prepend([(id, path, key)], BulkKeys(env, seed, paths[1..]))
  }

  function RevealMnemonic(env: Environment, store: Store, password: Bytes, client: Bytes, chance: Chance): Response {
    match OpenString(env, client, password)
    case Err(e) => Error("password decryption failed: " + e)
    case Ok(pw) =>
      match (chance.disk.readMnemonic, store.mnemonic)
      case (Some(e), _) => Error("read mnemonic failed: " + e)
      case (None, None) => Error("no mnemonic found — wallet not initialized")
      case (None, Some(blob)) =>
        match env.decryptMnemonic(blob, pw)
        case Err(e) => Error("mnemonic decryption failed: " + e)
        case Ok(phrase) => MnemonicExported(env.seal(env.sharedKey(client), chance.nonce, env.toUtf8(phrase)))
  }

  function Step(env: Environment, store: Store, request: Request, sender: Option<Bytes>, chance: Chance): (Store,
    Response) {
    match request
    case GetEncryptionKey => (store, EncryptionKey(env.publicKey))
    case GenerateSeed(password, client) => Generate(env, store, password, client, chance)
    case RestoreSeed(mnemonic, password, client) => Restore(env, store, mnemonic, password, client, chance)
    case PreviewArtifact(raw, protocol, path) => (store, Preview(env, raw, protocol, path, sender, chance.nonce))
    case AuthorizeArtifact(payload, ephemeral, path) =>
      (store, Authorize(env, store, payload, ephemeral, path, sender, chance))
    case ExportViewingKey(password, client, protocol, path) =>
      (match UnlockedSeed(env, store, password, client, chance.disk)
       case Err(e) => (store, Error(e))
       case Ok(seed) =>
         match ViewingKeyOf(env, seed, protocol, path)
         case Err(e) => (store, Error(e))
         case Ok(key) => (store, ViewingKey(key)))
    case VerifyPassword(password, client) =>
      (match UnlockedSeed(env, store, password, client, chance.disk)
       case Err(e) => (store, Error(e))
       case Ok(_) => (store, PasswordVerified))
    case BulkExportViewingKeys(password, client, paths) =>
      (match UnlockedSeed(env, store, password, client, chance.disk)
       case Err(e) => (store, Error(e))
       case Ok(seed) =>
         match BulkKeys(env, seed, paths)
         case Err(e) => (store, Error(e))
         case Ok(keys) => (store, ViewingKeys(keys)))
    case ExportMnemonic(password, client) => (store, RevealMnemonic(env, store, password, client, chance))
    case RegisterViewingKeys(_, _, _) => (store, Error("not supported in keypunkd mode"))
    case VerifySignerSession(_) => (store, Error("not supported in keypunkd mode"))
  }

  // ----- The daemon as it is written

  class Keypunk {
    const env: Environment
    var store: Store

    /** Opens the seed store as it is found. */
    constructor (env: Environment, found: Store)
      ensures this.env == env && store == found
    {
      this.env := env;
      store := found;
    }

    method TryParseArtifact(raw: Bytes) returns (r: Result<Bytes, string>)
      ensures r == TryParse(env, raw)
    {
      for i := 0 to |ORDER|
        invariant TryParse(env, raw) == TryParseFrom(env, ORDER[i..], raw)
      {
        r := ParseWith(env, ORDER[i], raw);
        if r.Ok? {
          return r;
        }
      }
      return Err("no protocol could parse the artifact");
    }

    method SignArtifact(seed: Bytes, path: string, raw: Bytes, entropy: Bytes) returns (r: Result<Bytes, string>)
      ensures r == TrySign(env, seed, path, raw, entropy)
    {
      for i := 0 to |ORDER|
        invariant TrySign(env, seed, path, raw, entropy) == TrySignFrom(env, ORDER[i..], seed, path, raw, entropy)
      {
        r := SignWith(env, ORDER[i], seed, path, raw, entropy);
        if r.Ok? {
          return r;
        }
      }
      return Err("no protocol could sign the artifact");
    }

    method BulkExportViewingKeys(seed: Bytes, paths: seq<(ProtocolId, string)>)
      returns (r: Result<seq<(ProtocolId, string, Bytes)>, string>)
      ensures r == BulkKeys(env, seed, paths)
    {
      hide ViewingKeyOf;
      var keys := [];
      assert paths[0..] == paths;
      assert Prepend([], BulkKeys(env, seed, paths)) == BulkKeys(env, seed, paths) by {
        PrependOne([], (Zcash, "", []), BulkKeys(env, seed, paths));
      }
      for i := 0 to |paths|
        invariant BulkKeys(env, seed, paths) == Prepend(keys, BulkKeys(env, seed, paths[i..]))
      {
        assert paths[i..][1..] == paths[i + 1..];
        var (id, path) := paths[i];
        var key := ViewingKeyOf(env, seed, id, path);
        if key.Err? {
          return Err(key.error);
        }
        PrependOne(keys, (id, path, key.value), BulkKeys(env, seed, paths[i + 1..]));
        keys := keys + [(id, path, key.value)];
      }
      assert paths[|paths|..] == [] && keys + [] == keys;
      return Ok(keys);
    }

    method PreviewArtifact(raw: Bytes, protocol: ProtocolId, path: string, sender: Option<Bytes>, nonce: Bytes)
      returns (response: Response)
      ensures response == Preview(env, raw, protocol, path, sender, nonce)
    {
      hide ParseWith;
      var parsed := ParseWith(env, protocol, raw);
      if parsed.Err? {
        return Error(parsed.error);
      }
      var toSign: Bytes := [];
      toSign := toSign + raw;
      toSign := toSign + parsed.value;
      toSign := toSign + env.toUtf8(path);
      assert toSign == Message(env, raw, parsed.value, path);
      var tag := env.seal(PeerKey(env, sender), nonce, env.hash(toSign));
      return ArtifactPreview(raw, parsed.value, tag, env.publicKey);
    }

    method AuthorizeArtifact(payload: Bytes, ephemeral: Bytes, path: string, sender: Option<Bytes>, chance: Chance)
      returns (response: Response)
      ensures response == Authorize(env, store, payload, ephemeral, path, sender, chance)
    {
      hide TryParse, TrySign, Decode;
      var plaintext := env.open(env.sharedKey(ephemeral), payload);
      if plaintext.Err? {
        return Error("decryption failed: " + plaintext.error);
      }
      var fields := Decode(plaintext.value);
      if fields.Err? {
        return Error(fields.error);
      }
      var f := fields.value;
      var parsed := TryParseArtifact(f.raw);
      if parsed.Ok? {
        var toVerify: Bytes := [];
        toVerify := toVerify + f.raw;
        toVerify := toVerify + parsed.value;
        toVerify := toVerify + env.toUtf8(path);
        assert toVerify == Message(env, f.raw, parsed.value, path);
        var digest := env.open(PeerKey(env, sender), f.sig);
        if digest.Err? {
          return Error("signature verification failed: cannot decrypt");
        }
        if digest.value != env.hash(toVerify) {
          return Error("artifact verification failed: summary mismatch");
        }
      }
      assert TagRefused(env, f, path, sender) == None;
      var password := env.fromUtf8(f.password);
      if password.Err? {
        return Error("invalid password encoding");
      }
      if chance.disk.readSeed.Some? {
        return Error("read seed failed: " + chance.disk.readSeed.value);
      }
      if store.seed.None? {
        return Error("no seed found");
      }
      var seed := env.decryptSeed(store.seed.value, password.value);
      if seed.Err? {
        return Error("seed decryption failed: " + seed.error);
      }
      var signed := SignArtifact(seed.value, path, f.raw, chance.entropy);
      if signed.Err? {
        return Error(signed.error);
      }
      return ArtifactAuthorized(signed.value);
    }

    /** The two writes of the seed store: a failure of the second leaves the first in place. */
    method WriteStore(seed: Bytes, mnemonic: string, password: string, chance: Chance, done: Response)
      returns (response: Response)
      modifies this
      ensures (store, response) == Persist(env, old(store), seed, mnemonic, password, chance, done)
    {
      var seedBlob := env.encryptSeed(seed, password, chance.entropy);
      if seedBlob.Err? {
        return Error(seedBlob.error);
      }
      var mnemonicBlob := env.encryptMnemonic(mnemonic, password, chance.entropy);
      if mnemonicBlob.Err? {
        return Error(mnemonicBlob.error);
      }
      if chance.disk.writeSeed.Some? {
        return Error(chance.disk.writeSeed.value);
      }
      store := store.(seed := Some(seedBlob.value));
      if chance.disk.writeMnemonic.Some? {
        return Error(chance.disk.writeMnemonic.value);
      }
      store := store.(mnemonic := Some(mnemonicBlob.value));
      return done;
    }

    method HandleRequest(request: Request, sender: Option<Bytes>, chance: Chance) returns (response: Response)
      modifies this
      ensures (store, response) == Step(env, old(store), request, sender, chance)
    {
      hide Preview, Authorize, Persist, UnlockedSeed, ViewingKeyOf, BulkKeys, RevealMnemonic, OpenString;
      match request
      case GetEncryptionKey => response := EncryptionKey(env.publicKey);
      case GenerateSeed(password, client) =>
        var pw := OpenString(env, client, password);
        if pw.Err? {
          return Error(pw.error);
        }
        var generated := env.generate(chance.entropy);
        var done := SeedGenerated(env.seal(env.sharedKey(client), chance.nonce, env.toUtf8(generated.1)));
        response := WriteStore(generated.0, generated.1, pw.value, chance, done);
      case RestoreSeed(mnemonic, password, client) =>
        var pw := OpenString(env, client, password);
        if pw.Err? {
          return Error(pw.error);
        }
        var phrase := OpenString(env, client, mnemonic);
        if phrase.Err? {
          return Error(phrase.error);
        }
        var seed := env.seedOfMnemonic(phrase.value);
        if seed.Err? {
          return Error("invalid mnemonic: " + seed.error);
        }
        response := WriteStore(seed.value, phrase.value, pw.value, chance, SeedRestored);
      case PreviewArtifact(raw, protocol, path) =>
        response := PreviewArtifact(raw, protocol, path, sender, chance.nonce);
      case AuthorizeArtifact(payload, ephemeral, path) =>
        response := AuthorizeArtifact(payload, ephemeral, path, sender, chance);
      case ExportViewingKey(password, client, protocol, path) =>
        var seed := UnlockedSeed(env, store, password, client, chance.disk);
        if seed.Err? {
          return Error(seed.error);
        }
        var key := ViewingKeyOf(env, seed.value, protocol, path);
        response := if key.Ok? then ViewingKey(key.value) else Error(key.error);
      case VerifyPassword(password, client) =>
        var seed := UnlockedSeed(env, store, password, client, chance.disk);
        response := if seed.Ok? then PasswordVerified else Error(seed.error);
      case BulkExportViewingKeys(password, client, paths) =>
        var seed := UnlockedSeed(env, store, password, client, chance.disk);
        if seed.Err? {
          return Error(seed.error);
        }
        var keys := BulkExportViewingKeys(seed.value, paths);
        response := if keys.Ok? then ViewingKeys(keys.value) else Error(keys.error);
      case ExportMnemonic(password, client) =>
        response := RevealMnemonic(env, store, password, client, chance);
      case RegisterViewingKeys(_, _, _) => response := Error("not supported in keypunkd mode");
      case VerifySignerSession(_) => response := Error("not supported in keypunkd mode");
    }
  }

  // ----- Runs

  /** A request, or a removal of files of the seed store by another program. */
  datatype Event =
    | Event(request: Request, sender: Option<Bytes>, chance: Chance)
    | Removal(ofSeed: bool, ofMnemonic: bool)

  function Next(env: Environment, store: Store, e: Event): Store {
    match e
    case Event(request, sender, chance) => Step(env, store, request, sender, chance).0
    case Removal(ofSeed, ofMnemonic) =>
      Store(if ofSeed then None else store.seed, if ofMnemonic then None else store.mnemonic)
  }

  function StoreAt(env: Environment, start: Store, run: seq<Event>, k: nat): Store
    requires k <= |run|
  {
    if k == 0 then start else Next(env, StoreAt(env, start, run, k - 1), run[k - 1])
  }

  function ResponseAt(env: Environment, start: Store, run: seq<Event>, k: nat): Response
    requires k < |run| && run[k].Event?
  {
    Step(env, StoreAt(env, start, run, k), run[k].request, run[k].sender, run[k].chance).1
  }

  /** A ciphertext the daemon handed out, with its key and plaintext. */
  datatype Sealing = Sealing(key: Bytes, blob: Bytes, plaintext: Bytes)

  /** The ciphertext in a response, if there is one. */
  function SealedAt(env: Environment, start: Store, run: seq<Event>, k: nat): Option<Sealing>
    requires k < |run|
  {
    var e, store := run[k], StoreAt(env, start, run, k);
    if e.Removal? then None
    else
      match (e.request, ResponseAt(env, start, run, k))
      case (PreviewArtifact(raw, _, path), ArtifactPreview(_, summary, tag, _)) =>
        Some(Sealing(PeerKey(env, e.sender), tag, env.hash(Message(env, raw, summary, path))))
      case (GenerateSeed(_, client), SeedGenerated(blob)) =>
        Some(Sealing(env.sharedKey(client), blob, env.toUtf8(env.generate(e.chance.entropy).1)))
      case (ExportMnemonic(password, client), MnemonicExported(blob)) =>
        if store.mnemonic.None? then None
        else (match OpenString(env, client, password)
              case Err(_) => None
              case Ok(pw) =>
                match env.decryptMnemonic(store.mnemonic.value, pw)
                case Err(_) => None
                case Ok(phrase) => Some(Sealing(env.sharedKey(client), blob, env.toUtf8(phrase))))
      case _ => None
  }

  /** The fields of an authorization request. */
  function FieldsAt(env: Environment, run: seq<Event>, k: nat): Result<Fields, string>
    requires k < |run|
  {
    match run[k]
    case Event(AuthorizeArtifact(payload, ephemeral, _), _, _) => OpenPayload(env, payload, ephemeral)
    case _ => Err("no authorization")
  }

  /** Only the daemon seals under the keys it shares with its peers: a tag that opens was sealed
      earlier in the run. */
  ghost predicate Authentic(env: Environment, start: Store, run: seq<Event>) {
    forall k :: 0 <= k < |run| && FieldsAt(env, run, k).Ok? ==>
                  var (key, tag) := (PeerKey(env, run[k].sender), FieldsAt(env, run, k).value.sig);
                  env.open(key, tag).Ok? ==>
                    exists j :: 0 <= j < k &&
                                SealedAt(env, start, run, j) == Some(Sealing(key, tag, env.open(key, tag).value))
  }

  /** What is hashed by a request, if anything. */
  function HashedAt(env: Environment, run: seq<Event>, k: nat): Option<Bytes>
    requires k < |run|
  {
    match run[k]
    case Event(PreviewArtifact(raw, protocol, path), _, _) =>
      (match ParseWith(env, protocol, raw)
       case Err(_) => None
       case Ok(summary) => Some(Message(env, raw, summary, path)))
    case Event(AuthorizeArtifact(_, _, path), _, _) =>
      (match FieldsAt(env, run, k)
       case Err(_) => None
       case Ok(f) =>
         match TryParse(env, f.raw)
         case Err(_) => None
         case Ok(summary) => Some(Message(env, f.raw, summary, path)))
    case _ => None
  }

  /** No two different messages of the run have the same hash. */
  ghost predicate CollisionFree(env: Environment, run: seq<Event>) {
    forall j, k :: 0 <= j < |run| && 0 <= k < |run| && HashedAt(env, run, j).Some? && HashedAt(env, run, k).Some? &&
                   env.hash(HashedAt(env, run, j).value) == env.hash(HashedAt(env, run, k).value) ==>
                     HashedAt(env, run, j) == HashedAt(env, run, k)
  }

  /** What is asked of the libraries: hashes of 32 bytes, recovery phrases of at least twelve words
      of at least three letters, and decryption that returns what was encrypted or fails. */
  ghost predicate Lawful(env: Environment) {
    && (forall b :: |env.hash(b)| == 32)
    && (forall entropy :: |env.toUtf8(env.generate(entropy).1)| >= 47)
    && (forall phrase :: env.seedOfMnemonic(phrase).Ok? ==> |env.toUtf8(phrase)| >= 47)
    && (forall phrase, pw, entropy, pw' :: var blob := env.encryptMnemonic(phrase, pw, entropy);
                                           blob.Ok? && env.decryptMnemonic(blob.value, pw').Ok? ==>
                                             env.decryptMnemonic(blob.value, pw').value == phrase)
  }

  /** Whatever the stored mnemonic decrypts to is longer than a hash. */
  ghost predicate LongMnemonic(env: Environment, store: Store) {
    store.mnemonic.Some? ==>
      forall pw :: env.decryptMnemonic(store.mnemonic.value, pw).Ok? ==>
                     |env.toUtf8(env.decryptMnemonic(store.mnemonic.value, pw).value)| >= 47
  }

  lemma {:induction false} LongMnemonicKept(env: Environment, start: Store, run: seq<Event>, k: nat)
    requires Lawful(env) && LongMnemonic(env, start) && k <= |run|
    ensures LongMnemonic(env, StoreAt(env, start, run, k))
    decreases k
  {
    if k > 0 {
      LongMnemonicKept(env, start, run, k - 1);
      StepKeepsLongMnemonic(env, StoreAt(env, start, run, k - 1), run[k - 1]);
    }
  }

  lemma StepKeepsLongMnemonic(env: Environment, store: Store, e: Event)
    requires Lawful(env) && LongMnemonic(env, store)
    ensures LongMnemonic(env, Next(env, store, e))
  {
    hide Preview, Authorize, UnlockedSeed, ViewingKeyOf, BulkKeys, RevealMnemonic, OpenString;
  }

  /** Nothing but the tag of a preview is as short as a hash. */
  lemma ShortSealingIsTag(env: Environment, start: Store, run: seq<Event>, j: nat)
    requires Lawful(env) && LongMnemonic(env, start) && j < |run|
    ensures SealedAt(env, start, run, j).Some? && |SealedAt(env, start, run, j).value.plaintext| < 47 ==>
              run[j].Event? && run[j].request.PreviewArtifact?
  {
    hide StoreAt, Preview, Authorize, UnlockedSeed, ViewingKeyOf, BulkKeys, OpenString;
    LongMnemonicKept(env, start, run, j);
  }

  /** Request j is a preview, answered with a summary, for a sender with this key, and these are the
      bytes its tag commits to. */
  predicate Previewed(env: Environment, start: Store, run: seq<Event>, j: nat, key: Bytes, message: Bytes)
    requires j < |run|
  {
    && run[j].Event? && run[j].request.PreviewArtifact?
    && ResponseAt(env, start, run, j).ArtifactPreview?
    && ResponseAt(env, start, run, j).raw == run[j].request.raw
    && PeerKey(env, run[j].sender) == key
    && Message(env, run[j].request.raw, ResponseAt(env, start, run, j).summary, run[j].request.path) == message
  }

  /** One of the requests before k is such a preview, for the sender of request k. */
  predicate PreviewedBefore(env: Environment, start: Store, run: seq<Event>, k: nat, message: Bytes)
    requires k < |run| && run[k].Event?
  {
    exists j :: 0 <= j < k && Previewed(env, start, run, j, PeerKey(env, run[k].sender), message)
  }

  /** A registered protocol decodes the artifact but cannot write a summary of it. */
  predicate CannotSummarize(env: Environment, id: ProtocolId, raw: Bytes) {
    id in env.protocols && env.protocols[id].decode(raw).Ok? && env.protocols[id].ParseArtifact(raw).Err?
  }

  predicate Unsummarizable(env: Environment, raw: Bytes) {
    exists id <- ORDER :: CannotSummarize(env, id, raw)
  }

  /** What can be signed can be parsed, because both begin with the same decoder. */
  lemma {:induction false} SignableIsParsable(env: Environment, ids: seq<ProtocolId>, seed: Bytes, path: string,
                                              raw: Bytes, entropy: Bytes)
    requires TrySignFrom(env, ids, seed, path, raw, entropy).Ok?
    ensures TryParseFrom(env, ids, raw).Ok? || exists id <- ids :: CannotSummarize(env, id, raw)
  {
    if SignWith(env, ids[0], seed, path, raw, entropy).Ok? {
      assert ParseWith(env, ids[0], raw).Ok? || CannotSummarize(env, ids[0], raw);
    } else {
      SignableIsParsable(env, ids[1..], seed, path, raw, entropy);
    }
  }

  /** Whatever is signed was previewed before: an earlier preview for a sender with the same key has
      the same artifact, summary and path run together. The check of the tag is skipped when no
      protocol parses the artifact; then no protocol signs it either, unless one decodes it and
      cannot summarize it. */
  lemma SignedWasPreviewed(env: Environment, start: Store, run: seq<Event>, k: nat)
    requires Lawful(env) && LongMnemonic(env, start) && Authentic(env, start, run) && CollisionFree(env, run)
    requires k < |run| && run[k].Event? && run[k].request.AuthorizeArtifact? &&
             ResponseAt(env, start, run, k).ArtifactAuthorized?
    ensures FieldsAt(env, run, k).Ok?
    ensures
      var raw := FieldsAt(env, run, k).value.raw;
      || Unsummarizable(env, raw)
      || (TryParse(env, raw).Ok? &&
          PreviewedBefore(env, start, run, k, Message(env, raw, TryParse(env, raw).value, run[k].request.path)))
  {
    hide StoreAt, TryParseFrom, TrySignFrom, Decode;
    var e := run[k];
    var f := FieldsAt(env, run, k).value;
    var key := PeerKey(env, e.sender);
    if TryParse(env, f.raw).Err? {
      var store := StoreAt(env, start, run, k);
      var seed := env.decryptSeed(store.seed.value, env.fromUtf8(f.password).value).value;
      SignableIsParsable(env, ORDER, seed, e.request.path, f.raw, e.chance.entropy);
    } else {
      var message := Message(env, f.raw, TryParse(env, f.raw).value, e.request.path);
      assert env.open(key, f.sig) == Ok(env.hash(message));
      var j :| 0 <= j < k && SealedAt(env, start, run, j) == Some(Sealing(key, f.sig, env.hash(message)));
      ShortSealingIsTag(env, start, run, j);
      assert HashedAt(env, run, k) == Some(message);
      TagCommits(env, start, run, j);
      assert Previewed(env, start, run, j, key, message);
    }
  }

  /** The tag of an answered preview seals the hash of what that request hashed. */
  lemma TagCommits(env: Environment, start: Store, run: seq<Event>, j: nat)
    requires j < |run| && run[j].Event? && run[j].request.PreviewArtifact? && SealedAt(env, start, run, j).Some?
    ensures HashedAt(env, run, j).Some?
    ensures SealedAt(env, start, run, j).value.plaintext == env.hash(HashedAt(env, run, j).value)
    ensures Previewed(env, start, run, j, SealedAt(env, start, run, j).value.key, HashedAt(env, run, j).value)
  {
    hide StoreAt, ParseWith;
  }

  /** When the previewed and the signed artifact have the same length they are the same bytes, and
      with summaries of one length the paths are the same too. */
  lemma SameLengthSameArtifact(env: Environment, raw: Bytes, summary: Bytes, path: string,
                               raw': Bytes, summary': Bytes, path': string)
    requires Message(env, raw, summary, path) == Message(env, raw', summary', path') && |raw| == |raw'|
    ensures raw == raw'
    ensures |summary| == |summary'| ==> summary == summary' && env.toUtf8(path) == env.toUtf8(path')
  {
    var m := Message(env, raw, summary, path);
    assert m[..|raw|] == raw && m[..|raw|] == raw';
    if |summary| == |summary'| {
      var n := |raw| + |summary|;
      assert m[|raw|..n] == summary && m[|raw|..n] == summary';
      assert m[n..] == env.toUtf8(path) && m[n..] == env.toUtf8(path');
    }
  }

  /** No artifact that parses is a proper beginning of another. */
  ghost predicate PrefixFree(env: Environment) {
    forall raw, raw' :: TryParse(env, raw).Ok? && TryParse(env, raw').Ok? && raw <= raw' ==> raw == raw'
  }

  ghost predicate OneProtocol(env: Environment) {
    forall a <- env.protocols, b <- env.protocols :: a == b
  }

  lemma ParsesSome(env: Environment, id: ProtocolId, raw: Bytes)
    requires ParseWith(env, id, raw).Ok?
    ensures TryParse(env, raw).Ok? && (OneProtocol(env) ==> TryParse(env, raw) == ParseWith(env, id, raw))
  {
    assert TryParse(env, raw) ==
           if ParseWith(env, Zcash, raw).Ok? then ParseWith(env, Zcash, raw) else TryParseFrom(env, [Ethereum], raw);
  }

  /** Of two artifacts with the same message one begins the other. */
  lemma MessageOrdersArtifacts(env: Environment, raw: Bytes, summary: Bytes, path: string,
                               raw': Bytes, summary': Bytes, path': string)
    requires Message(env, raw, summary, path) == Message(env, raw', summary', path')
    ensures raw <= raw' || raw' <= raw
    ensures raw == raw' ==> summary + env.toUtf8(path) == summary' + env.toUtf8(path')
  {
    var m := Message(env, raw, summary, path);
    assert m[..|raw|] == raw && m[..|raw'|] == raw';
    assert m[|raw|..] == summary + env.toUtf8(path) && m[|raw'|..] == summary' + env.toUtf8(path');
  }

  /** Where no artifact begins another, a message determines its artifact, whatever the lengths. */
  lemma MessageFixesArtifact(env: Environment, raw: Bytes, summary: Bytes, path: string,
                             raw': Bytes, summary': Bytes, path': string)
    requires PrefixFree(env) && TryParse(env, raw).Ok? && TryParse(env, raw').Ok?
    requires Message(env, raw, summary, path) == Message(env, raw', summary', path')
    ensures raw == raw'
    ensures summary == summary' ==> env.toUtf8(path) == env.toUtf8(path')
  {
    hide TryParseFrom, Message;
    MessageOrdersArtifacts(env, raw, summary, path, raw', summary', path');
    SameLengthSameArtifact(env, raw, summary, path, raw', summary', path');
  }

  /** Request j previewed, for the sender of request k, bytes that begin these or that these begin; if they
      are the same then summary and path agree as well, run together, and with one protocol apart. */
  ghost predicate NearlyPreviewed(env: Environment, start: Store, run: seq<Event>, j: nat, k: nat, raw: Bytes)
    requires j < |run| && k < |run| && run[k].Event? && run[k].request.AuthorizeArtifact?
  {
    && run[j].Event? && run[j].request.PreviewArtifact?
    && (run[j].request.raw <= raw || raw <= run[j].request.raw)
    && PeerKey(env, run[j].sender) == PeerKey(env, run[k].sender)
    && ResponseAt(env, start, run, j).ArtifactPreview?
    && TryParse(env, run[j].request.raw).Ok? && TryParse(env, raw).Ok?
    && var shown, checked := ResponseAt(env, start, run, j).summary, TryParse(env, raw).value;
    var previewedPath, path := env.toUtf8(run[j].request.path), env.toUtf8(run[k].request.path);
    (run[j].request.raw == raw ==> shown + previewedPath == checked + path &&
                                   (OneProtocol(env) ==> shown == checked && previewedPath == path))
  }

  /** Whatever is signed begins bytes that were previewed for the same sender, or begins with them. So it is
      what was previewed, byte for byte, exactly when it has the same length. */
  lemma SignedOrdersPreviewed(env: Environment, start: Store, run: seq<Event>, k: nat)
    requires Lawful(env) && LongMnemonic(env, start) && Authentic(env, start, run) && CollisionFree(env, run)
    requires k < |run| && run[k].Event? && run[k].request.AuthorizeArtifact? &&
             ResponseAt(env, start, run, k).ArtifactAuthorized?
    ensures FieldsAt(env, run, k).Ok?
    ensures Unsummarizable(env, FieldsAt(env, run, k).value.raw) ||
            exists j :: 0 <= j < k && NearlyPreviewed(env, start, run, j, k, FieldsAt(env, run, k).value.raw)
  {
    hide StoreAt, TryParseFrom, Decode, Lawful, LongMnemonic, Authentic, CollisionFree, ParseWith, FieldsAt, Message;
    SignedWasPreviewed(env, start, run, k);
    var raw := FieldsAt(env, run, k).value.raw;
    if !Unsummarizable(env, raw) {
      var summary, path := TryParse(env, raw).value, run[k].request.path;
      var j :| 0 <= j < k &&
               Previewed(env, start, run, j, PeerKey(env, run[k].sender), Message(env, raw, summary, path));
      var request, shown := run[j].request, ResponseAt(env, start, run, j).summary;
      ParsesSome(env, request.protocol, request.raw);
      MessageOrdersArtifacts(env, request.raw, shown, request.path, raw, summary, path);
      SameParts(env.toUtf8(request.path), env.toUtf8(path), shown, summary);
      assert NearlyPreviewed(env, start, run, j, k, raw);
    }
  }

  lemma SameParts(path: Bytes, path': Bytes, summary: Bytes, summary': Bytes)
    ensures summary + path == summary' + path' && summary == summary' ==> path == path'
  {
    if summary + path == summary' + path' && summary == summary' {
      assert (summary + path)[|summary|..] == path && (summary + path')[|summary|..] == path';
    }
  }

  /** Request j previewed these bytes for the sender of request k; with one protocol the summary was the
      one that request k checks and the path was the same. */
  ghost predicate ArtifactPreviewed(env: Environment, start: Store, run: seq<Event>, j: nat, k: nat, raw: Bytes)
    requires j < |run| && k < |run| && run[k].Event? && run[k].request.AuthorizeArtifact?
  {
    run[j].Event? && run[j].request.PreviewArtifact? && run[j].request.raw == raw &&
    NearlyPreviewed(env, start, run, j, k, raw)
  }

  /** Where no artifact begins another, whatever is signed was previewed itself, byte for byte. */
  lemma SignedArtifactWasPreviewed(env: Environment, start: Store, run: seq<Event>, k: nat)
    requires Lawful(env) && LongMnemonic(env, start) && Authentic(env, start, run) && CollisionFree(env, run)
    requires k < |run| && run[k].Event? && run[k].request.AuthorizeArtifact? &&
             ResponseAt(env, start, run, k).ArtifactAuthorized?
    requires PrefixFree(env)
    ensures FieldsAt(env, run, k).Ok?
    ensures Unsummarizable(env, FieldsAt(env, run, k).value.raw) ||
            exists j :: 0 <= j < k && ArtifactPreviewed(env, start, run, j, k, FieldsAt(env, run, k).value.raw)
  {
    hide StoreAt, TryParseFrom, Decode, Lawful, LongMnemonic, Authentic, CollisionFree, ParseWith, FieldsAt;
    SignedOrdersPreviewed(env, start, run, k);
    var raw := FieldsAt(env, run, k).value.raw;
    if !Unsummarizable(env, raw) {
      var j :| 0 <= j < k && NearlyPreviewed(env, start, run, j, k, raw);
      assert ArtifactPreviewed(env, start, run, j, k, raw);
    }
  }

  // ----- Which protocol signs

  /** The protocol whose summary is checked, and the protocol that signs. */
  function FirstParser(env: Environment, ids: seq<ProtocolId>, raw: Bytes): (p: Option<ProtocolId>)
    ensures p.Some? ==> p.value in ids && TryParseFrom(env, ids, raw) == ParseWith(env, p.value, raw) &&
                        ParseWith(env, p.value, raw).Ok?
    ensures p.None? ==> TryParseFrom(env, ids, raw).Err?
  {
    if ids == [] then None
    else if ParseWith(env, ids[0], raw).Ok? then Some(ids[0])
    else FirstParser(env, ids[1..], raw)
  }

  function FirstSigner(env: Environment, ids: seq<ProtocolId>, seed: Bytes, path: string, raw: Bytes,
                       entropy: Bytes): (p: Option<ProtocolId>)
    ensures p.Some? ==> p.value in ids && SignWith(env, p.value, seed, path, raw, entropy).Ok? &&
                        TrySignFrom(env, ids, seed, path, raw, entropy) ==
                        SignWith(env, p.value, seed, path, raw, entropy)
    ensures p.None? ==> TrySignFrom(env, ids, seed, path, raw, entropy).Err?
  {
    if ids == [] then None
    else if SignWith(env, ids[0], seed, path, raw, entropy).Ok? then Some(ids[0])
    else FirstSigner(env, ids[1..], seed, path, raw, entropy)
  }

  /** Of an artifact that every protocol that decodes it can summarize, the summary that is checked is of
      the protocol that signs exactly when the first protocol that parses it can sign it. */
  lemma {:induction false} SignerIsParserIff(env: Environment, ids: seq<ProtocolId>, seed: Bytes, path: string,
                                             raw: Bytes, entropy: Bytes)
    requires forall id <- ids :: !CannotSummarize(env, id, raw)
    requires TrySignFrom(env, ids, seed, path, raw, entropy).Ok?
    ensures FirstParser(env, ids, raw).Some?
    ensures
      var parser := FirstParser(env, ids, raw);
      FirstSigner(env, ids, seed, path, raw, entropy) == parser <==>
      SignWith(env, parser.value, seed, path, raw, entropy).Ok?
  {
    var id := ids[0];
    assert SignWith(env, id, seed, path, raw, entropy).Ok? ==> ParseWith(env, id, raw).Ok? by {
      assert !CannotSummarize(env, id, raw);
    }
    if !ParseWith(env, id, raw).Ok? {
      SignerIsParserIff(env, ids[1..], seed, path, raw, entropy);
    }
  }

  /** Otherwise: both protocols decode the bytes, the first cannot sign them, and the second signs what was
      checked against the summary of the first. */
  lemma OtherProtocolSigns(env: Environment, seed: Bytes, path: string, raw: Bytes, entropy: Bytes)
    requires ParseWith(env, Zcash, raw).Ok? && SignWith(env, Zcash, seed, path, raw, entropy).Err?
    requires SignWith(env, Ethereum, seed, path, raw, entropy).Ok?
    ensures TryParse(env, raw) == ParseWith(env, Zcash, raw)
    ensures TrySign(env, seed, path, raw, entropy) == SignWith(env, Ethereum, seed, path, raw, entropy)
  {
    assert ORDER[1..] == [Ethereum];
    assert TrySignFrom(env, [Ethereum], seed, path, raw, entropy) == SignWith(env, Ethereum, seed, path, raw, entropy);
  }

  /** The ordinary course: a preview by one protocol, then the same artifact, tag and path with a
      password. The request passes the check exactly when the first protocol that parses the artifact
      gives the previewed summary; then it is signed as if there had been no check. */
  lemma PreviewThenAuthorize(env: Environment, store: Store, raw: Bytes, id: ProtocolId, path: string,
                             sender: Option<Bytes>,
                             nonce: Bytes, password: Bytes, payload: Bytes, ephemeral: Bytes, chance: Chance)
    requires Preview(env, raw, id, path, sender, nonce).ArtifactPreview?
    requires
      var p := Preview(env, raw, id, path, sender, nonce);
      && |raw| < 0x1_0000_0000 && |p.tag| < 0x1_0000_0000
      && env.open(env.sharedKey(ephemeral), payload) == Ok(Encode(Fields(raw, p.tag, password)))
      && env.open(PeerKey(env, sender), p.tag) == Ok(env.hash(Message(env, raw, p.summary, path)))
      && TryParse(env, raw).Ok?
      && (env.hash(Message(env, raw, p.summary, path)) ==
          env.hash(Message(env, raw, TryParse(env, raw).value, path)) ==>
            Message(env, raw, p.summary, path) == Message(env, raw, TryParse(env, raw).value, path))
    ensures
      var p := Preview(env, raw, id, path, sender, nonce);
      Authorize(env, store, payload, ephemeral, path, sender, chance) ==
      if p.summary == TryParse(env, raw).value
      then UnlockAndSign(env, store, Fields(raw, p.tag, password), path, chance)
      else Error("artifact verification failed: summary mismatch")
  {
    hide TryParse, UnlockAndSign, Encode, Decode, ParseWith;
    var p := Preview(env, raw, id, path, sender, nonce);
    var f := Fields(raw, p.tag, password);
    RoundTrip(f);
    var s, s' := p.summary, TryParse(env, raw).value;
    if Message(env, raw, s, path) == Message(env, raw, s', path) {
      var m := Message(env, raw, s, path);
      var n := |m| - |env.toUtf8(path)|;
      assert m[|raw|..n] == s && m[|raw|..n] == s';
    }
  }

  /** No request but GenerateSeed and RestoreSeed changes the stored seed. */
  lemma OnlySeedRequestsWrite(env: Environment, store: Store, e: Event)
    ensures e.Event? && !e.request.GenerateSeed? && !e.request.RestoreSeed? ==> Next(env, store, e) == store
  {
    hide Preview, Authorize, UnlockedSeed, ViewingKeyOf, BulkKeys, RevealMnemonic;
  }
}
