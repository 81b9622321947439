/**
 Backup profiles and their credentials: a secret is kept as plaintext, as a sealed blob,
 or both, and what matters is the value it resolves to.

 Sealing binds a blob to a name; unsealing under another name fails.  Whether a sealing
 attempt succeeds is up to the host.
 */
module Secrets {
  import opened Wrappers

  datatype Blob = Blob(name: string, plain: string, salt: nat)

  /** A `field` / `field_encrypted` pair. */
  datatype Secret = Secret(plain: Option<string>, blob: Option<Blob>)

  const NO_SECRET := Secret(None, None)

  datatype SecretError = Undecryptable | Missing

  datatype Target =
    | Local(path: string)
    | S3(endpoint: string, bucket: string, accessKey: string, secretKey: Secret, region: Option<string>)
    | Sftp(host: string, user: string, dir: string, port: Option<nat>)
    | Rest(url: string, username: Option<string>, password: Secret)
    | B2(bucketName: string, accountId: string, accountKey: Secret)

  datatype RunResult = RunResult(run: nat, success: bool, message: string)

  datatype Profile = Profile(
    id: string,
    name: string,
    enabled: bool,
    sources: seq<string>,
    target: Target,
    schedule: Option<string>,
    password: Secret,
    repoInitialized: bool,
    lastRun: Option<RunResult>,
    trustedCacert: Option<string>)

  /** The host's answer to each sealing attempt: a blob's salt, or failure. */
  type Sealer = string -> Option<nat>

  // ---- Names ----

  function PasswordName(id: string): string {
    "nasty.backup." + id + ".password"
  }

  function TargetSuffix(t: Target): string {
    match t
    case S3(_, _, _, _, _) => ".s3.secret_key"
    case B2(_, _, _) => ".b2.account_key"
    case Rest(_, _, _) => ".rest.password"
    case _ => ""
  }

  function TargetSecretName(id: string, t: Target): string {
    "nasty.backup." + id + TargetSuffix(t)
  }

  predicate SameVariant(t: Target, u: Target) {
    (t.S3? && u.S3?) || (t.B2? && u.B2?) || (t.Rest? && u.Rest?)
  }

  predicate HasSecret(t: Target) {
    t.S3? || t.B2? || t.Rest?
  }

  // ---- One secret ----

  function Unsealed(name: string, blob: Blob): Result<string, SecretError> {
    if blob.name == name then Ok(blob.plain) else Err(Undecryptable)
  }

  /** `resolve_secret`: a blob beats plaintext. */
  function Resolve(name: string, s: Secret): Result<string, SecretError> {
    if s.blob.Some? then Unsealed(name, s.blob.value)
    else if s.plain.Some? then Ok(s.plain.value)
    else Err(Missing)
  }

  /** Seal a plaintext that has no blob yet; keep it if sealing fails. */
  function Sealed(name: string, s: Secret, seal: Sealer): Secret {
    if s.blob.None? && s.plain.Some?
    then match seal(name)
         case Some(salt) => Secret(None, Some(Blob(name, s.plain.value, salt)))
         case None => s
    else s
  }

  /** Fill a silent update from the stored secret. */
  function Carried(update: Secret, existing: Secret): Secret {
    if update == NO_SECRET then existing else update
  }

  // ---- Targets and profiles ----

  function TargetSecret(t: Target): Secret {
    match t
    case S3(_, _, _, s, _) => s
    case B2(_, _, s) => s
    case Rest(_, _, s) => s
    case _ => NO_SECRET
  }

  function WithTargetSecret(t: Target, s: Secret): Target {
    match t
    case S3(_, _, _, _, _) => t.(secretKey := s)
    case B2(_, _, _) => t.(accountKey := s)
    case Rest(_, _, _) => t.(password := s)
    case _ => t
  }

  /** `encrypt_profile_secrets_in_place`. */
  function Encrypted(p: Profile, seal: Sealer): Profile {
    p.(password := Sealed(PasswordName(p.id), p.password, seal),
       target := WithTargetSecret(p.target, Sealed(TargetSecretName(p.id, p.target), TargetSecret(p.target), seal)))
  }

  /** `carry_forward_existing_secrets`. */
  function CarriedForward(update: Profile, existing: Profile): Profile {
    update.(password := Carried(update.password, existing.password),
            target := if SameVariant(update.target, existing.target)
                      then WithTargetSecret(
                             update.target, Carried(TargetSecret(update.target), TargetSecret(existing.target)))
                      else update.target)
  }

  /** `backup_definition_matches`. */
  predicate DefinitionMatches(p: Profile, q: Profile) {
    p.sources == q.sources && p.target == q.target && p.password == q.password && p.trustedCacert == q.trustedCacert
  }

  /** `invalidate_last_run_if_definition_changed`. */
  function Invalidated(update: Profile, existing: Profile): Profile {
    if DefinitionMatches(update, existing) then update else update.(lastRun := None)
  }

  /** What `update_profile` stores for `update` when it finds `existing`. */
  function Prepared(update: Profile, existing: Profile, seal: Sealer): Profile {
    Encrypted(Invalidated(CarriedForward(update, existing), existing), seal)
  }

  // ---- Credentials in REST URLs ----

  /** A user or password as it is sent: none, text, or percent-encoded bytes that are no text. */
  datatype Sent = Absent | Text(text: string) | Bytes(raw: string) {
    function Decoded(): Option<string> {
      if Text? then Some(text) else None
    }
  }

  /** What a URL carries, and the URL without it. */
  datatype Userinfo = Userinfo(user: Sent, pass: Sent, bare: string)

  /** The URL library: the userinfo of a URL that parses and has some, and which URLs parse. */
  datatype Urls = Urls(read: string -> Option<Userinfo>, parses: string -> bool) {
    /** Userinfo is a user or a password, and a URL that was stripped parses and carries none any more. */
    ghost predicate LawfulAt(url: string) {
      read(url).Some? ==>
        var u := read(url).value;
        && parses(url) && parses(u.bare) && read(u.bare).None?
        && (u.user.Text? ==> |u.user.text| > 0) && !(u.user.Absent? && u.pass.Absent?)
    }

    ghost predicate Lawful() {
      forall url :: LawfulAt(url)
    }
  }

  predicate CarriesUserinfo(t: Target, urls: Urls) {
    t.Rest? && urls.read(t.url).Some?
  }

  /** The username field for the user of a URL; an empty one decodes to empty text. */
  function UserField(user: Sent): Option<string> {
    if user.Absent? then Some("") else user.Decoded()
  }

  predicate Given(username: Option<string>) {
    username.Some? && |username.value| > 0
  }

  /** `normalize_rest_url_userinfo`. */
  function Normalized(t: Target, urls: Urls): Target {
    if !CarriesUserinfo(t, urls) then t
    else
      var u := urls.read(t.url).value;
      Rest(u.bare,
           if Given(t.username) then t.username else UserField(u.user),
           if t.password == NO_SECRET && u.pass.Text? then Secret(Some(u.pass.text), None) else t.password)
  }

  function NormalizedProfile(p: Profile, urls: Urls): Profile {
    p.(target := Normalized(p.target, urls))
  }

  /** What the REST client is given: the URL, and the credentials it sends. */
  datatype Connection = Connection(url: string, user: Sent, pass: Sent)

  /** The URL as it stands, with whatever it carries. */
  function AsWritten(url: string, urls: Urls): Connection {
    var u := urls.read(url);
    if u.Some? then Connection(u.value.bare, u.value.user, u.value.pass) else Connection(url, Absent, Absent)
  }

  /**
   What a run hands to the REST client.  A username, even an empty one, demands a password that resolves, or the
   run fails; a username and a password replace what the URL carries.
   */
  function Connects(t: Target, urls: Urls, name: string): Result<Connection, SecretError>
    requires t.Rest?
  {
    if t.username.None? then Ok(AsWritten(t.url, urls))
    else match Resolve(name, t.password)
      case Err(e) => Err(e)
      case Ok(pass) =>
        if Given(t.username) && urls.parses(t.url)
        then Ok(Connection(AsWritten(t.url, urls).url, Text(t.username.value), Text(pass)))
        else Ok(AsWritten(t.url, urls))
  }

  // ---- What a backup run depends on ----

  function ResolvedPassword(p: Profile): Result<string, SecretError> {
    Resolve(PasswordName(p.id), p.password)
  }

  /** Where a run writes: what the REST client is given, or the target with its credential, where it uses one. */
  datatype Place =
    | Served(connection: Result<Connection, SecretError>)
    | Elsewhere(target: Target, secret: Option<Result<string, SecretError>>)

  function PlaceOf(p: Profile, urls: Urls): Place {
    var name := TargetSecretName(p.id, p.target);
    if p.target.Rest? then Served(Connects(p.target, urls, name))
    else Elsewhere(WithTargetSecret(p.target, NO_SECRET),
                   if HasSecret(p.target) then Some(Resolve(name, TargetSecret(p.target))) else None)
  }

  /** Where a profile backs up what, with which credentials: all that a run uses. */
  datatype Definition = Definition(
    id: string,
    sources: seq<string>,
    place: Place,
    password: Result<string, SecretError>,
    trustedCacert: Option<string>)

  function DefinitionOf(p: Profile, urls: Urls): Definition {
    Definition(p.id, p.sources, PlaceOf(p, urls), ResolvedPassword(p), p.trustedCacert)
  }

  // ---- Conservation ----

  lemma SealingKeepsValue(name: string, s: Secret, seal: Sealer)
    ensures Resolve(name, Sealed(name, s, seal)) == Resolve(name, s)
  {
  }

  /** Encrypting at rest never changes what a profile means, whichever sealings fail. */
  lemma EncryptionKeepsDefinition(p: Profile, urls: Urls, seal: Sealer)
    ensures DefinitionOf(Encrypted(p, seal), urls) == DefinitionOf(p, urls)
    ensures Encrypted(p, seal).lastRun == p.lastRun
  {
  }

  /** The supplied blob's value, else the supplied plaintext, else the stored secret. */
  function Owed(name: string, update: Secret, existing: Secret): Result<string, SecretError> {
    match update
    case Secret(_, Some(blob)) => Unsealed(name, blob)
    case Secret(Some(plain), None) => Ok(plain)
    case Secret(None, None) => Resolve(name, existing)
  }

  lemma CarriedValue(name: string, update: Secret, existing: Secret)
    ensures Resolve(name, Carried(update, existing)) == Owed(name, update, existing)
  {
  }

  /** The target secret that an update ends up storing. */
  lemma PreparedTargetSecret(update: Profile, existing: Profile, seal: Sealer)
    ensures var carried := CarriedForward(update, existing).target;
            TargetSecret(Prepared(update, existing, seal).target) ==
            Sealed(TargetSecretName(update.id, carried), TargetSecret(carried), seal)
    ensures TargetSuffix(CarriedForward(update, existing).target) == TargetSuffix(update.target)
    ensures TargetSecret(CarriedForward(update, existing).target) ==
            if SameVariant(update.target, existing.target)
            then Carried(TargetSecret(update.target), TargetSecret(existing.target))
            else TargetSecret(update.target)
  {
    hide Carried, PasswordName;
  }

  /** An update under the same id conserves every secret, whichever sealings fail. */
  lemma UpdateConservesSecrets(update: Profile, existing: Profile, seal: Sealer)
    requires update.id == existing.id
    ensures ResolvedPassword(Prepared(update, existing, seal)) ==
            Owed(PasswordName(existing.id), update.password, existing.password)
    ensures var name := TargetSecretName(existing.id, update.target);
            Resolve(name, TargetSecret(Prepared(update, existing, seal).target)) ==
            if SameVariant(update.target, existing.target)
            then Owed(name, TargetSecret(update.target), TargetSecret(existing.target))
            else Resolve(name, TargetSecret(update.target))
  {
    var name := TargetSecretName(existing.id, update.target);
    var carried := CarriedForward(update, existing);
    CarriedValue(PasswordName(existing.id), update.password, existing.password);
    SealingKeepsValue(PasswordName(existing.id), carried.password, seal);
    PreparedTargetSecret(update, existing, seal);
    CarriedValue(name, TargetSecret(update.target), TargetSecret(existing.target));
    SealingKeepsValue(name, TargetSecret(carried.target), seal);
  }

  lemma PasswordNamesDiffer(a: string, b: string)
    requires a != b
    ensures PasswordName(a) != PasswordName(b)
  {
    var head := |"nasty.backup."|;
    assert PasswordName(a)[head..|PasswordName(a)| - |".password"|] == a;
    assert PasswordName(b)[head..|PasswordName(b)| - |".password"|] == b;
  }

  /**
   Nothing forces an update to keep its id.  A stored password that the update leaves out
   survives exactly when the id is kept or the stored password was never sealed.
   */
  lemma RenamedProfileKeepsPasswordIff(update: Profile, existing: Profile, seal: Sealer)
    requires update.password == NO_SECRET && ResolvedPassword(existing).Ok?
    ensures ResolvedPassword(Prepared(update, existing, seal)) == ResolvedPassword(existing) <==>
            update.id == existing.id || existing.password.blob.None?
  {
    var ready := Invalidated(CarriedForward(update, existing), existing);
    SealingKeepsValue(PasswordName(ready.id), ready.password, seal);
    if update.id != existing.id {
      PasswordNamesDiffer(update.id, existing.id);
    }
  }

  predicate Settled(s: Secret) {
    s.blob.Some? || s.plain.None?
  }

  /** Encrypting seals every open plaintext it can and blanks what it sealed; with none left it changes nothing. */
  lemma EncryptingAgainChangesNothing(p: Profile, seal: Sealer)
    ensures Settled(p.password) && Settled(TargetSecret(p.target)) ==> Encrypted(p, seal) == p
    ensures (forall name :: seal(name).Some?) ==>
              Settled(Encrypted(p, seal).password) && Settled(TargetSecret(Encrypted(p, seal).target))
    ensures p.password.blob != Encrypted(p, seal).password.blob ==> Encrypted(p, seal).password.plain.None?
    ensures TargetSecret(p.target).blob != TargetSecret(Encrypted(p, seal).target).blob ==>
              TargetSecret(Encrypted(p, seal).target).plain.None?
  {
  }

  /** A renamed profile whose stored password is sealed loses it. */
  lemma RenamingLosesSealedPassword(existing: Profile, update: Profile, seal: Sealer)
    requires update.id != existing.id && update.password == NO_SECRET
    requires existing.password == Secret(None, Some(Blob(PasswordName(existing.id), "secret", 0)))
    ensures ResolvedPassword(existing) == Ok("secret")
    ensures ResolvedPassword(Prepared(update, existing, seal)) == Err(Undecryptable)
  {
    PasswordNamesDiffer(update.id, existing.id);
  }

  // ---- Names of secrets ----

  lemma SameTail(a: string, b: string, tail: string)
    requires a + tail == b + tail
    ensures a == b
  {
    assert a == (a + tail)[..|a|] && b == (b + tail)[..|b|];
  }

  /** Each secret of a profile is sealed under a name of its own. */
  lemma SecretNames(id: string, t: Target)
    ensures PasswordName(id) == "nasty.backup." + id + ".password"
    ensures t.S3? ==> TargetSecretName(id, t) == "nasty.backup." + id + ".s3.secret_key"
    ensures t.B2? ==> TargetSecretName(id, t) == "nasty.backup." + id + ".b2.account_key"
    ensures t.Rest? ==> TargetSecretName(id, t) == "nasty.backup." + id + ".rest.password"
    ensures HasSecret(t) ==> PasswordName(id) != TargetSecretName(id, t)
  {
    assert HasSecret(t) ==> |PasswordName(id)| != |TargetSecretName(id, t)|;
  }

  /** And profiles of different ids never share one for the same field. */
  lemma SecretNamesApart(id: string, other: string, t: Target)
    ensures PasswordName(id) == PasswordName(other) <==> id == other
    ensures TargetSecretName(id, t) == TargetSecretName(other, t) <==> id == other
  {
    NamesApart("nasty.backup.", id, other, ".password");
    NamesApart("nasty.backup.", id, other, TargetSuffix(t));
  }

  lemma NamesApart(head: string, a: string, b: string, tail: string)
    ensures head + a + tail == head + b + tail <==> a == b
  {
    if head + a + tail == head + b + tail {
      SameTail(head + a, head + b, tail);
      assert a == (head + a)[|head|..] && b == (head + b)[|head|..];
    }
  }

  /** Two profiles of another kind than REST have one definition exactly when a run would use the same of both. */
  lemma DefinitionTells(p: Profile, q: Profile, urls: Urls)
    requires !p.target.Rest? && !q.target.Rest?
    ensures DefinitionOf(p, urls) == DefinitionOf(q, urls) <==>
            && p.id == q.id && p.sources == q.sources && p.trustedCacert == q.trustedCacert
            && ResolvedPassword(p) == ResolvedPassword(q) && Blanked(p.target) == Blanked(q.target)
            && (p.target.S3? && q.target.S3? ==>
                  Resolve(TargetSecretName(p.id, p.target), p.target.secretKey) ==
                  Resolve(TargetSecretName(q.id, q.target), q.target.secretKey))
            && (p.target.B2? && q.target.B2? ==>
                  Resolve(TargetSecretName(p.id, p.target), p.target.accountKey) ==
                  Resolve(TargetSecretName(q.id, q.target), q.target.accountKey))
  {
    hide Resolve, TargetSecretName, PasswordName;
  }

  // ---- What an edit stores ----

  /** The target without its credential. */
  function Blanked(t: Target): Target {
    match t
    case S3(endpoint, bucket, accessKey, _, region) => S3(endpoint, bucket, accessKey, NO_SECRET, region)
    case B2(bucket, account, _) => B2(bucket, account, NO_SECRET)
    case Rest(url, username, _) => Rest(url, username, NO_SECRET)
    case Local(path) => Local(path)
    case Sftp(host, user, dir, port) => Sftp(host, user, dir, port)
  }

  /** The two profiles agree on everything but secrets and the last run. */
  predicate SameButSecrets(p: Profile, q: Profile) {
    && p.id == q.id && p.name == q.name && p.enabled == q.enabled && p.sources == q.sources
    && p.schedule == q.schedule && p.repoInitialized == q.repoInitialized && p.trustedCacert == q.trustedCacert
    && Blanked(p.target) == Blanked(q.target)
  }

  lemma EncryptionStoresTheRest(p: Profile, seal: Sealer)
    ensures SameButSecrets(Encrypted(p, seal), p) && Encrypted(p, seal).lastRun == p.lastRun
  {
  }

  /** What is stored for an edit is what the caller sent, secrets and the last run aside. */
  lemma EditStoresWhatWasSent(update: Profile, existing: Profile, seal: Sealer)
    ensures SameButSecrets(Prepared(update, existing, seal), update)
  {
    var ready := Invalidated(CarriedForward(update, existing), existing);
    assert SameButSecrets(ready, update);
    EncryptionStoresTheRest(ready, seal);
    hide Encrypted;
  }

  /** The secret sent is none, to be filled in, or the stored one. */
  predicate LeavesSecret(sent: Secret, stored: Secret) {
    (sent.plain.None? && sent.blob.None?) || sent == stored
  }

  predicate LeavesTargetSecret(sent: Target, stored: Target) {
    && (sent.S3? && stored.S3? ==> LeavesSecret(sent.secretKey, stored.secretKey))
    && (sent.B2? && stored.B2? ==> LeavesSecret(sent.accountKey, stored.accountKey))
    && (sent.Rest? && stored.Rest? ==> LeavesSecret(sent.password, stored.password))
  }

  /** The edit leaves sources, certificate, target, password and credential as they are stored. */
  predicate Undisturbed(update: Profile, existing: Profile) {
    && update.sources == existing.sources && update.trustedCacert == existing.trustedCacert
    && Blanked(update.target) == Blanked(existing.target)
    && LeavesSecret(update.password, existing.password) && LeavesTargetSecret(update.target, existing.target)
  }

  lemma CarriedMatchesIff(update: Profile, existing: Profile)
    ensures DefinitionMatches(CarriedForward(update, existing), existing) <==> Undisturbed(update, existing)
  {
  }

  /** The last run sent is stored exactly when the edit disturbs nothing a run depends on; otherwise none is. */
  lemma EditKeepsRunIff(update: Profile, existing: Profile, seal: Sealer)
    ensures Prepared(update, existing, seal).lastRun ==
            if Undisturbed(update, existing) then update.lastRun else None
  {
    CarriedMatchesIff(update, existing);
    EncryptionStoresTheRest(Invalidated(CarriedForward(update, existing), existing), seal);
    hide Undisturbed, DefinitionMatches, Encrypted;
  }

  /** Two profiles have the same definition as far as the engine compares them. */
  predicate SameFourFields(p: Profile, q: Profile) {
    p.sources == q.sources && p.target == q.target && p.password == q.password && p.trustedCacert == q.trustedCacert
  }

  // ---- Moving credentials out of a URL ----

  /** Where the parts of the URL go: a username that was given stays, and otherwise the user of the URL is it. */
  lemma UserIsMoved(t: Target, urls: Urls)
    requires t.Rest? && urls.read(t.url).Some?
    ensures var moved, u := Normalized(t, urls), urls.read(t.url).value;
            && moved.Rest? && moved.url == u.bare
            && (t.username.Some? && |t.username.value| > 0 ==> moved.username == t.username)
            && (t.username.None? || |t.username.value| == 0 ==>
                  && (u.user.Text? ==> moved.username == Some(u.user.text))
                  && (u.user.Absent? ==> moved.username == Some(""))
                  && (u.user.Bytes? ==> moved.username == None))
  {
  }

  /** Moving userinfo changes the target exactly when there is some, once, and no secret that was given. */
  lemma NormalizingConserves(t: Target, urls: Urls, name: string)
    requires urls.Lawful()
    ensures Normalized(t, urls) != t <==> CarriesUserinfo(t, urls)
    ensures Normalized(Normalized(t, urls), urls) == Normalized(t, urls)
    ensures TargetSecret(Normalized(t, urls)) == TargetSecret(t) ||
            (&& TargetSecret(t) == NO_SECRET && CarriesUserinfo(t, urls) && urls.read(t.url).value.pass.Text?
             && Resolve(name, TargetSecret(Normalized(t, urls))) == Ok(urls.read(t.url).value.pass.text))
  {
    if t.Rest? {
      assert urls.LawfulAt(t.url);
    }
  }

  /** The URL's password becomes the secret. */
  predicate PasswordMoves(t: Target, u: Userinfo)
    requires t.Rest?
  {
    t.password == NO_SECRET && u.pass.Text?
  }

  /**
   With a username given, the URL's user never counted: nothing changes unless its password now fills a gap that
   used to fail the run.  Without one, the URL's own credentials counted: both must be text, and a password that is
   given must be the same.  An empty username over a password that does not resolve fails the run, and goes on
   failing it unless the user cannot be decoded or the URL's password fills the gap.
   */
  predicate ConnectionStays(t: Target, u: Userinfo, name: string)
    requires t.Rest?
  {
    if Given(t.username) then !PasswordMoves(t, u)
    else if t.username.Some? && Resolve(name, t.password).Err? then !u.user.Bytes? && !PasswordMoves(t, u)
    else u.user.Text? && u.pass.Text? && (t.password == NO_SECRET || Resolve(name, t.password) == Ok(u.pass.text))
  }

  /** Moving credentials out of a URL leaves what a run hands on, or fails with, exactly under that condition. */
  lemma NormalizingKeepsConnectionIff(t: Target, urls: Urls, name: string)
    requires urls.Lawful() && CarriesUserinfo(t, urls)
    ensures Connects(Normalized(t, urls), urls, name) == Connects(t, urls, name) <==>
            ConnectionStays(t, urls.read(t.url).value, name)
  {
    assert urls.LawfulAt(t.url);
  }

  /** For a target that works, that is: a username is given, or the URL's credentials are text and stand unopposed. */
  lemma WorkingConnectionStaysIff(t: Target, urls: Urls, name: string)
    requires urls.Lawful() && CarriesUserinfo(t, urls) && Connects(t, urls, name).Ok?
    ensures Connects(Normalized(t, urls), urls, name) == Connects(t, urls, name) <==>
            var u := urls.read(t.url).value;
            || Given(t.username)
            || (&& u.user.Text? && u.pass.Text?
                && (t.password == NO_SECRET || Resolve(name, t.password) == Ok(u.pass.text)))
  {
    NormalizingKeepsConnectionIff(t, urls, name);
  }

  /** A URL with a user and no password works until its user is moved; from then on every run fails. */
  lemma UserAloneFailsRuns(urls: Urls, name: string)
    requires urls.Lawful() && urls.read("rest") == Some(Userinfo(Text("user"), Absent, "bare"))
    ensures var t := Rest("rest", None, NO_SECRET);
            && Connects(t, urls, name) == Ok(Connection("bare", Text("user"), Absent))
            && Connects(Normalized(t, urls), urls, name) == Err(Missing)
  {
  }

  // ---- Boot migration ----

  function Flags(p: Profile): (bool, bool) {
    (p.password.blob.Some?, TargetSecret(p.target).blob.Some?)
  }

  function MigratedProfile(p: Profile, urls: Urls, seal: Sealer): Profile {
    Encrypted(NormalizedProfile(p, urls), seal)
  }

  function Migrated(ps: seq<Profile>, urls: Urls, seal: Sealer): seq<Profile> {
    seq(|ps|, i requires 0 <= i < |ps| => MigratedProfile(ps[i], urls, seal))
  }

  /** Comparing two flags is enough to notice every change encryption can make. */
  lemma FlagsTellChange(p: Profile, seal: Sealer)
    ensures Flags(Encrypted(p, seal)) == Flags(p) <==> Encrypted(p, seal) == p
  {
  }

  /** Migration changes a profile exactly when its URL carried userinfo or a flag changed. */
  lemma MigrationTellsChange(p: Profile, urls: Urls, seal: Sealer)
    requires urls.Lawful()
    ensures MigratedProfile(p, urls, seal) != p <==>
            CarriesUserinfo(p.target, urls) ||
            Flags(MigratedProfile(p, urls, seal)) != Flags(NormalizedProfile(p, urls))
  {
    FlagsTellChange(NormalizedProfile(p, urls), seal);
    if CarriesUserinfo(p.target, urls) {
      assert urls.LawfulAt(p.target.url);
      assert MigratedProfile(p, urls, seal).target.url == urls.read(p.target.url).value.bare != p.target.url;
    }
  }

  /** `migrate_secrets`: move URL credentials and seal, profile by profile, and report whether anything changed. */
  method MigrateSecrets(ps: seq<Profile>, urls: Urls, seal: Sealer) returns (next: seq<Profile>, changed: bool)
    ensures next == Migrated(ps, urls, seal)
    ensures urls.Lawful() ==> (changed <==> next != ps)
    ensures forall i :: 0 <= i < |ps| ==>
              DefinitionOf(next[i], urls) == DefinitionOf(NormalizedProfile(ps[i], urls), urls)
  {
    next, changed := ps, false;
    for i := 0 to |ps|
      invariant |next| == |ps|
      invariant forall k :: 0 <= k < i ==> next[k] == MigratedProfile(ps[k], urls, seal)
      invariant forall k :: i <= k < |ps| ==> next[k] == ps[k]
      invariant forall k :: 0 <= k < i ==>
                DefinitionOf(next[k], urls) == DefinitionOf(NormalizedProfile(ps[k], urls), urls)
      invariant urls.Lawful() ==> (changed <==> next != ps)
    {
      var moved := NormalizedProfile(next[i], urls);
      EncryptionKeepsDefinition(moved, urls, seal);
      if urls.Lawful() {
        MigrationTellsChange(ps[i], urls, seal);
      }
      assert next[i := ps[i]] == next;
      next := next[i := Encrypted(moved, seal)];
      if CarriesUserinfo(ps[i].target, urls) || Flags(moved) != Flags(next[i]) {
        changed := true;
      }
    }
  }
}
