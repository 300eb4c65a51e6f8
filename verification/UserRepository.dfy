/**
 * The user repository: accounts, two-factor enrolment, challenges, and password reset
 * tokens. Each operation is one atomic step. Identifiers, password hashes and the time
 * are inputs; the password check is an abstract predicate.
 */
module UserRepository {
  import opened Basics
  import opened Text

  datatype Status = Active | Disabled

  datatype User = User(
    id: string,
    organizationId: string,
    email: string,
    username: Option<string>,
    name: string,
    role: string,
    status: Status,
    mfaEnabled: bool,
    mfaSecret: Option<string>,
    recoveryHashes: seq<string>,
    lastCounter: Option<int>,
    sessionVersion: nat,
    mustChangePassword: bool,
    passwordHash: Option<string>)

  /** A challenge or a reset token. */
  datatype Ticket = Ticket(userId: string, expiresAt: int, used: bool)

  datatype World = World(users: map<string, User>, challenges: map<string, Ticket>, tokens: map<string, Ticket>)

  const EMPTY := World(map[], map[], map[])

  /** The parts the repository calls out to. */
  datatype Env = Env(
    lower: string -> string,
    verifyPassword: (string, Option<string>) -> bool)

  datatype NewUser = NewUser(
    organizationId: Option<string>,
    email: string,
    username: Option<string>,
    name: string,
    role: string,
    status: Option<Status>,
    mustChangePassword: Option<bool>)

  datatype Changes = Changes(
    name: Option<string>,
    role: Option<string>,
    status: Option<Status>,
    mfaEnabled: Option<bool>,
    username: Option<string>,
    mustChangePassword: Option<bool>,
    passwordHash: Option<string>)

  datatype Outcome =
    | Account(user: Option<User>)
    | Verdict(ok: bool)
    | Done
    | Throws(error: string)

  datatype Event =
    | Create(id: string, user: NewUser, passwordHash: Option<string>)
    | Update(id: string, changes: Changes)
    | ConfigureMfa(id: string, secret: string, recoveryHashes: seq<string>, counter: int)
    | DisableMfa(id: string)
    | ConsumeCounter(id: string, counter: int)
    | ConsumeRecoveryCode(id: string, codeHash: string)
    | CreateChallenge(challengeId: string, userId: string, expiresAt: int)
    | ConsumeChallenge(challengeId: string, userId: string, now: int)
    | CreateResetToken(userId: string, tokenHash: string, expiresAt: int)
    | ResetPassword(tokenHash: string, newPassword: string, newHash: string, now: int)

  // ----- One step -----

  predicate HasEmail(users: map<string, User>, email: string) {
    exists id :: id in users && users[id].email == email
  }

  predicate HasUsername(env: Env, users: map<string, User>, wanted: string) {
    exists id :: id in users && users[id].username.Some? && env.lower(users[id].username.value) == wanted
  }

  /** An empty user name counts as none. */
  predicate UsernameTaken(env: Env, users: map<string, User>, username: Option<string>) {
    username.Some? && username.value != [] && HasUsername(env, users, env.lower(Trim(username.value)))
  }

  function Created(env: Env, id: string, user: NewUser, passwordHash: Option<string>): User {
    User(id, if user.organizationId.Some? then user.organizationId.value else "default",
         env.lower(Trim(user.email)), user.username, user.name, user.role,
         if user.status.Some? then user.status.value else Active,
         false, None, [], None, 1,
         user.mustChangePassword == Some(true), passwordHash)
  }

  function WithMfa(user: User, wanted: Option<bool>): User {
    match wanted
    case None => user
    case Some(true) => user.(mfaEnabled := user.mfaSecret.Some?)
    case Some(false) => user.(mfaEnabled := false, mfaSecret := None, recoveryHashes := [], lastCounter := None)
  }

  function Or<T>(wanted: Option<T>, current: T): T {
    if wanted.Some? then wanted.value else current
  }

  function Updated(user: User, c: Changes): User {
    WithMfa(user, c.mfaEnabled).(
      name := Or(c.name, user.name),
      role := Or(c.role, user.role),
      status := Or(c.status, user.status),
      username := if c.username.Some? then c.username else user.username,
      mustChangePassword := Or(c.mustChangePassword, user.mustChangePassword),
      passwordHash := if c.passwordHash.Some? then c.passwordHash else user.passwordHash)
  }

  /** What an update leaves alone, whatever it names. */
  predicate SameAccount(user: User, r: User) {
    && r.id == user.id && r.email == user.email && r.organizationId == user.organizationId
    && r.sessionVersion == user.sessionVersion
  }

  predicate SameEnrolment(user: User, r: User) {
    r.mfaSecret == user.mfaSecret && r.recoveryHashes == user.recoveryHashes && r.lastCounter == user.lastCounter
  }

  predicate NotEnrolled(r: User) {
    !r.mfaEnabled && r.mfaSecret == None && r.recoveryHashes == [] && r.lastCounter == None
  }

  lemma WithMfaMeaning(user: User, wanted: Option<bool>)
    ensures var r := WithMfa(user, wanted);
            && SameAccount(user, r)
            && (if wanted == Some(false) then NotEnrolled(r) else SameEnrolment(user, r))
            && r == user.(mfaEnabled := r.mfaEnabled, mfaSecret := r.mfaSecret,
                          recoveryHashes := r.recoveryHashes, lastCounter := r.lastCounter)
  {
  }

  /** The value asked for, or the present one where none is. */
  predicate Follows<T(==)>(wanted: Option<T>, was: T, now: T) {
    (wanted == None ==> now == was) && (wanted.Some? ==> now == wanted.value)
  }

  /**
   * An update changes what it names and keeps the rest, identity, session and one-time
   * state included; switching two-factor sign-in on stores nothing and needs a stored
   * secret, switching it off clears all of it.
   */
  lemma UpdateMeaning(user: User, c: Changes)
    ensures var r := Updated(user, c);
            && SameAccount(user, r)
            && (if c.mfaEnabled == Some(false) then NotEnrolled(r) else SameEnrolment(user, r))
            && (c.mfaEnabled == None ==> r.mfaEnabled == user.mfaEnabled)
            && (c.mfaEnabled == Some(true) ==> r.mfaEnabled == user.mfaSecret.Some?)
            && Follows(c.name, user.name, r.name) && Follows(c.role, user.role, r.role)
            && Follows(c.status, user.status, r.status)
            && Follows(c.mustChangePassword, user.mustChangePassword, r.mustChangePassword)
            && (c.username == None ==> r.username == user.username)
            && (c.username.Some? ==> r.username == c.username)
            && (c.passwordHash == None ==> r.passwordHash == user.passwordHash)
            && (c.passwordHash.Some? ==> r.passwordHash == c.passwordHash)
  {
    WithMfaMeaning(user, c.mfaEnabled);
    WithMfaFlag(user, c.mfaEnabled);
    hide WithMfa;
  }

  lemma WithMfaFlag(user: User, wanted: Option<bool>)
    ensures wanted == None ==> WithMfa(user, wanted).mfaEnabled == user.mfaEnabled
    ensures wanted == Some(true) ==> WithMfa(user, wanted).mfaEnabled == user.mfaSecret.Some?
  {
  }

  const NO_CHANGES := Changes(None, None, None, None, None, None, None)

  /** Every ticket of the user marked used. */
  function Spent(tickets: map<string, Ticket>, userId: string): map<string, Ticket> {
    map k | k in tickets :: if tickets[k].userId == userId then tickets[k].(used := true) else tickets[k]
  }

  predicate Usable(tickets: map<string, Ticket>, key: string, now: int) {
    key in tickets && !tickets[key].used && tickets[key].expiresAt > now
  }

  function AfterReset(user: User, newHash: string): User {
    user.(passwordHash := Some(newHash), mustChangePassword := false, sessionVersion := user.sessionVersion + 1)
  }

  function Reset(env: Env, w: World, tokenHash: string, newPassword: string, newHash: string,
                 now: int): (World, Outcome)
  {
    if !Usable(w.tokens, tokenHash, now) then (w, Account(None))
    else
      var id := w.tokens[tokenHash].userId;
      if id !in w.users || w.users[id].status != Active then (w, Account(None))
      else if env.verifyPassword(newPassword, w.users[id].passwordHash) then (w, Throws("PasswordReuseError"))
      else
        var user := AfterReset(w.users[id], newHash);
        (World(w.users[id := user], Spent(w.challenges, id), Spent(w.tokens, id)), Account(Some(user)))
  }

  function CounterStep(w: World, id: string, counter: int): (World, Outcome) {
    if id !in w.users || (w.users[id].lastCounter.Some? && w.users[id].lastCounter.value >= counter)
    then (w, Verdict(false))
    else (w.(users := w.users[id := w.users[id].(lastCounter := Some(counter))]), Verdict(true))
  }

  function RecoveryStep(w: World, id: string, codeHash: string): (World, Outcome) {
    if id !in w.users || codeHash !in w.users[id].recoveryHashes then (w, Verdict(false))
    else
      var rest := Filter((h: string) => h != codeHash, w.users[id].recoveryHashes);
      (w.(users := w.users[id := w.users[id].(recoveryHashes := rest)]), Verdict(true))
  }

  function UpdateStep(w: World, id: string, changes: Changes): (World, Outcome) {
    if id !in w.users then (w, Account(None))
    else
      var user := Updated(w.users[id], changes);
      (w.(users := w.users[id := user]), Account(Some(user)))
  }

  function Step(env: Env, w: World, e: Event): (World, Outcome) {
    match e
    case Create(id, user, passwordHash) =>
      if HasEmail(w.users, env.lower(Trim(user.email))) then (w, Throws("DuplicateEmailError"))
      else if UsernameTaken(env, w.users, user.username) then (w, Throws("DuplicateUsernameError"))
      else
        var record := Created(env, id, user, passwordHash);
        (w.(users := w.users[id := record]), Account(Some(record)))
    case Update(id, changes) => UpdateStep(w, id, changes)
    case ConfigureMfa(id, secret, recoveryHashes, counter) =>
      if id !in w.users then (w, Account(None))
      else
        var user := w.users[id].(mfaEnabled := true, mfaSecret := Some(secret),
                                 recoveryHashes := recoveryHashes, lastCounter := Some(counter));
        (w.(users := w.users[id := user]), Account(Some(user)))
    case DisableMfa(id) => UpdateStep(w, id, NO_CHANGES.(mfaEnabled := Some(false)))
    case ConsumeCounter(id, counter) => CounterStep(w, id, counter)
    case ConsumeRecoveryCode(id, codeHash) => RecoveryStep(w, id, codeHash)
    case CreateChallenge(challengeId, userId, expiresAt) =>
      (w.(challenges := w.challenges[challengeId := Ticket(userId, expiresAt, false)]), Done)
    case ConsumeChallenge(challengeId, userId, now) =>
      if !Usable(w.challenges, challengeId, now) || w.challenges[challengeId].userId != userId
      then (w, Verdict(false))
      else (w.(challenges := w.challenges[challengeId := w.challenges[challengeId].(used := true)]), Verdict(true))
    case CreateResetToken(userId, tokenHash, expiresAt) =>
      (w.(tokens := Spent(w.tokens, userId)[tokenHash := Ticket(userId, expiresAt, false)]), Done)
    case ResetPassword(tokenHash, newPassword, newHash, now) => Reset(env, w, tokenHash, newPassword, newHash, now)
  }

  /** Identifiers and token hashes are drawn at random and do not repeat. */
  predicate Fresh(w: World, e: Event) {
    match e
    case Create(id, _, _) => id !in w.users
    case CreateChallenge(challengeId, _, _) => challengeId !in w.challenges
    case CreateResetToken(_, tokenHash, _) => tokenHash !in w.tokens
    case _ => true
  }

  function Next(env: Env, w: World, e: Event): World { Step(env, w, e).0 }

  function Result(env: Env, w: World, e: Event): Outcome { Step(env, w, e).1 }

  // ----- Runs -----

  predicate Legal(env: Env, w: World, events: seq<Event>)
    decreases |events|
  {
    events == [] || (Fresh(w, events[0]) && Legal(env, Next(env, w, events[0]), events[1..]))
  }

  function Run(env: Env, w: World, events: seq<Event>): World
    decreases |events|
  {
    if events == [] then w else Run(env, Next(env, w, events[0]), events[1..])
  }

  /** Two-factor sign-in is on exactly when a secret is stored. */
  predicate MfaMatchesSecret(user: User) {
    user.mfaEnabled <==> user.mfaSecret.Some?
  }

  ghost predicate AccountsSound(users: map<string, User>) {
    && (forall id :: id in users ==> users[id].id == id && MfaMatchesSecret(users[id]))
    && forall id, other :: id in users && other in users && id != other ==> users[id].email != users[other].email
  }

  /** No account has two unused reset tokens. */
  ghost predicate OneUnusedToken(tokens: map<string, Ticket>) {
    forall h, k :: h in tokens && k in tokens && h != k && tokens[h].userId == tokens[k].userId
      ==> tokens[h].used || tokens[k].used
  }

  ghost predicate Sound(w: World) {
    AccountsSound(w.users) && OneUnusedToken(w.tokens)
  }

  lemma SetKeepsAccounts(users: map<string, User>, id: string, user: User)
    requires AccountsSound(users) && user.id == id && MfaMatchesSecret(user)
    requires if id in users then user.email == users[id].email else !HasEmail(users, user.email)
    ensures AccountsSound(users[id := user])
  {
    hide MfaMatchesSecret;
  }

  /** The account a step may touch. */
  function Touched(w: World, e: Event): string {
    match e
    case Create(id, _, _) => id
    case Update(id, _) => id
    case ConfigureMfa(id, _, _, _) => id
    case DisableMfa(id) => id
    case ConsumeCounter(id, _) => id
    case ConsumeRecoveryCode(id, _) => id
    case ResetPassword(h, _, _, _) => if h in w.tokens then w.tokens[h].userId else ""
    case _ => ""
  }

  lemma StepTouchesOne(env: Env, w: World, e: Event)
    ensures var users, id := Next(env, w, e).users, Touched(w, e);
            users == w.users || (id in users && users == w.users[id := users[id]])
  {
    hide HasEmail, UsernameTaken, Created, Updated, Spent, AfterReset;
  }

  lemma TouchedAccount(env: Env, w: World, e: Event)
    requires Fresh(w, e)
    requires var id := Touched(w, e); id in w.users ==> w.users[id].id == id && MfaMatchesSecret(w.users[id])
    ensures var users, id := Next(env, w, e).users, Touched(w, e);
            users != w.users ==>
              && id in users && users[id].id == id && MfaMatchesSecret(users[id])
              && if id in w.users then users[id].email == w.users[id].email else !HasEmail(w.users, users[id].email)
  {
    hide HasEmail, UsernameTaken, Spent;
  }

  lemma StepKeepsAccounts(env: Env, w: World, e: Event)
    requires AccountsSound(w.users) && Fresh(w, e)
    ensures AccountsSound(Next(env, w, e).users)
  {
    hide Next, Fresh, MfaMatchesSecret, AccountsSound, HasEmail, Touched;
    var id := Touched(w, e);
    AccountIsSound(w.users, id);
    StepTouchesOne(env, w, e);
    TouchedAccount(env, w, e);
    var users := Next(env, w, e).users;
    if users != w.users {
      SetKeepsAccounts(w.users, id, users[id]);
    }
  }

  lemma AccountIsSound(users: map<string, User>, id: string)
    requires AccountsSound(users)
    ensures id in users ==> users[id].id == id && MfaMatchesSecret(users[id])
  {
  }

  lemma StepKeepsTokens(env: Env, w: World, e: Event)
    requires OneUnusedToken(w.tokens) && Fresh(w, e)
    ensures OneUnusedToken(Next(env, w, e).tokens)
  {
    hide HasEmail, UsernameTaken, Created, Updated;
  }

  /**
   * In every run an account has two-factor sign-in exactly when a secret is stored, no
   * e-mail address has two accounts, and no account has two unused reset tokens.
   */
  lemma {:induction false} RunKeepsSound(env: Env, w: World, events: seq<Event>)
    requires Sound(w) && Legal(env, w, events)
    ensures Sound(Run(env, w, events))
    decreases |events|
  {
    if events != [] {
      var e, rest := events[0], events[1..];
      var next := Next(env, w, e);
      hide AccountsSound, OneUnusedToken, Step, Next, Fresh;
      StepKeepsAccounts(env, w, e);
      StepKeepsTokens(env, w, e);
      RunKeepsSound(env, next, rest);
    }
  }

  // ----- Reset tokens -----

  /** Whether the step was a password reset with this token that succeeded. */
  predicate ResetsWith(env: Env, w: World, e: Event, tokenHash: string) {
    && e.ResetPassword? && e.tokenHash == tokenHash
    && Result(env, w, e).Account? && Result(env, w, e).user.Some?
  }

  predicate ResetsAccount(env: Env, w: World, e: Event, id: string) {
    && e.ResetPassword? && Result(env, w, e).Account?
    && Result(env, w, e).user.Some? && Result(env, w, e).user.value.id == id
  }

  /** When a reset succeeds, and everything it changes. */
  lemma ResetMeaning(env: Env, w: World, tokenHash: string, newPassword: string, newHash: string, now: int)
    requires Sound(w)
    ensures ResetSucceeds(env, w, tokenHash, newPassword, now)
       <==> ResetsWith(env, w, ResetPassword(tokenHash, newPassword, newHash, now), tokenHash)
    ensures ResetIsComplete(env, w, tokenHash, newPassword, newHash, now)
  {
    hide Sound, MfaMatchesSecret;
    var e := ResetPassword(tokenHash, newPassword, newHash, now);
    if ResetSucceeds(env, w, tokenHash, newPassword, now) {
      var id := w.tokens[tokenHash].userId;
      AccountIsSound(w.users, id) by { SoundHasAccounts(w); }
    }
  }

  lemma SoundHasAccounts(w: World)
    requires Sound(w)
    ensures AccountsSound(w.users) && OneUnusedToken(w.tokens)
  {
  }

  predicate ResetSucceeds(env: Env, w: World, tokenHash: string, newPassword: string, now: int) {
    && tokenHash in w.tokens && !w.tokens[tokenHash].used && now < w.tokens[tokenHash].expiresAt
    && w.tokens[tokenHash].userId in w.users
    && w.users[w.tokens[tokenHash].userId].status == Active
    && !env.verifyPassword(newPassword, w.users[w.tokens[tokenHash].userId].passwordHash)
  }

  predicate ResetIsComplete(env: Env, w: World, tokenHash: string, newPassword: string, newHash: string, now: int) {
    var after := Next(env, w, ResetPassword(tokenHash, newPassword, newHash, now));
    if !ResetSucceeds(env, w, tokenHash, newPassword, now) then after == w
    else
      var id := w.tokens[tokenHash].userId;
      && after.users.Keys == w.users.Keys
      && after.users[id] == w.users[id].(sessionVersion := w.users[id].sessionVersion + 1,
                                         passwordHash := Some(newHash), mustChangePassword := false)
      && (forall other :: other in w.users && other != id ==> after.users[other] == w.users[other])
      && after.tokens.Keys == w.tokens.Keys && after.challenges.Keys == w.challenges.Keys
      && (forall h :: h in w.tokens ==>
            after.tokens[h] == w.tokens[h].(used := w.tokens[h].used || w.tokens[h].userId == id))
      && (forall c :: c in w.challenges ==>
            after.challenges[c] == w.challenges[c].(used := w.challenges[c].used || w.challenges[c].userId == id))
  }

  function Count(env: Env, w: World, events: seq<Event>, counts: (World, Event) -> bool): nat
    decreases |events|
  {
    if events == [] then 0
    else (if counts(w, events[0]) then 1 else 0) + Count(env, Next(env, w, events[0]), events[1..], counts)
  }

  /** A used token or challenge stays used, for the same account, through every legal step. */
  ghost predicate TicketsOnlySpend(before: map<string, Ticket>, after: map<string, Ticket>) {
    forall k :: k in before ==>
      && k in after && after[k].userId == before[k].userId && after[k].expiresAt == before[k].expiresAt
      && (before[k].used ==> after[k].used)
  }

  lemma StepOnlySpendsTokens(env: Env, w: World, e: Event)
    requires Fresh(w, e)
    ensures TicketsOnlySpend(w.tokens, Next(env, w, e).tokens)
  {
    hide HasEmail, UsernameTaken, Created, Updated, AfterReset;
  }

  lemma StepOnlySpendsChallenges(env: Env, w: World, e: Event)
    requires Fresh(w, e)
    ensures TicketsOnlySpend(w.challenges, Next(env, w, e).challenges)
  {
    hide HasEmail, UsernameTaken, Created, Updated, AfterReset;
  }

  lemma StepOnlySpends(env: Env, w: World, e: Event)
    requires Fresh(w, e)
    ensures TicketsOnlySpend(w.tokens, Next(env, w, e).tokens)
    ensures TicketsOnlySpend(w.challenges, Next(env, w, e).challenges)
  {
    hide *;
    StepOnlySpendsTokens(env, w, e);
    StepOnlySpendsChallenges(env, w, e);
  }

  /** Each token resets a password at most once, in any legal run. */
  lemma {:induction false} TokenResetsOnce(env: Env, w: World, events: seq<Event>, tokenHash: string)
    requires Legal(env, w, events)
    ensures Count(env, w, events, (v, e) => ResetsWith(env, v, e, tokenHash))
         <= if tokenHash in w.tokens && w.tokens[tokenHash].used then 0 else 1
    decreases |events|
  {
    if events != [] {
      var e := events[0];
      var next := Next(env, w, e);
      TokenResetsOnce(env, next, events[1..], tokenHash);
      ResetUsesToken(env, w, e, tokenHash);
      StepOnlySpends(env, w, e);
    }
  }

  lemma ResetUsesToken(env: Env, w: World, e: Event, tokenHash: string)
    ensures ResetsWith(env, w, e, tokenHash) ==>
      && tokenHash in w.tokens && !w.tokens[tokenHash].used
      && tokenHash in Next(env, w, e).tokens && Next(env, w, e).tokens[tokenHash].used
  {
  }

  /** Whether the step was a use of this challenge that was accepted. */
  predicate AcceptsChallenge(env: Env, w: World, e: Event, challengeId: string) {
    e.ConsumeChallenge? && e.challengeId == challengeId && Result(env, w, e) == Verdict(true)
  }

  lemma ConsumeUsesChallenge(env: Env, w: World, e: Event, challengeId: string)
    ensures AcceptsChallenge(env, w, e, challengeId) ==>
      && challengeId in w.challenges && !w.challenges[challengeId].used
      && challengeId in Next(env, w, e).challenges && Next(env, w, e).challenges[challengeId].used
  {
  }

  /** Each challenge is accepted at most once, in any legal run. */
  lemma {:induction false} ChallengeAcceptedOnce(env: Env, w: World, events: seq<Event>, challengeId: string)
    requires Legal(env, w, events)
    ensures Count(env, w, events, (v, e) => AcceptsChallenge(env, v, e, challengeId))
         <= if challengeId in w.challenges && w.challenges[challengeId].used then 0 else 1
    decreases |events|
  {
    if events != [] {
      var e := events[0];
      var next := Next(env, w, e);
      ChallengeAcceptedOnce(env, next, events[1..], challengeId);
      ConsumeUsesChallenge(env, w, e, challengeId);
      StepOnlySpends(env, w, e);
    }
  }

  /** After a reset no earlier token or challenge of the account is ever accepted again. */
  lemma ResetEndsEverything(env: Env, w: World, reset: Event, events: seq<Event>, k: string)
    requires Sound(w) && reset.ResetPassword? && ResetsWith(env, w, reset, reset.tokenHash)
    requires Legal(env, Next(env, w, reset), events)
    ensures k in w.tokens && w.tokens[k].userId == w.tokens[reset.tokenHash].userId ==>
              Count(env, Next(env, w, reset), events, (v, e) => ResetsWith(env, v, e, k)) == 0
    ensures k in w.challenges && w.challenges[k].userId == w.tokens[reset.tokenHash].userId ==>
              Count(env, Next(env, w, reset), events, (v, e) => AcceptsChallenge(env, v, e, k)) == 0
  {
    hide Sound, Step, Next, Legal, Count;
    ResetMeaning(env, w, reset.tokenHash, reset.newPassword, reset.newHash, reset.now);
    TokenResetsOnce(env, Next(env, w, reset), events, k);
    ChallengeAcceptedOnce(env, Next(env, w, reset), events, k);
  }

  // ----- Session versions -----

  /** The session version of an account; a new account starts at 1. */
  function VersionOf(w: World, id: string): nat {
    if id in w.users then w.users[id].sessionVersion else 1
  }

  lemma StepCountsReset(env: Env, w: World, e: Event, id: string)
    requires Sound(w) && Fresh(w, e)
    ensures VersionOf(Next(env, w, e), id) == VersionOf(w, id) + if ResetsAccount(env, w, e, id) then 1 else 0
  {
    hide MfaMatchesSecret, OneUnusedToken, HasEmail, UsernameTaken, Spent;
  }

  /** An account's session version counts its password resets, and nothing else moves it. */
  lemma {:induction false} SessionVersionCountsResets(env: Env, w: World, events: seq<Event>, id: string)
    requires Sound(w) && Legal(env, w, events)
    ensures VersionOf(Run(env, w, events), id)
         == VersionOf(w, id) + Count(env, w, events, (v, e) => ResetsAccount(env, v, e, id))
    decreases |events|
  {
    if events != [] {
      hide Sound, Step, Next, Fresh, ResetsAccount, VersionOf;
      var e := events[0];
      StepKeepsSound(env, w, e);
      StepCountsReset(env, w, e, id);
      SessionVersionCountsResets(env, Next(env, w, e), events[1..], id);
    }
  }

  lemma StepKeepsSound(env: Env, w: World, e: Event)
    requires Sound(w) && Fresh(w, e)
    ensures Sound(Next(env, w, e))
  {
    hide AccountsSound, OneUnusedToken, Next, Fresh;
    StepKeepsAccounts(env, w, e);
    StepKeepsTokens(env, w, e);
  }

  // ----- One-time codes -----

  /** The step replaces or drops the account's enrolment. */
  predicate Enrols(e: Event, id: string) {
    || (e.ConfigureMfa? && e.id == id)
    || (e.DisableMfa? && e.id == id)
    || (e.Update? && e.id == id && e.changes.mfaEnabled == Some(false))
  }

  predicate NoEnrolment(events: seq<Event>, id: string) {
    forall i :: 0 <= i < |events| ==> !Enrols(events[i], id)
  }

  predicate AcceptsCounter(env: Env, w: World, e: Event, id: string) {
    e.ConsumeCounter? && e.id == id && Result(env, w, e) == Verdict(true)
  }

  /** The one-time-code counters accepted for an account, in order. */
  function AcceptedCounters(env: Env, w: World, events: seq<Event>, id: string): seq<int>
    decreases |events|
  {
    if events == [] then []
    else (if AcceptsCounter(env, w, events[0], id) then [events[0].counter] else [])
         + AcceptedCounters(env, Next(env, w, events[0]), events[1..], id)
  }

  predicate Exceeds(counters: seq<int>, floor: Option<int>) {
    && (forall i :: 0 <= i < |counters| && floor.Some? ==> counters[i] > floor.value)
    && forall i, j :: 0 <= i < j < |counters| ==> counters[i] < counters[j]
  }

  function LastCounter(w: World, id: string): Option<int> {
    if id in w.users then w.users[id].lastCounter else None
  }

  lemma StepMovesCounter(env: Env, w: World, e: Event, id: string)
    requires Sound(w) && Fresh(w, e) && !Enrols(e, id)
    ensures var last, next := LastCounter(w, id), LastCounter(Next(env, w, e), id);
            if AcceptsCounter(env, w, e, id)
            then next == Some(e.counter) && (last.Some? ==> e.counter > last.value)
            else last.Some? ==> next == last
  {
    hide MfaMatchesSecret, OneUnusedToken, HasEmail, UsernameTaken, Spent;
  }

  /**
   * Between enrolments the counters accepted for an account strictly increase, starting
   * above the one stored, so no code is accepted twice.
   */
  lemma {:induction false} AcceptedCountersIncrease(env: Env, w: World, events: seq<Event>, id: string)
    requires Sound(w) && Legal(env, w, events) && NoEnrolment(events, id)
    ensures Exceeds(AcceptedCounters(env, w, events, id), LastCounter(w, id))
    decreases |events|
  {
    if events != [] {
      hide Sound, Step, Next, Fresh, LastCounter, AcceptsCounter, Enrols;
      var e := events[0];
      StepKeepsSound(env, w, e);
      StepMovesCounter(env, w, e, id);
      AcceptedCountersIncrease(env, Next(env, w, e), events[1..], id);
    }
  }

  predicate AcceptsRecovery(env: Env, w: World, e: Event, id: string, codeHash: string) {
    e.ConsumeRecoveryCode? && e.id == id && e.codeHash == codeHash && Result(env, w, e) == Verdict(true)
  }

  predicate HoldsRecovery(w: World, id: string, codeHash: string) {
    id in w.users && codeHash in w.users[id].recoveryHashes
  }

  lemma StepSpendsRecovery(env: Env, w: World, e: Event, id: string, codeHash: string)
    requires Sound(w) && Fresh(w, e) && !Enrols(e, id)
    ensures AcceptsRecovery(env, w, e, id, codeHash)
        ==> HoldsRecovery(w, id, codeHash) && !HoldsRecovery(Next(env, w, e), id, codeHash)
    ensures !HoldsRecovery(w, id, codeHash) ==> !HoldsRecovery(Next(env, w, e), id, codeHash)
  {
    hide MfaMatchesSecret, OneUnusedToken, HasEmail, UsernameTaken, Spent, Filter;
    if e.ConsumeRecoveryCode? && id in w.users {
      FilterMember((h: string) => h != e.codeHash, w.users[id].recoveryHashes, codeHash);
    }
  }

  /** A recovery code is accepted at most once between enrolments. */
  lemma {:induction false} RecoveryCodeOnce(env: Env, w: World, events: seq<Event>, id: string, codeHash: string)
    requires Sound(w) && Legal(env, w, events) && NoEnrolment(events, id)
    ensures Count(env, w, events, (v, e) => AcceptsRecovery(env, v, e, id, codeHash))
         <= if HoldsRecovery(w, id, codeHash) then 1 else 0
    decreases |events|
  {
    if events != [] {
      hide Sound, Step, Next, Fresh, HoldsRecovery, AcceptsRecovery, Enrols;
      var e := events[0];
      StepKeepsSound(env, w, e);
      StepSpendsRecovery(env, w, e, id, codeHash);
      RecoveryCodeOnce(env, Next(env, w, e), events[1..], id, codeHash);
    }
  }

  /** The repository starts empty, so all of the above holds of every run of it. */
  lemma RunsFromEmpty(env: Env, events: seq<Event>, id: string)
    requires Legal(env, EMPTY, events)
    ensures Sound(Run(env, EMPTY, events))
    ensures VersionOf(Run(env, EMPTY, events), id)
         == 1 + Count(env, EMPTY, events, (v, e) => ResetsAccount(env, v, e, id))
  {
    hide Legal, Run, Count, ResetsAccount;
    assert Sound(EMPTY);
    RunKeepsSound(env, EMPTY, events);
    SessionVersionCountsResets(env, EMPTY, events, id);
  }

  // ----- When a challenge, a counter or a code is accepted -----

  /** A challenge is accepted for its account while unused and unexpired, and is used by that. */
  lemma ChallengeMeaning(env: Env, w: World, challengeId: string, userId: string, now: int)
    ensures var e := ConsumeChallenge(challengeId, userId, now);
            var held := challengeId in w.challenges;
            var accepted := held && w.challenges[challengeId].userId == userId
                            && !w.challenges[challengeId].used && w.challenges[challengeId].expiresAt > now;
            && Result(env, w, e) == Verdict(accepted)
            && (accepted ==>
                  Next(env, w, e).challenges
                  == w.challenges[challengeId := Ticket(userId, w.challenges[challengeId].expiresAt, true)])
            && (!accepted ==> Next(env, w, e) == w)
            && Next(env, w, e).users == w.users && Next(env, w, e).tokens == w.tokens
  {
  }

  /** A counter is accepted exactly above the stored one, which it replaces; nothing else changes. */
  lemma CounterMeaning(env: Env, w: World, id: string, counter: int)
    ensures var e := ConsumeCounter(id, counter);
            var accepted := id in w.users && (w.users[id].lastCounter.None? || w.users[id].lastCounter.value < counter);
            && Result(env, w, e) == Verdict(accepted)
            && (accepted ==> Next(env, w, e) == w.(users := w.users[id := w.users[id].(lastCounter := Some(counter))]))
            && (!accepted ==> Next(env, w, e) == w)
  {
  }

  /** A recovery code is accepted exactly when its hash is stored, and only that hash is removed. */
  lemma RecoveryMeaning(env: Env, w: World, id: string, codeHash: string)
    ensures var e := ConsumeRecoveryCode(id, codeHash);
            var accepted, r := HoldsRecovery(w, id, codeHash), Next(env, w, e);
            && Result(env, w, e) == Verdict(accepted)
            && (!accepted ==> r == w)
            && (accepted ==>
                  && id in r.users && r == w.(users := w.users[id := r.users[id]])
                  && r.users[id] == w.users[id].(recoveryHashes := r.users[id].recoveryHashes)
                  && (forall h :: HoldsRecovery(r, id, h) <==> HoldsRecovery(w, id, h) && h != codeHash))
  {
    if HoldsRecovery(w, id, codeHash) {
      var keep := (h: string) => h != codeHash;
      forall h
        ensures h in Filter(keep, w.users[id].recoveryHashes) <==> h in w.users[id].recoveryHashes && h != codeHash
      {
        FilterMember(keep, w.users[id].recoveryHashes, h);
      }
    }
  }

  /** After an enrolment exactly later counters and the enrolled recovery codes are accepted. */
  lemma EnrolmentMeaning(env: Env, w: World, id: string, secret: string, hashes: seq<string>, counter: int)
    requires id in w.users
    ensures var r := Next(env, w, ConfigureMfa(id, secret, hashes, counter));
            && r == w.(users := w.users[id := r.users[id]])
            && SameAccount(w.users[id], r.users[id]) && r.users[id].mfaEnabled && r.users[id].mfaSecret == Some(secret)
            && (forall n :: Result(env, r, ConsumeCounter(id, n)) == Verdict(n > counter))
            && (forall h :: Result(env, r, ConsumeRecoveryCode(id, h)) == Verdict(h in hashes))
  {
  }

  /** After an enrolment is cleared no recovery code is accepted and every counter is. */
  lemma DisabledMeaning(env: Env, w: World, id: string)
    requires id in w.users
    ensures var r := Next(env, w, DisableMfa(id));
            && id in r.users && NotEnrolled(r.users[id]) && SameAccount(w.users[id], r.users[id])
            && (forall n :: Result(env, r, ConsumeCounter(id, n)) == Verdict(true))
            && (forall h :: Result(env, r, ConsumeRecoveryCode(id, h)) == Verdict(false))
  {
  }

  /** Who may be created: nobody under an e-mail address in use, or a user name that is taken. */
  lemma CreateMeaning(env: Env, w: World, id: string, user: NewUser, hash: Option<string>)
    ensures var e := Create(id, user, hash);
            var email := env.lower(Trim(user.email));
            var mailed := exists other :: other in w.users && w.users[other].email == email;
            var named := user.username.Some? && user.username.value != []
                         && exists other :: HasHandle(env, w.users, other, env.lower(Trim(user.username.value)));
            && (Result(env, w, e) == Throws("DuplicateEmailError") <==> mailed)
            && (Result(env, w, e) == Throws("DuplicateUsernameError") <==> !mailed && named)
            && (mailed || named ==> Next(env, w, e) == w)
            && (!mailed && !named ==> IsNewAccount(env, w, Next(env, w, e), id, user, hash))
  {
    if user.username.Some? {
      HasUsernameMeans(env, w.users, env.lower(Trim(user.username.value)));
    }
    CreatedIsNew(env, w, id, user, hash);
    hide HasHandle, HasUsername, Created, IsNewAccount;
  }

  lemma CreatedIsNew(env: Env, w: World, id: string, user: NewUser, hash: Option<string>)
    ensures IsNewAccount(env, w, w.(users := w.users[id := Created(env, id, user, hash)]), id, user, hash)
  {
    assert w.users[id := Created(env, id, user, hash)][id] == Created(env, id, user, hash);
  }

  lemma HasUsernameMeans(env: Env, users: map<string, User>, wanted: string)
    ensures HasUsername(env, users, wanted) <==> exists other :: HasHandle(env, users, other, wanted)
  {
    if HasUsername(env, users, wanted) {
      var id :| id in users && users[id].username.Some? && env.lower(users[id].username.value) == wanted;
      assert HasHandle(env, users, id, wanted);
    }
  }

  predicate HasHandle(env: Env, users: map<string, User>, id: string, handle: string) {
    id in users && users[id].username.Some? && env.lower(users[id].username.value) == handle
  }

  /** A new account: signed out of everything, and without a second factor. */
  predicate IsNewAccount(env: Env, w: World, r: World, id: string, user: NewUser, hash: Option<string>) {
    && id in r.users && r == w.(users := w.users[id := r.users[id]])
    && var u := r.users[id];
       && u.id == id && u.email == env.lower(Trim(user.email)) && u.username == user.username
       && u.name == user.name && u.role == user.role && u.passwordHash == hash
       && NotEnrolled(u) && u.sessionVersion == 1
       && Follows(user.organizationId, "default", u.organizationId) && Follows(user.status, Active, u.status)
       && Follows(user.mustChangePassword, false, u.mustChangePassword)
  }

  /** What a caller is answered about an account: the account as stored, or nothing if there is none. */
  predicate AnswersStored(env: Env, w: World, e: Event, id: string) {
    if id in w.users
    then id in Next(env, w, e).users && Result(env, w, e) == Account(Some(Next(env, w, e).users[id]))
    else Next(env, w, e) == w && Result(env, w, e) == Account(None)
  }

  lemma AnswersMeaning(env: Env, w: World, e: Event)
    ensures e.Update? || e.DisableMfa? || e.ConfigureMfa? ==> AnswersStored(env, w, e, e.id)
    ensures e.Create? && Result(env, w, e).Account? ==>
              e.id in Next(env, w, e).users && Result(env, w, e) == Account(Some(Next(env, w, e).users[e.id]))
    ensures e.CreateChallenge? || e.CreateResetToken? ==> Result(env, w, e) == Done
  {
    hide HasEmail, UsernameTaken, Created, Updated, Spent;
  }

  /** A refused reset answers with an error exactly when only the password is at fault, else with nothing. */
  lemma ResetAnswers(env: Env, w: World, tokenHash: string, newPassword: string, newHash: string, now: int)
    ensures var e := ResetPassword(tokenHash, newPassword, newHash, now);
            var held := tokenHash in w.tokens && !w.tokens[tokenHash].used && now < w.tokens[tokenHash].expiresAt;
            var active := held && w.tokens[tokenHash].userId in w.users
                          && w.users[w.tokens[tokenHash].userId].status == Active;
            var reused := active && env.verifyPassword(newPassword, w.users[w.tokens[tokenHash].userId].passwordHash);
            && (Result(env, w, e) == Throws("PasswordReuseError") <==> reused)
            && (Result(env, w, e) == Account(None) <==> !active)
            && (active && !reused ==>
                  var id := w.tokens[tokenHash].userId;
                  id in Next(env, w, e).users && Result(env, w, e) == Account(Some(Next(env, w, e).users[id])))
  {
    hide Spent;
  }

  // ----- The life of a challenge and of a reset token -----

  /** The step uses the challenge up: it is accepted, or the password of its account is reset. */
  predicate SpendsChallenge(env: Env, w: World, e: Event, challengeId: string) {
    && challengeId in w.challenges
    && (|| (e.ConsumeChallenge? && e.challengeId == challengeId && Result(env, w, e) == Verdict(true))
        || ResetsAccount(env, w, e, w.challenges[challengeId].userId))
  }

  lemma ChallengeStep(env: Env, w: World, e: Event, challengeId: string)
    requires Sound(w) && Fresh(w, e) && challengeId in w.challenges
    ensures var t := w.challenges[challengeId];
            && challengeId in Next(env, w, e).challenges
            && Next(env, w, e).challenges[challengeId] == t.(used := t.used || SpendsChallenge(env, w, e, challengeId))
  {
    hide HasEmail, UsernameTaken, Created, Updated, OneUnusedToken;
    if e.ResetPassword? && e.tokenHash in w.tokens {
      AccountIsSound(w.users, w.tokens[e.tokenHash].userId);
    }
  }

  lemma {:induction false} ChallengeAfterRun(env: Env, w: World, events: seq<Event>, challengeId: string)
    requires Sound(w) && Legal(env, w, events) && challengeId in w.challenges
    ensures var t := w.challenges[challengeId];
            var spent := Count(env, w, events, (v, e) => SpendsChallenge(env, v, e, challengeId)) > 0;
            && challengeId in Run(env, w, events).challenges
            && Run(env, w, events).challenges[challengeId] == t.(used := t.used || spent)
    decreases |events|
  {
    hide Sound, Step, Next, Fresh, SpendsChallenge;
    if events != [] {
      StepKeepsSound(env, w, events[0]);
      ChallengeStep(env, w, events[0], challengeId);
      ChallengeAfterRun(env, Next(env, w, events[0]), events[1..], challengeId);
    }
  }

  /**
   * After any run since its creation a challenge is accepted exactly for its own account,
   * before it expires, and if it was neither accepted nor ended by a reset before.
   */
  lemma ChallengeAcceptedExactly(env: Env, w: World, challengeId: string, userId: string, expiresAt: int,
                                 events: seq<Event>, other: string, now: int)
    requires Sound(w) && challengeId !in w.challenges
    requires Legal(env, Next(env, w, CreateChallenge(challengeId, userId, expiresAt)), events)
    ensures var created := Next(env, w, CreateChallenge(challengeId, userId, expiresAt));
            var spent := Count(env, created, events, (v, e) => SpendsChallenge(env, v, e, challengeId)) > 0;
            var accepted := other == userId && now < expiresAt && !spent;
            Result(env, Run(env, created, events), ConsumeChallenge(challengeId, other, now)) == Verdict(accepted)
  {
    var created := Next(env, w, CreateChallenge(challengeId, userId, expiresAt));
    assert created == w.(challenges := w.challenges[challengeId := Ticket(userId, expiresAt, false)]);
    StepKeepsSound(env, w, CreateChallenge(challengeId, userId, expiresAt));
    hide Sound, Next, Run, Step, SpendsChallenge;
    ChallengeAfterRun(env, created, events, challengeId);
    ChallengeMeaning(env, Run(env, created, events), challengeId, other, now);
  }

  /** The step uses the token up: a later one of its account is made, or its password is reset. */
  predicate SpendsToken(env: Env, w: World, e: Event, tokenHash: string) {
    && tokenHash in w.tokens
    && (|| (e.CreateResetToken? && e.userId == w.tokens[tokenHash].userId)
        || ResetsAccount(env, w, e, w.tokens[tokenHash].userId))
  }

  lemma TokenStep(env: Env, w: World, e: Event, tokenHash: string)
    requires Sound(w) && Fresh(w, e) && tokenHash in w.tokens
    ensures var t := w.tokens[tokenHash];
            && tokenHash in Next(env, w, e).tokens
            && Next(env, w, e).tokens[tokenHash] == t.(used := t.used || SpendsToken(env, w, e, tokenHash))
  {
    hide HasEmail, UsernameTaken, Created, Updated, OneUnusedToken;
    if e.ResetPassword? && e.tokenHash in w.tokens {
      AccountIsSound(w.users, w.tokens[e.tokenHash].userId);
    }
  }

  lemma {:induction false} TokenAfterRun(env: Env, w: World, events: seq<Event>, tokenHash: string)
    requires Sound(w) && Legal(env, w, events) && tokenHash in w.tokens
    ensures var t := w.tokens[tokenHash];
            var spent := Count(env, w, events, (v, e) => SpendsToken(env, v, e, tokenHash)) > 0;
            && tokenHash in Run(env, w, events).tokens
            && Run(env, w, events).tokens[tokenHash] == t.(used := t.used || spent)
    decreases |events|
  {
    hide Sound, Step, Next, Fresh, SpendsToken;
    if events != [] {
      StepKeepsSound(env, w, events[0]);
      TokenStep(env, w, events[0], tokenHash);
      TokenAfterRun(env, Next(env, w, events[0]), events[1..], tokenHash);
    }
  }

  /**
   * After any run since its creation a token resets the password exactly before it
   * expires, if no later token of the account was made and no password of it was reset,
   * while the account is active and the password is a new one.
   */
  lemma TokenAcceptedExactly(env: Env, w: World, userId: string, tokenHash: string, expiresAt: int,
                             events: seq<Event>, password: string, newHash: string, now: int)
    requires Sound(w) && tokenHash !in w.tokens
    requires Legal(env, Next(env, w, CreateResetToken(userId, tokenHash, expiresAt)), events)
    ensures var created := Next(env, w, CreateResetToken(userId, tokenHash, expiresAt));
            var spent := Count(env, created, events, (v, e) => SpendsToken(env, v, e, tokenHash)) > 0;
            var v := Run(env, created, events);
            var accepted := now < expiresAt && !spent && userId in v.users && v.users[userId].status == Active
                            && !env.verifyPassword(password, v.users[userId].passwordHash);
            ResetsWith(env, v, ResetPassword(tokenHash, password, newHash, now), tokenHash) <==> accepted
  {
    var made := CreateResetToken(userId, tokenHash, expiresAt);
    var created := Next(env, w, made);
    assert created.tokens[tokenHash] == Ticket(userId, expiresAt, false);
    StepKeepsSound(env, w, made);
    hide Sound, Next, Run, Step, SpendsToken, ResetIsComplete, ResetsWith;
    RunKeepsSound(env, created, events);
    TokenAfterRun(env, created, events, tokenHash);
    ResetMeaning(env, Run(env, created, events), tokenHash, password, newHash, now);
  }

  // ----- User names -----

  /** The handle an account signs in with. */
  function Handle(env: Env, user: User): Option<string> {
    if user.username.Some? then Some(env.lower(user.username.value)) else None
  }

  predicate Named(env: Env, users: map<string, User>, id: string, handle: Option<string>) {
    id in users && handle.Some? && Handle(env, users[id]) == handle
  }

  ghost predicate NamesDistinct(env: Env, users: map<string, User>) {
    forall id, other, handle ::
      Named(env, users, id, handle) && Named(env, users, other, handle) ==> id == other
  }

  ghost predicate HeldByOther(env: Env, users: map<string, User>, id: string, handle: Option<string>) {
    exists other :: other != id && Named(env, users, other, handle)
  }

  /** The user name as it is compared with the stored ones before an account is created. */
  predicate Tidy(env: Env, username: string) {
    username != [] && env.lower(Trim(username)) == env.lower(username)
  }

  /**
   * The step gives an account the handle of another: an update, which compares with
   * nobody, or the creation of an account whose user name is empty or differs from the
   * trimmed one it is compared by.
   */
  ghost predicate Clashes(env: Env, w: World, e: Event) {
    match e
    case Update(id, c) =>
      id in w.users && c.username.Some? && HeldByOther(env, w.users, id, Some(env.lower(c.username.value)))
    case Create(id, user, _) =>
      && user.username.Some? && !Tidy(env, user.username.value)
      && !HasEmail(w.users, env.lower(Trim(user.email))) && !UsernameTaken(env, w.users, user.username)
      && HeldByOther(env, w.users, id, Some(env.lower(user.username.value)))
    case _ => false
  }

  lemma SetNames(env: Env, users: map<string, User>, id: string, user: User)
    requires NamesDistinct(env, users)
    ensures NamesDistinct(env, users[id := user]) <==> !HeldByOther(env, users, id, Handle(env, user))
  {
    hide Handle;
    var r, handle := users[id := user], Handle(env, user);
    assert forall other, h :: other != id ==> (Named(env, r, other, h) <==> Named(env, users, other, h));
    assert handle.Some? ==> Named(env, r, id, handle);
    if other :| other != id && Named(env, users, other, handle) {
      assert Named(env, r, other, handle);
    }
  }

  lemma OwnNameIsKept(env: Env, users: map<string, User>, id: string)
    requires NamesDistinct(env, users) && id in users
    ensures !HeldByOther(env, users, id, Handle(env, users[id]))
  {
    hide Handle;
    assert Handle(env, users[id]).Some? ==> Named(env, users, id, Handle(env, users[id]));
  }

  /** A tidy name that another account holds is taken, so no such account is created. */
  lemma TidyIsCompared(env: Env, users: map<string, User>, id: string, username: string)
    requires Tidy(env, username) && HeldByOther(env, users, id, Some(env.lower(username)))
    ensures UsernameTaken(env, users, Some(username))
  {
    var other :| other != id && Named(env, users, other, Some(env.lower(username)));
    assert env.lower(users[other].username.value) == env.lower(Trim(username));
  }

  lemma CreateNames(env: Env, w: World, id: string, user: NewUser, passwordHash: Option<string>)
    requires NamesDistinct(env, w.users)
    ensures var e := Create(id, user, passwordHash);
            NamesDistinct(env, Next(env, w, e).users) <==> !Clashes(env, w, e)
  {
    hide HasEmail, UsernameTaken, NamesDistinct, HeldByOther, Tidy;
    SetNames(env, w.users, id, Created(env, id, user, passwordHash));
    if user.username.Some? && Tidy(env, user.username.value)
       && HeldByOther(env, w.users, id, Some(env.lower(user.username.value))) {
      TidyIsCompared(env, w.users, id, user.username.value);
    }
    NobodyHoldsNone(env, w.users, id);
  }

  lemma NobodyHoldsNone(env: Env, users: map<string, User>, id: string)
    ensures !HeldByOther(env, users, id, None)
  {
  }

  lemma UpdateNames(env: Env, w: World, id: string, changes: Changes)
    requires NamesDistinct(env, w.users)
    ensures var e := Update(id, changes);
            NamesDistinct(env, Next(env, w, e).users) <==> !Clashes(env, w, e)
  {
    hide NamesDistinct, HeldByOther;
    if id in w.users {
      SetNames(env, w.users, id, Updated(w.users[id], changes));
      OwnNameIsKept(env, w.users, id);
      UpdateMeaning(w.users[id], changes);
      hide Updated;
    }
  }

  /** No other step changes a user name. */
  lemma OtherStepsKeepNames(env: Env, w: World, e: Event)
    requires !e.Create? && !e.Update?
    ensures var r := Next(env, w, e).users;
            r.Keys == w.users.Keys && forall id :: id in r ==> r[id].username == w.users[id].username
  {
    hide Spent, Usable;
  }

  lemma SameNames(env: Env, users: map<string, User>, r: map<string, User>)
    requires r.Keys == users.Keys && forall id :: id in r ==> r[id].username == users[id].username
    requires NamesDistinct(env, users)
    ensures NamesDistinct(env, r)
  {
    assert forall id, h :: Named(env, r, id, h) <==> Named(env, users, id, h);
  }

  /** From distinct handles a step keeps them distinct exactly when it does not clash. */
  lemma StepKeepsNamesExactly(env: Env, w: World, e: Event)
    requires NamesDistinct(env, w.users)
    ensures NamesDistinct(env, Next(env, w, e).users) <==> !Clashes(env, w, e)
  {
    hide NamesDistinct, Next, HasEmail, UsernameTaken, HeldByOther;
    match e
    case Create(id, user, passwordHash) => CreateNames(env, w, id, user, passwordHash);
    case Update(id, changes) => UpdateNames(env, w, id, changes);
    case _ =>
      OtherStepsKeepNames(env, w, e);
      SameNames(env, w.users, Next(env, w, e).users);
  }

  ghost predicate AlwaysDistinct(env: Env, w: World, events: seq<Event>)
    decreases |events|
  {
    NamesDistinct(env, w.users) && (events != [] ==> AlwaysDistinct(env, Next(env, w, events[0]), events[1..]))
  }

  ghost predicate NeverClashes(env: Env, w: World, events: seq<Event>)
    decreases |events|
  {
    events == [] || (!Clashes(env, w, events[0]) && NeverClashes(env, Next(env, w, events[0]), events[1..]))
  }

  /** Two accounts never share a handle during a run exactly when none of its steps clashes. */
  lemma {:induction false} NamesStayDistinctExactly(env: Env, w: World, events: seq<Event>)
    requires NamesDistinct(env, w.users)
    ensures AlwaysDistinct(env, w, events) <==> NeverClashes(env, w, events)
    decreases |events|
  {
    hide NamesDistinct, Next, Clashes;
    if events != [] {
      StepKeepsNamesExactly(env, w, events[0]);
      if !Clashes(env, w, events[0]) {
        NamesStayDistinctExactly(env, Next(env, w, events[0]), events[1..]);
      } else {
        NotAlways(env, Next(env, w, events[0]), events[1..]);
      }
    }
  }

  lemma NotAlways(env: Env, w: World, events: seq<Event>)
    requires !NamesDistinct(env, w.users)
    ensures !AlwaysDistinct(env, w, events)
  {
  }

  // ----- The repository itself -----

  class InMemoryUserRepository {
    const env: Env
    var users: map<string, User>
    var mfaChallenges: map<string, Ticket>
    var passwordResetTokens: map<string, Ticket>

    ghost function State(): World
      reads this
    {
      World(users, mfaChallenges, passwordResetTokens)
    }

    constructor (env: Env)
      ensures State() == EMPTY && this.env == env
    {
      this.env, users, mfaChallenges, passwordResetTokens := env, map[], map[], map[];
    }

    method Create(id: string, user: NewUser, passwordHash: Option<string>) returns (outcome: Outcome)
      modifies this`users
      ensures (State(), outcome) == Step(env, old(State()), Event.Create(id, user, passwordHash))
    {
      var email := env.lower(Trim(user.email));
      if HasEmail(users, email) {
        return Throws("DuplicateEmailError");
      }
      if UsernameTaken(env, users, user.username) {
        return Throws("DuplicateUsernameError");
      }
      var record := Created(env, id, user, passwordHash);
      users := users[id := record];
      outcome := Account(Some(record));
    }

    method Update(id: string, changes: Changes) returns (outcome: Outcome)
      modifies this`users
      ensures (State(), outcome) == Step(env, old(State()), Event.Update(id, changes))
    {
      if id !in users {
        return Account(None);
      }
      var updated := Updated(users[id], changes);
      users := users[id := updated];
      outcome := Account(Some(updated));
    }

    method ConfigureMfa(id: string, secret: string, recoveryHashes: seq<string>, counter: int)
      returns (outcome: Outcome)
      modifies this`users
      ensures (State(), outcome) == Step(env, old(State()), Event.ConfigureMfa(id, secret, recoveryHashes, counter))
    {
      if id !in users {
        return Account(None);
      }
      var updated := users[id].(mfaEnabled := true, mfaSecret := Some(secret),
                                recoveryHashes := recoveryHashes, lastCounter := Some(counter));
      users := users[id := updated];
      outcome := Account(Some(updated));
    }

    method DisableMfa(id: string) returns (outcome: Outcome)
      modifies this`users
      ensures (State(), outcome) == Step(env, old(State()), Event.DisableMfa(id))
    {
      outcome := Update(id, NO_CHANGES.(mfaEnabled := Some(false)));
    }

    method ConsumeMfaTotpCounter(id: string, counter: int) returns (outcome: Outcome)
      modifies this`users
      ensures (State(), outcome) == Step(env, old(State()), Event.ConsumeCounter(id, counter))
    {
      if id !in users {
        return Verdict(false);
      }
      var existing := users[id];
      if existing.lastCounter.Some? && existing.lastCounter.value >= counter {
        return Verdict(false);
      }
      users := users[id := existing.(lastCounter := Some(counter))];
      outcome := Verdict(true);
    }

    method ConsumeMfaRecoveryCode(id: string, codeHash: string) returns (outcome: Outcome)
      modifies this`users
      ensures (State(), outcome) == Step(env, old(State()), Event.ConsumeRecoveryCode(id, codeHash))
    {
      if id !in users || codeHash !in users[id].recoveryHashes {
        return Verdict(false);
      }
      var existing := users[id];
      var rest := Filter((h: string) => h != codeHash, existing.recoveryHashes);
      users := users[id := existing.(recoveryHashes := rest)];
      outcome := Verdict(true);
    }

    method CreateMfaChallenge(challengeId: string, userId: string, expiresAt: int) returns (outcome: Outcome)
      modifies this`mfaChallenges
      ensures (State(), outcome) == Step(env, old(State()), Event.CreateChallenge(challengeId, userId, expiresAt))
    {
      mfaChallenges := mfaChallenges[challengeId := Ticket(userId, expiresAt, false)];
      outcome := Done;
    }

    method ConsumeMfaChallenge(challengeId: string, userId: string, now: int) returns (outcome: Outcome)
      modifies this`mfaChallenges
      ensures (State(), outcome) == Step(env, old(State()), Event.ConsumeChallenge(challengeId, userId, now))
    {
      if challengeId !in mfaChallenges {
        return Verdict(false);
      }
      var challenge := mfaChallenges[challengeId];
      if challenge.userId != userId || challenge.used || challenge.expiresAt <= now {
        return Verdict(false);
      }
      mfaChallenges := mfaChallenges[challengeId := challenge.(used := true)];
      outcome := Verdict(true);
    }

    method CreatePasswordResetToken(userId: string, tokenHash: string, expiresAt: int) returns (outcome: Outcome)
      modifies this`passwordResetTokens
      ensures (State(), outcome) == Step(env, old(State()), Event.CreateResetToken(userId, tokenHash, expiresAt))
    {
      passwordResetTokens := MarkUsed(passwordResetTokens, userId);
      passwordResetTokens := passwordResetTokens[tokenHash := Ticket(userId, expiresAt, false)];
      outcome := Done;
    }

    method ResetPasswordWithToken(tokenHash: string, newPassword: string, newHash: string, now: int)
      returns (outcome: Outcome)
      modifies this
      ensures (State(), outcome) == Step(env, old(State()), ResetPassword(tokenHash, newPassword, newHash, now))
    {
      if tokenHash !in passwordResetTokens {
        return Account(None);
      }
      var token := passwordResetTokens[tokenHash];
      if token.used || token.expiresAt <= now {
        return Account(None);
      }
      if token.userId !in users || users[token.userId].status != Active {
        return Account(None);
      }
      var existing := users[token.userId];
      if env.verifyPassword(newPassword, existing.passwordHash) {
        return Throws("PasswordReuseError");
      }
      var updated := AfterReset(existing, newHash);
      passwordResetTokens := passwordResetTokens[tokenHash := token.(used := true)];
      passwordResetTokens := MarkUsed(passwordResetTokens, token.userId);
      assert passwordResetTokens == Spent(old(passwordResetTokens), token.userId);
      mfaChallenges := MarkUsed(mfaChallenges, token.userId);
      users := users[token.userId := updated];
      outcome := Account(Some(updated));
    }
  }

  /** The loop that marks every ticket of an account used. */
  method MarkUsed(tickets: map<string, Ticket>, userId: string) returns (marked: map<string, Ticket>)
    ensures marked == Spent(tickets, userId)
  {
    marked := tickets;
    var rest := tickets.Keys;
    while rest != {}
      invariant rest <= tickets.Keys == marked.Keys
      invariant forall k :: k in rest ==> marked[k] == tickets[k]
      invariant forall k :: k in tickets && k !in rest ==> marked[k] == Spent(tickets, userId)[k]
      decreases |rest|
    {
      var k :| k in rest;
      if marked[k].userId == userId {
        marked := marked[k := marked[k].(used := true)];
      }
      rest := rest - {k};
    }
  }
}
