/** Sign-in sessions kept in memory over a durable store whose writes may fail.

    A session token and its digest are identified, since the digest is collision-free for tokens, and so are a
    password and its hash. Every operation is atomic and reads the clock once; a password change is two of them,
    since the session lock is released between its checks and its commit. */
module SessionProtocol {
  import opened Results
  import opened Collections

  const PREVIEW_LIFETIME: int := 3600
  const MAXIMUM_PREVIEWS := 8
  const MAXIMUM_PASSWORD := 4096

  type Token = string

  datatype Role = DM | Player

  /** A session record; previews name the session they were issued from. Times are in seconds. */
  datatype Record = Record(role: Role, csrf: Token, expiresAt: int, parent: Option<Token>)

  type Sessions = map<Token, Record>

  datatype Credentials = Credentials(revision: int, dm: string, player: Option<string>)

  datatype Config = Config(maximum: nat, lifetime: nat)

  /** A password change that passed its checks and holds the credential lock until it commits. */
  datatype Change = Change(token: Token, role: Role, password: string)

  /** `issued` holds every token ever handed out; it exists only to say that new tokens are fresh. */
  datatype State = State(
    sessions: Sessions, store: Sessions,
    credentials: Credentials, savedCredentials: Credentials,
    change: Option<Change>, issued: set<Token>, now: int)

  datatype Error = InvalidCredentials | Capacity | Unavailable | RoleTransition | CredentialConflict | PasswordPolicy | SaveFailed

  datatype Response = Denied(error: Error) | Granted(record: Record) | Absent | Done | Accepted | Changed(revision: int)

  /** `written` and `saved` say whether the store writes of the operation succeed, in order. */
  datatype Operation =
    | Login(password: string, token: Token, csrf: Token, written: bool, saved: bool)
    | Preview(parent: Token, token: Token, csrf: Token, written: bool, saved: bool)
    | Inspect(token: Token)
    | InspectPreview(token: Token)
    | Revoke(token: Token, written: bool)
    | AuthorizeChange(token: Token, csrf: Token, current: string, role: Role, password: string, revision: int)
    | CommitChange(written: bool, saved: bool)
    | ResetPasswords(dm: string, player: string, written: bool, saved: bool)
    | Restart(written: bool)

  // ----- the code -----

  predicate Usable(sessions: Sessions, record: Record, now: int) {
    && record.expiresAt > now
    && (record.parent.Some? ==>
          && record.parent.value in sessions
          && sessions[record.parent.value].parent.None?
          && sessions[record.parent.value].expiresAt > now
          && sessions[record.parent.value].role == DM)
  }

  function Expired(sessions: Sessions, now: int): set<Token> {
    set token | token in sessions && !Usable(sessions, sessions[token], now)
  }

  function PreviewsOf(sessions: Sessions, parent: Token): set<Token> {
    set token | token in sessions && sessions[token].parent == Some(parent)
  }

  /** A store write with nothing to do cannot fail. */
  predicate Blocked(tokens: set<Token>, written: bool) {
    tokens != {} && !written
  }

  function Pruned(s: State): State {
    var expired := Expired(s.sessions, s.now);
    s.(sessions := s.sessions - expired, store := s.store - expired)
  }

  function Saved(s: State, token: Token, record: Record): State {
    s.(sessions := s.sessions[token := record], store := s.store[token := record])
  }

  function CreateSession(config: Config, s: State, token: Token, record: Record, written: bool, saved: bool): (State, Response) {
    if Blocked(Expired(s.sessions, s.now), written) then (s, Denied(Unavailable))
    else
      var pruned := Pruned(s);
      if |pruned.sessions.Keys| >= config.maximum then (pruned, Denied(Capacity))
      else if token in pruned.sessions || !saved then (pruned, Denied(Unavailable))
      else (Saved(pruned, token, record), Granted(record))
  }

  function RoleFor(credentials: Credentials, password: string): Option<Role> {
    if password == credentials.dm then Some(DM)
    else if credentials.player == Some(password) then Some(Player)
    else None
  }

  function LoginStep(config: Config, s: State, password: string, token: Token, csrf: Token, written: bool, saved: bool): (State, Response) {
    if |password| > MAXIMUM_PASSWORD then (s, Denied(InvalidCredentials))
    else match RoleFor(s.credentials, password)
    case None => (s, Denied(InvalidCredentials))
    case Some(role) => CreateSession(config, s, token, Record(role, csrf, s.now + config.lifetime, None), written, saved)
  }

  function PreviewStep(config: Config, s: State, parent: Token, token: Token, csrf: Token, written: bool, saved: bool): (State, Response) {
    if Blocked(Expired(s.sessions, s.now), written) then (s, Denied(Unavailable))
    else
      var pruned := Pruned(s);
      if parent !in pruned.sessions || pruned.sessions[parent].role != DM || pruned.sessions[parent].parent.Some? then
        (pruned, Denied(RoleTransition))
      else if |PreviewsOf(pruned.sessions, parent)| >= MAXIMUM_PREVIEWS || |pruned.sessions.Keys| >= config.maximum then
        (pruned, Denied(Capacity))
      else if token in pruned.sessions || !saved then (pruned, Denied(Unavailable))
      else
        var expires := s.now + PREVIEW_LIFETIME;
        var limit := pruned.sessions[parent].expiresAt;
        var record := Record(Player, csrf, if limit < expires then limit else expires, Some(parent));
        (Saved(pruned, token, record), Granted(record))
  }

  /** Looking a session up forgets it, in memory only, once it is no longer usable. */
  function InspectStep(s: State, token: Token, previewsOnly: bool): (State, Response) {
    if token !in s.sessions || (previewsOnly && s.sessions[token].parent.None?) then (s, Absent)
    else if !Usable(s.sessions, s.sessions[token], s.now) then (s.(sessions := s.sessions - {token}), Absent)
    else (s, Granted(s.sessions[token]))
  }

  function RevokeStep(s: State, token: Token, written: bool): (State, Response) {
    if token !in s.sessions then (s, Done)
    else if !written then (s, Denied(Unavailable))
    else (s.(sessions := s.sessions - {token}, store := s.store - {token}), Done)
  }

  /** Everyone of the changed role but the DM who changes it, and every preview. */
  function Revoked(sessions: Sessions, caller: Token, role: Role): set<Token> {
    set token | token in sessions && token != caller && (sessions[token].role == role || sessions[token].parent.Some?)
  }

  predicate Authorized(s: State, token: Token, csrf: Token) {
    && token in s.sessions && Usable(s.sessions, s.sessions[token], s.now)
    && s.sessions[token].role == DM && s.sessions[token].csrf == csrf
  }

  predicate ValidNewPassword(credentials: Credentials, role: Role, password: string) {
    && |password| <= MAXIMUM_PASSWORD
    && (4 <= |password| || (role == Player && password == ""))
    && (password != "" && role == Player ==> password != credentials.dm)
    && (password != "" && role == DM ==> credentials.player != Some(password))
  }

  function NextCredentials(credentials: Credentials, role: Role, password: string): Credentials {
    var revised := credentials.(revision := credentials.revision + 1);
    if role == DM then revised.(dm := password)
    else revised.(player := if password == "" then None else Some(password))
  }

  /** The checks of a password change; no other sign-in or change can come between them and its commit. */
  function AuthorizeStep(s: State, op: Operation): (State, Response)
    requires op.AuthorizeChange?
  {
    if !Authorized(s, op.token, op.csrf) then (s, Denied(RoleTransition))
    else if op.revision != s.credentials.revision then (s, Denied(CredentialConflict))
    else if op.current != s.credentials.dm then (s, Denied(InvalidCredentials))
    else if !ValidNewPassword(s.credentials, op.role, op.password) then (s, Denied(PasswordPolicy))
    else (s.(change := Some(Change(op.token, op.role, op.password))), Accepted)
  }

  /** Saved sessions go before the password commits, sessions in memory only afterwards. */
  function CommitStep(s: State, written: bool, saved: bool): (State, Response) {
    match s.change
    case None => (s, Denied(RoleTransition))
    case Some(change) =>
      var revoked := Revoked(s.sessions, change.token, change.role);
      var released := s.(change := None);
      if Blocked(revoked, written) then (released, Denied(Unavailable))
      else
        var removed := released.(store := s.store - revoked);
        if !saved then (removed, Denied(SaveFailed))
        else
          var next := NextCredentials(s.credentials, change.role, change.password);
          (removed.(sessions := s.sessions - revoked, credentials := next, savedCredentials := next), Changed(next.revision))
  }

  /** The offline reset, which a restart follows: everyone is signed out before the passwords change. */
  function ResetStep(s: State, op: Operation): (State, Response)
    requires op.ResetPasswords?
  {
    if |op.dm| < 4 || |op.dm| > MAXIMUM_PASSWORD || |op.player| > MAXIMUM_PASSWORD || (op.player != "" && (|op.player| < 4 || op.player == op.dm)) then
      (s, Denied(PasswordPolicy))
    else if !op.written then (s, Denied(SaveFailed))
    else
      var cleared := s.(store := map[]);
      if !op.saved then (cleared, Denied(SaveFailed))
      else
        (cleared.(savedCredentials := Credentials(s.savedCredentials.revision + 1, op.dm,
                                                  if op.player == "" then None else Some(op.player))), Done)
  }

  /** A restart loads every saved session and prunes the expired ones; when the pruning cannot be saved
      the host does not start and nothing has changed. */
  function RestartStep(s: State, written: bool): (State, Response) {
    var loaded := s.(sessions := s.store, credentials := s.savedCredentials, change := None);
    if Blocked(Expired(loaded.sessions, s.now), written) then (s, Denied(Unavailable)) else (Pruned(loaded), Done)
  }

  function Perform(config: Config, s: State, op: Operation): (State, Response) {
    match op
    case Login(password, token, csrf, written, saved) => LoginStep(config, s, password, token, csrf, written, saved)
    case Preview(parent, token, csrf, written, saved) => PreviewStep(config, s, parent, token, csrf, written, saved)
    case Inspect(token) => InspectStep(s, token, false)
    case InspectPreview(token) => InspectStep(s, token, true)
    case Revoke(token, written) => RevokeStep(s, token, written)
    case AuthorizeChange(_, _, _, _, _, _) => AuthorizeStep(s, op)
    case CommitChange(written, saved) => CommitStep(s, written, saved)
    case ResetPasswords(_, _, _, _) => ResetStep(s, op)
    case Restart(written) => RestartStep(s, written)
  }

  /** The tokens an operation draws from the generator. */
  function Drawn(op: Operation): set<Token> {
    if op.Login? || op.Preview? then {op.token} else {}
  }

  /** The credential lock is held from the checks of a password change to its commit. */
  predicate LockAllows(s: State, op: Operation) {
    if s.change.Some? then !op.Login? && !op.AuthorizeChange? else !op.CommitChange?
  }

  /** One operation at time `now`, on a clock that does not run backwards, with fresh tokens. */
  ghost predicate Step(config: Config, s: State, now: int, op: Operation, s': State) {
    && s.now <= now && Drawn(op) !! s.issued && LockAllows(s, op)
    && s' == Perform(config, s.(now := now, issued := s.issued + Drawn(op)), op).0
  }

  // ----- the invariant -----

  ghost predicate Live(s: State, token: Token) {
    token in s.sessions && Usable(s.sessions, s.sessions[token], s.now)
  }

  ghost predicate Known(sessions: Sessions, issued: set<Token>) {
    && (forall token {:trigger token in sessions} | token in sessions :: token in issued)
    && forall token {:trigger sessions[token].parent} | token in sessions && sessions[token].parent.Some? ::
         sessions[token].parent.value in issued
  }

  /** A preview is a player's and never outlives its parent. */
  ghost predicate PreviewsBounded(sessions: Sessions) {
    forall token {:trigger sessions[token].parent} | token in sessions && sessions[token].parent.Some? ::
      && sessions[token].role == Player
      && (sessions[token].parent.value in sessions ==>
            sessions[token].expiresAt <= sessions[sessions[token].parent.value].expiresAt)
  }

  ghost predicate Agree(sessions: Sessions, store: Sessions) {
    forall token | token in sessions && token in store :: sessions[token] == store[token]
  }

  /** Every stored session that is usable now is in memory with the same record. */
  ghost predicate Covered(sessions: Sessions, store: Sessions, now: int) {
    forall token {:trigger Usable(store, store[token], now)} | token in store && Usable(store, store[token], now) ::
      token in sessions && sessions[token] == store[token]
  }

  ghost predicate Valid(config: Config, s: State) {
    && Known(s.sessions, s.issued) && Known(s.store, s.issued)
    && Agree(s.sessions, s.store)
    && Covered(s.sessions, s.store, s.now)
    && PreviewsBounded(s.sessions) && PreviewsBounded(s.store)
    && |s.sessions.Keys| <= config.maximum
    && (forall parent :: |PreviewsOf(s.sessions, parent)| <= MAXIMUM_PREVIEWS)
  }

  // ----- every operation keeps the invariant -----

  ghost predicate Part(small: Sessions, large: Sessions) {
    forall token {:trigger token in small} | token in small :: token in large && small[token] == large[token]
  }

  /** Usability survives neither the passing of time nor the loss of other sessions backwards. */
  lemma UsableInPart(small: Sessions, large: Sessions, record: Record, later: int, now: int)
    requires Part(small, large) && now <= later && Usable(small, record, later)
    ensures Usable(large, record, now)
  {
  }

  lemma ShrinkingKeepsValid(config: Config, s: State, s': State)
    requires Valid(config, s) && Part(s'.sessions, s.sessions) && Part(s'.store, s.store)
    requires s'.issued == s.issued && Covered(s'.sessions, s'.store, s'.now)
    ensures Valid(config, s')
  {
    SubsetIsSmaller(s'.sessions.Keys, s.sessions.Keys);
    assert |s'.sessions.Keys| == |s'.sessions.Keys| && |s.sessions.Keys| == |s.sessions.Keys|;
    forall parent
      ensures |PreviewsOf(s'.sessions, parent)| <= MAXIMUM_PREVIEWS
    {
      SubsetIsSmaller(PreviewsOf(s'.sessions, parent), PreviewsOf(s.sessions, parent));
    }
  }

  lemma TimeKeepsValid(config: Config, s: State, now: int, drawn: set<Token>)
    requires Valid(config, s) && s.now <= now
    ensures Valid(config, s.(now := now, issued := s.issued + drawn))
  {
    forall token | token in s.store && Usable(s.store, s.store[token], now)
      ensures token in s.sessions && s.sessions[token] == s.store[token]
    {
      UsableInPart(s.store, s.store, s.store[token], now, s.now);
    }
  }

  lemma RemovalKeepsCovered(sessions: Sessions, store: Sessions, removed: set<Token>, now: int)
    requires Covered(sessions, store, now)
    ensures Covered(sessions - removed, store - removed, now)
    ensures Covered(sessions, store - removed, now)
  {
    forall token | token in store - removed && Usable(store - removed, store[token], now)
      ensures token in sessions - removed && sessions[token] == store[token]
    {
      UsableInPart(store - removed, store, store[token], now, now);
    }
  }

  /** Forgetting in memory is harmless: what is not usable in memory is not usable in the store either. */
  lemma ForgettingKeepsCovered(sessions: Sessions, store: Sessions, token: Token, now: int)
    requires Covered(sessions, store, now) && Agree(sessions, store)
    requires token in sessions && !Usable(sessions, sessions[token], now)
    ensures Covered(sessions - {token}, store, now)
  {
    if token in store && Usable(store, store[token], now) && store[token].parent.Some? {
      var parent := store[token].parent.value;
      assert Usable(store, store[parent], now);
    }
  }

  lemma PruningKeepsValid(config: Config, s: State)
    requires Valid(config, s)
    ensures Valid(config, Pruned(s))
  {
    RemovalKeepsCovered(s.sessions, s.store, Expired(s.sessions, s.now), s.now);
    ShrinkingKeepsValid(config, s, Pruned(s));
  }

  /** A token that was just drawn: no session and no preview has used it. */
  ghost predicate Fresh(s: State, token: Token) {
    && token in s.issued && token !in s.sessions && token !in s.store
    && (forall other | other in s.sessions :: s.sessions[other].parent != Some(token))
    && (forall other | other in s.store :: s.store[other].parent != Some(token))
  }

  /** A fresh session is saved and remembered together. */
  lemma SavingKeepsValid(config: Config, s: State, token: Token, record: Record)
    requires Valid(config, s) && Fresh(s, token)
    requires |s.sessions.Keys| < config.maximum
    requires record.parent.Some? ==>
      && record.role == Player && record.parent.value in s.sessions && record.parent.value in s.issued && record.parent.value != token
      && record.expiresAt <= s.sessions[record.parent.value].expiresAt
      && |PreviewsOf(s.sessions, record.parent.value)| < MAXIMUM_PREVIEWS
    ensures Valid(config, Saved(s, token, record))
  {
    var saved := Saved(s, token, record);
    assert |saved.sessions.Keys| == |s.sessions.Keys| + 1;
    forall other | other in saved.store && Usable(saved.store, saved.store[other], s.now)
      ensures other in saved.sessions && saved.sessions[other] == saved.store[other]
    {
      if other != token {
        assert Usable(s.store, s.store[other], s.now);
      }
    }
    forall parent
      ensures |PreviewsOf(saved.sessions, parent)| <= MAXIMUM_PREVIEWS
    {
      if record.parent == Some(parent) {
        assert PreviewsOf(saved.sessions, parent) == PreviewsOf(s.sessions, parent) + {token};
      } else {
        assert PreviewsOf(saved.sessions, parent) == PreviewsOf(s.sessions, parent);
      }
    }
  }

  lemma PruningKeepsFresh(s: State, token: Token)
    requires Fresh(s, token)
    ensures Fresh(Pruned(s), token)
  {
  }

  lemma CreatingKeepsValid(config: Config, s: State, token: Token, record: Record, written: bool, saved: bool)
    requires Valid(config, s) && Fresh(s, token) && record.parent.None?
    ensures Valid(config, CreateSession(config, s, token, record, written, saved).0)
  {
    hide Valid, Fresh, Expired, Blocked, Saved, Pruned;
    PruningKeepsValid(config, s);
    PruningKeepsFresh(s, token);
    if |Pruned(s).sessions.Keys| < config.maximum {
      SavingKeepsValid(config, Pruned(s), token, record);
    }
  }

  lemma LoginKeepsValid(config: Config, s: State, password: string, token: Token, csrf: Token, written: bool, saved: bool)
    requires Valid(config, s) && Fresh(s, token)
    ensures Valid(config, LoginStep(config, s, password, token, csrf, written, saved).0)
  {
    hide Valid, Fresh, CreateSession;
    match RoleFor(s.credentials, password)
    case None =>
    case Some(role) => CreatingKeepsValid(config, s, token, Record(role, csrf, s.now + config.lifetime, None), written, saved);
  }

  lemma PreviewKeepsValid(config: Config, s: State, parent: Token, token: Token, csrf: Token, written: bool, saved: bool)
    requires Valid(config, s) && Fresh(s, token)
    ensures Valid(config, PreviewStep(config, s, parent, token, csrf, written, saved).0)
  {
    hide Fresh, Expired, Blocked, Saved, Pruned, Usable, Covered, Agree;
    PruningKeepsValid(config, s);
    PruningKeepsFresh(s, token);
    var response := PreviewStep(config, s, parent, token, csrf, written, saved).1;
    if response.Granted? {
      SavingKeepsValid(config, Pruned(s), token, response.record);
    }
  }

  lemma InspectKeepsValid(config: Config, s: State, token: Token, previewsOnly: bool)
    requires Valid(config, s)
    ensures Valid(config, InspectStep(s, token, previewsOnly).0)
  {
    if token in s.sessions && !Usable(s.sessions, s.sessions[token], s.now) {
      ForgettingKeepsCovered(s.sessions, s.store, token, s.now);
      ShrinkingKeepsValid(config, s, s.(sessions := s.sessions - {token}));
    }
  }

  lemma RevokeKeepsValid(config: Config, s: State, token: Token, written: bool)
    requires Valid(config, s)
    ensures Valid(config, RevokeStep(s, token, written).0)
  {
    RemovalKeepsCovered(s.sessions, s.store, {token}, s.now);
    ShrinkingKeepsValid(config, s, s.(sessions := s.sessions - {token}, store := s.store - {token}));
  }

  lemma LosingKeepsValid(config: Config, s: State, removed: set<Token>, next: Credentials)
    requires Valid(config, s)
    ensures Valid(config, s.(change := None)) && Valid(config, s.(change := None, store := s.store - removed))
    ensures Valid(config, s.(change := None, sessions := s.sessions - removed, store := s.store - removed, credentials := next, savedCredentials := next))
  {
    RemovalKeepsCovered(s.sessions, s.store, removed, s.now);
    ShrinkingKeepsValid(config, s, s.(change := None, store := s.store - removed));
    ShrinkingKeepsValid(config, s, s.(change := None, sessions := s.sessions - removed, store := s.store - removed, credentials := next, savedCredentials := next));
  }

  lemma CommitKeepsValid(config: Config, s: State, written: bool, saved: bool)
    requires Valid(config, s)
    ensures Valid(config, CommitStep(s, written, saved).0)
  {
    hide Valid, NextCredentials, Revoked, Blocked;
    match s.change
    case None =>
    case Some(change) =>
      LosingKeepsValid(config, s, Revoked(s.sessions, change.token, change.role), NextCredentials(s.credentials, change.role, change.password));
  }

  lemma RestartKeepsValid(config: Config, s: State, written: bool)
    requires Valid(config, s)
    ensures Valid(config, RestartStep(s, written).0)
    ensures
      var s' := RestartStep(s, written).0;
      Part(s'.sessions, s.sessions) && Part(s'.store, s.store)
  {
    var loaded := s.(sessions := s.store, credentials := s.savedCredentials, change := None);
    var pruned := Pruned(loaded);
    ShrinkingKeepsValid(config, s, pruned);
  }

  lemma PerformKeepsValid(config: Config, s: State, op: Operation)
    requires Valid(config, s) && forall token <- Drawn(op) :: Fresh(s, token)
    ensures Valid(config, Perform(config, s, op).0)
  {
    match op
    case Login(password, token, csrf, written, saved) => LoginKeepsValid(config, s, password, token, csrf, written, saved);
    case Preview(parent, token, csrf, written, saved) => PreviewKeepsValid(config, s, parent, token, csrf, written, saved);
    case Inspect(token) => InspectKeepsValid(config, s, token, false);
    case InspectPreview(token) => InspectKeepsValid(config, s, token, true);
    case Revoke(token, written) => RevokeKeepsValid(config, s, token, written);
    case AuthorizeChange(_, _, _, _, _, _) =>
    case CommitChange(written, saved) => CommitKeepsValid(config, s, written, saved);
    case ResetPasswords(_, _, _, _) => ShrinkingKeepsValid(config, s, s.(store := map[]));
    case Restart(written) => RestartKeepsValid(config, s, written);
  }

  lemma DrawnIsFresh(config: Config, s: State, now: int, op: Operation)
    requires Valid(config, s) && Drawn(op) !! s.issued
    ensures forall token <- Drawn(op) :: Fresh(s.(now := now, issued := s.issued + Drawn(op)), token)
  {
  }

  lemma StepKeepsValid(config: Config, s: State, now: int, op: Operation, s': State)
    requires Valid(config, s) && Step(config, s, now, op, s')
    ensures Valid(config, s')
  {
    hide Valid, Perform, Fresh;
    TimeKeepsValid(config, s, now, Drawn(op));
    DrawnIsFresh(config, s, now, op);
    PerformKeepsValid(config, s.(now := now, issued := s.issued + Drawn(op)), op);
  }

  // ----- no session comes back -----

  /** Nothing but `token` enters memory, and neither the clock nor the token supply changes. */
  ghost predicate OnlyAdds(s: State, s': State, added: set<Token>) {
    s'.now == s.now && s'.issued == s.issued && Part(s'.sessions - added, s.sessions)
  }

  lemma PrunedOnlyAdds(s: State, added: set<Token>)
    ensures OnlyAdds(s, Pruned(s), added)
  {
  }

  lemma SavedOnlyAdds(s: State, token: Token, record: Record)
    ensures OnlyAdds(s, Saved(Pruned(s), token, record), {token})
  {
  }

  lemma CreatingOnlyAdds(config: Config, s: State, token: Token, record: Record, written: bool, saved: bool)
    ensures OnlyAdds(s, CreateSession(config, s, token, record, written, saved).0, {token})
  {
    PrunedOnlyAdds(s, {token});
    SavedOnlyAdds(s, token, record);
  }

  lemma LoginOnlyAdds(config: Config, s: State, password: string, token: Token, csrf: Token, written: bool, saved: bool)
    ensures OnlyAdds(s, LoginStep(config, s, password, token, csrf, written, saved).0, {token})
  {
    match RoleFor(s.credentials, password)
    case None =>
    case Some(role) => CreatingOnlyAdds(config, s, token, Record(role, csrf, s.now + config.lifetime, None), written, saved);
  }

  lemma PreviewOnlyAdds(config: Config, s: State, parent: Token, token: Token, csrf: Token, written: bool, saved: bool)
    ensures OnlyAdds(s, PreviewStep(config, s, parent, token, csrf, written, saved).0, {token})
  {
    var response := PreviewStep(config, s, parent, token, csrf, written, saved).1;
    PrunedOnlyAdds(s, {token});
    if response.Granted? {
      SavedOnlyAdds(s, token, response.record);
    }
  }

  lemma RestartOnlyAdds(config: Config, s: State, written: bool)
    requires Valid(config, s)
    ensures OnlyAdds(s, RestartStep(s, written).0, {})
  {
    RestartKeepsValid(config, s, written);
  }

  lemma OthersOnlyAdd(config: Config, s: State, op: Operation)
    requires op.Inspect? || op.InspectPreview? || op.Revoke? || op.AuthorizeChange? || op.CommitChange? || op.ResetPasswords?
    ensures OnlyAdds(s, Perform(config, s, op).0, {})
  {
  }

  /** Memory only ever loses sessions or gains the one just drawn. */
  lemma PerformOnlyAddsDrawn(config: Config, s: State, op: Operation)
    requires Valid(config, s)
    ensures OnlyAdds(s, Perform(config, s, op).0, Drawn(op))
  {
    match op
    case Login(password, token, csrf, written, saved) => LoginOnlyAdds(config, s, password, token, csrf, written, saved);
    case Preview(parent, token, csrf, written, saved) => PreviewOnlyAdds(config, s, parent, token, csrf, written, saved);
    case Restart(written) => RestartOnlyAdds(config, s, written);
    case _ => OthersOnlyAdd(config, s, op);
  }

  /** A session that was not usable before a step is not usable after it, unless the step created it. */
  lemma StepRevivesNothing(config: Config, s: State, now: int, op: Operation, s': State, token: Token)
    requires Valid(config, s) && Step(config, s, now, op, s')
    requires token in s.issued && Live(s', token)
    ensures Live(s, token) && s.sessions[token] == s'.sessions[token]
  {
    TimeKeepsValid(config, s, now, Drawn(op));
    var timed := s.(now := now, issued := s.issued + Drawn(op));
    PerformOnlyAddsDrawn(config, timed, op);
    StepKeepsValid(config, s, now, op, s');
    var record := s'.sessions[token];
    assert token in s'.sessions - Drawn(op);
    if record.parent.Some? {
      assert record.parent.value in s.issued;
      assert record.parent.value in s'.sessions - Drawn(op);
    }
  }

  /** A change under way is a DM's, if the session that asked for it still exists, and its password is still valid. */
  ghost predicate ChangeValid(s: State) {
    s.change.Some? ==>
      && s.change.value.token in s.issued
      && (s.change.value.token in s.sessions ==> s.sessions[s.change.value.token].role == DM)
      && ValidNewPassword(s.credentials, s.change.value.role, s.change.value.password)
  }

  /** Only the checks set a change, and what changes the credentials ends it. */
  lemma ChangeFrame(config: Config, s: State, op: Operation)
    ensures
      var s' := Perform(config, s, op).0;
      s'.change.Some? && !op.AuthorizeChange? ==> s'.change == s.change && s'.credentials == s.credentials
  {
    hide Revoked, Expired, Usable, PreviewsOf;
  }

  lemma AcceptedChangeIsValid(config: Config, s: State, op: Operation)
    requires Valid(config, s) && ChangeValid(s) && op.AuthorizeChange?
    ensures ChangeValid(AuthorizeStep(s, op).0)
  {
  }

  lemma StepKeepsChange(config: Config, s: State, now: int, op: Operation, s': State)
    requires Valid(config, s) && ChangeValid(s) && Step(config, s, now, op, s')
    ensures ChangeValid(s')
  {
    hide Valid, Perform, ValidNewPassword;
    TimeKeepsValid(config, s, now, Drawn(op));
    var timed := s.(now := now, issued := s.issued + Drawn(op));
    if op.AuthorizeChange? {
      assert Perform(config, timed, op) == AuthorizeStep(timed, op) by { PerformAuthorizes(config, timed, op); }
      AcceptedChangeIsValid(config, timed, op);
    } else {
      ChangeFrame(config, timed, op);
      PerformOnlyAddsDrawn(config, timed, op);
      if s'.change.Some? && s'.change.value.token in s'.sessions {
        assert s'.change.value.token in s'.sessions - Drawn(op);
      }
    }
  }

  lemma PerformAuthorizes(config: Config, s: State, op: Operation)
    requires op.AuthorizeChange?
    ensures Perform(config, s, op) == AuthorizeStep(s, op)
  {
  }

  ghost predicate IsRun(config: Config, states: seq<State>, times: seq<int>, ops: seq<Operation>) {
    && |times| == |ops| && |states| == |ops| + 1
    && forall i | 0 <= i < |ops| :: Step(config, states[i], times[i], ops[i], states[i + 1])
  }

  lemma {:induction false} RunsKeepValid(config: Config, states: seq<State>, times: seq<int>, ops: seq<Operation>, i: nat)
    requires IsRun(config, states, times, ops) && Valid(config, states[0]) && i < |states|
    ensures Valid(config, states[i])
  {
    hide Valid, Step;
    if i > 0 {
      RunsKeepValid(config, states, times, ops, i - 1);
      StepKeepsValid(config, states[i - 1], times[i - 1], ops[i - 1], states[i]);
    }
  }

  lemma {:induction false} RunsKeepChange(config: Config, states: seq<State>, times: seq<int>, ops: seq<Operation>, i: nat)
    requires IsRun(config, states, times, ops) && Valid(config, states[0]) && ChangeValid(states[0]) && i < |states|
    ensures ChangeValid(states[i])
  {
    hide Valid, ChangeValid, Step;
    if i > 0 {
      RunsKeepValid(config, states, times, ops, i - 1);
      RunsKeepChange(config, states, times, ops, i - 1);
      StepKeepsChange(config, states[i - 1], times[i - 1], ops[i - 1], states[i]);
    }
  }

  /** Over every run, restarts and failed writes included: a session that exists and is not usable at one
      moment, whether expired, revoked or orphaned, is not usable at any later moment. */
  lemma {:induction false} NothingIsRevived(config: Config, states: seq<State>, times: seq<int>, ops: seq<Operation>, i: nat, j: nat, token: Token)
    requires IsRun(config, states, times, ops) && Valid(config, states[0]) && i <= j < |states|
    requires token in states[i].issued && !Live(states[i], token)
    ensures !Live(states[j], token)
    ensures states[i].issued <= states[j].issued
    decreases j
  {
    hide Valid, Live, Step;
    if i < j {
      NothingIsRevived(config, states, times, ops, i, j - 1, token);
      RunStepNeverRevives(config, states, times, ops, j - 1, token);
    }
  }

  lemma RunStepNeverRevives(config: Config, states: seq<State>, times: seq<int>, ops: seq<Operation>, i: nat, token: Token)
    requires IsRun(config, states, times, ops) && Valid(config, states[0]) && i < |ops|
    requires token in states[i].issued && !Live(states[i], token)
    ensures !Live(states[i + 1], token) && states[i].issued <= states[i + 1].issued
  {
    RunsKeepValid(config, states, times, ops, i);
    StepNeverRevives(config, states[i], times[i], ops[i], states[i + 1], token);
  }

  lemma StepNeverRevives(config: Config, s: State, now: int, op: Operation, s': State, token: Token)
    requires Valid(config, s) && Step(config, s, now, op, s')
    requires token in s.issued && !Live(s, token)
    ensures !Live(s', token) && s.issued <= s'.issued
  {
    TimeKeepsValid(config, s, now, Drawn(op));
    PerformOnlyAddsDrawn(config, s.(now := now, issued := s.issued + Drawn(op)), op);
    if Live(s', token) {
      StepRevivesNothing(config, s, now, op, s', token);
    }
  }

  // ----- what the operations promise -----

  /** Exactly the stored sessions that are usable survive a restart that succeeds, and they were usable before it. */
  lemma RestartKeepsStoredSessions(config: Config, s: State, written: bool, token: Token)
    requires Valid(config, s) && RestartStep(s, written).1 == Done
    ensures
      var s' := RestartStep(s, written).0;
      && (Live(s', token) <==> token in s.store && Usable(s.store, s.store[token], s.now))
      && (Live(s', token) ==> Live(s, token) && s'.sessions[token] == s.sessions[token])
  {
    var s' := RestartStep(s, written).0;
    if token in s.store && Usable(s.store, s.store[token], s.now) && s.store[token].parent.Some? {
      assert Usable(s.store, s.store[s.store[token].parent.value], s.now);
    }
    RestartKeepsValid(config, s, written);
    if Live(s', token) {
      UsableInPart(s'.sessions, s.sessions, s'.sessions[token], s.now, s.now);
    }
  }

  /** A password change that gets past its store write leaves no revoked session in the store, even when the
      new password then fails to commit; when it commits, the only session of the role is the caller's. */
  lemma PasswordChangeRevokes(config: Config, s: State, written: bool, saved: bool, token: Token)
    requires Valid(config, s) && s.change.Some?
    requires var response := CommitStep(s, written, saved).1; response.Changed? || response == Denied(SaveFailed)
    requires token in s.sessions && token != s.change.value.token
    requires s.sessions[token].role == s.change.value.role || s.sessions[token].parent.Some?
    ensures token !in CommitStep(s, written, saved).0.store
    ensures CommitStep(s, written, saved).1.Changed? ==> token !in CommitStep(s, written, saved).0.sessions
    ensures CommitStep(s, written, saved).1 == Denied(SaveFailed) ==>
      CommitStep(s, written, saved).0 == s.(change := None, store := s.store - Revoked(s.sessions, s.change.value.token, s.change.value.role))
  {
  }

  /** The caller is signed in after the commit exactly when it still was before, and with the new password only the
      changed role's old password stops working. */
  lemma PasswordChangeKeepsCaller(config: Config, s: State, written: bool, saved: bool)
    requires Valid(config, s) && ChangeValid(s) && s.change.Some? && CommitStep(s, written, saved).1.Changed?
    ensures
      var s' := CommitStep(s, written, saved).0;
      var Change(token, role, password) := s.change.value;
      && (Live(s', token) <==> Live(s, token)) && (Live(s, token) ==> s'.sessions[token] == s.sessions[token])
      && s'.credentials == s'.savedCredentials && s'.credentials.revision == s.credentials.revision + 1
      && (password != "" ==> RoleFor(s'.credentials, password) == Some(role))
      && (forall other | RoleFor(s.credentials, other) != Some(role) && other != password ::
            RoleFor(s'.credentials, other) == RoleFor(s.credentials, other))
  {
    var token := s.change.value.token;
    if token in s.sessions {
      assert s.sessions[token].parent.None?;
    }
  }

  /** Between the checks and the commit the caller can be revoked, and then it stays signed out. */
  lemma CallerRevokedMeanwhile(config: Config, s: State, op: Operation)
    requires Valid(config, s) && op.AuthorizeChange? && AuthorizeStep(s, op).1 == Accepted
    ensures
      var revoked := RevokeStep(AuthorizeStep(s, op).0, op.token, true).0;
      && LockAllows(AuthorizeStep(s, op).0, Revoke(op.token, true)) && LockAllows(revoked, CommitChange(true, true))
      && CommitStep(revoked, true, true).1.Changed? && !Live(CommitStep(revoked, true, true).0, op.token)
      && Live(CommitStep(AuthorizeStep(s, op).0, true, true).0, op.token)
  {
    assert s.sessions[op.token].parent.None?;
  }

  /** A usable preview always belongs to a usable sign-in of a DM, which it does not outlive. */
  lemma PreviewDependsOnItsParent(config: Config, s: State, token: Token)
    requires Valid(config, s) && Live(s, token) && s.sessions[token].parent.Some?
    ensures
      var parent := s.sessions[token].parent.value;
      && Live(s, parent) && s.sessions[parent].role == DM && s.sessions[parent].parent.None?
      && s.sessions[token].role == Player && s.sessions[token].expiresAt <= s.sessions[parent].expiresAt
      && !Live(RevokeStep(s, parent, true).0, token)
  {
  }

  ghost predicate HasSponsor(s: State, parent: Option<Token>) {
    parent.Some? ==>
      && parent.value in s.sessions && s.sessions[parent.value].parent.None?
      && s.sessions[parent.value].role == DM && s.sessions[parent.value].expiresAt > s.now
  }

  /** Signing out ends the session and the previews issued from it, and no other; a failed write changes nothing. A
      restart does not bring them back. */
  lemma RevokedIsOut(config: Config, s: State, token: Token, written: bool)
    requires Valid(config, s)
    ensures
      var (s', response) := RevokeStep(s, token, written);
      && (response == Done <==> token !in s.sessions || written)
      && (response != Done ==> s' == s)
      && (response == Done ==>
            && (forall other :: Live(s', other) <==> Live(s, other) && other != token && s.sessions[other].parent != Some(token))
            && (RestartStep(s', true).1 == Done && !Live(RestartStep(s', true).0, token)))
  {
    hide Known, PreviewsBounded, Expired;
    var (s', response) := RevokeStep(s, token, written);
    if response == Done {
      forall other
        ensures Live(s', other) <==> Live(s, other) && other != token && s.sessions[other].parent != Some(token)
      {
      }
      RevokeKeepsValid(config, s, token, written);
      RestartKeepsStoredSessions(config, s', true, token);
    }
  }

  /** Inspecting answers exactly for usable sessions: unexpired ones, and unexpired previews of an unexpired sign-in
      of a DM; the preview lookup answers for previews only. */
  lemma InspectAnswersUsable(s: State, token: Token, previewsOnly: bool)
    ensures
      var (s', response) := InspectStep(s, token, previewsOnly);
      && (response.Granted? <==> Live(s, token) && (previewsOnly ==> s.sessions[token].parent.Some?))
      && (Live(s, token) <==> token in s.sessions && s.sessions[token].expiresAt > s.now && HasSponsor(s, s.sessions[token].parent))
      && (response.Granted? ==> response.record == s.sessions[token])
      && (forall other :: Live(s', other) <==> Live(s, other))
  {
    var s' := InspectStep(s, token, previewsOnly).0;
    forall other
      ensures Live(s', other) <==> Live(s, other)
    {
      if Live(s, other) && s.sessions[other].parent == Some(token) {
        assert Usable(s.sessions, s.sessions[token], s.now);
      }
    }
  }

  // ----- who is let in -----

  ghost function Alive(s: State): set<Token> {
    set token | token in s.sessions && Live(s, token)
  }

  /** What had to be forgotten to make room, and whether a new session then fits. */
  ghost predicate HasRoom(config: Config, s: State, token: Token, written: bool, saved: bool) {
    && ((forall other <- s.sessions :: Live(s, other)) || written)
    && |Alive(s)| < config.maximum && !Live(s, token) && saved
  }

  /** A session is granted by `s'` for `token`: it is in memory and in the store, with the record of the answer, and
      everyone else who was signed in still is. */
  ghost predicate Entered(s: State, s': State, token: Token, record: Record) {
    && token in s'.sessions && s'.sessions[token] == record && token in s'.store && s'.store[token] == record
    && (forall other {:trigger Live(s', other)} | other != token ::
          (Live(s', other) <==> Live(s, other)) && (Live(s, other) ==> s'.sessions[other] == s.sessions[other]))
    && s'.credentials == s.credentials && s'.savedCredentials == s.savedCredentials && s'.change == s.change
  }

  /** Exactly the two passwords open a session, while it fits and can be saved; the DM's alone opens a DM's. */
  ghost predicate SignedIn(config: Config, s: State, op: Operation, s': State, response: Response)
    requires op.Login?
  {
    var known := |op.password| <= MAXIMUM_PASSWORD && (op.password == s.credentials.dm || s.credentials.player == Some(op.password));
    && (response == Denied(InvalidCredentials) <==> !known)
    && (response.Granted? <==> known && HasRoom(config, s, op.token, op.written, op.saved))
    && (response.Granted? ==>
          && (response.record.role == DM <==> op.password == s.credentials.dm)
          && response.record.csrf == op.csrf && response.record.parent == None
          && response.record.expiresAt == s.now + config.lifetime
          && Entered(s, s', op.token, response.record)
          && (config.lifetime > 0 ==> Live(s', op.token)))
    && (!response.Granted? ==> response.Denied? && forall other :: Live(s', other) <==> Live(s, other))
  }

  /** A preview of a usable sign-in of the DM: a player's, for an hour at most and no longer than its parent. */
  ghost predicate Previewed(config: Config, s: State, op: Operation, s': State, response: Response)
    requires op.Preview?
  {
    var issuer := Live(s, op.parent) && s.sessions[op.parent].role == DM && s.sessions[op.parent].parent.None?;
    var previews := set token | token in Alive(s) && s.sessions[token].parent == Some(op.parent);
    && (response.Granted? <==> issuer && |previews| < MAXIMUM_PREVIEWS && HasRoom(config, s, op.token, op.written, op.saved))
    && (response == Denied(RoleTransition) <==> !issuer && ((forall other <- s.sessions :: Live(s, other)) || op.written))
    && (response.Granted? ==>
          && response.record.role == Player && response.record.csrf == op.csrf && response.record.parent == Some(op.parent)
          && response.record.expiresAt <= s.now + PREVIEW_LIFETIME
          && response.record.expiresAt <= s.sessions[op.parent].expiresAt
          && response.record.expiresAt in {s.now + PREVIEW_LIFETIME, s.sessions[op.parent].expiresAt}
          && Entered(s, s', op.token, response.record) && Live(s', op.token))
    && (!response.Granted? ==> response.Denied? && forall other :: Live(s', other) <==> Live(s, other))
  }

  lemma PrunedIsAlive(s: State)
    ensures Pruned(s).sessions.Keys == Alive(s)
    ensures Expired(s.sessions, s.now) == {} <==> forall other <- s.sessions :: Live(s, other)
    ensures forall other :: Live(Pruned(s), other) <==> Live(s, other)
  {
    if Expired(s.sessions, s.now) == {} {
      forall other | other in s.sessions
        ensures Live(s, other)
      {
        assert other !in Expired(s.sessions, s.now);
      }
    }
    forall other
      ensures Live(Pruned(s), other) <==> Live(s, other)
    {
      if Live(s, other) && s.sessions[other].parent.Some? {
        assert Live(s, s.sessions[other].parent.value);
      }
    }
  }

  lemma SavedIsEntered(s: State, token: Token, record: Record)
    requires !Live(s, token)
    requires record.parent.Some? ==> record.parent.value != token && Live(s, record.parent.value)
    requires record.parent.Some? ==> s.sessions[record.parent.value].role == DM && s.sessions[record.parent.value].parent.None?
    ensures
      var saved := Saved(Pruned(s), token, record);
      Entered(s, saved, token, record) && (record.expiresAt > s.now ==> Live(saved, token))
  {
    var saved := Saved(Pruned(s), token, record);
    forall other | other != token
      ensures Live(saved, other) <==> Live(s, other)
    {
      if other in s.sessions && s.sessions[other].parent.Some? {
        var parent := s.sessions[other].parent.value;
        if Live(s, other) { assert Live(s, parent); }
      }
    }
  }

  /** What creating a session answers and does. */
  lemma CreatedIsExact(config: Config, s: State, token: Token, record: Record, written: bool, saved: bool)
    requires record.parent.None?
    ensures
      var (s', response) := CreateSession(config, s, token, record, written, saved);
      && (response == Granted(record) <==> HasRoom(config, s, token, written, saved))
      && (response == Granted(record) ==> Entered(s, s', token, record) && (record.expiresAt > s.now ==> Live(s', token)))
      && (response != Granted(record) ==>
            && response.Denied? && response.error != InvalidCredentials
            && forall other :: Live(s', other) <==> Live(s, other))
  {
    hide Usable, Expired, Pruned, Alive, Entered, Saved, Live;
    PrunedIsAlive(s);
    if !Live(s, token) { SavedIsEntered(s, token, record); }
    assert token in Pruned(s).sessions.Keys <==> token in Alive(s);
    AliveIsLive(s, token);
  }

  lemma AliveIsLive(s: State, token: Token)
    ensures token in Alive(s) <==> Live(s, token)
  {
  }

  lemma SignInIsExact(config: Config, s: State, op: Operation)
    requires op.Login?
    ensures SignedIn(config, s, op, Perform(config, s, op).0, Perform(config, s, op).1)
  {
    hide Usable, Expired, Pruned, Alive, Entered, HasRoom, CreateSession, Live;
    match RoleFor(s.credentials, op.password)
    case None =>
    case Some(role) =>
      CreatedIsExact(config, s, op.token, Record(role, op.csrf, s.now + config.lifetime, None), op.written, op.saved);
  }

  lemma PreviewIsExact(config: Config, s: State, op: Operation)
    requires op.Preview?
    ensures Previewed(config, s, op, Perform(config, s, op).0, Perform(config, s, op).1)
  {
    hide Usable, Expired, Pruned, Alive, Entered, Saved, Live, PreviewsOf;
    PrunedIsAlive(s);
    PrunedPreviews(s, op.parent);
    AliveIsLive(s, op.token);
    AliveIsLive(s, op.parent);
    LiveIsUnexpired(s, op.parent);
    var response := PreviewStep(config, s, op.parent, op.token, op.csrf, op.written, op.saved).1;
    if response.Granted? { SavedIsEntered(s, op.token, response.record); }
  }

  lemma LiveIsUnexpired(s: State, token: Token)
    ensures Live(s, token) ==> token in s.sessions && s.sessions[token].expiresAt > s.now
  {
  }

  lemma PrunedPreviews(s: State, parent: Token)
    ensures PreviewsOf(Pruned(s).sessions, parent) == set token | token in Alive(s) && s.sessions[token].parent == Some(parent)
    ensures Part(Pruned(s).sessions, s.sessions) && Pruned(s).now == s.now
  {
  }

  // ----- which passwords are in force -----

  /** A change is accepted from a usable sign-in of the DM with its request token, the DM's password and the revision it
      has seen, and for a password of a permitted length that the other role does not use. */
  ghost predicate MayChange(s: State, op: Operation)
    requires op.AuthorizeChange?
  {
    && Live(s, op.token) && s.sessions[op.token].role == DM && s.sessions[op.token].csrf == op.csrf
    && op.current == s.credentials.dm && op.revision == s.credentials.revision
    && |op.password| <= MAXIMUM_PASSWORD
    && (match op.role
        case DM => 4 <= |op.password| && s.credentials.player != Some(op.password)
        case Player => op.password == "" || (4 <= |op.password| && op.password != s.credentials.dm))
  }

  /** The change that step `j` of a run accepted is still the one under way in its state `i`. */
  ghost predicate AcceptedAt(config: Config, states: seq<State>, times: seq<int>, ops: seq<Operation>, j: nat, i: nat)
    requires |states| == |ops| + 1 && |times| == |ops| && i < |states|
  {
    && j < i && ops[j].AuthorizeChange? && MayChange(states[j].(now := times[j]), ops[j])
    && states[i].change == Some(Change(ops[j].token, ops[j].role, ops[j].password))
    && states[i].credentials == states[j].credentials
  }

  lemma AuthorizedIsExact(s: State, op: Operation)
    requires op.AuthorizeChange?
    ensures AuthorizeStep(s, op).1 == Accepted <==> MayChange(s, op)
    ensures AuthorizeStep(s, op).0.change == if MayChange(s, op) then Some(Change(op.token, op.role, op.password)) else s.change
    ensures AuthorizeStep(s, op).0.credentials == s.credentials
  {
  }

  /** A change under way was accepted earlier in the run, and the passwords are those it was accepted against. */
  lemma {:induction false} ChangeWasAccepted(config: Config, states: seq<State>, times: seq<int>, ops: seq<Operation>, i: nat) returns (j: nat)
    requires IsRun(config, states, times, ops) && i < |states|
    requires states[0].change.None? && states[i].change.Some?
    ensures AcceptedAt(config, states, times, ops, j, i)
    decreases i
  {
    hide Perform, MayChange;
    var k := i - 1;
    var timed := states[k].(now := times[k], issued := states[k].issued + Drawn(ops[k]));
    if ops[k].AuthorizeChange? {
      PerformAuthorizes(config, timed, ops[k]);
      AuthorizedIsExact(timed, ops[k]);
      IssuedDoesNotMatter(states[k].(now := times[k]), ops[k]);
      j := k;
    } else {
      ChangeFrame(config, timed, ops[k]);
      j := ChangeWasAccepted(config, states, times, ops, k);
    }
  }

  lemma IssuedDoesNotMatter(s: State, op: Operation)
    requires op.AuthorizeChange?
    ensures MayChange(s.(issued := s.issued + Drawn(op)), op) <==> MayChange(s, op)
  {
  }

  /** Only a commit and a restart put other passwords in force. */
  lemma CredentialsFrame(config: Config, s: State, op: Operation)
    ensures !op.CommitChange? && !op.Restart? ==> Perform(config, s, op).0.credentials == s.credentials
    ensures op.Restart? ==> Perform(config, s, op).0.credentials in {s.credentials, s.savedCredentials}
  {
    hide Revoked, Expired, Usable, PreviewsOf;
  }

  /** Over every run, the passwords in force change only by a restart, which takes up the saved ones, or by committing a
      change that was accepted with the DM's password, and then only the password that was asked for. */
  lemma PasswordsChangeWhenAccepted(config: Config, states: seq<State>, times: seq<int>, ops: seq<Operation>, i: nat)
    requires IsRun(config, states, times, ops) && states[0].change.None? && i < |ops|
    requires states[i + 1].credentials != states[i].credentials
    ensures ops[i].Restart? ==> states[i + 1].credentials == states[i].savedCredentials
    ensures !ops[i].Restart? ==> exists j | 0 <= j < i ::
      AcceptedAt(config, states, times, ops, j, i) && Takes(states[i].credentials, states[i + 1].credentials, ops[j])
  {
    hide Perform, MayChange;
    var timed := states[i].(now := times[i], issued := states[i].issued + Drawn(ops[i]));
    CredentialsFrame(config, timed, ops[i]);
    if ops[i].CommitChange? {
      CommitTakes(config, timed, ops[i]);
      var j := ChangeWasAccepted(config, states, times, ops, i);
    }
  }

  /** `after` is `before` with the password that `op` asks for, the player's empty one meaning none. */
  ghost predicate Takes(before: Credentials, after: Credentials, op: Operation)
    requires op.AuthorizeChange?
  {
    && after.revision == before.revision + 1
    && after.dm == (if op.role == DM then op.password else before.dm)
    && after.player == (if op.role == DM then before.player else if op.password == "" then None else Some(op.password))
  }

  lemma CommitTakes(config: Config, s: State, op: Operation)
    requires op.CommitChange? && Perform(config, s, op).0.credentials != s.credentials
    ensures s.change.Some?
    ensures
      var Change(token, role, password) := s.change.value;
      Takes(s.credentials, Perform(config, s, op).0.credentials, AuthorizeChange(token, "", "", role, password, 0))
  {
  }

  /** A commit succeeds exactly when the sessions it has to end can be removed and the password can be saved; in any case
      the change is over. */
  lemma CommitIsExact(s: State, written: bool, saved: bool)
    requires s.change.Some?
    ensures
      var (s', response) := CommitStep(s, written, saved);
      var Change(caller, role, _) := s.change.value;
      var ends := exists token <- s.sessions :: token != caller && (s.sessions[token].role == role || s.sessions[token].parent.Some?);
      && (response.Changed? <==> (ends ==> written) && saved) && (response == Denied(Unavailable) <==> ends && !written)
      && (response == Denied(SaveFailed) <==> (ends ==> written) && !saved)
      && s'.change.None? && (!response.Changed? ==> s'.credentials == s.credentials && s'.savedCredentials == s.savedCredentials && s'.sessions == s.sessions)
      && (response == Denied(Unavailable) ==> s'.store == s.store)
  {
    var Change(caller, role, _) := s.change.value;
    var revoked := Revoked(s.sessions, caller, role);
    if token :| token in s.sessions && token != caller && (s.sessions[token].role == role || s.sessions[token].parent.Some?) {
      assert token in revoked;
    }
  }

  /** A start succeeds exactly when what expired meanwhile can be removed, and takes up the saved passwords. */
  lemma RestartIsExact(s: State, written: bool)
    ensures
      var (s', response) := RestartStep(s, written);
      && (response == Done <==> (forall token <- s.store :: Usable(s.store, s.store[token], s.now)) || written)
      && (response == Done ==> s'.credentials == s.savedCredentials && s'.savedCredentials == s.savedCredentials && s'.change.None?)
      && (response != Done ==> s' == s)
  {
    var expired := Expired(s.store, s.now);
    if token :| token in s.store && !Usable(s.store, s.store[token], s.now) {
      assert token in expired;
    }
  }

  /** Two passwords of a permitted length, and no password opens both roles. */
  ghost predicate Sound(credentials: Credentials) {
    && 4 <= |credentials.dm| <= MAXIMUM_PASSWORD && credentials.player != Some(credentials.dm)
    && (credentials.player.Some? ==> 4 <= |credentials.player.value| <= MAXIMUM_PASSWORD)
  }

  lemma PerformKeepsSound(config: Config, s: State, op: Operation)
    requires Sound(s.credentials) && Sound(s.savedCredentials) && ChangeValid(s)
    ensures Sound(Perform(config, s, op).0.credentials) && Sound(Perform(config, s, op).0.savedCredentials)
  {
    hide Perform, Sound, ChangeValid;
    CredentialsFrame(config, s, op);
    if op.CommitChange? {
      CommitKeepsSound(config, s, op);
    } else {
      OthersKeepSaved(config, s, op);
    }
  }

  lemma CommitKeepsSound(config: Config, s: State, op: Operation)
    requires Sound(s.credentials) && Sound(s.savedCredentials) && ChangeValid(s) && op.CommitChange?
    ensures Sound(Perform(config, s, op).0.credentials) && Sound(Perform(config, s, op).0.savedCredentials)
  {
    hide Revoked, Blocked;
  }

  lemma OthersKeepSaved(config: Config, s: State, op: Operation)
    requires Sound(s.savedCredentials) && !op.CommitChange?
    ensures Sound(Perform(config, s, op).0.savedCredentials)
  {
    hide Revoked, Expired, Usable, PreviewsOf, Blocked;
  }

  lemma {:induction false} RunsKeepPasswordsSound(config: Config, states: seq<State>, times: seq<int>, ops: seq<Operation>, i: nat)
    requires IsRun(config, states, times, ops) && Valid(config, states[0]) && ChangeValid(states[0]) && i < |states|
    requires Sound(states[0].credentials) && Sound(states[0].savedCredentials)
    ensures Sound(states[i].credentials) && Sound(states[i].savedCredentials)
  {
    hide Valid, Sound, Perform;
    if i > 0 {
      var k := i - 1;
      RunsKeepPasswordsSound(config, states, times, ops, k);
      RunsKeepChange(config, states, times, ops, k);
      PerformKeepsSound(config, states[k].(now := times[k], issued := states[k].issued + Drawn(ops[k])), ops[k]);
    }
  }

  /** After a reset and a restart nobody is signed in, and exactly the two new passwords open a session. A reset that
      did not complete leaves the old passwords, with the saved sessions or without them. */
  lemma ResetTakesOver(config: Config, s: State, op: Operation, written: bool)
    requires op.ResetPasswords?
    ensures
      var (reset, response) := Perform(config, s, op);
      var (started, answer) := RestartStep(reset, written);
      var good := 4 <= |op.dm| <= MAXIMUM_PASSWORD && (op.player == "" || (4 <= |op.player| <= MAXIMUM_PASSWORD && op.player != op.dm));
      && (response == Done <==> good && op.written && op.saved)
      && reset.sessions == s.sessions && reset.credentials == s.credentials
      && (response == Done ==> answer == Done && started.sessions == map[] && OpenedBy(config, started, op.dm, op.player))
      && (response != Done ==> reset.savedCredentials == s.savedCredentials && (reset.store == s.store || reset.store == map[]))
  {
    var (reset, response) := Perform(config, s, op);
    if response == Done {
      var started := RestartStep(reset, written).0;
      assert Expired(reset.store, reset.now) == {};
      forall password, token, csrf, saved
        ensures Opens(config, started, password, token, csrf, saved) <==>
                |password| <= MAXIMUM_PASSWORD && (password == op.dm || (password == op.player && password != ""))
      {
        SignInIsExact(config, started, Operation.Login(password, token, csrf, true, saved));
      }
    }
  }

  ghost predicate Opens(config: Config, s: State, password: string, token: Token, csrf: Token, saved: bool) {
    Perform(config, s, Operation.Login(password, token, csrf, true, saved)).1 != Denied(InvalidCredentials)
  }

  ghost predicate OpenedBy(config: Config, s: State, dm: string, player: string) {
    forall password, token, csrf, saved :: Opens(config, s, password, token, csrf, saved) <==>
      |password| <= MAXIMUM_PASSWORD && (password == dm || (password == player && password != ""))
  }
}
