/** The authentication service: its methods update the session map in place and write through to the store.
    Each one does exactly what the protocol's operation of the same name does. */
module Sessions {
  import opened Results
  import opened SessionProtocol

  class Service {
    const config: Config
    var sessions: Sessions
    var credentials: Credentials
    /** The durable session store and credential store. */
    var store: Sessions
    var savedCredentials: Credentials
    /** The password change that holds the credential lock. */
    var change: Option<Change>
    /** The clock reading of the operation in progress, and the tokens handed out so far. */
    var now: int
    ghost var issued: set<Token>

    ghost function View(): State
      reads this
    {
      State(sessions, store, credentials, savedCredentials, change, issued, now)
    }

    constructor (config: Config, credentials: Credentials, now: int)
      ensures this.config == config
      ensures View() == State(map[], map[], credentials, credentials, None, {}, now) && Valid(config, View()) && ChangeValid(View())
    {
      this.config, this.now := config, now;
      this.credentials, this.savedCredentials := credentials, credentials;
      sessions, store, change, issued := map[], map[], None, {};
    }

    /** Deletes what is no longer usable, from the store first. */
    method PruneExpired(written: bool) returns (pruned: bool)
      modifies `sessions, `store
      ensures pruned <==> !Blocked(Expired(old(sessions), now), written)
      ensures View() == if pruned then Pruned(old(View())) else old(View())
    {
      var expired := {};
      var unseen := sessions.Keys;
      while unseen != {}
        invariant unseen <= sessions.Keys
        invariant expired == Expired(sessions, now) - unseen
        decreases unseen
      {
        var token :| token in unseen;
        if !Usable(sessions, sessions[token], now) {
          expired := expired + {token};
        }
        unseen := unseen - {token};
      }
      assert expired == Expired(sessions, now);
      if expired != {} && !written { return false; }
      store := store - expired;
      sessions := sessions - expired;
      return true;
    }

    method Create(token: Token, record: Record, written: bool, saved: bool) returns (response: Response)
      modifies `sessions, `store
      ensures (View(), response) == CreateSession(config, old(View()), token, record, written, saved)
    {
      var pruned := PruneExpired(written);
      if !pruned { return Denied(Unavailable); }
      if |sessions.Keys| >= config.maximum { return Denied(Capacity); }
      if token in sessions || !saved { return Denied(Unavailable); }
      store := store[token := record];
      sessions := sessions[token := record];
      response := Granted(record);
    }

    method Login(password: string, token: Token, csrf: Token, written: bool, saved: bool) returns (response: Response)
      modifies `sessions, `store
      ensures (View(), response) == Perform(config, old(View()), Operation.Login(password, token, csrf, written, saved))
      ensures SignedIn(config, old(View()), Operation.Login(password, token, csrf, written, saved), View(), response)
    {
      SignInIsExact(config, View(), Operation.Login(password, token, csrf, written, saved));
      hide SignedIn;
      if |password| > MAXIMUM_PASSWORD { return Denied(InvalidCredentials); }
      var role := Player;
      if password == credentials.dm {
        role := DM;
      } else if credentials.player != Some(password) {
        return Denied(InvalidCredentials);
      }
      response := Create(token, Record(role, csrf, now + config.lifetime, None), written, saved);
    }

    method CountPreviews(parent: Token) returns (count: nat)
      ensures count == |PreviewsOf(sessions, parent)|
    {
      count := 0;
      var seen, unseen := {}, sessions.Keys;
      while unseen != {}
        invariant seen + unseen == sessions.Keys && seen !! unseen
        invariant count == |PreviewsOf(sessions, parent) * seen|
        decreases unseen
      {
        var other :| other in unseen;
        if sessions[other].parent == Some(parent) {
          assert PreviewsOf(sessions, parent) * (seen + {other}) == PreviewsOf(sessions, parent) * seen + {other};
          count := count + 1;
        } else {
          assert PreviewsOf(sessions, parent) * (seen + {other}) == PreviewsOf(sessions, parent) * seen;
        }
        seen, unseen := seen + {other}, unseen - {other};
      }
      assert PreviewsOf(sessions, parent) * seen == PreviewsOf(sessions, parent);
    }

    method CreatePlayerPreview(parent: Token, token: Token, csrf: Token, written: bool, saved: bool) returns (response: Response)
      modifies `sessions, `store
      ensures (View(), response) == Perform(config, old(View()), Preview(parent, token, csrf, written, saved))
      ensures Previewed(config, old(View()), Preview(parent, token, csrf, written, saved), View(), response)
    {
      PreviewIsExact(config, View(), Preview(parent, token, csrf, written, saved));
      hide Previewed;
      var pruned := PruneExpired(written);
      if !pruned { return Denied(Unavailable); }
      if parent !in sessions || sessions[parent].role != DM || sessions[parent].parent.Some? { return Denied(RoleTransition); }
      var count := CountPreviews(parent);
      if count >= MAXIMUM_PREVIEWS || |sessions.Keys| >= config.maximum { return Denied(Capacity); }
      if token in sessions || !saved { return Denied(Unavailable); }
      var expires := now + PREVIEW_LIFETIME;
      if sessions[parent].expiresAt < expires { expires := sessions[parent].expiresAt; }
      var record := Record(Player, csrf, expires, Some(parent));
      store := store[token := record];
      sessions := sessions[token := record];
      response := Granted(record);
    }

    method Inspect(token: Token) returns (response: Response)
      modifies `sessions
      ensures (View(), response) == Perform(config, old(View()), Operation.Inspect(token))
    {
      if token !in sessions { return Absent; }
      var record := sessions[token];
      if !Usable(sessions, record, now) {
        sessions := sessions - {token};
        return Absent;
      }
      response := Granted(record);
    }

    method InspectPlayerPreview(token: Token) returns (response: Response)
      modifies `sessions
      ensures (View(), response) == Perform(config, old(View()), InspectPreview(token))
    {
      if token !in sessions || sessions[token].parent.None? { return Absent; }
      response := Inspect(token);
    }

    method Revoke(token: Token, written: bool) returns (response: Response)
      modifies `sessions, `store
      ensures (View(), response) == Perform(config, old(View()), Operation.Revoke(token, written))
    {
      if token !in sessions { return Done; }
      if !written { return Denied(Unavailable); }
      store := store - {token};
      sessions := sessions - {token};
      response := Done;
    }

    /** The first half of a password change: its checks, before the session lock is released. */
    method AuthorizeChange(token: Token, csrf: Token, current: string, role: Role, password: string, revision: int) returns (response: Response)
      modifies `change
      ensures (View(), response) == Perform(config, old(View()), Operation.AuthorizeChange(token, csrf, current, role, password, revision))
    {
      if !(token in sessions && Usable(sessions, sessions[token], now) && sessions[token].role == DM && sessions[token].csrf == csrf) {
        return Denied(RoleTransition);
      }
      if revision != credentials.revision { return Denied(CredentialConflict); }
      if current != credentials.dm { return Denied(InvalidCredentials); }
      if !ValidNewPassword(credentials, role, password) { return Denied(PasswordPolicy); }
      change := Some(Change(token, role, password));
      response := Accepted;
    }

    /** The second half, under the session lock again. */
    method CommitChange(written: bool, saved: bool) returns (response: Response)
      requires change.Some?
      modifies `sessions, `store, `credentials, `savedCredentials, `change
      ensures (View(), response) == Perform(config, old(View()), Operation.CommitChange(written, saved))
    {
      var Change(token, role, password) := change.value;
      var next := credentials.(revision := credentials.revision + 1);
      if role == DM {
        next := next.(dm := password);
      } else {
        next := next.(player := if password == "" then None else Some(password));
      }
      var revoked := {};
      var unseen := sessions.Keys;
      while unseen != {}
        invariant unseen <= sessions.Keys
        invariant revoked == Revoked(sessions, token, role) - unseen
        decreases unseen
      {
        var key :| key in unseen;
        if key != token && (sessions[key].role == role || sessions[key].parent.Some?) {
          revoked := revoked + {key};
        }
        unseen := unseen - {key};
      }
      assert revoked == Revoked(sessions, token, role);
      change := None;
      if revoked != {} && !written { return Denied(Unavailable); }
      store := store - revoked;
      if !saved { return Denied(SaveFailed); }
      savedCredentials := next;
      credentials := next;
      sessions := sessions - revoked;
      response := Changed(next.revision);
    }

    /** A start of the host on the same stores: the memory of the previous process is gone. */
    method Start(written: bool) returns (response: Response)
      modifies `sessions, `store, `credentials, `change
      ensures (View(), response) == Perform(config, old(View()), Restart(written))
    {
      var previous, previousCredentials := sessions, credentials;
      sessions := map[];
      var unread := store.Keys;
      while unread != {}
        invariant unread <= store.Keys
        invariant sessions == store - unread
        invariant store == old(store) && credentials == old(credentials) && change == old(change)
        decreases unread
      {
        var token :| token in unread;
        sessions := sessions[token := store[token]];
        unread := unread - {token};
      }
      credentials := savedCredentials;
      assert sessions == store;
      var pruned := PruneExpired(written);
      if !pruned {
        sessions, credentials := previous, previousCredentials;
        return Denied(Unavailable);
      }
      change := None;
      response := Done;
    }

    /** Between two operations time passes and the operation draws its tokens. */
    method Begin(now: int, ghost op: Operation)
      requires this.now <= now && Drawn(op) !! issued
      modifies `now, `issued
      ensures View() == old(View()).(now := now, issued := old(issued) + Drawn(op))
      ensures old(Valid(config, View())) ==> Valid(config, View())
      ensures forall s' :: LockAllows(View(), op) && Perform(config, View(), op).0 == s' ==> Step(config, old(View()), now, op, s')
    {
      if Valid(config, View()) { TimeKeepsValid(config, View(), now, Drawn(op)); }
      this.now := now;
      issued := issued + Drawn(op);
    }

    /** The offline operator command: every saved session goes before the new passwords are saved. */
    method ResetCredentials(dm: string, player: string, written: bool, saved: bool) returns (response: Response)
      modifies `store, `savedCredentials
      ensures (View(), response) == Perform(config, old(View()), ResetPasswords(dm, player, written, saved))
    {
      if |dm| < 4 || |dm| > MAXIMUM_PASSWORD || |player| > MAXIMUM_PASSWORD || (player != "" && (|player| < 4 || player == dm)) {
        return Denied(PasswordPolicy);
      }
      if !written { return Denied(SaveFailed); }
      store := map[];
      if !saved { return Denied(SaveFailed); }
      savedCredentials := Credentials(savedCredentials.revision + 1, dm, if player == "" then None else Some(player));
      response := Done;
    }
  }
}
