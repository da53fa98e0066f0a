/**
 * The handlers of handlers/menu.py as one object over the bot's mutable state: the user
 * table and block registry, `AUTHORIZED_NUMBERS`, `auth_attempts`, `LAST_ACTIVE` and every
 * chat's FSM record. Time, the bcrypt salt and the `.env` file's lines are parameters.
 */
module Handlers {
  import opened Wrappers
  import opened Text
  import opened Db
  import opened Documents
  import opened Search
  import opened EnvFile
  import opened Menu

  /** What `handle_add_number` ends with. */
  datatype AddOutcome =
    | AddFailed                                               // the callback data did not parse
    | EnvMissing                                              // no `.env` file
    | Added(user: int, number: string, lines: seq<string>)    // the lines written back

  /** `check_still_authorized` as intended (its first definition): some listed number matches the digest. */
  predicate StillAuthorized(d: Digest, authorized: set<string>) {
    exists n :: n in authorized && Checkpw(n, d)
  }

  /** `check_still_authorized` as written (its second definition): the digest text is itself listed. */
  predicate StillAuthorizedAsWritten(d: Digest, authorized: set<string>) {
    DigestText(d) in authorized
  }

  /** As written, no returning user passes unless some listed number looks like a bcrypt digest. */
  lemma AsWrittenRevokesEveryone(d: Digest, authorized: set<string>)
    requires forall n :: n in authorized ==> !StartsWith(n, "$2b$")
    ensures !StillAuthorizedAsWritten(d, authorized)
  {
  }

  /**
   * A user who logged in with a listed number passes the intended check for as long as the
   * number stays listed, and fails the check as written when numbers are plain.
   */
  lemma LoginSurvivesStart(number: string, salt: nat, authorized: set<string>)
    requires number in authorized
    ensures StillAuthorized(Hashpw(number, salt), authorized)
    ensures (forall n :: n in authorized ==> !StartsWith(n, "$2b$")) ==>
      !StillAuthorizedAsWritten(Hashpw(number, salt), authorized)
  {
    assert Checkpw(number, Hashpw(number, salt));
    if forall n :: n in authorized ==> !StartsWith(n, "$2b$") {
      AsWrittenRevokesEveryone(Hashpw(number, salt), authorized);
    }
  }

  /** The intended check holds exactly when the number the digest was made from is listed. */
  lemma StillAuthorizedIffListed(d: Digest, authorized: set<string>)
    ensures StillAuthorized(d, authorized) <==> d.secret in authorized
  {
    if d.secret in authorized {
      assert Checkpw(d.secret, d);
    }
  }

  /**
   * The approval of a request reads back the user and exactly the number the user typed
   * (already stripped), unless that number holds a colon.
   */
  lemma ApprovalReadsRequest(user: int, text: string)
    requires ':' !in Strip(text)
    ensures ParseCallback(CallbackData(user, Strip(text))) == Some((user, Strip(text)))
  {
    CallbackRoundTrip(user, Strip(text));
    StripIdempotent(text);
  }

  class MenuRouter {
    const db: Database
    /** `DATA_JSON`. */
    const root: Node
    /** `FLAT_DATA = flatten_json(DATA_JSON)`. */
    const flat: seq<FlatEntry>
    const adminIds: set<int>
    const blockDuration: int
    var authorizedNumbers: set<string>
    /** `auth_attempts`: failed attempts per user since the last block or login. */
    var authAttempts: map<int, int>
    /** Every chat's FSM record; a chat without one is `Cleared`. */
    var sessions: map<int, Session>
    /** `LAST_ACTIVE`: no handler ever writes it. */
    var lastActive: map<int, int>

    ghost predicate Valid()
      reads this, db
    {
      && db.Valid() && WellFormed(root) && root.Dict? && flat == Flatten(root, [])
      && (forall u :: u in authAttempts ==> 1 <= authAttempts[u] < MaxAuthAttempts)
      && (forall u :: u in sessions ==> SessionOk(root, sessions[u]))
    }

    /** The bot at start-up: no attempts, no chats, nothing active. */
    constructor(db: Database, root: Node, adminIds: set<int>, blockDuration: int, authorizedNumbers: set<string>)
      requires db.Valid() && WellFormed(root) && root.Dict?
      ensures Valid()
      ensures this.db == db && this.root == root && this.adminIds == adminIds && this.blockDuration == blockDuration
      ensures this.authorizedNumbers == authorizedNumbers
      ensures authAttempts == map[] && sessions == map[] && lastActive == map[]
    {
      this.db := db;
      this.root := root;
      this.flat := Flatten(root, []);
      this.adminIds := adminIds;
      this.blockDuration := blockDuration;
      this.authorizedNumbers := authorizedNumbers;
      authAttempts := map[];
      sessions := map[];
      lastActive := map[];
    }

    function SessionOf(u: int): Session
      reads this
    {
      if u in sessions then sessions[u] else Cleared
    }

    function AttemptsOf(u: int): int
      reads this
    {
      if u in authAttempts then authAttempts[u] else 0
    }

    /** Stores the chat's new record; a record that resolves keeps the router valid. */
    method PutSession(u: int, s: Session)
      requires Valid() && SessionOk(root, s)
      modifies this
      ensures Valid()
      ensures sessions == old(sessions)[u := s]
      ensures authorizedNumbers == old(authorizedNumbers) && authAttempts == old(authAttempts)
      ensures lastActive == old(lastActive)
    {
      sessions := sessions[u := s];
    }

    /** `check_still_authorized` as intended: the loop over the listed numbers. */
    method CheckStillAuthorized(u: int) returns (ok: bool)
      ensures ok <==> db.IsAuthorized(u) && StillAuthorized(db.GetUserNumber(u).value, authorizedNumbers)
    {
      var numberHash := db.GetUserNumber(u);
      if numberHash.None? {
        return false;
      }
      var d := numberHash.value;
      var rest := authorizedNumbers;
      while rest != {}
        invariant rest <= authorizedNumbers
        invariant forall n :: n in authorizedNumbers && n !in rest ==> !Checkpw(n, d)
        decreases |rest|
      {
        var n :| n in rest;
        if Checkpw(n, d) {
          return true;
        }
        rest := rest - {n};
      }
      return false;
    }

    /**
     * `cmd_start`: a returning user still listed goes to the menu keeping the chat's data; one
     * no longer listed loses the row and is asked for a number; anyone else is asked to log in.
     */
    method CmdStart(u: int) returns (out: Outcome)
      requires Valid()
      modifies this, db
      ensures Valid()
      ensures old(db.IsAuthorized(u)) && StillAuthorized(old(db.GetUserNumber(u)).value, authorizedNumbers) ==>
        && db.users == old(db.users)
        && sessions == old(sessions)[u := old(SessionOf(u)).(state := AtPath)]
        && out == Replies([Reply(WelcomeBack, Buttons(RootMenu(root)))])
      ensures old(db.IsAuthorized(u)) && !StillAuthorized(old(db.GetUserNumber(u)).value, authorizedNumbers) ==>
        && db.users == Without(old(db.users), u) && !db.IsAuthorized(u)
        && sessions == old(sessions)[u := Session(AwaitingNumber, [], map[])]
        && out == Replies([Reply(Revoked, Removed)])
      ensures !old(db.IsAuthorized(u)) ==>
        && db.users == old(db.users)
        && sessions == old(sessions)[u := Session(AwaitingNumber, [], map[])]
        && out == Replies([Reply(EnterNumber, Removed), Reply(HelpHint, Kept)])
      ensures db.blocked == old(db.blocked) && authorizedNumbers == old(authorizedNumbers)
      ensures authAttempts == old(authAttempts) && lastActive == old(lastActive)
    {
      if db.IsAuthorized(u) {
        var still := CheckStillAuthorized(u);
        if !still {
          db.RemoveUser(u);
          PutSession(u, Session(AwaitingNumber, [], map[]));
          return Replies([Reply(Revoked, Removed)]);
        }
        PutSession(u, SessionOf(u).(state := AtPath));
        return Replies([Reply(WelcomeBack, Buttons(RootMenu(root)))]);
      }
      PutSession(u, Session(AwaitingNumber, [], map[]));
      return Replies([Reply(EnterNumber, Removed), Reply(HelpHint, Kept)]);
    }

    /**
     * `handle_authorization` at time `now`, hashing with `salt`. A listed number logs the
     * user in and drops the counter; any other number counts a failed attempt, the third of
     * which blocks the user until `now + blockDuration` and drops the counter, while the
     * first two send the request to the admins.
     */
    method HandleAuthorization(u: int, text: Option<string>, fullName: string, now: int, salt: nat) returns (out: Outcome)
      requires Valid()
      modifies this, db
      ensures Valid()
      ensures authorizedNumbers == old(authorizedNumbers) && lastActive == old(lastActive)
      ensures text.None? ==> out == Raised
      ensures text.None? || StartsWith(text.value, "/") || old(db.IsBlocked(u)) ==>
        && db.users == old(db.users) && db.blocked == old(db.blocked)
        && authAttempts == old(authAttempts) && sessions == old(sessions)
      ensures text.Some? && StartsWith(text.value, "/") ==> out == Replies([Reply(NumberOnly, Kept)])
      ensures text.Some? && !StartsWith(text.value, "/") && old(db.IsBlocked(u)) ==> out == Replies([Reply(Suspended, Kept)])
      ensures text.Some? && !StartsWith(text.value, "/") && !old(db.IsBlocked(u)) ==>
        var number := Strip(text.value);
        var count := old(AttemptsOf(u)) + 1;
        && (number in authorizedNumbers ==>
              && db.users == Without(old(db.users), u) + [UserRow(u, Hashpw(number, salt), fullName, "user", now, false)]
              && db.IsAuthorized(u)
              && db.blocked == old(db.blocked)
              && authAttempts == old(authAttempts) - {u}
              && sessions == old(sessions)[u := old(SessionOf(u)).(state := AtPath)]
              && out == Replies([Reply(Welcome(fullName), Buttons(RootMenu(root)))]))
        && (number !in authorizedNumbers && count >= MaxAuthAttempts ==>
              && db.users == old(db.users)
              && db.blocked == old(db.blocked)[u := now + blockDuration]
              && authAttempts == old(authAttempts) - {u}
              && sessions == old(sessions)
              && out == Replies([Reply(TooManyAttempts, Kept)]))
        && (number !in authorizedNumbers && count < MaxAuthAttempts ==>
              && db.users == old(db.users) && db.blocked == old(db.blocked)
              && authAttempts == old(authAttempts)[u := count]
              && sessions == old(sessions)
              && out == Replies([Reply(RequestSent(CallbackData(u, number)), Kept)]))
    {
      if text.None? {
        return Raised;
      }
      if StartsWith(text.value, "/") {
        return Replies([Reply(NumberOnly, Kept)]);
      }
      var number := Strip(text.value);
      if db.IsBlocked(u) {
        return Replies([Reply(Suspended, Kept)]);
      }
      if number in authorizedNumbers {
        out := Accept(u, number, fullName, now, salt);
      } else {
        out := CountFailure(u, number, now);
      }
    }

    /** The accepted branch of `handle_authorization`: `add_user`, drop the counter, go to `path`. */
    method Accept(u: int, number: string, fullName: string, now: int, salt: nat) returns (out: Outcome)
      requires Valid()
      modifies this, db
      ensures Valid()
      ensures db.users == Without(old(db.users), u) + [UserRow(u, Hashpw(number, salt), fullName, "user", now, false)]
      ensures db.IsAuthorized(u) && db.blocked == old(db.blocked)
      ensures authAttempts == old(authAttempts) - {u}
      ensures sessions == old(sessions)[u := old(SessionOf(u)).(state := AtPath)]
      ensures out == Replies([Reply(Welcome(fullName), Buttons(RootMenu(root)))])
      ensures authorizedNumbers == old(authorizedNumbers) && lastActive == old(lastActive)
    {
      db.AddUser(u, number, fullName, "user", salt, now);
      out := EnterMenu(u, fullName);
    }

    /** After a login: the counter goes, the chat enters `path` and the root menu is shown. */
    method EnterMenu(u: int, fullName: string) returns (out: Outcome)
      requires Valid()
      modifies this
      ensures Valid()
      ensures authAttempts == old(authAttempts) - {u}
      ensures sessions == old(sessions)[u := old(SessionOf(u)).(state := AtPath)]
      ensures out == Replies([Reply(Welcome(fullName), Buttons(RootMenu(root)))])
      ensures authorizedNumbers == old(authorizedNumbers) && lastActive == old(lastActive)
    {
      var s := SessionOf(u);
      authAttempts := authAttempts - {u};
      PutSession(u, s.(state := AtPath));
      return Replies([Reply(Welcome(fullName), Buttons(RootMenu(root)))]);
    }

    /**
     * The denied branch of `handle_authorization`: count the attempt; the third blocks the
     * user until `now + blockDuration` and drops the counter, the others send the request.
     */
    method CountFailure(u: int, number: string, now: int) returns (out: Outcome)
      requires Valid()
      modifies this, db
      ensures Valid()
      ensures var count := old(AttemptsOf(u)) + 1;
        && (count >= MaxAuthAttempts ==>
              && db.blocked == old(db.blocked)[u := now + blockDuration]
              && authAttempts == old(authAttempts) - {u}
              && out == Replies([Reply(TooManyAttempts, Kept)]))
        && (count < MaxAuthAttempts ==>
              && db.blocked == old(db.blocked)
              && authAttempts == old(authAttempts)[u := count]
              && out == Replies([Reply(RequestSent(CallbackData(u, number)), Kept)]))
      ensures db.users == old(db.users) && sessions == old(sessions)
      ensures authorizedNumbers == old(authorizedNumbers) && lastActive == old(lastActive)
    {
      var count := AttemptsOf(u) + 1;
      authAttempts := authAttempts[u := count];
      if count >= MaxAuthAttempts {
        db.AddBlock(u, now + blockDuration);
        authAttempts := authAttempts - {u};
        return Replies([Reply(TooManyAttempts, Kept)]);
      }
      return Replies([Reply(RequestSent(CallbackData(u, number)), Kept)]);
    }

    /**
     * `handle_add_number`: the admin's approval. Unparsable data fails, a missing `.env`
     * is reported, and otherwise the number joins the `AUTHORIZED_NUMBERS=` line (or a new
     * one) and the in-memory set.
     */
    method HandleAddNumber(data: string, envLines: Option<seq<string>>) returns (result: AddOutcome)
      requires Valid()
      modifies this
      ensures Valid()
      ensures ParseCallback(data).None? ==> result == AddFailed && authorizedNumbers == old(authorizedNumbers)
      ensures ParseCallback(data).Some? && envLines.None? ==>
        result == EnvMissing && authorizedNumbers == old(authorizedNumbers)
      ensures ParseCallback(data).Some? && envLines.Some? ==>
        var number := ParseCallback(data).value.1;
        && result == Added(ParseCallback(data).value.0, number, RewriteLines(envLines.value, number))
        && authorizedNumbers == old(authorizedNumbers) + {number}
      ensures authAttempts == old(authAttempts) && sessions == old(sessions) && lastActive == old(lastActive)
    {
      var parsed := ParseCallback(data);
      if parsed.None? {
        return AddFailed;
      }
      var (user, number) := parsed.value;
      if envLines.None? {
        return EnvMissing;
      }
      var newLines := RewriteEnvLines(envLines.value, number);
      authorizedNumbers := authorizedNumbers + {number};
      return Added(user, number, newLines);
    }

    /**
     * `navigate_menu` for a message from `u`, with the "ресеты" check as intended: admins
     * and subscribers enter, everyone else gets the paywall.
     */
    method NavigateMenu(u: int, text: Option<string>) returns (out: Outcome)
      requires Valid()
      modifies this
      ensures Valid()
      ensures var (s, o) := Navigate(root, old(SessionOf(u)), text, ResetsGate(u in adminIds, db.SubscriptionActive(u)));
        sessions == old(sessions)[u := s] && out == o
      ensures authorizedNumbers == old(authorizedNumbers) && authAttempts == old(authAttempts)
      ensures lastActive == old(lastActive)
    {
      var s := SessionOf(u);
      var gate := ResetsGate(u in adminIds, db.SubscriptionActive(u));
      NavigateKeepsSessionOk(root, s, text, gate);
      s, out := Dispatch(s, text, gate);
      PutSession(u, s);
    }

    /** The branches of `navigate_menu` on the chat's record `s`. */
    method Dispatch(s: Session, text: Option<string>, gate: Gate) returns (r: Session, out: Outcome)
      ensures (r, out) == Navigate(root, s, text, gate)
    {
      r := s;
      if text.None? || text.value == "" {
        out := Replies([Reply(NotText, Kept)]);
      } else {
        var userText := Strip(text.value);
        var lowered := Lower(userText);
        if userText in CommandWords {
          out := Replies([Reply(UseCommands, Kept)]);
        } else if lowered in ExitWords {
          r := Cleared;
          out := Replies([Reply(LoggedOut, Removed)]);
        } else if lowered in BackWords {
          r, out := GoBack(s);
        } else if lowered in HomeWords {
          r := s.(path := []);
          out := Replies([Reply(MainMenu, Buttons(RootMenu(root)))]);
        } else if userText == SearchButton {
          r := s.(state := Searching);
          out := Replies([Reply(EnterQuery, Removed)]);
        } else {
          r, out := GoForward(s, userText, gate);
        }
      }
    }

    /** The "назад" branch of `navigate_menu` on the record `s`. */
    method GoBack(s: Session) returns (r: Session, out: Outcome)
      ensures (r, out) == Back(root, s)
    {
      r := s;
      var currentPath := s.path;
      if currentPath != [] {
        currentPath := currentPath[..|currentPath| - 1];
        r := r.(path := currentPath);
      }
      var node := GetNodeFromPath(root, currentPath);
      var menu := GenerateMenu(node, currentPath == []);
      out := if menu.Some? then Replies([Reply(WentBack, Buttons(menu.value))]) else Raised;
    }

    /** The key-matching branch of `navigate_menu` on the record `s` for the stripped text `t`. */
    method GoForward(s: Session, t: string, gate: Gate) returns (r: Session, out: Outcome)
      ensures (r, out) == Forward(root, s, t, gate)
    {
      r := s;
      var node := GetNodeFromPath(root, s.path);
      out := Replies([]);
      if node.None? {
        out := Raised;
      } else {
        var matching := FirstMatch(IterKeys(node.value), t);
        if matching.Some? && matching.value != "" {
          var key := matching.value;
          if Lower(key) == ResetsKey && gate != Open {
            out := if gate == Paywalled then Replies([Reply(Paywall, Kept)]) else Raised;
          } else {
            r := s.(path := s.path + [key]);
            var next := Child(node.value, key);
            out := if next.Some? then OpenReplies(key, next.value) else Raised;
          }
        }
      }
    }

    /** `start_search` behind `auth_required`: only a user with a row may search. */
    method StartSearch(u: int) returns (out: Outcome)
      requires Valid()
      modifies this
      ensures Valid()
      ensures !db.IsAuthorized(u) ==> sessions == old(sessions) && out == Replies([Reply(AccessDenied, Kept)])
      ensures db.IsAuthorized(u) ==>
        sessions == old(sessions)[u := old(SessionOf(u)).(state := Searching)] && out == Replies([Reply(EnterQuery, Removed)])
      ensures authorizedNumbers == old(authorizedNumbers) && authAttempts == old(authAttempts)
      ensures lastActive == old(lastActive)
    {
      if !db.IsAuthorized(u) {
        return Replies([Reply(AccessDenied, Kept)]);
      }
      PutSession(u, SessionOf(u).(state := Searching));
      return Replies([Reply(EnterQuery, Removed)]);
    }

    /** `reset_auth` behind `auth_required`: the row goes and the user is asked for a number again. */
    method ResetAuth(u: int) returns (out: Outcome)
      requires Valid()
      modifies this, db
      ensures Valid()
      ensures !old(db.IsAuthorized(u)) ==>
        db.users == old(db.users) && sessions == old(sessions) && out == Replies([Reply(AccessDenied, Kept)])
      ensures old(db.IsAuthorized(u)) ==>
        && db.users == Without(old(db.users), u) && !db.IsAuthorized(u)
        && sessions == old(sessions)[u := Session(AwaitingNumber, [], map[])]
        && out == Replies([Reply(AuthReset, Removed)])
      ensures db.blocked == old(db.blocked) && authorizedNumbers == old(authorizedNumbers)
      ensures authAttempts == old(authAttempts) && lastActive == old(lastActive)
    {
      if !db.IsAuthorized(u) {
        return Replies([Reply(AccessDenied, Kept)]);
      }
      db.RemoveUser(u);
      PutSession(u, Session(AwaitingNumber, [], map[]));
      return Replies([Reply(AuthReset, Removed)]);
    }

    /** `handle_search`: a query in state `searching`. */
    method HandleSearch(u: int, text: Option<string>) returns (out: Outcome)
      requires Valid()
      modifies this
      ensures Valid()
      ensures PathsNonEmpty(flat)
      ensures var (s, o) := SearchStep(flat, old(SessionOf(u)), text);
        sessions == old(sessions)[u := s] && out == o
      ensures authorizedNumbers == old(authorizedNumbers) && authAttempts == old(authAttempts)
      ensures lastActive == old(lastActive)
    {
      var s := SessionOf(u);
      SearchKeepsSessionOk(root, s, text);
      if text.None? {
        out := Raised;
      } else if Lower(Strip(text.value)) in CommandWords {
        out := Replies([Reply(AlreadySearching, Kept)]);
      } else {
        var query := Strip(text.value);
        var matches := SearchDocuments(flat, query);
        if matches == map[] {
          out := Replies([Reply(NothingFound, Kept)]);
        } else {
          s := s.(state := AwaitingSelection, results := matches);
          out := Replies([Reply(Found, Choices(matches.Keys))]);
        }
      }
      PutSession(u, s);
    }

    /** `handle_search_selection`: a label in state `waiting_for_selection`; it never raises. */
    method HandleSearchSelection(u: int, text: Option<string>) returns (out: Outcome)
      requires Valid()
      modifies this
      ensures Valid()
      ensures var (s, o) := Select(root, old(SessionOf(u)), text);
        sessions == old(sessions)[u := s] && out == o
      ensures out.Replies?
      ensures authorizedNumbers == old(authorizedNumbers) && authAttempts == old(authAttempts)
      ensures lastActive == old(lastActive)
    {
      var s := SessionOf(u);
      SelectKeepsSessionOk(root, s, text);
      if text.Some? && text.value in s.results {
        var path := s.results[text.value];
        s := s.(state := AtPath, path := path);
        var node := GetNodeFromPath(root, path);
        var menu := GenerateMenu(node, false);
        out := if menu.Some? then Replies([Reply(MovedTo(text.value), Buttons(menu.value))]) else Raised;
      } else if text == Some(BackButton) {
        s := s.(state := AtPath);
        out := Replies([Reply(BackToMenu, Buttons(RootMenu(root)))]);
      } else if text == Some(HomeButton) {
        s := s.(state := AtPath, path := []);
        out := Replies([Reply(MainMenu, Buttons(RootMenu(root)))]);
      } else {
        out := Replies([Reply(NotInList, Kept)]);
      }
      PutSession(u, s);
    }

    /**
     * One pass of `auto_logout_checker` at time `now`: every user idle for more than
     * `InactivityTimeout` seconds who still has a row loses any block and leaves `LAST_ACTIVE`.
     */
    method AutoLogoutPass(now: int)
      requires Valid()
      modifies this, db
      ensures Valid()
      ensures var stale := Stale(old(lastActive), now, old(Ids(db.users)));
        && lastActive == old(lastActive) - stale
        && db.blocked == old(db.blocked) - stale
      ensures db.users == old(db.users) && sessions == old(sessions)
      ensures authorizedNumbers == old(authorizedNumbers) && authAttempts == old(authAttempts)
    {
      var snapshot := lastActive;
      ghost var ids := Ids(db.users);
      ghost var stale := Stale(snapshot, now, ids);
      var pending := snapshot.Keys;
      ghost var removed: set<int> := {};
      while pending != {}
        invariant pending <= snapshot.Keys
        invariant removed == stale - pending
        invariant db.users == old(db.users) && sessions == old(sessions)
        invariant authorizedNumbers == old(authorizedNumbers) && authAttempts == old(authAttempts)
        invariant lastActive == snapshot - removed
        invariant db.blocked == old(db.blocked) - removed
        decreases |pending|
      {
        var v := PickOne(pending);
        LogoutIfStale(v, now, snapshot[v]);
        ghost var isStale := v in stale;
        assert isStale <==> now - snapshot[v] > InactivityTimeout && v in ids;
        RemoveOneMore(snapshot, removed, v, isStale);
        RemoveOneMore(old(db.blocked), removed, v, isStale);
        StaleStep(stale, pending, v);
        removed := if isStale then removed + {v} else removed;
        pending := pending - {v};
      }
    }

    /** The body of the `auto_logout_checker` loop for one `LAST_ACTIVE` entry. */
    method LogoutIfStale(v: int, now: int, last: int)
      modifies this, db
      ensures var stale := now - last > InactivityTimeout && old(db.IsAuthorized(v));
        && lastActive == (if stale then old(lastActive) - {v} else old(lastActive))
        && db.blocked == (if stale then old(db.blocked) - {v} else old(db.blocked))
      ensures db.users == old(db.users) && sessions == old(sessions)
      ensures authorizedNumbers == old(authorizedNumbers) && authAttempts == old(authAttempts)
    {
      if now - last > InactivityTimeout && db.IsAuthorized(v) {
        db.RemoveBlock(v);
        lastActive := lastActive - {v};
      }
    }
  }

  /** The users of `ids` whose last activity in `last` is more than `InactivityTimeout` seconds before `now`. */
  ghost function Stale(last: map<int, int>, now: int, ids: set<int>): set<int> {
    set v | v in last && now - last[v] > InactivityTimeout && v in ids
  }

  /** Taking one more key out of a map, or none. */
  lemma RemoveOneMore(m: map<int, int>, removed: set<int>, v: int, take: bool)
    ensures (if take then (m - removed) - {v} else m - removed) == m - (if take then removed + {v} else removed)
  {
  }

  /** One more element leaves `pending`: the set taken out grows by it exactly when it is stale. */
  lemma StaleStep(stale: set<int>, pending: set<int>, v: int)
    requires v in pending
    ensures stale - (pending - {v}) == if v in stale then (stale - pending) + {v} else stale - pending
  {
  }

  /** Some element of a non-empty set: the next entry of a loop over a snapshot. */
  method PickOne<T>(s: set<T>) returns (x: T)
    requires s != {}
    ensures x in s
  {
    x :| x in s;
  }

  /**
   * Three wrong numbers in a row from a user with no counter and no block: two requests go
   * to the admins, the third attempt blocks the user and the counter is gone.
   */
  method ThreeWrongNumbers(r: MenuRouter, u: int, text: string, fullName: string, now: int, salt: nat)
    returns (outs: seq<Outcome>)
    requires r.Valid() && !r.db.IsBlocked(u) && u !in r.authAttempts
    requires !StartsWith(text, "/") && Strip(text) !in r.authorizedNumbers
    modifies r, r.db
    ensures r.db.IsBlocked(u) && r.db.blocked[u] == now + r.blockDuration
    ensures u !in r.authAttempts
    ensures var sent := Replies([Reply(RequestSent(CallbackData(u, Strip(text))), Kept)]);
      outs == [sent, sent, Replies([Reply(TooManyAttempts, Kept)])]
  {
    var a := r.HandleAuthorization(u, Some(text), fullName, now, salt);
    var b := r.HandleAuthorization(u, Some(text), fullName, now, salt);
    var c := r.HandleAuthorization(u, Some(text), fullName, now, salt);
    outs := [a, b, c];
  }

  /**
   * A new user's request, approved by an admin, lets the same text log the user in, and
   * the next /start keeps the user in under the intended check.
   */
  method RequestApproveLogin(r: MenuRouter, u: int, text: string, fullName: string, now: int, salt: nat, envLines: seq<string>)
    returns (approved: AddOutcome, login: Outcome, restart: Outcome)
    requires r.Valid() && !r.db.IsBlocked(u) && u !in r.authAttempts
    requires !StartsWith(text, "/") && Strip(text) !in r.authorizedNumbers && ':' !in Strip(text)
    modifies r, r.db
    ensures approved == Added(u, Strip(text), RewriteLines(envLines, Strip(text)))
    ensures login == Replies([Reply(Welcome(fullName), Buttons(RootMenu(r.root)))])
    ensures restart == Replies([Reply(WelcomeBack, Buttons(RootMenu(r.root)))])
    ensures r.db.IsAuthorized(u) && Strip(text) in r.authorizedNumbers
  {
    var request := r.HandleAuthorization(u, Some(text), fullName, now, salt);
    ApprovalReadsRequest(u, text);
    approved := r.HandleAddNumber(CallbackData(u, Strip(text)), Some(envLines));
    ghost var before := r.db.users;
    login := r.HandleAuthorization(u, Some(text), fullName, now, salt);
    LoginNumberOf(before, u, Strip(text), salt, fullName, now);
    LoginSurvivesStart(Strip(text), salt, r.authorizedNumbers);
    restart := r.CmdStart(u);
  }

  /** After a login the user's stored digest is the one just made. */
  lemma LoginNumberOf(rows: seq<UserRow>, u: int, number: string, salt: nat, fullName: string, now: int)
    ensures FirstNumber(Without(rows, u) + [UserRow(u, Hashpw(number, salt), fullName, "user", now, false)], u)
      == Some(Hashpw(number, salt))
  {
    var kept := Without(rows, u);
    WithoutMembers(rows, u);
    FirstNumberAfter(kept, UserRow(u, Hashpw(number, salt), fullName, "user", now, false));
  }

  lemma {:induction false} FirstNumberAfter(rows: seq<UserRow>, row: UserRow)
    requires forall x :: x in rows ==> x.id != row.id
    ensures FirstNumber(rows + [row], row.id) == Some(row.number)
  {
    if rows != [] {
      assert (rows + [row])[1..] == rows[1..] + [row];
      FirstNumberAfter(rows[1..], row);
    }
  }
}
