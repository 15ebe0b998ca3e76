/**
 * The front end's session (`services/auth.ts`): the signed-in user, the memoized start-up
 * check, the flag that it has begun, and the token kept in `localStorage`. The asynchronous
 * start-up check runs in two steps here: `EnsureAuthReady` does everything up to the
 * `/auth/me` request, and `CompleteMe` is the resumption once the server has answered.
 */
module FrontendAuth {
  import opened Wrappers
  import opened AuthService

  /** A promise handed out by `ensureAuthReady`: a run of `initializeCurrentUser`, told apart
      by the order in which runs were started, or an already resolved `Promise.resolve()`. */
  datatype Promise = Resolved | Run(serial: nat)

  /** `!token`: no stored token, or an empty one. */
  predicate NoToken(token: Option<string>) {
    token.None? || token.value == ""
  }

  class AuthSession {
    /** `currentUser.value`. */
    var currentUser: Option<UserDto>
    var initializePromise: Option<Promise>
    var initializationStarted: bool
    /** `localStorage[AUTH_TOKEN_KEY]`. */
    var storedToken: Option<string>
    /** A `/auth/me` request has been sent and not yet answered. */
    var awaitingMe: bool
    /** The number of runs of `initializeCurrentUser` started so far. */
    var runs: nat
    /** `typeof window !== 'undefined'`. */
    const hasWindow: bool

    /** The flag and the memoized promise are set and cleared together. */
    ghost predicate Valid()
      reads this
    {
      initializationStarted <==> initializePromise.Some?
    }

    constructor (hasWindow: bool, storedToken: Option<string>)
      ensures Valid() && this.hasWindow == hasWindow && this.storedToken == storedToken
      ensures currentUser == None && initializePromise == None && !initializationStarted
      ensures !awaitingMe && runs == 0
    {
      this.hasWindow := hasWindow;
      this.storedToken := storedToken;
      currentUser, initializePromise, initializationStarted := None, None, false;
      awaitingMe, runs := false, 0;
    }

    /** `isAuthenticated`: someone is signed in. */
    function IsAuthenticated(): (r: bool)
      reads this
      ensures r <==> currentUser != None
    {
      currentUser.Some?
    }

    /** `ensureAuthReady()`: while a start-up check is memoized it is handed out again and
        nothing else happens; otherwise a new run starts and is memoized. */
    method EnsureAuthReady() returns (p: Promise)
      requires Valid()
      modifies this
      ensures Valid()
      ensures old(initializePromise).Some? ==>
                p == old(initializePromise).value && unchanged(this)
      ensures old(initializePromise).None? ==>
                p == Run(old(runs)) && initializePromise == Some(p) && runs == old(runs) + 1
                && storedToken == old(storedToken)
                && (!hasWindow || NoToken(storedToken) ==>
                      currentUser == None && awaitingMe == old(awaitingMe))
                && (hasWindow && !NoToken(storedToken) ==>
                      currentUser == old(currentUser) && awaitingMe)
    {
      if initializePromise.None? {
        p := InitializeCurrentUser();
        initializePromise := Some(p);
      } else {
        p := initializePromise.value;
      }
    }

    /** `initializeCurrentUser()` up to its `await`. Called only while nothing is memoized, and
        then the flag is clear too, so its early return is never taken from `ensureAuthReady`. */
    method InitializeCurrentUser() returns (p: Promise)
      modifies this
      ensures initializationStarted && initializePromise == old(initializePromise)
      ensures old(initializationStarted) ==>
                p == (if initializePromise.Some? then initializePromise.value else Resolved)
                && currentUser == old(currentUser) && storedToken == old(storedToken)
                && awaitingMe == old(awaitingMe) && runs == old(runs)
      ensures !old(initializationStarted) ==>
                p == Run(old(runs)) && runs == old(runs) + 1 && storedToken == old(storedToken)
                && (!hasWindow || NoToken(storedToken) ==>
                      currentUser == None && awaitingMe == old(awaitingMe))
                && (hasWindow && !NoToken(storedToken) ==>
                      currentUser == old(currentUser) && awaitingMe)
    {
      if initializationStarted {
        p := if initializePromise.Some? then initializePromise.value else Resolved;
        return;
      }
      p := Run(runs);
      runs := runs + 1;
      initializationStarted := true;
      if !hasWindow || NoToken(storedToken) {
        currentUser := None;
        return;
      }
      awaitingMe := true;
    }

    /** The start-up check resumed with the answer to `/auth/me`: a profile signs that user in;
        a failure drops the stored token and signs out. */
    method CompleteMe(answer: Option<UserDto>)
      requires awaitingMe
      modifies this
      ensures !awaitingMe
      ensures answer.Some? ==> currentUser == answer && storedToken == old(storedToken)
      ensures answer.None? ==> currentUser == None && storedToken == None
      ensures initializePromise == old(initializePromise)
      ensures initializationStarted == old(initializationStarted) && runs == old(runs)
    {
      awaitingMe := false;
      if answer.Some? {
        currentUser := answer;
      } else {
        storedToken := None;
        currentUser := None;
      }
    }

    /** `performLogout()`: drops the stored token and forgets the user and the memoized check,
        so the next `ensureAuthReady` starts afresh. */
    method PerformLogout()
      modifies this
      ensures Valid()
      ensures hasWindow ==> storedToken == None
      ensures !hasWindow ==> storedToken == old(storedToken)
      ensures currentUser == None && initializePromise == None && !initializationStarted
      ensures awaitingMe == old(awaitingMe) && runs == old(runs)
    {
      if hasWindow {
        storedToken := None;
      }
      currentUser := None;
      initializePromise := None;
      initializationStarted := false;
    }

    /** The handler registered for unauthorized answers: forgets the user and the memoized
        check but leaves the stored token in place. */
    method OnUnauthorized()
      modifies this
      ensures Valid()
      ensures currentUser == None && initializePromise == None && !initializationStarted
      ensures storedToken == old(storedToken) && awaitingMe == old(awaitingMe) && runs == old(runs)
    {
      currentUser := None;
      initializePromise := None;
      initializationStarted := false;
    }

    /** `establishSession(authResponse)`: stores the token, signs the user in and returns the
        user. */
    method EstablishSession(response: AuthResponse) returns (user: UserDto)
      modifies this
      ensures user == response.user && currentUser == Some(response.user) && IsAuthenticated()
      ensures hasWindow ==> storedToken == Some(response.token)
      ensures !hasWindow ==> storedToken == old(storedToken)
      ensures initializePromise == old(initializePromise)
      ensures initializationStarted == old(initializationStarted)
      ensures awaitingMe == old(awaitingMe) && runs == old(runs)
    {
      if hasWindow {
        storedToken := Some(response.token);
      }
      currentUser := Some(response.user);
      user := response.user;
    }
  }

  /** A session restored from a stored token, the server confirming it: one `/auth/me` round
      trip signs the user in, and asking again starts no second check. */
  method RestoreSession(token: string, profile: UserDto) returns (session: AuthSession)
    requires token != ""
    ensures session.Valid() && session.currentUser == Some(profile) && session.runs == 1
    ensures session.storedToken == Some(token) && !session.awaitingMe
  {
    session := new AuthSession(true, Some(token));
    var first := session.EnsureAuthReady();
    session.CompleteMe(Some(profile));
    var second := session.EnsureAuthReady();
    assert second == first;
  }

  /** Signing out and starting up again: with the token gone no `/auth/me` request is made and
      nobody is signed in. */
  method LogoutThenStartUp(session: AuthSession) returns (p: Promise)
    requires session.Valid() && session.hasWindow && !session.awaitingMe
    modifies session
    ensures session.Valid() && session.currentUser == None && session.storedToken == None
    ensures !session.awaitingMe && p == Run(old(session.runs))
  {
    session.PerformLogout();
    p := session.EnsureAuthReady();
  }
}
