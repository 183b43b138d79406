/**
The Matrix adapter's sync loop: backoff, retries, and recovery of the access token, which is spread over the loop, the
retry wrapper, the sync call, the expiry test, and the refresh and login calls.

Replies of the homeserver are inputs, as are clock readings; waiting is left out.  Durations are
nanoseconds.
*/
module MatrixSync {
  import opened Options

  const SECOND: int := 1_000_000_000
  const SYNC_INITIAL_BACKOFF := 1 * SECOND
  const SYNC_MAX_BACKOFF := 30 * SECOND
  const MAX_FAILURES_BEFORE_RELOGIN := 3
  const MAX_ATTEMPTS := 3
  const EXPIRY_THRESHOLD := 7 * 24 * 3600 * SECOND

  // ---------- Errors and which of them are retried ----------

  /** The sentinel for a rejected token, or a traced error with its text and the HTTP status it carries (0 for none). */
  datatype Error = TokenInvalidated | Traced(text: string, status: int)

  const TOKEN_TEXT := "matrix token invalidated: M_UNKNOWN_TOKEN"

  function Text(e: Error): string {
    match e
    case TokenInvalidated => TOKEN_TEXT
    case Traced(text, _) => text
  }

  function Status(e: Error): int {
    if e.Traced? then e.status else 0
  }

  /** `sub` occurs in `s` at position i. */
  predicate OccursAt(s: string, sub: string, i: int) {
    0 <= i && i + |sub| <= |s| && s[i..i + |sub|] == sub
  }

  ghost predicate Occurs(s: string, sub: string) {
    exists i :: OccursAt(s, sub, i)
  }

  method FindSubstring(s: string, substr: string) returns (r: int)
    ensures r >= 0 ==> OccursAt(s, substr, r) && forall i :: OccursAt(s, substr, i) ==> r <= i
    ensures r < 0 ==> r == -1 && !Occurs(s, substr)
  {
    var i := 0;
    while i <= |s| - |substr|
      invariant i >= 0
      invariant forall j :: OccursAt(s, substr, j) ==> i <= j
    {
      if s[i..i + |substr|] == substr {
        return i;
      }
      i := i + 1;
    }
    return -1;
  }

  method ContainsAny(s: string, substrings: seq<string>) returns (r: bool)
    ensures r <==> exists k :: 0 <= k < |substrings| && Occurs(s, substrings[k])
  {
    for k := 0 to |substrings|
      invariant forall j :: 0 <= j < k ==> !Occurs(s, substrings[j])
    {
      if |s| >= |substrings[k]| {
        var at := FindSubstring(s, substrings[k]);
        if at >= 0 {
          assert Occurs(s, substrings[k]);
          return true;
        }
      }
    }
    return false;
  }

  const CONTEXT_TEXTS := ["context deadline exceeded", "context canceled"]
  const NETWORK_TEXTS := ["connection refused", "connection reset", "connection timed out", "temporary failure", "network is unreachable"]

  ghost predicate OccursAny(s: string, subs: seq<string>) {
    exists k :: 0 <= k < |subs| && Occurs(s, subs[k])
  }

  predicate RetryableStatus(status: int) { status == 429 || 500 <= status < 600 }

  ghost predicate Retryable(e: Error) {
    || OccursAny(Text(e), CONTEXT_TEXTS) || OccursAny(Text(e), NETWORK_TEXTS)
    || (Status(e) > 0 && RetryableStatus(Status(e)))
  }

  method IsRetryable(e: Error) returns (r: bool)
    ensures r == Retryable(e)
  {
    r := ContainsAny(Text(e), CONTEXT_TEXTS);
    if r {
      return true;
    }
    r := ContainsAny(Text(e), NETWORK_TEXTS);
    if r {
      return true;
    }
    return Status(e) > 0 && RetryableStatus(Status(e));
  }

  lemma MissingCharacter(s: string, sub: string, k: nat)
    requires k < |sub| && sub[k] !in s
    ensures !Occurs(s, sub)
  {
    forall i ensures !OccursAt(s, sub, i) {
      if 0 <= i && i + |sub| <= |s| {
        assert s[i..i + |sub|][k] == s[i + k];
      }
    }
  }

  lemma TokenTextLacksC()
    ensures 'c' !in TOKEN_TEXT
  {
  }

  lemma TokenTextLacksP()
    ensures 'p' !in TOKEN_TEXT
  {
  }

  lemma TokenTextLacksW()
    ensures 'w' !in TOKEN_TEXT
  {
  }

  lemma NoContextText(s: string)
    requires 'c' !in s
    ensures !OccursAny(s, CONTEXT_TEXTS)
  {
    forall k | 0 <= k < |CONTEXT_TEXTS| ensures !Occurs(s, CONTEXT_TEXTS[k]) {
      MissingCharacter(s, CONTEXT_TEXTS[k], 0);
    }
  }

  lemma NoNetworkText(s: string)
    requires 'c' !in s && 'p' !in s && 'w' !in s
    ensures !OccursAny(s, NETWORK_TEXTS)
  {
    forall k | 0 <= k < |NETWORK_TEXTS| ensures !Occurs(s, NETWORK_TEXTS[k]) {
      MissingCharacter(s, NETWORK_TEXTS[k], if k < 3 then 0 else 3);
    }
  }

  /** The sentinel's text holds none of the texts that mark an error as transient. */
  lemma TokenInvalidatedIsFinal()
    ensures !Retryable(TokenInvalidated)
  {
    TokenTextLacksC();
    TokenTextLacksP();
    TokenTextLacksW();
    NoContextText(TOKEN_TEXT);
    NoNetworkText(TOKEN_TEXT);
  }

  // ---------- The loop's reaction to a sync result ----------

  datatype Action = Continue | Relogin | ResetBackoff

  /** One sync result: success, a rejected token, or any other failure. */
  datatype Outcome = Ok | Rejected | Failed

  function Classify(e: Option<Error>): Outcome {
    match e
    case None => Ok
    case Some(TokenInvalidated) => Rejected
    case Some(Traced(_, _)) => Failed
  }

  /** processSyncResult: the new failure count, the new backoff, and what the loop does next. */
  function ProcessSyncResult(o: Outcome, failures: nat, backoff: int): (nat, int, Action) {
    if o.Ok? then (0, SYNC_INITIAL_BACKOFF, ResetBackoff)
    else if o.Rejected? then (failures + 1, backoff, Relogin)
    else
      var doubled := backoff * 2;
      var next := if doubled > SYNC_MAX_BACKOFF then SYNC_MAX_BACKOFF else doubled;
      (failures + 1, next, if (failures + 1) % MAX_FAILURES_BEFORE_RELOGIN == 0 then Relogin else Continue)
  }

  /** The loop's counters after a sequence of results. */
  function RunLoop(outcomes: seq<Outcome>): (nat, int) {
    if outcomes == [] then (0, SYNC_INITIAL_BACKOFF)
    else
      var (f, b) := RunLoop(outcomes[..|outcomes| - 1]);
      var (f', b', _) := ProcessSyncResult(outcomes[|outcomes| - 1], f, b);
      (f', b')
  }

  /** What the loop does after result i. */
  function ActionAt(outcomes: seq<Outcome>, i: nat): Action
    requires i < |outcomes|
  {
    var (f, b) := RunLoop(outcomes[..i]);
    ProcessSyncResult(outcomes[i], f, b).2
  }

  /** Failures since the last success. */
  function FailureRun(outcomes: seq<Outcome>): nat {
    if outcomes == [] || outcomes[|outcomes| - 1].Ok? then 0 else 1 + FailureRun(outcomes[..|outcomes| - 1])
  }

  /** Failures since the last success that were not token rejections. */
  function PlainFailures(outcomes: seq<Outcome>): nat {
    if outcomes == [] || outcomes[|outcomes| - 1].Ok? then 0
    else PlainFailures(outcomes[..|outcomes| - 1]) + if outcomes[|outcomes| - 1].Failed? then 1 else 0
  }

  function Pow2(n: nat): int { if n == 0 then 1 else 2 * Pow2(n - 1) }

  /** For every sequence of results: the count is the failure run, the backoff min(2^j, 30) seconds for its j plain failures. */
  lemma {:induction false} BackoffExactly(outcomes: seq<Outcome>)
    ensures var (f, b) := RunLoop(outcomes);
      && f == FailureRun(outcomes)
      && b == (if Pow2(PlainFailures(outcomes)) > 30 then 30 else Pow2(PlainFailures(outcomes))) * SECOND
  {
    if outcomes != [] {
      BackoffExactly(outcomes[..|outcomes| - 1]);
    }
  }

  /** After every failure: a re-login exactly on a rejected token and on every third failure of the run. */
  lemma ReloginExactly(outcomes: seq<Outcome>, i: nat)
    requires i < |outcomes|
    ensures ActionAt(outcomes, i) == Relogin <==>
      outcomes[i].Rejected? || (outcomes[i].Failed? && FailureRun(outcomes[..i + 1]) % 3 == 0)
  {
    BackoffExactly(outcomes[..i]);
    assert outcomes[..i + 1][..i] == outcomes[..i];
  }

  /** So any three consecutive failures include a re-login. */
  lemma ThreeFailuresRelogin(outcomes: seq<Outcome>, i: nat)
    requires i + 2 < |outcomes| && !outcomes[i].Ok? && !outcomes[i + 1].Ok? && !outcomes[i + 2].Ok?
    ensures ActionAt(outcomes, i) == Relogin || ActionAt(outcomes, i + 1) == Relogin || ActionAt(outcomes, i + 2) == Relogin
  {
    ReloginExactly(outcomes, i);
    ReloginExactly(outcomes, i + 1);
    ReloginExactly(outcomes, i + 2);
    assert outcomes[..i + 2][..i + 1] == outcomes[..i + 1];
    assert outcomes[..i + 3][..i + 2] == outcomes[..i + 2];
    var n := FailureRun(outcomes[..i + 1]);
    assert n % 3 == 0 || (n + 1) % 3 == 0 || (n + 2) % 3 == 0;
  }

  // ---------- Token state ----------

  datatype Tokens = Tokens(access: string, refresh: string, sync: string, lastCheck: Option<int>)

  datatype Credentials = Credentials(username: string, password: string)

  /** A reply to a refresh or login call; a refresh may rotate the refresh token, a login replaces it. */
  datatype AuthReply = Granted(access: string, refresh: string) | Denied

  datatype Attempt = RefreshTried | LoginTried

  predicate TokenExpired(t: Tokens, now: int) {
    if t.access == "" then true
    else if t.refresh != "" && t.lastCheck.Some? then now - t.lastCheck.value > EXPIRY_THRESHOLD
    else t.sync == ""
  }

  predicate CanLogIn(c: Credentials) { c.password != "" && c.username != "" }

  /** What comes of a sync request; `next` is the batch token when the body decodes, `text` the error's text otherwise. */
  datatype SyncReply = NoReply(text: string) | Response(status: int, body: string, next: Option<string>, text: string)

  /** Everything one attempt meets: clock reading and replies. */
  datatype Env = Env(now: int, refresh: AuthReply, login: AuthReply, authText: string, reply: SyncReply)

  const REJECTION := "M_UNKNOWN_TOKEN"

  ghost predicate Rejects(r: SyncReply) { r.Response? && Occurs(r.body, REJECTION) }

  /** The calls made for an expired token, in order. */
  function Tries(refresh: string, c: Credentials, env: Env): seq<Attempt> {
    (if refresh != "" then [RefreshTried] else []) +
    (if CanLogIn(c) && (refresh == "" || env.refresh.Denied?) then [LoginTried] else [])
  }

  /** A sync request goes out when the token is good or recovering it yields a non-empty one. */
  predicate WillSend(t: Tokens, c: Credentials, env: Env) {
    if TokenExpired(t, env.now) then
      var grant := LastGrant(t.refresh, c, env);
      grant.Granted? && grant.access != ""
    else true
  }

  function LastGrant(refresh: string, c: Credentials, env: Env): AuthReply {
    if refresh != "" && env.refresh.Granted? then env.refresh else if CanLogIn(c) then env.login else Denied
  }

  /** The tokens after making sure of a valid one. */
  function Ensured(t: Tokens, c: Credentials, env: Env): Tokens {
    if !TokenExpired(t, env.now) then t
    else if t.refresh != "" && env.refresh.Granted? then
      Tokens(env.refresh.access, if env.refresh.refresh != "" then env.refresh.refresh else t.refresh, t.sync, Some(env.now))
    else if CanLogIn(c) && env.login.Granted? then t.(access := env.login.access, refresh := env.login.refresh)
    else t
  }

  /** A request goes out and its reply is taken for a rejected token. */
  ghost predicate Invalidates(t: Tokens, c: Credentials, env: Env) { WillSend(t, c, env) && Rejects(env.reply) }

  /** The server answers the sync with a decodable batch. */
  predicate Delivers(r: SyncReply) { r.Response? && r.status == 200 && r.next.Some? }

  /** What one sync reports. */
  ghost function SyncResult(t: Tokens, c: Credentials, env: Env): Option<Error> {
    if TokenExpired(t, env.now) && LastGrant(t.refresh, c, env).Denied? then Some(Traced(env.authText, 0))
    else if !WillSend(t, c, env) then Some(Traced("not logged in", 0))
    else if env.reply.NoReply? then Some(Traced(env.reply.text, 0))
    else if Rejects(env.reply) then Some(TokenInvalidated)
    else if Delivers(env.reply) then None
    else Some(Traced(env.reply.text, if env.reply.status == 200 then 0 else env.reply.status))
  }

  /** The tokens after one sync. */
  ghost function AfterSync(t: Tokens, c: Credentials, env: Env): Tokens {
    var u := Ensured(t, c, env);
    if !WillSend(t, c, env) || env.reply.NoReply? then u
    else if Rejects(env.reply) || env.reply.status == 401 then u.(access := "", sync := "")
    else if Delivers(env.reply) then u.(sync := env.reply.next.value, lastCheck := Some(env.now))
    else u
  }

  /**
  `toks` are the token states before each attempt made and `results` what the attempts came to: the first starts from
  `start`, each later one from what the sync before it left, and the last sync left `end`.
  */
  ghost predicate Attempts(toks: seq<Tokens>, results: seq<Option<Error>>, c: Credentials, envs: seq<Env>, start: Tokens, end: Tokens)
    requires |toks| == |results| <= |envs|
  {
    if toks == [] then end == start
    else
      var n := |toks| - 1;
      && Attempts(toks[..n], results[..n], c, envs, start, toks[n])
      && results[n] == SyncResult(toks[n], c, envs[n]) && end == AfterSync(toks[n], c, envs[n])
  }

  /** Attempt i starts from what the one before it left, and its result is that of its sync. */
  lemma {:induction false} AttemptAt(toks: seq<Tokens>, results: seq<Option<Error>>, c: Credentials, envs: seq<Env>, start: Tokens, end: Tokens, i: nat)
    requires |toks| == |results| <= |envs| && Attempts(toks, results, c, envs, start, end) && i < |toks|
    ensures results[i] == SyncResult(toks[i], c, envs[i])
    ensures toks[i] == if i == 0 then start else AfterSync(toks[i - 1], c, envs[i - 1])
    ensures end == AfterSync(toks[|toks| - 1], c, envs[|toks| - 1])
  {
    var n := |toks| - 1;
    if i < n {
      AttemptAt(toks[..n], results[..n], c, envs, start, toks[n], i);
    } else if n > 0 {
      AttemptAt(toks[..n], results[..n], c, envs, start, toks[n], n - 1);
    }
  }

  /** `made`, followed by the refresh and login calls these attempts make before their syncs. */
  function CallsMade(made: seq<Attempt>, toks: seq<Tokens>, c: Credentials, envs: seq<Env>): seq<Attempt>
    requires |toks| <= |envs|
  {
    if toks == [] then made
    else
      var t, env := toks[|toks| - 1], envs[|toks| - 1];
      CallsMade(made, toks[..|toks| - 1], c, envs) + if TokenExpired(t, env.now) then Tries(t.refresh, c, env) else []
  }

  /** Retried inside the wrapper; rate limits are left to the loop's backoff. */
  ghost predicate Transient(e: Error) { Retryable(e) && Status(e) != 429 }

  method RetriesHere(e: Error) returns (r: bool)
    ensures r == Transient(e) && (r ==> e != TokenInvalidated)
  {
    TokenInvalidatedIsFinal();
    var retryable := IsRetryable(e);
    return retryable && Status(e) != 429;
  }

  lemma OneMoreAttempt(toks: seq<Tokens>, results: seq<Option<Error>>, c: Credentials, envs: seq<Env>, start: Tokens, t: Tokens, made: seq<Attempt>)
    requires |toks| == |results| < |envs| && Attempts(toks, results, c, envs, start, t)
    ensures var env := envs[|toks|];
      && Attempts(toks + [t], results + [SyncResult(t, c, env)], c, envs, start, AfterSync(t, c, env))
      && CallsMade(made, toks + [t], c, envs)
         == CallsMade(made, toks, c, envs) + if TokenExpired(t, env.now) then Tries(t.refresh, c, env) else []
  {
    assert (toks + [t])[..|toks|] == toks;
    assert (results + [SyncResult(t, c, envs[|toks|])])[..|toks|] == results;
  }

  /** This result is retried. */
  ghost predicate LeadsOn(r: Option<Error>) { r.Some? && Transient(r.value) }

  const CANCELLED := Traced("context canceled", 0)

  function GaveUp(last: Error): Error { Traced("sync failed after 3 attempts: " + Text(last), 0) }

  /** Attempts so far, each failed for a transient reason and its wait not cancelled. */
  ghost predicate Trying(results: seq<Option<Error>>, cancelled: seq<bool>)
    requires |cancelled| == MAX_ATTEMPTS - 1
  {
    && |results| <= MAX_ATTEMPTS
    && forall i :: 0 <= i < |results| ==> LeadsOn(results[i]) && (i < MAX_ATTEMPTS - 1 ==> !cancelled[i])
  }

  /**
  How the attempts end.  The n-th is the last exactly when it does not fail for a transient reason, or there may be no
  more, or the wait after it is cancelled; its own result comes out in the first case, the wrapper's error otherwise.
  */
  ghost predicate Tried(e: Option<Error>, results: seq<Option<Error>>, cancelled: seq<bool>)
    requires |cancelled| == MAX_ATTEMPTS - 1
  {
    && 1 <= |results| <= MAX_ATTEMPTS
    && (forall n :: 0 <= n < |results| ==>
          (n == |results| - 1 <==> !LeadsOn(results[n]) || n == MAX_ATTEMPTS - 1 || cancelled[n]))
    && var n := |results| - 1;
       e == if !LeadsOn(results[n]) then results[n]
            else if n == MAX_ATTEMPTS - 1 then Some(GaveUp(results[n].value))
            else Some(CANCELLED)
  }

  /** A result that is not retried ends the attempts and is the outcome. */
  lemma ResultStands(results: seq<Option<Error>>, cancelled: seq<bool>, e: Option<Error>)
    requires |cancelled| == MAX_ATTEMPTS - 1 && |results| < MAX_ATTEMPTS && Trying(results, cancelled) && !LeadsOn(e)
    ensures Tried(e, results + [e], cancelled)
  {
  }

  /** One that is retried leads on, unless its wait is cancelled or it was the last allowed. */
  lemma ResultLeadsOn(results: seq<Option<Error>>, cancelled: seq<bool>, e: Option<Error>)
    requires |cancelled| == MAX_ATTEMPTS - 1 && |results| < MAX_ATTEMPTS && Trying(results, cancelled) && LeadsOn(e)
    ensures var n := |results|;
      if n < MAX_ATTEMPTS - 1 && cancelled[n] then Tried(Some(CANCELLED), results + [e], cancelled)
      else Trying(results + [e], cancelled) && (n == MAX_ATTEMPTS - 1 ==> Tried(Some(GaveUp(e.value)), results + [e], cancelled))
  {
  }

  /** A retried result with its wait not cancelled, then a success: two attempts. */
  lemma TwoResults(e: Option<Error>, results: seq<Option<Error>>, cancelled: seq<bool>)
    requires |cancelled| == MAX_ATTEMPTS - 1 && Tried(e, results, cancelled) && LeadsOn(results[0]) && !cancelled[0]
    ensures |results| >= 2 && (results[1] == None ==> |results| == 2 && e == None)
  {
  }

  /** A rejected token ends the attempts and comes out as such; nothing else does. */
  lemma RejectionEndsTheAttempts(e: Option<Error>, toks: seq<Tokens>, results: seq<Option<Error>>, c: Credentials, envs: seq<Env>,
                                 cancelled: seq<bool>, start: Tokens, end: Tokens)
    requires |cancelled| == MAX_ATTEMPTS - 1 && Tried(e, results, cancelled)
    requires |toks| == |results| <= |envs| && Attempts(toks, results, c, envs, start, end)
    ensures forall i :: 0 <= i < |toks| ==> (Invalidates(toks[i], c, envs[i]) <==> i == |toks| - 1 && e == Some(TokenInvalidated))
  {
    TokenInvalidatedIsFinal();
    forall i | 0 <= i < |toks| ensures Invalidates(toks[i], c, envs[i]) <==> results[i] == Some(TokenInvalidated) {
      AttemptAt(toks, results, c, envs, start, end, i);
    }
  }

  class MatrixAdapter {
    var accessToken: string
    var refreshToken: string
    var syncToken: string
    var lastExpiryCheck: Option<int>
    const creds: Credentials
    ghost var attempts: seq<Attempt> // refresh and login calls made

    ghost function Tok(): Tokens
      reads this
    {
      Tokens(accessToken, refreshToken, syncToken, lastExpiryCheck)
    }

    constructor (creds: Credentials, access: string, refresh: string)
      ensures Tok() == Tokens(access, refresh, "", None) && this.creds == creds && attempts == []
    {
      accessToken, refreshToken, syncToken, lastExpiryCheck := access, refresh, "", None;
      this.creds := creds;
      attempts := [];
    }

    method IsTokenExpired(now: int) returns (r: bool)
      ensures r == TokenExpired(Tok(), now)
    {
      if accessToken == "" {
        return true;
      }
      if refreshToken != "" {
        if lastExpiryCheck.None? {
          return syncToken == "";
        }
        return now - lastExpiryCheck.value > EXPIRY_THRESHOLD;
      }
      return syncToken == "";
    }

    method RefreshAccessToken(now: int, reply: AuthReply) returns (ok: bool)
      modifies this`accessToken, this`refreshToken, this`lastExpiryCheck, this`attempts
      ensures ok == (old(refreshToken) != "" && reply.Granted?)
      ensures attempts == old(attempts) + if old(refreshToken) != "" then [RefreshTried] else []
      ensures !ok ==> Tok() == old(Tok())
      ensures ok ==> Tok() == Tokens(reply.access, if reply.refresh != "" then reply.refresh else old(refreshToken), syncToken, Some(now))
    {
      if refreshToken == "" {
        return false;
      }
      attempts := attempts + [RefreshTried];
      if reply.Denied? {
        return false;
      }
      accessToken := reply.access;
      if reply.refresh != "" {
        refreshToken := reply.refresh;
      }
      lastExpiryCheck := Some(now);
      return true;
    }

    method Login(reply: AuthReply) returns (ok: bool)
      modifies this`accessToken, this`refreshToken, this`attempts
      ensures ok == reply.Granted? && attempts == old(attempts) + [LoginTried]
      ensures Tok() == if ok then old(Tok()).(access := reply.access, refresh := reply.refresh) else old(Tok())
    {
      attempts := attempts + [LoginTried];
      if reply.Denied? {
        return false;
      }
      accessToken := reply.access;
      refreshToken := reply.refresh;
      return true;
    }

    /**
    An expired token leads to a refresh when there is a refresh token, and to a password login when there is none or
    the refresh fails; nothing is attempted otherwise, or when neither is possible.
    */
    method EnsureValidToken(env: Env) returns (ok: bool)
      modifies this`accessToken, this`refreshToken, this`lastExpiryCheck, this`attempts
      ensures !TokenExpired(old(Tok()), env.now) ==> ok && Tok() == old(Tok()) && attempts == old(attempts)
      ensures TokenExpired(old(Tok()), env.now) ==>
        attempts == old(attempts) + Tries(old(refreshToken), creds, env)
        && ok == (LastGrant(old(refreshToken), creds, env).Granted?)
      ensures Tok() == Ensured(old(Tok()), creds, env)
    {
      var expired := IsTokenExpired(env.now);
      if !expired {
        return true;
      }
      var hasRefreshToken := refreshToken != "";
      if hasRefreshToken {
        ok := RefreshAccessToken(env.now, env.refresh);
        if !ok && creds.password != "" && creds.username != "" {
          ok := Login(env.login);
        }
      } else if creds.password != "" && creds.username != "" {
        ok := Login(env.login);
      } else {
        ok := false;
      }
    }

    /**
    One sync.  A rejected token is reported as such, with both tokens cleared, exactly when a request was sent and its
    reply names the rejection, whatever the status.
    */
    method Sync(env: Env) returns (e: Option<Error>)
      modifies this`accessToken, this`refreshToken, this`syncToken, this`lastExpiryCheck, this`attempts
      ensures e == SyncResult(old(Tok()), creds, env)
      ensures Tok() == AfterSync(old(Tok()), creds, env)
      ensures attempts == old(attempts) + if TokenExpired(old(Tok()), env.now) then Tries(old(refreshToken), creds, env) else []
    {
      var ok := EnsureValidToken(env);
      if !ok {
        return Some(Traced(env.authText, 0));
      }
      if accessToken == "" {
        return Some(Traced("not logged in", 0));
      }
      if env.reply.NoReply? {
        return Some(Traced(env.reply.text, 0));
      }
      var Response(status, body, next, text) := env.reply;
      var at := FindSubstring(body, REJECTION);
      if status != 200 {
        if at >= 0 {
          assert Occurs(body, REJECTION);
          accessToken, syncToken := "", "";
          return Some(TokenInvalidated);
        }
        if status == 401 {
          accessToken, syncToken := "", "";
        }
        return Some(Traced(text, status));
      }
      if at >= 0 {
        assert Occurs(body, REJECTION);
        accessToken, syncToken := "", "";
        return Some(TokenInvalidated);
      }
      if next.None? {
        return Some(Traced(text, 0));
      }
      syncToken := next.value;
      lastExpiryCheck := Some(env.now);
      return None;
    }

    /**
    Up to three attempts.  `toks` lists the token states the attempts made started from and `results` what they came to:
    every attempt that fails for a transient reason leads to another one, until there may be no more or the
    wait is cancelled, and no other attempt does.
    */
    method SyncWithRetry(envs: seq<Env>, cancelled: seq<bool>)
      returns (e: Option<Error>, ghost toks: seq<Tokens>, ghost results: seq<Option<Error>>)
      requires |envs| == MAX_ATTEMPTS && |cancelled| == MAX_ATTEMPTS - 1
      modifies this`accessToken, this`refreshToken, this`syncToken, this`lastExpiryCheck, this`attempts
      ensures Tried(e, results, cancelled)
      ensures |toks| == |results| <= |envs| && Attempts(toks, results, creds, envs, old(Tok()), Tok())
      ensures attempts == CallsMade(old(attempts), toks, creds, envs)
    {
      toks, results := [], [];
      var lastErr := CANCELLED;
      for attempt := 0 to MAX_ATTEMPTS
        invariant |results| == |toks| == attempt && Trying(results, cancelled)
        invariant attempt == MAX_ATTEMPTS ==> Tried(Some(GaveUp(lastErr)), results, cancelled)
        invariant Attempts(toks, results, creds, envs, old(Tok()), Tok())
        invariant attempts == CallsMade(old(attempts), toks, creds, envs)
      {
        OneMoreAttempt(toks, results, creds, envs, old(Tok()), Tok(), old(attempts));
        toks := toks + [Tok()];
        e := Sync(envs[attempt]);
        ghost var before := results;
        results := results + [e];
        if e == None {
          ResultStands(before, cancelled, e);
          return;
        }
        var again := RetriesHere(e.value);
        if !again {
          ResultStands(before, cancelled, e);
          return;
        }
        ResultLeadsOn(before, cancelled, e);
        lastErr := e.value;
        if attempt < MAX_ATTEMPTS - 1 && cancelled[attempt] {
          return Some(CANCELLED), toks, results;
        }
      }
      return Some(GaveUp(lastErr)), toks, results;
    }

    /**
    One iteration of the loop.  `relogin` is met by the re-login, if there is one.  When the reply to any attempt made
    rejects the token, the iteration itself goes on to a refresh or a password login whenever credentials for
    either exist.
    */
    method Iterate(failures: nat, backoff: int, envs: seq<Env>, cancelled: seq<bool>, relogin: Env)
      returns (failures': nat, backoff': int, action: Action, e: Option<Error>,
               ghost toks: seq<Tokens>, ghost results: seq<Option<Error>>, ghost after: Tokens, ghost made: seq<Attempt>)
      requires |envs| == MAX_ATTEMPTS && |cancelled| == MAX_ATTEMPTS - 1
      modifies this`accessToken, this`refreshToken, this`syncToken, this`lastExpiryCheck, this`attempts
      ensures (failures', backoff', action) == ProcessSyncResult(Classify(e), failures, backoff)
      ensures 1 <= |toks| == |results| <= |envs| && Attempts(toks, results, creds, envs, old(Tok()), after)
      ensures Tried(e, results, cancelled)
      ensures made == CallsMade(old(attempts), toks, creds, envs)
      ensures attempts == made + if action == Relogin && TokenExpired(after, relogin.now) then Tries(after.refresh, creds, relogin) else []
      ensures Tok() == if action == Relogin then Ensured(after, creds, relogin) else after
      ensures forall i :: 0 <= i < |toks| && Invalidates(toks[i], creds, envs[i]) ==>
        && action == Relogin && after.access == "" && after.sync == ""
        && (after.refresh != "" || CanLogIn(creds) ==> made < attempts)
    {
      e, toks, results := SyncWithRetry(envs, cancelled);
      RejectionEndsTheAttempts(e, toks, results, creds, envs, cancelled, old(Tok()), Tok());
      var (f, b, a) := ProcessSyncResult(Classify(e), failures, backoff);
      failures', backoff', action := f, b, a;
      after, made := Tok(), attempts;
      if action == Relogin {
        var _ := EnsureValidToken(relogin);
      }
    }
  }

  // ---------- What is retried, and what recovery does ----------

  /**
  Which attempts are retried, told from what they met: a server error other than a rejection, or a request or a recovery
  whose error text names a passing network condition.  A rate limit is retried for no text at all.
  */
  lemma RetriedIff(t: Tokens, c: Credentials, env: Env)
    ensures LeadsOn(SyncResult(t, c, env)) <==>
      if !WillSend(t, c, env) then
        TokenExpired(t, env.now) && LastGrant(t.refresh, c, env).Denied? && PassingText(env.authText)
      else
        match env.reply
        case NoReply(text) => PassingText(text)
        case Response(status, body, next, text) =>
          && !Occurs(body, REJECTION) && status != 429
          && (500 <= status < 600 || ((status != 200 || next.None?) && PassingText(text)))
  {
    TokenInvalidatedIsFinal();
    NotLoggedInIsFinal();
  }

  ghost predicate PassingText(s: string) { OccursAny(s, CONTEXT_TEXTS) || OccursAny(s, NETWORK_TEXTS) }

  lemma NotLoggedInIsFinal()
    ensures !PassingText("not logged in")
  {
    assert 'c' !in "not logged in" && 'p' !in "not logged in" && 'w' !in "not logged in";
    NoContextText("not logged in");
    NoNetworkText("not logged in");
  }

  /** A passing network failure followed by a delivered batch: the second attempt is made and its success comes out. */
  lemma OutageIsRiddenOut(e: Option<Error>, toks: seq<Tokens>, results: seq<Option<Error>>, c: Credentials, envs: seq<Env>,
                          cancelled: seq<bool>, start: Tokens, end: Tokens)
    requires |envs| == MAX_ATTEMPTS && |cancelled| == MAX_ATTEMPTS - 1 && !cancelled[0]
    requires Tried(e, results, cancelled) && |toks| == |results| <= |envs| && Attempts(toks, results, c, envs, start, end)
    requires WillSend(start, c, envs[0]) && envs[0].reply.NoReply? && PassingText(envs[0].reply.text)
    requires WillSend(Ensured(start, c, envs[0]), c, envs[1]) && Delivers(envs[1].reply) && !Rejects(envs[1].reply)
    ensures |toks| == 2 && e == None && end.sync == envs[1].reply.next.value
  {
    AttemptAt(toks, results, c, envs, start, end, 0);
    RetriedIff(start, c, envs[0]);
    TwoResults(e, results, cancelled);
    AttemptAt(toks, results, c, envs, start, end, 1);
  }

  /**
  The order of recovery: the refresh token comes first and a grant for it leaves the password unused; the password is
  the fallback; nothing is tried twice, and the tokens are those of the last call made, if it was granted.
  */
  lemma RefreshComesFirst(t: Tokens, c: Credentials, env: Env)
    requires TokenExpired(t, env.now)
    ensures var calls, u := Tries(t.refresh, c, env), Ensured(t, c, env);
      && (calls == [] <==> t.refresh == "" && !CanLogIn(c))
      && (t.refresh != "" ==> calls[0] == RefreshTried)
      && (t.refresh != "" && env.refresh.Granted? ==> calls == [RefreshTried] && u.access == env.refresh.access && u.lastCheck == Some(env.now))
      && (LoginTried in calls <==> CanLogIn(c) && !(RefreshTried in calls && env.refresh.Granted?))
      && (LoginTried in calls ==> calls[|calls| - 1] == LoginTried && |calls| <= 2)
      && (LoginTried in calls && env.login.Granted? ==> u == t.(access := env.login.access, refresh := env.login.refresh))
      && (LastGrant(t.refresh, c, env).Denied? ==> u == t)
      && u.sync == t.sync
  {
  }

  /** Of the replies to a request, exactly a rejection and a 401 log out; either clears access token and sync position alike. */
  lemma LoggedOutIff(t: Tokens, c: Credentials, env: Env)
    requires WillSend(t, c, env)
    ensures var u, t' := Ensured(t, c, env), AfterSync(t, c, env);
      && (t'.access == "" <==> env.reply.Response? && (Occurs(env.reply.body, REJECTION) || env.reply.status == 401))
      && (t'.access == "" ==> t' == u.(access := "", sync := ""))
      && (t'.access != "" ==> t'.access == u.access)
      && t'.refresh == u.refresh
  {
  }

  // ---------- Replies taken for rejections ----------

  /**
  A batch the server did deliver is thrown away, and both tokens with it, exactly when its text happens to contain the
  rejection code, wherever that stands; otherwise the sync position moves on and the access token stays.
  */
  lemma DeliveredBatchIsLostIff(t: Tokens, c: Credentials, env: Env)
    requires WillSend(t, c, env) && Delivers(env.reply)
    ensures var t' := AfterSync(t, c, env);
      && Ensured(t, c, env).access != ""
      && (Invalidates(t, c, env) <==> Occurs(env.reply.body, REJECTION))
      && (t'.access == "" <==> Occurs(env.reply.body, REJECTION))
      && (t'.access != "" ==> t'.access == Ensured(t, c, env).access && t'.sync == env.reply.next.value)
  {
  }

  /** A chat message that quotes the code logs the bridge out. */
  lemma QuotedCodeLogsOut() returns (t: Tokens, c: Credentials, env: Env)
    ensures Delivers(env.reply) && t.access != "" && t.sync != "" && AfterSync(t, c, env) == t.(access := "", sync := "")
  {
    t, c := Tokens("token", "", "s1", None), Credentials("", "");
    var quote := "what does ";
    env := Env(0, Denied, Denied, "", Response(200, quote + REJECTION + " mean?", Some("s2"), ""));
    assert OccursAt(env.reply.body, REJECTION, |quote|);
  }

  // ---------- What recovery leaves behind ----------

  /** The refresh and login calls a sync makes before its request. */
  function CallsBefore(t: Tokens, c: Credentials, env: Env): seq<Attempt> {
    if TokenExpired(t, env.now) then Tries(t.refresh, c, env) else []
  }

  /**
  After a rejected token and a granted password login, the next sync asks for a token again, although it has a good one,
  exactly when the login brought no refresh token, or no expiry check is on record, or that check is too
  old.  Without a refresh token it logs in a second time.
  */
  lemma LoginIsRepeatedIff(t: Tokens, c: Credentials, env: Env, next: Env)
    requires t.access == "" && t.sync == "" && (t.refresh == "" || env.refresh.Denied?)
    requires CanLogIn(c) && env.login.Granted? && env.login.access != ""
    ensures var u := Ensured(t, c, env);
      && u == Tokens(env.login.access, env.login.refresh, "", t.lastCheck)
      && (CallsBefore(u, c, next) != [] <==>
            env.login.refresh == "" || t.lastCheck.None? || next.now - t.lastCheck.value > EXPIRY_THRESHOLD)
      && (env.login.refresh == "" ==> CallsBefore(u, c, next) == [LoginTried])
  {
  }

  /** No request goes out in this sequence of syncs. */
  ghost predicate SendsNone(t: Tokens, c: Credentials, envs: seq<Env>)
    decreases |envs|
  {
    envs != [] ==> !WillSend(t, c, envs[0]) && SendsNone(AfterSync(t, c, envs[0]), c, envs[1..])
  }

  ghost predicate NeverSends(t: Tokens, c: Credentials) {
    forall envs :: SendsNone(t, c, envs)
  }

  /** Nothing to refresh or log in with, and no token or no sync position. */
  predicate Stuck(t: Tokens, c: Credentials) {
    t.refresh == "" && !CanLogIn(c) && (t.access == "" || t.sync == "")
  }

  lemma {:induction false} StuckSendsNone(t: Tokens, c: Credentials, envs: seq<Env>)
    requires Stuck(t, c)
    ensures SendsNone(t, c, envs)
    decreases |envs|
  {
    if envs != [] {
      assert AfterSync(t, c, envs[0]) == t;
      StuckSendsNone(t, c, envs[1..]);
    }
  }

  lemma SendsSome(t: Tokens, c: Credentials) returns (envs: seq<Env>)
    requires !Stuck(t, c)
    ensures !SendsNone(t, c, envs)
  {
    envs := [Env(0, Granted("a", ""), Granted("a", ""), "", NoReply(""))];
    assert WillSend(t, c, envs[0]);
  }

  /**
  A sync request can ever go out exactly when the adapter is not stuck.  In particular an access token handed to a fresh
  adapter without refresh token or credentials is never used, whatever the server would answer.
  */
  lemma NeverSendsIffStuck(t: Tokens, c: Credentials)
    ensures NeverSends(t, c) <==> Stuck(t, c)
  {
    if Stuck(t, c) {
      forall envs ensures SendsNone(t, c, envs) { StuckSendsNone(t, c, envs); }
    } else {
      var envs := SendsSome(t, c);
    }
  }
}
