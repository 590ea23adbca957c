/** Recovering from `401 Unauthorized` (`UnauthorizedRecovery` and the reload, refresh and renewal
    operations of `AuthManager` in `crates/core/src/auth.rs`) and the retry loops that drive it
    (`crates/core/src/client.rs`). The cached credentials are shared: each read of them is a
    separate value chosen by the environment. */
module Recovery {
  import opened Text

  datatype Auth =
    | ApiKey
    | Chatgpt(account: Option<string>, hasTokens: bool)
    | External(account: Option<string>)

  function AccountOf(auth: Option<Auth>): Option<string> {
    if auth.None? || auth.value.ApiKey? then None else auth.value.account
  }

  datatype Cached = Cached(auth: Option<Auth>, hasRefresher: bool)

  predicate IsChatgpt(cached: Cached) {
    cached.auth.Some? && !cached.auth.value.ApiKey?
  }

  datatype RefreshError = Permanent | Transient

  datatype Mode = Managed | Externally

  datatype RecoveryStep = Reload | RefreshToken | ExternalRefresh | Done {
    function Rank(): nat {
      match this
      case Reload => 2
      case RefreshToken => 1
      case ExternalRefresh => 1
      case Done => 0
    }
  }

  /** What one request and the recovery after it meet in the environment, read by read. */
  datatype World = World(
    cachedAtRequest: Cached,
    stale: bool,
    renewal: Result<(), RefreshError>,
    storedAfterRenewal: Option<Auth>,
    cachedAtCheck: Cached,
    cachedAtNext: Cached,
    storedAtReload: Option<Auth>,
    cachedAtRefresh: Cached,
    tokenRefresh: Result<(), RefreshError>,
    externalRefresh: Result<Option<string>, RefreshError>,
    forcedWorkspace: Option<string>,
    saved: bool,
    storedAfterRefresh: Option<Auth>)

  /** Credentials put into the cache: by the renewal of stale ones before a request, by the
      reload or by the refresh of a recovery. */
  datatype Install = Renewed(auth: Option<Auth>) | Reloaded(auth: Option<Auth>) | Refreshed(auth: Option<Auth>)

  /** The outcome of an operation and what it put into the cache, if anything. */
  datatype Operation = Finished(result: Result<(), RefreshError>, installed: Option<Install>)

  // ---------------------------------------------------------------- manager operations

  /** `refresh_if_stale` puts credentials into the cache: only tokens of a ChatGPT login are
      renewed, and only when they are stale. */
  predicate Renews(w: World) {
    match w.cachedAtRequest.auth
    case Some(Chatgpt(_, hasTokens)) => hasTokens && w.stale && w.renewal.Ok?
    case _ => false
  }

  /** `auth`, which begins every request: what it puts into the cache. The account is not
      checked, and a renewal that fails is not an error. */
  function Renewals(w: World): seq<Install> {
    if Renews(w) then [Renewed(w.storedAfterRenewal)] else []
  }

  /** `reload_if_account_id_matches`: the credentials installed, or `None` if skipped. */
  function ReloadIfMatches(expected: Option<string>, stored: Option<Auth>): Option<Install> {
    if expected.None? || AccountOf(stored) != expected then None else Some(Reloaded(stored))
  }

  /** `refresh_external_auth`. */
  function RefreshExternal(w: World): Operation {
    if !w.cachedAtRefresh.hasRefresher then Finished(Err(Transient), None)
    else if w.externalRefresh.Err? then Finished(Err(w.externalRefresh.error), None)
    else if w.forcedWorkspace.Some? && w.externalRefresh.value != w.forcedWorkspace then Finished(Err(Transient), None)
    else if !w.saved then Finished(Err(Transient), None)
    else Finished(Ok(()), Some(Refreshed(w.storedAfterRefresh)))
  }

  /** `refresh_token`: after a successful refresh the cache is reloaded unconditionally. */
  function Refresh(w: World): Operation {
    match w.cachedAtRefresh.auth
    case None => Finished(Ok(()), None)
    case Some(ApiKey) => Finished(Ok(()), None)
    case Some(External(_)) => RefreshExternal(w)
    case Some(Chatgpt(_, hasTokens)) =>
      if !hasTokens then Finished(Err(Transient), None)
      else if w.tokenRefresh.Err? then Finished(Err(w.tokenRefresh.error), None)
      else Finished(Ok(()), Some(Refreshed(w.storedAfterRefresh)))
  }

  // ---------------------------------------------------------------- the recovery machine

  datatype Machine = Machine(step: RecoveryStep, expected: Option<string>, mode: Mode)

  function Start(cached: Cached): Machine {
    var external := cached.auth.Some? && cached.auth.value.External?;
    var step, mode := if external then ExternalRefresh else Reload, if external then Externally else Managed;
    Machine(step, AccountOf(cached.auth), mode)
  }

  predicate HasNext(step: RecoveryStep, mode: Mode, cached: Cached) {
    IsChatgpt(cached) && (mode.Externally? ==> cached.hasRefresher) && !step.Done?
  }

  datatype NextResult = NextResult(machine: Machine, done: Operation)

  function After(m: Machine, op: Operation): NextResult {
    NextResult(if op.result.Ok? then m.(step := Done) else m, op)
  }

  /** `UnauthorizedRecovery::next`. */
  function Next(m: Machine, w: World): NextResult {
    if !HasNext(m.step, m.mode, w.cachedAtNext) then NextResult(m, Finished(Err(Permanent), None))
    else
      match m.step
      case Reload =>
        var reloaded := ReloadIfMatches(m.expected, w.storedAtReload);
        if reloaded.Some? then NextResult(m.(step := RefreshToken), Finished(Ok(()), reloaded))
        else After(m, Refresh(w))
      case RefreshToken => After(m, Refresh(w))
      case ExternalRefresh => After(m, RefreshExternal(w))
      case Done => NextResult(m, Finished(Ok(()), None))
  }

  /** The machine as the source has it: only the step changes. */
  class UnauthorizedRecovery {
    var step: RecoveryStep
    const expected: Option<string>
    const mode: Mode

    ghost function Abstract(): Machine
      reads this
    {
      Machine(step, expected, mode)
    }

    constructor (cached: Cached)
      ensures Abstract() == Start(cached)
    {
      var external := cached.auth.Some? && cached.auth.value.External?;
      expected := AccountOf(cached.auth);
      mode := if external then Externally else Managed;
      step := if external then ExternalRefresh else Reload;
    }

    method NextStep(w: World) returns (done: Operation)
      modifies this
      ensures NextResult(Abstract(), done) == Next(old(Abstract()), w)
    {
      if !HasNext(step, mode, w.cachedAtNext) {
        return Finished(Err(Permanent), None);
      }
      match step {
        case Reload =>
          var reloaded := ReloadIfMatches(expected, w.storedAtReload);
          if reloaded.Some? {
            step := RefreshToken;
            return Finished(Ok(()), reloaded);
          }
          done := Refresh(w);
          if done.result.Ok? { step := Done; }
        case RefreshToken =>
          done := Refresh(w);
          if done.result.Ok? { step := Done; }
        case ExternalRefresh =>
          done := RefreshExternal(w);
          if done.result.Ok? { step := Done; }
        case Done =>
          done := Finished(Ok(()), None);
      }
    }
  }

  /** A successful step strictly lowers the rank; a failing one leaves the machine as it was. */
  lemma NextLowersRank(m: Machine, w: World)
    ensures var r := Next(m, w);
            && (r.done.result.Ok? ==> r.machine.step.Rank() < m.step.Rank())
            && (r.done.result.Err? ==> r.machine == m && r.done.installed == None)
            && r.machine.expected == m.expected && r.machine.mode == m.mode
  {
  }

  // ---------------------------------------------------------------- the retry loop

  datatype Reply = Accepted | Unauthorized | OtherFailure

  datatype Outcome = Streaming | RecoveryFailed(error: RefreshError) | StillUnauthorized | Failed

  /** How a call ends, the number of successful recoveries and what they put into the cache. */
  datatype Drive = Drive(outcome: Outcome, recoveries: nat, installs: seq<Install>)

  /** `handle_unauthorized`: a successful recovery, or why the call ends. */
  function HandleUnauthorized(m: Machine, w: World): Result<NextResult, Outcome> {
    if !HasNext(m.step, m.mode, w.cachedAtCheck) then Err(StillUnauthorized)
    else
      var r := Next(m, w);
      if r.done.result.Ok? then Ok(r) else Err(RecoveryFailed(r.done.result.error))
  }

  function InstallsOf(op: Operation): seq<Install> {
    if op.installed.Some? then [op.installed.value] else []
  }

  /** A drive that comes after some recoveries and installs. */
  function Later(recoveries: nat, installs: seq<Install>, rest: Drive): Drive {
    Drive(rest.outcome, recoveries + rest.recoveries, installs + rest.installs)
  }

  /** The loop from its `i`-th request on; the replies and the environment are arbitrary. */
  function DriveFrom(m: Machine, replies: nat -> Reply, worlds: nat -> World, i: nat): Drive
    decreases m.step.Rank()
  {
    var renewed := Renewals(worlds(i));
    match replies(i)
    case Accepted => Drive(Streaming, 0, renewed)
    case OtherFailure => Drive(Failed, 0, renewed)
    case Unauthorized =>
      NextLowersRank(m, worlds(i));
      var h := HandleUnauthorized(m, worlds(i));
      if h.Err? then Drive(h.error, 0, renewed)
      else Later(1, renewed + InstallsOf(h.value.done), DriveFrom(h.value.machine, replies, worlds, i + 1))
  }

  /** The loop of the streaming calls. It terminates in every environment because the step's
      rank decreases with every retry. */
  method RetryLoop(cached: Cached, replies: nat -> Reply, worlds: nat -> World)
    returns (outcome: Outcome, requests: nat, installs: seq<Install>)
    ensures 1 <= requests <= if Start(cached).mode.Externally? then 2 else 3
    ensures Drive(outcome, requests - 1, installs) == DriveFrom(Start(cached), replies, worlds, 0)
  {
    hide HasNext, Next, InstallsOf, Renewals, DriveFrom;
    var recovery := new UnauthorizedRecovery(cached);
    ghost var whole := DriveFrom(Start(cached), replies, worlds, 0);
    RecoveriesBounded(Start(cached), replies, worlds, 0);
    requests, installs := 0, [];
    assert [] + whole.installs == whole.installs;
    while true
      invariant whole == Later(requests, installs, DriveFrom(recovery.Abstract(), replies, worlds, requests))
      decreases recovery.step.Rank()
    {
      var w := worlds(requests);
      DriveStep(recovery.Abstract(), replies, worlds, requests, installs);
      installs := installs + Renewals(w);
      var reply := replies(requests);
      if reply.Accepted? {
        return Streaming, requests + 1, installs;
      }
      if reply.OtherFailure? {
        return Failed, requests + 1, installs;
      }
      NextLowersRank(recovery.Abstract(), w);
      if !HasNext(recovery.step, recovery.mode, w.cachedAtCheck) {
        return StillUnauthorized, requests + 1, installs;
      }
      var done := recovery.NextStep(w);
      if done.result.Err? {
        return RecoveryFailed(done.result.error), requests + 1, installs;
      }
      requests, installs := requests + 1, installs + InstallsOf(done);
    }
  }

  /** One request of the loop. */
  lemma DriveStep(m: Machine, replies: nat -> Reply, worlds: nat -> World, i: nat, before: seq<Install>)
    ensures var h := HandleUnauthorized(m, worlds(i));
            var installs := before + Renewals(worlds(i));
            Later(i, before, DriveFrom(m, replies, worlds, i))
            == if replies(i).Accepted? then Drive(Streaming, i, installs)
               else if replies(i).OtherFailure? then Drive(Failed, i, installs)
               else if h.Err? then Drive(h.error, i, installs)
               else
                 (NextLowersRank(m, worlds(i));
                  Later(i + 1, installs + InstallsOf(h.value.done),
                        DriveFrom(h.value.machine, replies, worlds, i + 1)))
  {
    hide HandleUnauthorized, InstallsOf, Renewals;
    var h := HandleUnauthorized(m, worlds(i));
    if replies(i).Unauthorized? && h.Ok? {
      var renewed, own := Renewals(worlds(i)), InstallsOf(h.value.done);
      var rest := DriveFrom(h.value.machine, replies, worlds, i + 1).installs;
      assert before + (renewed + own + rest) == before + renewed + own + rest;
    }
  }

  /** In every environment: at most two successful recoveries, at most one with externally
      managed tokens. */
  lemma {:induction false} RecoveriesBounded(m: Machine, replies: nat -> Reply, worlds: nat -> World, i: nat)
    ensures DriveFrom(m, replies, worlds, i).recoveries <= m.step.Rank() <= 2
    decreases m.step.Rank()
  {
    if replies(i).Unauthorized? {
      NextLowersRank(m, worlds(i));
      var h := HandleUnauthorized(m, worlds(i));
      if h.Ok? {
        RecoveriesBounded(h.value.machine, replies, worlds, i + 1);
      }
    }
  }

  /** With externally managed tokens there is one recovery at most. */
  lemma ExternalRecoversOnce(cached: Cached, replies: nat -> Reply, worlds: nat -> World)
    requires cached.auth.Some? && cached.auth.value.External?
    ensures DriveFrom(Start(cached), replies, worlds, 0).recoveries <= 1
  {
    RecoveriesBounded(Start(cached), replies, worlds, 0);
  }

  /** What a call starts with, by the kind of credentials cached. */
  lemma StartExactly(cached: Cached)
    ensures Start(cached)
         == match cached.auth
            case Some(External(account)) => Machine(ExternalRefresh, account, Externally)
            case Some(Chatgpt(account, _)) => Machine(Reload, account, Managed)
            case Some(ApiKey) => Machine(Reload, None, Managed)
            case None => Machine(Reload, None, Managed)
  {
  }

  /** A recovery can go on while it has a step left and tokens of a ChatGPT login are cached, of
      either kind; a call that started with external ones also needs the refresher. */
  lemma HasNextExactly(step: RecoveryStep, mode: Mode, cached: Cached)
    ensures HasNext(step, mode, cached)
         == match (step, cached.auth)
            case (Done, _) => false
            case (_, None) => false
            case (_, Some(ApiKey)) => false
            case (_, Some(_)) => mode == Managed || cached.hasRefresher
  {
  }

  /** Credentials are renewed before a request exactly when they are stale tokens of a managed
      ChatGPT login and the token endpoint answers; then what is stored is installed. */
  lemma RenewalsExactly(w: World)
    ensures Renewals(w)
         == match (w.cachedAtRequest.auth, w.stale, w.renewal)
            case (Some(Chatgpt(_, true)), true, Ok(_)) => [Renewed(w.storedAfterRenewal)]
            case _ => []
  {
  }

  /** A call that only ever meets `401` fails, whatever the recoveries did. */
  lemma {:induction false} UnauthorizedForeverFails(m: Machine, replies: nat -> Reply, worlds: nat -> World, i: nat)
    requires forall k: nat :: replies(k) == Unauthorized
    ensures var o := DriveFrom(m, replies, worlds, i).outcome; o.StillUnauthorized? || o.RecoveryFailed?
    decreases m.step.Rank()
  {
    NextLowersRank(m, worlds(i));
    var h := HandleUnauthorized(m, worlds(i));
    if h.Ok? {
      UnauthorizedForeverFails(h.value.machine, replies, worlds, i + 1);
    }
  }

  /** With an API key cached there is no recovery at all. */
  lemma ApiKeyIsNotRecovered(m: Machine, replies: nat -> Reply, worlds: nat -> World, i: nat)
    requires replies(i) == Unauthorized && worlds(i).cachedAtCheck.auth == Some(ApiKey)
    ensures DriveFrom(m, replies, worlds, i) == Drive(StillUnauthorized, 0, Renewals(worlds(i)))
  {
  }

  // ---------------------------------------------------------------- why a call ends

  /** Why an external refresh fails: the refresher's own error, and otherwise a transient one. */
  function ExternalError(w: World): RefreshError {
    if w.cachedAtRefresh.hasRefresher && w.externalRefresh.Err? then w.externalRefresh.error else Transient
  }

  /** Why a refresh fails: the token endpoint's own error, unless there are no tokens to send. */
  function TokenError(w: World): RefreshError {
    match w.cachedAtRefresh.auth
    case Some(External(_)) => ExternalError(w)
    case Some(Chatgpt(_, true)) => if w.tokenRefresh.Err? then w.tokenRefresh.error else Transient
    case _ => Transient
  }

  /** What a refused request comes to when the call does not go on. */
  function Ending(m: Machine, w: World): Outcome {
    if !HasNext(m.step, m.mode, w.cachedAtCheck) then StillUnauthorized
    else if !HasNext(m.step, m.mode, w.cachedAtNext) then RecoveryFailed(Permanent)
    else RecoveryFailed(if m.step.ExternalRefresh? then ExternalError(w) else TokenError(w))
  }

  /** The machine at the last request of a call. */
  function LastMachine(cached: Cached, replies: nat -> Reply, worlds: nat -> World): Machine {
    var m, n := Start(cached), RequestsMade(cached, replies, worlds);
    if n == 1 then m
    else if n == 2 && m.step.Reload? && ReloadMatches(m, worlds(0)) then m.(step := RefreshToken)
    else m.(step := Done)
  }

  lemma EndingHere(m: Machine, replies: nat -> Reply, worlds: nat -> World, i: nat)
    requires DriveFrom(m, replies, worlds, i).recoveries == 0
    ensures DriveFrom(m, replies, worlds, i).outcome
         == match replies(i)
            case Accepted => Streaming
            case OtherFailure => Failed
            case Unauthorized => Ending(m, worlds(i))
  {
  }

  /** How a call ends, from its last request alone: it streams, fails for another reason, or is
      refused and ends with the error of the recovery that was not possible. */
  lemma {:induction false} OutcomeExactly(cached: Cached, replies: nat -> Reply, worlds: nat -> World)
    ensures var last := RequestsMade(cached, replies, worlds) - 1;
            last >= 0 &&
            DriveFrom(Start(cached), replies, worlds, 0).outcome
            == match replies(last)
               case Accepted => Streaming
               case OtherFailure => Failed
               case Unauthorized => Ending(LastMachine(cached, replies, worlds), worlds(last))
  {
    hide DriveFrom, Recovers, ReloadMatches, Ending, TokenRefreshSucceeds, ExternalRefreshWorks;
    var m := Start(cached);
    InstallsExactly(cached, replies, worlds);
    if ReloadsFirst(m, replies, worlds) {
      var m1 := m.(step := RefreshToken);
      ReloadStep(m, replies, worlds);
      if RequestsMade(cached, replies, worlds) == 3 {
        LastGoesOn(m1, replies, worlds, 1);
        EndingHere(m.(step := Done), replies, worlds, 2);
      } else {
        EndingHere(m1, replies, worlds, 1);
      }
    } else if RequestsMade(cached, replies, worlds) == 2 {
      LastGoesOn(m, replies, worlds, 0);
      EndingHere(m.(step := Done), replies, worlds, 1);
    } else {
      EndingHere(m, replies, worlds, 0);
    }
  }

  /** After its last step the machine is done. */
  lemma LastGoesOn(m: Machine, replies: nat -> Reply, worlds: nat -> World, i: nat)
    requires m.step.RefreshToken? || m.step.ExternalRefresh? || (m.step.Reload? && !ReloadMatches(m, worlds(i)))
    requires DriveFrom(m, replies, worlds, i).recoveries > 0
    ensures var done := DriveFrom(m.(step := Done), replies, worlds, i + 1);
            && DriveFrom(m, replies, worlds, i).outcome == done.outcome
            && done.recoveries == 0 && DriveFrom(m, replies, worlds, i).recoveries == 1
  {
    var h := HandleUnauthorized(m, worlds(i));
    assert h.value.machine == m.(step := Done);
  }

  // ---------------------------------------------------------------- whose credentials end up in the cache

  /** Request `i` meets a `401` and the machine may take its step. */
  predicate Recovers(m: Machine, replies: nat -> Reply, worlds: nat -> World, i: nat) {
    && replies(i).Unauthorized?
    && HasNext(m.step, m.mode, worlds(i).cachedAtCheck)
    && HasNext(m.step, m.mode, worlds(i).cachedAtNext)
  }

  /** The stored credentials are of the account the recovery was started for. */
  predicate ReloadMatches(m: Machine, w: World) {
    m.expected.Some? && AccountOf(w.storedAtReload) == m.expected
  }

  predicate ExternalRefreshWorks(w: World) {
    && w.cachedAtRefresh.hasRefresher && w.externalRefresh.Ok? && w.saved
    && (w.forcedWorkspace.Some? ==> w.externalRefresh.value == w.forcedWorkspace)
  }

  /** A refresh that puts credentials into the cache. */
  predicate TokenRefreshWorks(w: World) {
    match w.cachedAtRefresh.auth
    case Some(Chatgpt(_, hasTokens)) => hasTokens && w.tokenRefresh.Ok?
    case Some(External(_)) => ExternalRefreshWorks(w)
    case _ => false
  }

  /** With no credentials or an API key cached a refresh succeeds and puts none. */
  predicate TokenRefreshSucceeds(w: World) {
    w.cachedAtRefresh.auth.None? || w.cachedAtRefresh.auth.value.ApiKey? || TokenRefreshWorks(w)
  }

  /** Whether the first request ends in a reload. */
  predicate ReloadsFirst(m: Machine, replies: nat -> Reply, worlds: nat -> World) {
    Recovers(m, replies, worlds, 0) && m.step.Reload? && ReloadMatches(m, worlds(0))
  }

  /** The request whose recovery refreshes the cached credentials, if one does. */
  function RefreshAt(cached: Cached, replies: nat -> Reply, worlds: nat -> World): Option<nat> {
    var m := Start(cached);
    if !Recovers(m, replies, worlds, 0) then None
    else if m.step.ExternalRefresh? then
      if ExternalRefreshWorks(worlds(0)) then Some(0) else None
    else if !ReloadMatches(m, worlds(0)) then
      if TokenRefreshWorks(worlds(0)) then Some(0) else None
    else if Recovers(m.(step := RefreshToken), replies, worlds, 1) && TokenRefreshWorks(worlds(1)) then Some(1)
    else None
  }

  /** How many requests the call makes: one, and one more after every recovery that succeeds. */
  function RequestsMade(cached: Cached, replies: nat -> Reply, worlds: nat -> World): nat {
    var m := Start(cached);
    if !Recovers(m, replies, worlds, 0) then 1
    else if m.step.ExternalRefresh? then
      if ExternalRefreshWorks(worlds(0)) then 2 else 1
    else if !ReloadMatches(m, worlds(0)) then
      if TokenRefreshSucceeds(worlds(0)) then 2 else 1
    else if Recovers(m.(step := RefreshToken), replies, worlds, 1) && TokenRefreshSucceeds(worlds(1)) then 3
    else 2
  }

  /** What request `i` puts into the cache: a renewal before it, a reload or a refresh after it. */
  function InstallsAt(cached: Cached, replies: nat -> Reply, worlds: nat -> World, i: nat): seq<Install> {
    var w := worlds(i);
    Renewals(w)
    + (if i == 0 && ReloadsFirst(Start(cached), replies, worlds) then [Reloaded(w.storedAtReload)] else [])
    + (if RefreshAt(cached, replies, worlds) == Some(i) then [Refreshed(w.storedAfterRefresh)] else [])
  }

  function InstallsBefore(cached: Cached, replies: nat -> Reply, worlds: nat -> World, n: nat): seq<Install> {
    if n == 0 then []
    else InstallsBefore(cached, replies, worlds, n - 1) + InstallsAt(cached, replies, worlds, n - 1)
  }

  lemma LastStep(m: Machine, replies: nat -> Reply, worlds: nat -> World, i: nat)
    requires m.step.RefreshToken? || m.step.ExternalRefresh? || (m.step.Reload? && !ReloadMatches(m, worlds(i)))
    ensures var w, d := worlds(i), DriveFrom(m, replies, worlds, i);
            var works := if m.step.ExternalRefresh? then ExternalRefreshWorks(w) else TokenRefreshWorks(w);
            var succeeds := if m.step.ExternalRefresh? then ExternalRefreshWorks(w) else TokenRefreshSucceeds(w);
            var refreshed := if works then [Refreshed(w.storedAfterRefresh)] else [];
            if Recovers(m, replies, worlds, i) && succeeds then
              d.recoveries == 1 && d.installs == Renewals(w) + refreshed + Renewals(worlds(i + 1))
            else d.recoveries == 0 && d.installs == Renewals(w)
  {
    hide Renewals;
    if Recovers(m, replies, worlds, i) {
      var h := HandleUnauthorized(m, worlds(i));
      if h.Ok? {
        assert h.value.machine.step.Done?;
        var rest := DriveFrom(h.value.machine, replies, worlds, i + 1);
        assert rest.recoveries == 0 && rest.installs == Renewals(worlds(i + 1));
      }
    }
  }

  /** Everything a call puts into the cache, in order: at each request it makes, a renewal of
      stale credentials; after the first what a matching reload found; and what was stored after
      the one refresh that worked. */
  lemma InstallsExactly(cached: Cached, replies: nat -> Reply, worlds: nat -> World)
    ensures var d, n := DriveFrom(Start(cached), replies, worlds, 0), RequestsMade(cached, replies, worlds);
            d.recoveries == n - 1 && d.installs == InstallsBefore(cached, replies, worlds, n)
  {
    hide DriveFrom, InstallsBefore, RequestsMade, Recovers, ReloadMatches;
    var m := Start(cached);
    if ReloadsFirst(m, replies, worlds) {
      InstallsAfterReload(cached, replies, worlds);
    } else {
      InstallsWithoutReload(cached, replies, worlds);
    }
  }

  /** The installs of request `i` when its recovery's own are known. */
  lemma InstallsAtIs(cached: Cached, replies: nat -> Reply, worlds: nat -> World, i: nat)
    ensures var at, w := InstallsAt(cached, replies, worlds, i), worlds(i);
            var reload := i == 0 && ReloadsFirst(Start(cached), replies, worlds);
            var refresh := RefreshAt(cached, replies, worlds) == Some(i);
            && (!reload && !refresh ==> at == Renewals(w))
            && (reload && !refresh ==> at == Renewals(w) + [Reloaded(w.storedAtReload)])
            && (!reload && refresh ==> at == Renewals(w) + [Refreshed(w.storedAfterRefresh)])
  {
    hide Renewals, ReloadsFirst, RefreshAt;
  }

  lemma InstallsAfterReload(cached: Cached, replies: nat -> Reply, worlds: nat -> World)
    requires ReloadsFirst(Start(cached), replies, worlds)
    ensures var d, n := DriveFrom(Start(cached), replies, worlds, 0), RequestsMade(cached, replies, worlds);
            d.recoveries == n - 1 && d.installs == InstallsBefore(cached, replies, worlds, n)
  {
    hide DriveFrom, InstallsBefore, InstallsAt, Renewals, Recovers, ReloadMatches;
    hide TokenRefreshWorks, TokenRefreshSucceeds;
    var m1 := Start(cached).(step := RefreshToken);
    ReloadStep(Start(cached), replies, worlds);
    LastStep(m1, replies, worlds, 1);
    WorksIsSuccess(worlds(1));
    ShortCalls(cached, replies, worlds);
    InstallsAtIs(cached, replies, worlds, 0);
    InstallsAtIs(cached, replies, worlds, 1);
    InstallsAtIs(cached, replies, worlds, 2);
    var first := Renewals(worlds(0)) + [Reloaded(worlds(0).storedAtReload)];
    var rest := DriveFrom(m1, replies, worlds, 1).installs;
    assert InstallsAt(cached, replies, worlds, 0) == first;
    if Recovers(m1, replies, worlds, 1) && TokenRefreshSucceeds(worlds(1)) {
      var second, third := InstallsAt(cached, replies, worlds, 1), Renewals(worlds(2));
      assert rest == second + third;
      Reassociate(first, second, third);
    }
  }

  lemma InstallsWithoutReload(cached: Cached, replies: nat -> Reply, worlds: nat -> World)
    requires !ReloadsFirst(Start(cached), replies, worlds)
    ensures var d, n := DriveFrom(Start(cached), replies, worlds, 0), RequestsMade(cached, replies, worlds);
            d.recoveries == n - 1 && d.installs == InstallsBefore(cached, replies, worlds, n)
  {
    hide DriveFrom, InstallsBefore, InstallsAt, Renewals, Recovers, ReloadMatches;
    hide TokenRefreshWorks, TokenRefreshSucceeds, ExternalRefreshWorks;
    var m := Start(cached);
    WorksIsSuccess(worlds(0));
    ShortCalls(cached, replies, worlds);
    InstallsAtIs(cached, replies, worlds, 0);
    InstallsAtIs(cached, replies, worlds, 1);
    if Recovers(m, replies, worlds, 0) {
      LastStep(m, replies, worlds, 0);
    } else {
      NotRecovered(m, replies, worlds, 0);
    }
  }

  lemma WorksIsSuccess(w: World)
    ensures TokenRefreshWorks(w) ==> TokenRefreshSucceeds(w)
  {
  }

  /** The installs of calls of up to three requests, written out. */
  lemma ShortCalls(cached: Cached, replies: nat -> Reply, worlds: nat -> World)
    ensures var at := (i: nat) => InstallsAt(cached, replies, worlds, i);
            && InstallsBefore(cached, replies, worlds, 1) == at(0)
            && InstallsBefore(cached, replies, worlds, 2) == at(0) + at(1)
            && InstallsBefore(cached, replies, worlds, 3) == at(0) + at(1) + at(2)
  {
    hide InstallsAt;
    assert InstallsBefore(cached, replies, worlds, 0) == [];
    assert InstallsBefore(cached, replies, worlds, 1) == [] + InstallsAt(cached, replies, worlds, 0);
    assert InstallsBefore(cached, replies, worlds, 2)
        == InstallsBefore(cached, replies, worlds, 1) + InstallsAt(cached, replies, worlds, 1);
  }

  lemma ReloadStep(m: Machine, replies: nat -> Reply, worlds: nat -> World)
    requires ReloadsFirst(m, replies, worlds)
    ensures var rest := DriveFrom(m.(step := RefreshToken), replies, worlds, 1);
            DriveFrom(m, replies, worlds, 0)
            == Later(1, Renewals(worlds(0)) + [Reloaded(worlds(0).storedAtReload)], rest)
  {
    hide Renewals;
    assert HandleUnauthorized(m, worlds(0)).value.machine == m.(step := RefreshToken);
  }

  lemma NotRecovered(m: Machine, replies: nat -> Reply, worlds: nat -> World, i: nat)
    requires !Recovers(m, replies, worlds, i)
    ensures var d := DriveFrom(m, replies, worlds, i); d.recoveries == 0 && d.installs == Renewals(worlds(i))
  {
    hide Renewals;
  }

  lemma {:induction false} InstallsFound(cached: Cached, replies: nat -> Reply, worlds: nat -> World, n: nat, k: nat)
    requires k < |InstallsBefore(cached, replies, worlds, n)|
    ensures exists i :: 0 <= i < n
              && InstallsBefore(cached, replies, worlds, n)[k] in InstallsAt(cached, replies, worlds, i)
  {
    hide InstallsAt;
    var init := InstallsBefore(cached, replies, worlds, n - 1);
    if k < |init| {
      InstallsFound(cached, replies, worlds, n - 1, k);
    } else {
      assert InstallsBefore(cached, replies, worlds, n)[k] in InstallsAt(cached, replies, worlds, n - 1);
    }
  }

  lemma {:induction false} InstallsKept(
      cached: Cached, replies: nat -> Reply, worlds: nat -> World, n: nat, i: nat, x: Install)
    requires i < n && x in InstallsAt(cached, replies, worlds, i)
    ensures x in InstallsBefore(cached, replies, worlds, n)
  {
    hide InstallsAt;
    if i < n - 1 { InstallsKept(cached, replies, worlds, n - 1, i, x); }
  }

  /** In every run at most one install comes from a reload; only a renewal can come before it, so
      it is the first of the recovery's own; and it is of the account the call started with,
      which is known. Externally managed credentials are never reloaded. */
  lemma ReloadKeepsAccount(cached: Cached, replies: nat -> Reply, worlds: nat -> World, k: nat)
    requires var installs := DriveFrom(Start(cached), replies, worlds, 0).installs;
             k < |installs| && installs[k].Reloaded?
    ensures Start(cached).mode.Managed?
    ensures var installs := DriveFrom(Start(cached), replies, worlds, 0).installs;
            && (forall j :: 0 <= j < k ==> installs[j].Renewed?)
            && (forall j :: k < j < |installs| ==> !installs[j].Reloaded?)
            && AccountOf(cached.auth).Some? && AccountOf(installs[k].auth) == AccountOf(cached.auth)
  {
    hide DriveFrom, RefreshAt, Recovers, InstallsBefore, RequestsMade;
    InstallsExactly(cached, replies, worlds);
    var n := RequestsMade(cached, replies, worlds);
    AtMostThree(cached, replies, worlds);
    ShortCalls(cached, replies, worlds);
    OwnInstalls(cached, replies, worlds, 0);
    OwnInstalls(cached, replies, worlds, 1);
    OwnInstalls(cached, replies, worlds, 2);
  }

  lemma AtMostThree(cached: Cached, replies: nat -> Reply, worlds: nat -> World)
    ensures 1 <= RequestsMade(cached, replies, worlds) <= 3
  {
    hide Recovers, ReloadMatches;
  }

  /** The shape of what one request puts into the cache. */
  lemma OwnInstalls(cached: Cached, replies: nat -> Reply, worlds: nat -> World, i: nat)
    ensures var at := InstallsAt(cached, replies, worlds, i);
            && (forall j :: 0 <= j < |at| && at[j].Reloaded? ==>
                  && i == 0 && ReloadsFirst(Start(cached), replies, worlds)
                  && at[j] == Reloaded(worlds(0).storedAtReload))
            && (forall j, l :: 0 <= j < l < |at| && at[l].Reloaded? ==> at[j].Renewed?)
            && (forall j, l :: 0 <= j < l < |at| && at[j].Reloaded? ==> !at[l].Reloaded?)
  {
    hide RefreshAt, ReloadsFirst, Renews;
  }

  predicate Keeps(install: Install, cached: Cached) {
    AccountOf(install.auth) == AccountOf(cached.auth)
  }

  lemma AccountKeptAt(cached: Cached, replies: nat -> Reply, worlds: nat -> World, i: nat)
    ensures (forall x :: x in InstallsAt(cached, replies, worlds, i) ==> Keeps(x, cached))
       <==> (Renews(worlds(i)) ==> AccountOf(worlds(i).storedAfterRenewal) == AccountOf(cached.auth))
            && (RefreshAt(cached, replies, worlds) == Some(i) ==>
                  AccountOf(worlds(i).storedAfterRefresh) == AccountOf(cached.auth))
  {
    hide RefreshAt, Recovers, Renews;
    var at, w := InstallsAt(cached, replies, worlds, i), worlds(i);
    if Renews(w) { assert Renewed(w.storedAfterRenewal) in at; }
    if RefreshAt(cached, replies, worlds) == Some(i) { assert Refreshed(w.storedAfterRefresh) in at; }
  }

  /** A call keeps the account it started with exactly when the credentials stored after its
      refresh, if it makes one, and after every renewal before a request it makes, are of that
      account. */
  lemma AccountKeptExactly(cached: Cached, replies: nat -> Reply, worlds: nat -> World)
    ensures var installs := DriveFrom(Start(cached), replies, worlds, 0).installs;
            var n, r := RequestsMade(cached, replies, worlds), RefreshAt(cached, replies, worlds);
            (forall x :: x in installs ==> Keeps(x, cached))
            <==>
            && (r.Some? ==> AccountOf(worlds(r.value).storedAfterRefresh) == AccountOf(cached.auth))
            && (forall i :: 0 <= i < n && Renews(worlds(i)) ==>
                  AccountOf(worlds(i).storedAfterRenewal) == AccountOf(cached.auth))
  {
    hide DriveFrom, RefreshAt, RequestsMade, InstallsBefore, InstallsAt, Renews, Keeps;
    InstallsExactly(cached, replies, worlds);
    var installs := DriveFrom(Start(cached), replies, worlds, 0).installs;
    var n, r := RequestsMade(cached, replies, worlds), RefreshAt(cached, replies, worlds);
    RefreshIsMade(cached, replies, worlds);
    if forall x :: x in installs ==> Keeps(x, cached) {
      forall i, x | 0 <= i < n && x in InstallsAt(cached, replies, worlds, i) ensures Keeps(x, cached) {
        InstallsKept(cached, replies, worlds, n, i, x);
      }
      forall i | 0 <= i < n
        ensures Renews(worlds(i)) ==> AccountOf(worlds(i).storedAfterRenewal) == AccountOf(cached.auth)
        ensures r == Some(i) ==> AccountOf(worlds(i).storedAfterRefresh) == AccountOf(cached.auth)
      {
        AccountKeptAt(cached, replies, worlds, i);
      }
    } else {
      var x :| x in installs && !Keeps(x, cached);
      var k :| 0 <= k < |installs| && installs[k] == x;
      InstallsFound(cached, replies, worlds, n, k);
      var i :| 0 <= i < n && x in InstallsAt(cached, replies, worlds, i);
      AccountKeptAt(cached, replies, worlds, i);
    }
  }

  lemma RefreshIsMade(cached: Cached, replies: nat -> Reply, worlds: nat -> World)
    ensures var r := RefreshAt(cached, replies, worlds); r.Some? ==> r.value < RequestsMade(cached, replies, worlds)
  {
    hide Recovers, ReloadMatches, ExternalRefreshWorks;
  }

  /** Nobody touches the cache, nothing is stale, tokens can be refreshed, and `after` is stored
      afterwards. */
  function Undisturbed(mine: Cached, after: Option<Auth>): World {
    World(mine, false, Ok(()), mine.auth, mine, mine, mine.auth, mine, Ok(()), Err(Transient), None, true, after)
  }

  /** Two recoveries, the most there can be, and the second one of another account: the reload
      is checked, the refresh is not. */
  lemma RefreshCanSwitchAccount(account: string, other: string, replies: nat -> Reply, worlds: nat -> World)
    requires account != other
    requires replies(0) == Unauthorized && replies(1) == Unauthorized && replies(2) == Accepted
    requires var mine, theirs := Cached(Some(Chatgpt(Some(account), true)), false), Some(Chatgpt(Some(other), true));
             forall k: nat :: worlds(k) == Undisturbed(mine, theirs)
    ensures var mine, theirs := Cached(Some(Chatgpt(Some(account), true)), false), Some(Chatgpt(Some(other), true));
            && DriveFrom(Start(mine), replies, worlds, 0)
               == Drive(Streaming, 2, [Reloaded(mine.auth), Refreshed(theirs)])
            && AccountOf(theirs) != AccountOf(mine.auth)
  {
    var mine, theirs := Cached(Some(Chatgpt(Some(account), true)), false), Some(Chatgpt(Some(other), true));
    var m := Start(mine);
    assert DriveFrom(m.(step := Done), replies, worlds, 2) == Drive(Streaming, 0, []);
    TwoSteps(mine, theirs, replies, worlds);
  }

  /** A reload and a token refresh, and then whatever the third request brings. */
  lemma TwoSteps(mine: Cached, after: Option<Auth>, replies: nat -> Reply, worlds: nat -> World)
    requires mine.auth.Some? && mine.auth.value.Chatgpt? && mine.auth.value.account.Some? && mine.auth.value.hasTokens
    requires replies(0) == Unauthorized && replies(1) == Unauthorized
    requires forall k: nat :: worlds(k) == Undisturbed(mine, after)
    ensures DriveFrom(Start(mine), replies, worlds, 0)
         == Later(2, [Reloaded(mine.auth), Refreshed(after)],
                  DriveFrom(Start(mine).(step := Done), replies, worlds, 2))
  {
    var m := Start(mine);
    var m1, m2 := m.(step := RefreshToken), m.(step := Done);
    assert HandleUnauthorized(m, worlds(0)).value == NextResult(m1, Finished(Ok(()), Some(Reloaded(mine.auth))));
    assert HandleUnauthorized(m1, worlds(1)).value == NextResult(m2, Finished(Ok(()), Some(Refreshed(after))));
    var third := DriveFrom(m2, replies, worlds, 2);
    assert DriveFrom(m1, replies, worlds, 1) == Later(1, [Refreshed(after)], third);
    assert [Reloaded(mine.auth)] + ([Refreshed(after)] + third.installs)
        == [Reloaded(mine.auth), Refreshed(after)] + third.installs;
  }

  /** A single request that is accepted can leave another account's credentials in the cache: the
      cached ones were stale, and the renewal installs whatever is stored. */
  lemma RenewalCanSwitchAccount(account: string, other: string, replies: nat -> Reply, worlds: nat -> World)
    requires account != other && replies(0) == Accepted
    requires var mine, theirs := Cached(Some(Chatgpt(Some(account), true)), false), Some(Chatgpt(Some(other), true));
             && worlds(0).cachedAtRequest == mine && worlds(0).stale && worlds(0).renewal.Ok?
             && worlds(0).storedAfterRenewal == theirs
    ensures var mine, theirs := Cached(Some(Chatgpt(Some(account), true)), false), Some(Chatgpt(Some(other), true));
            && DriveFrom(Start(mine), replies, worlds, 0) == Drive(Streaming, 0, [Renewed(theirs)])
            && RefreshAt(mine, replies, worlds) == None
            && AccountOf(theirs) != AccountOf(mine.auth)
  {
    assert replies(0).Accepted?;
  }

  /** The bound of two is reached in vain: a reload, a token refresh and a third
      `401`. */
  lemma TwoRecoveries(account: string, replies: nat -> Reply, worlds: nat -> World)
    requires forall k: nat :: replies(k) == Unauthorized
    requires var mine := Cached(Some(Chatgpt(Some(account), true)), false);
             forall k: nat :: worlds(k) == Undisturbed(mine, mine.auth)
    ensures var mine := Cached(Some(Chatgpt(Some(account), true)), false);
            DriveFrom(Start(mine), replies, worlds, 0)
            == Drive(StillUnauthorized, 2, [Reloaded(mine.auth), Refreshed(mine.auth)])
  {
    var mine := Cached(Some(Chatgpt(Some(account), true)), false);
    var m := Start(mine);
    assert DriveFrom(m.(step := Done), replies, worlds, 2) == Drive(StillUnauthorized, 0, []);
    TwoSteps(mine, mine.auth, replies, worlds);
  }
}
