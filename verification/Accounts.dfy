/**
  * `auth.py` and `auth_web.py`: users, their sessions and failed logins, over runs of requests. Each request,
  * with the identity check before it, is one step.
  */
module Accounts {
  import opened Common

  type Id = string
  type Token = string
  type Address = Option<string>

  datatype Role = Admin | Member

  datatype User = User(role: Role, active: bool)

  datatype Session = Session(user: Id, lastSeen: int, expires: int, revoked: Option<int>)

  datatype Failure = Failure(address: Address, at: int)

  datatype State = State(users: map<Id, User>, sessions: map<Token, Session>, failures: seq<Failure>)

  /** Instants count microseconds. */
  const MINUTE: int := 60_000_000
  const WINDOW: int := 15 * MINUTE
  const ATTEMPTS: nat := 5

  /** `session_idle_minutes` and `session_absolute_hours`, as durations. */
  datatype Settings = Settings(idle: int, absolute: int)

  // ------------------------------------------------------------------
  // The identity check
  // ------------------------------------------------------------------

  predicate IsActive(users: map<Id, User>, id: Id) {
    id in users && users[id].active
  }

  predicate IsOpen(s: Session, now: int) {
    s.revoked.None? && now < s.expires
  }

  predicate IsAccepted(settings: Settings, users: map<Id, User>, s: Session, now: int) {
    IsOpen(s, now) && now < s.lastSeen + settings.idle && IsActive(users, s.user)
  }

  /** What `load_identity` leaves of the session. */
  function Seen(settings: Settings, users: map<Id, User>, s: Session, now: int): Session {
    if !IsOpen(s, now) then s
    else if s.lastSeen + settings.idle <= now then s.(revoked := Some(now))
    else if !IsActive(users, s.user) then s
    else if s.lastSeen + MINUTE <= now then s.(lastSeen := now)
    else s
  }

  function Identity(settings: Settings, s: State, token: Token, now: int): Option<Id> {
    if token in s.sessions && IsAccepted(settings, s.users, s.sessions[token], now)
    then Some(s.sessions[token].user)
    else None
  }

  function AfterIdentity(settings: Settings, s: State, token: Token, now: int): State {
    if token in s.sessions
    then s.(sessions := s.sessions[token := Seen(settings, s.users, s.sessions[token], now)])
    else s
  }

  // ------------------------------------------------------------------
  // Requests
  // ------------------------------------------------------------------

  datatype Deed =
    | Browse
    | Logout
    | RevokeOwn(session: Token)
    | ChangePassword
    | CreateUser(id: Id, role: Role)
    | RevokeSessions(id: Id)
    | Enable(id: Id)
    | Disable(id: Id)
    | DeleteUser(id: Id)

  datatype Action =
    | Setup(id: Id, token: Token, now: int)
    | Login(address: Address, account: Option<Id>, proven: bool, token: Token, now: int)
    | Request(token: Token, now: int, deed: Deed)

  predicate NeedsAdmin(d: Deed) {
    d.CreateUser? || d.RevokeSessions? || d.Enable? || d.Disable? || d.DeleteUser?
  }

  function WithSession(settings: Settings, s: State, id: Id, token: Token, now: int): State {
    if token in s.sessions then s
    else s.(sessions := s.sessions[token := Session(id, now, now + settings.absolute, None)])
  }

  predicate IsRevocable(s: Session, user: Id) {
    s.user == user && s.revoked.None?
  }

  function Ended(s: Session, user: Id, now: int): Session {
    if IsRevocable(s, user) then s.(revoked := Some(now)) else s
  }

  /** All open sessions of the user are revoked, but for the one given. */
  function Revoked(sessions: map<Token, Session>, user: Id, spared: Option<Token>, now: int): map<Token, Session> {
    map k | k in sessions :: if Some(k) == spared then sessions[k] else Ended(sessions[k], user, now)
  }

  function Admins(users: map<Id, User>): set<Id> {
    set id | id in users && users[id].role.Admin?
  }

  function ActiveAdmins(users: map<Id, User>): set<Id> {
    set id | id in users && users[id].role.Admin? && users[id].active
  }

  /** `update_user_status` with "disable", by `actor`. */
  predicate MayDisable(s: State, actor: Id, id: Id) {
    && id != actor
    && id in s.users
    && (id in ActiveAdmins(s.users) ==> |ActiveAdmins(s.users)| > 1)
  }

  predicate MayDelete(s: State, actor: Id, id: Id) {
    id != actor && id in s.users && (id in Admins(s.users) ==> |Admins(s.users)| > 1)
  }

  function Perform(s: State, token: Token, actor: Id, now: int, d: Deed): State {
    match d
    case Browse => s
    case Logout =>
      if token in s.sessions then s.(sessions := s.sessions[token := s.sessions[token].(revoked := Some(now))]) else s
    case RevokeOwn(k) =>
      if k != token && k in s.sessions && IsRevocable(s.sessions[k], actor)
      then s.(sessions := s.sessions[k := s.sessions[k].(revoked := Some(now))])
      else s
    case ChangePassword => s.(sessions := Revoked(s.sessions, actor, Some(token), now))
    case CreateUser(id, role) => if id in s.users then s else s.(users := s.users[id := User(role, true)])
    case RevokeSessions(id) => s.(sessions := Revoked(s.sessions, id, None, now))
    case Enable(id) => if id in s.users then s.(users := s.users[id := s.users[id].(active := true)]) else s
    case Disable(id) =>
      if !MayDisable(s, actor, id) then s
      else
        s.(users := s.users[id := s.users[id].(active := false)],
           sessions := Revoked(s.sessions, id, None, now))
    case DeleteUser(id) =>
      if !MayDelete(s, actor, id) then s
      else s.(users := s.users - {id}, sessions := map k | k in s.sessions && s.sessions[k].user != id :: s.sessions[k])
  }

  /** Failures from the address at or after `since`. */
  function Recent(failures: seq<Failure>, address: Address, since: int): nat {
    if failures == [] then 0
    else
      var last := failures[|failures| - 1];
      Recent(failures[..|failures| - 1], address, since)
      + (if last.address == address && last.at >= since then 1 else 0)
  }

  predicate IsBlocked(failures: seq<Failure>, address: Address, now: int) {
    Recent(failures, address, now - WINDOW) >= ATTEMPTS
  }

  function AfterLogin(
    settings: Settings, s: State, address: Address, id: Option<Id>, proven: bool, token: Token, now: int): State
  {
    if IsBlocked(s.failures, address, now) then s
    else if id.None? || !proven || !IsActive(s.users, id.value) then s.(failures := s.failures + [Failure(address, now)])
    else WithSession(settings, s, id.value, token, now)
  }

  function Step(settings: Settings, s: State, a: Action): State {
    match a
    case Setup(id, token, now) =>
      if s.users != map[] then s
      else WithSession(settings, s.(users := map[id := User(Admin, true)]), id, token, now)
    case Login(address, id, proven, token, now) => AfterLogin(settings, s, address, id, proven, token, now)
    case Request(token, now, deed) =>
      var actor := Identity(settings, s, token, now);
      var seen := AfterIdentity(settings, s, token, now);
      if actor.None? || (NeedsAdmin(deed) && !s.users[actor.value].role.Admin?) then seen
      else Perform(seen, token, actor.value, now, deed)
  }

  function Run(settings: Settings, s: State, actions: seq<Action>): State
    decreases |actions|
  {
    if actions == [] then s else Run(settings, Step(settings, s, actions[0]), actions[1..])
  }

  // ------------------------------------------------------------------
  // There is always an administrator who can act
  // ------------------------------------------------------------------

  ghost predicate HasActiveAdmin(users: map<Id, User>) {
    exists id :: id in ActiveAdmins(users)
  }

  ghost predicate Governed(s: State) {
    s.users != map[] ==> HasActiveAdmin(s.users)
  }

  /** Whoever performs a deed stays the active administrator the deed needed. */
  lemma ActorStaysAdmin(s: State, token: Token, actor: Id, now: int, d: Deed)
    requires actor in ActiveAdmins(s.users)
    ensures actor in ActiveAdmins(Perform(s, token, actor, now, d).users)
  {
  }

  lemma StepStaysGoverned(settings: Settings, s: State, a: Action)
    requires Governed(s)
    ensures Governed(Step(settings, s, a))
  {
    match a
    case Setup(id, token, now) =>
      if s.users == map[] {
        assert id in ActiveAdmins(Step(settings, s, a).users);
      }
    case Login(address, id, proven, token, now) =>
    case Request(token, now, deed) =>
      var actor := Identity(settings, s, token, now);
      if actor.Some? && NeedsAdmin(deed) && s.users[actor.value].role.Admin? {
        ActorStaysAdmin(AfterIdentity(settings, s, token, now), token, actor.value, now, deed);
      }
  }

  /** From an empty panel on, whenever there are users there is an active administrator. */
  lemma {:induction false} AlwaysGoverned(settings: Settings, s: State, actions: seq<Action>)
    requires Governed(s)
    ensures Governed(Run(settings, s, actions))
    decreases |actions|
  {
    if actions != [] {
      StepStaysGoverned(settings, s, actions[0]);
      AlwaysGoverned(settings, Step(settings, s, actions[0]), actions[1..]);
    }
  }

  /**
    * The counts of administrators never refuse anything the self-action guards let through: the actor is an
    * active administrator other than the target.
    */
  lemma CountsNeverRefuse(settings: Settings, s: State, token: Token, now: int, id: Id)
    requires Identity(settings, s, token, now).Some?
    requires s.users[Identity(settings, s, token, now).value].role.Admin?
    ensures var actor := Identity(settings, s, token, now).value;
            && (MayDisable(s, actor, id) <==> id in s.users && id != actor)
            && (MayDelete(s, actor, id) <==> id in s.users && id != actor)
  {
    var actor := Identity(settings, s, token, now).value;
    TwoMembers(ActiveAdmins(s.users), actor, id);
    TwoMembers(Admins(s.users), actor, id);
  }

  lemma TwoMembers(s: set<Id>, a: Id, b: Id)
    requires a in s
    ensures b in s && a != b ==> |s| > 1
  {
    if b in s && a != b {
      assert |{a, b}| == 2;
      assert {a, b} <= s && s == {a, b} + (s - {a, b});
    }
  }

  // ------------------------------------------------------------------
  // Failed logins
  // ------------------------------------------------------------------

  /** Failures from the address within a closed interval. */
  function Within(failures: seq<Failure>, address: Address, start: int, end: int): nat {
    if failures == [] then 0
    else
      var last := failures[|failures| - 1];
      Within(failures[..|failures| - 1], address, start, end)
      + (if last.address == address && start <= last.at <= end then 1 else 0)
  }

  /** The failures of the address recorded within a closed interval. */
  function Recorded(failures: seq<Failure>, address: Address, start: int, end: int): set<nat> {
    set i | 0 <= i < |failures| && failures[i].address == address && start <= failures[i].at <= end
  }

  /** At most five of one address in any closed fifteen minutes. */
  ghost predicate Throttled(failures: seq<Failure>) {
    forall address, start, end :: end <= start + 15 * 60_000_000 ==> |Recorded(failures, address, start, end)| <= 5
  }

  lemma {:induction false} WithinCounts(failures: seq<Failure>, address: Address, start: int, end: int)
    ensures Within(failures, address, start, end) == |Recorded(failures, address, start, end)|
  {
    if failures != [] {
      var n := |failures| - 1;
      WithinCounts(failures[..n], address, start, end);
      var before, after := Recorded(failures[..n], address, start, end), Recorded(failures, address, start, end);
      assert after == before + if n in after then {n} else {};
    }
  }

  lemma {:induction false} RecentIsWithin(failures: seq<Failure>, address: Address, since: int, end: int)
    requires forall i :: 0 <= i < |failures| ==> failures[i].at <= end
    ensures Recent(failures, address, since) == Within(failures, address, since, end)
  {
    if failures != [] {
      RecentIsWithin(failures[..|failures| - 1], address, since, end);
    }
  }

  lemma {:induction false} AllBy(failures: seq<Failure>) returns (end: int)
    ensures forall i :: 0 <= i < |failures| ==> failures[i].at <= end
  {
    end := 0;
    if failures != [] {
      end := AllBy(failures[1..]);
      assert forall i :: 0 < i < |failures| ==> failures[i] == failures[1..][i - 1];
      if failures[0].at > end {
        end := failures[0].at;
      }
    }
  }

  /** The failures of the address recorded from `since` on. */
  function RecordedSince(failures: seq<Failure>, address: Address, since: int): set<nat> {
    set i | 0 <= i < |failures| && failures[i].address == address && since <= failures[i].at
  }

  /** An attempt is blocked exactly if five failures of its address were recorded in the last fifteen minutes, or later. */
  lemma BlockedByFive(failures: seq<Failure>, address: Address, now: int)
    ensures IsBlocked(failures, address, now) <==> |RecordedSince(failures, address, now - 15 * 60_000_000)| >= 5
  {
    var since := now - 15 * 60_000_000;
    var end := AllBy(failures);
    RecentIsWithin(failures, address, since, end);
    WithinCounts(failures, address, since, end);
    assert Recorded(failures, address, since, end) == RecordedSince(failures, address, since);
  }

  lemma {:induction false} WithinIsRecent(failures: seq<Failure>, address: Address, start: int, end: int, since: int)
    requires since <= start
    ensures Within(failures, address, start, end) <= Recent(failures, address, since)
  {
    if failures != [] {
      WithinIsRecent(failures[..|failures| - 1], address, start, end, since);
    }
  }

  lemma FailureStaysThrottled(failures: seq<Failure>, address: Address, now: int)
    requires Throttled(failures) && !IsBlocked(failures, address, now)
    ensures Throttled(failures + [Failure(address, now)])
  {
    var after := failures + [Failure(address, now)];
    assert after[..|after| - 1] == failures;
    forall other, start, end | end <= start + 15 * 60_000_000 ensures |Recorded(after, other, start, end)| <= 5 {
      assert |Recorded(failures, other, start, end)| <= 5;
      WithinCounts(failures, other, start, end);
      WithinCounts(after, other, start, end);
      if other == address && start <= now <= end {
        WithinIsRecent(failures, address, start, end, now - WINDOW);
      }
    }
  }

  lemma StepKeepsFailures(settings: Settings, s: State, a: Action)
    ensures Step(settings, s, a).failures ==
            if a.Login? && !IsBlocked(s.failures, a.address, a.now)
               && (a.account.None? || !a.proven || !IsActive(s.users, a.account.value))
            then s.failures + [Failure(a.address, a.now)]
            else s.failures
  {
  }

  /**
    * In every run, no closed stretch of fifteen minutes holds more than five recorded failures from one
    * address, wherever it starts. The clock may even jump.
    */
  lemma {:induction false} NeverMoreThanFive(settings: Settings, s: State, actions: seq<Action>)
    requires Throttled(s.failures)
    ensures Throttled(Run(settings, s, actions).failures)
    decreases |actions|
  {
    if actions != [] {
      var a := actions[0];
      StepKeepsFailures(settings, s, a);
      if a.Login? && !IsBlocked(s.failures, a.address, a.now) {
        FailureStaysThrottled(s.failures, a.address, a.now);
      }
      NeverMoreThanFive(settings, Step(settings, s, a), actions[1..]);
    }
  }

  /** Five failures suffice to be locked out until the first of them is more than fifteen minutes old. */
  lemma FiveFailuresBlock(failures: seq<Failure>, address: Address, start: int, now: int)
    requires |Recorded(failures, address, start, now)| >= 5 && now <= start + 15 * 60_000_000
    ensures IsBlocked(failures, address, now)
  {
    WithinCounts(failures, address, start, now);
    WithinIsRecent(failures, address, start, now, now - WINDOW);
  }

  // ------------------------------------------------------------------
  // Sessions
  // ------------------------------------------------------------------

  /** The action is aimed at the session `k` of `user`, or at that user. */
  predicate Threatens(a: Action, k: Token, user: Id) {
    a.Request? &&
    match a.deed
    case Browse => false
    case Logout => a.token == k
    case RevokeOwn(other) => other == k
    case ChangePassword => a.token != k
    case CreateUser(_, _) => false
    case RevokeSessions(id) => id == user
    case Enable(_) => false
    case Disable(id) => id == user
    case DeleteUser(id) => id == user
  }

  /** The session is usable and was seen within the last minute before `last`. */
  predicate IsLive(s: State, k: Token, user: Id, last: int) {
    && k in s.sessions
    && s.sessions[k].user == user
    && s.sessions[k].revoked.None?
    && s.sessions[k].lastSeen <= last < s.sessions[k].lastSeen + 60_000_000
    && IsActive(s.users, user)
  }

  /** Every request made with `k` comes at most `gap` after the one before, and before `expires`. */
  predicate Paced(actions: seq<Action>, k: Token, last: int, gap: int, expires: int)
    decreases |actions|
  {
    actions == [] ||
    if actions[0].Request? && actions[0].token == k
    then
      && last <= actions[0].now <= last + gap && actions[0].now < expires
      && Paced(actions[1..], k, actions[0].now, gap, expires)
    else Paced(actions[1..], k, last, gap, expires)
  }

  /** Every request made with `k` finds its user. */
  predicate AllAccepted(settings: Settings, s: State, actions: seq<Action>, k: Token)
    decreases |actions|
  {
    actions == [] ||
    ((actions[0].Request? && actions[0].token == k ==> Identity(settings, s, k, actions[0].now).Some?) &&
     AllAccepted(settings, Step(settings, s, actions[0]), actions[1..], k))
  }

  predicate Unthreatened(actions: seq<Action>, k: Token, user: Id) {
    forall i :: 0 <= i < |actions| ==> !Threatens(actions[i], k, user)
  }

  lemma PerformKeepsLive(s: State, a: Action, actor: Id, k: Token, user: Id, last: int)
    requires a.Request? && !Threatens(a, k, user) && IsLive(s, k, user, last)
    ensures var after := Perform(s, a.token, actor, a.now, a.deed);
            IsLive(after, k, user, last) && after.sessions[k] == s.sessions[k]
  {
  }

  lemma StepKeepsLive(settings: Settings, s: State, a: Action, k: Token, user: Id, last: int)
    requires IsLive(s, k, user, last) && !Threatens(a, k, user)
    requires !(a.Request? && a.token == k)
    ensures IsLive(Step(settings, s, a), k, user, last)
    ensures Step(settings, s, a).sessions[k] == s.sessions[k]
  {
    if a.Request? {
      var seen := AfterIdentity(settings, s, a.token, a.now);
      var actor := Identity(settings, s, a.token, a.now);
      PerformKeepsLive(seen, a, if actor.Some? then actor.value else "", k, user, last);
    }
  }

  lemma RequestKeepsLive(settings: Settings, s: State, a: Action, k: Token, user: Id, last: int)
    requires IsLive(s, k, user, last) && a.Request? && a.token == k && !Threatens(a, k, user)
    requires last <= a.now <= last + settings.idle - 60_000_000 && a.now < s.sessions[k].expires
    ensures Identity(settings, s, k, a.now) == Some(user)
    ensures IsLive(Step(settings, s, a), k, user, a.now)
    ensures Step(settings, s, a).sessions[k].expires == s.sessions[k].expires
  {
    var seen := AfterIdentity(settings, s, k, a.now);
    assert IsLive(seen, k, user, a.now);
    PerformKeepsLive(seen, a, user, k, user, a.now);
  }

  /**
    * Although the last use is only written once a minute, a session used at least every idle period less a
    * minute is accepted up to its absolute expiry, whatever else happens to other sessions and users.
    */
  lemma {:induction false} UsedSessionStaysAccepted(
    settings: Settings, s: State, actions: seq<Action>, k: Token, user: Id, last: int)
    requires IsLive(s, k, user, last) && Unthreatened(actions, k, user)
    requires Paced(actions, k, last, settings.idle - 60_000_000, s.sessions[k].expires)
    ensures AllAccepted(settings, s, actions, k)
    decreases |actions|
  {
    if actions != [] {
      var a := actions[0];
      assert !Threatens(a, k, user);
      assert forall i :: 0 <= i < |actions[1..]| ==> actions[1..][i] == actions[i + 1];
      if a.Request? && a.token == k {
        RequestKeepsLive(settings, s, a, k, user, last);
        UsedSessionStaysAccepted(settings, Step(settings, s, a), actions[1..], k, user, a.now);
      } else {
        StepKeepsLive(settings, s, a, k, user, last);
        UsedSessionStaysAccepted(settings, Step(settings, s, a), actions[1..], k, user, last);
      }
    }
  }

  predicate LogsIn(s: State, a: Action) {
    && a.Login?
    && !IsBlocked(s.failures, a.address, a.now)
    && a.account.Some? && a.proven && IsActive(s.users, a.account.value)
    && a.token !in s.sessions
  }

  /** From a successful login on, such use is accepted for the whole absolute period. */
  lemma LoginLasts(settings: Settings, s: State, login: Action, actions: seq<Action>)
    requires LogsIn(s, login) && Unthreatened(actions, login.token, login.account.value)
    requires Paced(actions, login.token, login.now, settings.idle - 60_000_000, login.now + settings.absolute)
    ensures AllAccepted(settings, Step(settings, s, login), actions, login.token)
  {
    UsedSessionStaysAccepted(
      settings, Step(settings, s, login), actions, login.token, login.account.value, login.now);
  }

  /** The minute cannot be spared: with gaps a microsecond longer, a session in use may be turned away. */
  lemma MinuteIsNeeded(settings: Settings, users: map<Id, User>, user: Id, k: Token)
    requires settings.idle >= 2 * 60_000_000 && settings.absolute > settings.idle && IsActive(users, user)
    ensures
      var s := State(users, map[k := Session(user, 0, settings.absolute, None)], []);
      var actions := [Request(k, 60_000_000 - 1, Browse), Request(k, settings.idle, Browse)];
      && IsLive(s, k, user, 0)
      && Unthreatened(actions, k, user)
      && Paced(actions, k, 0, settings.idle - 60_000_000 + 1, settings.absolute)
      && !AllAccepted(settings, s, actions, k)
  {
    var s := State(users, map[k := Session(user, 0, settings.absolute, None)], []);
    var actions := [Request(k, 60_000_000 - 1, Browse), Request(k, settings.idle, Browse)];
    var rest := actions[1..];
    assert rest == [Request(k, settings.idle, Browse)] && rest[1..] == [];
    assert Paced(rest[1..], k, settings.idle, settings.idle - 60_000_000 + 1, settings.absolute);
    assert Paced(rest, k, 60_000_000 - 1, settings.idle - 60_000_000 + 1, settings.absolute);
    var next := Step(settings, s, actions[0]);
    assert next.sessions[k] == s.sessions[k];
    assert !AllAccepted(settings, next, rest, k);
  }

  /** Nothing makes the session acceptable at or after `now`. */
  predicate IsDead(s: State, k: Token, now: int) {
    k in s.sessions && (s.sessions[k].revoked.Some? || s.sessions[k].expires <= now)
  }

  /** Requests come at or after `now`. */
  predicate NotBefore(actions: seq<Action>, now: int) {
    forall i :: 0 <= i < |actions| ==> actions[i].now >= now
  }

  /** Dead, or gone with its user; its token is not given out again. */
  predicate IsOver(s: State, k: Token, now: int) {
    k in s.sessions ==> IsDead(s, k, now)
  }

  predicate Reissues(a: Action, k: Token) {
    !a.Request? && a.token == k
  }

  predicate NoneAccepted(settings: Settings, s: State, actions: seq<Action>, k: Token)
    decreases |actions|
  {
    actions == [] ||
    ((actions[0].Request? && actions[0].token == k ==> Identity(settings, s, k, actions[0].now).None?) &&
     NoneAccepted(settings, Step(settings, s, actions[0]), actions[1..], k))
  }

  lemma PerformStaysOver(s: State, a: Action, actor: Id, k: Token, now: int)
    requires a.Request? && IsOver(s, k, now)
    ensures IsOver(Perform(s, a.token, actor, a.now, a.deed), k, now)
  {
  }

  lemma StepStaysOver(settings: Settings, s: State, a: Action, k: Token, now: int)
    requires IsOver(s, k, now) && !Reissues(a, k)
    ensures IsOver(Step(settings, s, a), k, now)
  {
    if a.Request? {
      var actor := Identity(settings, s, a.token, a.now);
      PerformStaysOver(
        AfterIdentity(settings, s, a.token, a.now), a, if actor.Some? then actor.value else "", k, now);
    }
  }

  /** A session that is over is turned away for good. */
  lemma {:induction false} OverIsForGood(settings: Settings, s: State, actions: seq<Action>, k: Token, now: int)
    requires IsOver(s, k, now) && NotBefore(actions, now)
    requires forall i :: 0 <= i < |actions| ==> !Reissues(actions[i], k)
    ensures NoneAccepted(settings, s, actions, k)
    decreases |actions|
  {
    if actions != [] {
      assert actions[0].now >= now && !Reissues(actions[0], k);
      assert forall i :: 0 <= i < |actions[1..]| ==> actions[1..][i] == actions[i + 1];
      StepStaysOver(settings, s, actions[0], k, now);
      OverIsForGood(settings, Step(settings, s, actions[0]), actions[1..], k, now);
    }
  }

  /** The last use on record is at or before `last`, if the session is there at all. */
  predicate NotSeenSince(s: State, k: Token, last: int) {
    k in s.sessions ==> s.sessions[k].lastSeen <= last
  }

  lemma OthersDoNotTouch(settings: Settings, s: State, a: Action, k: Token, last: int)
    requires NotSeenSince(s, k, last) && a.token != k
    ensures NotSeenSince(Step(settings, s, a), k, last)
  {
  }

  lemma {:induction false} SilenceKeepsLastSeen(settings: Settings, s: State, quiet: seq<Action>, k: Token, last: int)
    requires NotSeenSince(s, k, last) && forall i :: 0 <= i < |quiet| ==> quiet[i].token != k
    ensures NotSeenSince(Run(settings, s, quiet), k, last)
    decreases |quiet|
  {
    if quiet != [] {
      assert quiet[0].token != k;
      assert forall i :: 0 <= i < |quiet[1..]| ==> quiet[1..][i] == quiet[i + 1];
      OthersDoNotTouch(settings, s, quiet[0], k, last);
      SilenceKeepsLastSeen(settings, Step(settings, s, quiet[0]), quiet[1..], k, last);
    }
  }

  lemma LateRequestEnds(settings: Settings, s: State, k: Token, last: int, now: int, deed: Deed)
    requires NotSeenSince(s, k, last) && now >= last + settings.idle
    ensures IsOver(Step(settings, s, Request(k, now, deed)), k, now)
  {
  }

  /**
    * A session silent for the idle period or longer is turned away on its next request and on every later one,
    * whatever others do meanwhile.
    */
  lemma SilentSessionIsOver(
    settings: Settings, s: State, k: Token, last: int, quiet: seq<Action>, next: Action, later: seq<Action>)
    requires NotSeenSince(s, k, last) && forall i :: 0 <= i < |quiet| ==> quiet[i].token != k
    requires next.Request? && next.token == k && next.now >= last + settings.idle
    requires NotBefore(later, next.now) && forall i :: 0 <= i < |later| ==> !Reissues(later[i], k)
    ensures Identity(settings, Run(settings, s, quiet), k, next.now).None?
    ensures NoneAccepted(settings, Step(settings, Run(settings, s, quiet), next), later, k)
  {
    SilenceKeepsLastSeen(settings, s, quiet, k, last);
    LateRequestEnds(settings, Run(settings, s, quiet), k, last, next.now, next.deed);
    OverIsForGood(settings, Step(settings, Run(settings, s, quiet), next), later, k, next.now);
  }

  /** Disabling or deleting a user turns away every session of theirs, for good. */
  lemma DisabledUserIsOut(
    settings: Settings, s: State, token: Token, actor: Id, now: int, d: Deed, k: Token, later: seq<Action>)
    requires (d.Disable? && MayDisable(s, actor, d.id)) || (d.DeleteUser? && MayDelete(s, actor, d.id))
    requires k in s.sessions && s.sessions[k].user == d.id
    requires NotBefore(later, now) && forall i :: 0 <= i < |later| ==> !Reissues(later[i], k)
    ensures NoneAccepted(settings, Perform(s, token, actor, now, d), later, k)
  {
    OverIsForGood(settings, Perform(s, token, actor, now, d), later, k, now);
  }

  // ------------------------------------------------------------------
  // Who may do what, deed by deed
  // ------------------------------------------------------------------

  /** What the identity check asks for, and what it writes. */
  lemma IdentityMeans(settings: Settings, s: State, token: Token, now: int, id: Id)
    ensures Identity(settings, s, token, now) == Some(id) <==>
              && token in s.sessions
              && s.sessions[token].user == id
              && s.sessions[token].revoked.None?
              && now < s.sessions[token].expires
              && now - s.sessions[token].lastSeen < settings.idle
              && id in s.users && s.users[id].active
    ensures
      var after := AfterIdentity(settings, s, token, now);
      && after.users == s.users && after.failures == s.failures && after.sessions.Keys == s.sessions.Keys
      && (forall k :: k in s.sessions && k != token ==> after.sessions[k] == s.sessions[k])
      && (token in s.sessions ==>
            var was, seen := s.sessions[token], after.sessions[token];
            && seen.user == was.user && seen.expires == was.expires
            && seen.revoked ==
               (if was.revoked.None? && now < was.expires && now - was.lastSeen >= settings.idle then Some(now)
                else was.revoked)
            && seen.lastSeen ==
               (if Identity(settings, s, token, now).Some? && now - was.lastSeen >= 60_000_000 then now
                else was.lastSeen))
  {
  }

  /** Sessions of others than `user`, and other than `token`, are as they were. */
  predicate OthersKeep(before: State, after: State, token: Token, user: Option<Id>) {
    forall k :: k in before.sessions && k != token && Some(before.sessions[k].user) != user ==>
      k in after.sessions && after.sessions[k] == before.sessions[k]
  }

  /** A request without an identity changes nothing but the session it names, if there is one. */
  lemma StrangersDoNothing(settings: Settings, s: State, token: Token, now: int, deed: Deed)
    requires Identity(settings, s, token, now).None?
    ensures
      var after := Step(settings, s, Request(token, now, deed));
      && after.users == s.users && after.failures == s.failures && after.sessions.Keys == s.sessions.Keys
      && OthersKeep(s, after, token, None)
  {
  }

  /** A member changes no user and no session of anybody else. */
  lemma MembersKeepToThemselves(settings: Settings, s: State, token: Token, now: int, deed: Deed)
    requires Identity(settings, s, token, now).Some?
    requires !s.users[Identity(settings, s, token, now).value].role.Admin?
    ensures
      var after := Step(settings, s, Request(token, now, deed));
      && after.users == s.users && after.failures == s.failures && after.sessions.Keys == s.sessions.Keys
      && OthersKeep(s, after, token, Identity(settings, s, token, now))
      && (deed.CreateUser? || deed.RevokeSessions? || deed.Enable? || deed.Disable? || deed.DeleteUser? ==>
            OthersKeep(s, after, token, None))
  {
  }

  /** The session is revoked, if it was not before. */
  predicate IsEnded(before: Session, after: Session, now: int) {
    after.user == before.user && after.revoked == if before.revoked.None? then Some(now) else before.revoked
  }

  /** What each deed on one's own account does, for members and administrators alike. */
  lemma OwnDeeds(settings: Settings, s: State, token: Token, now: int, deed: Deed)
    requires Identity(settings, s, token, now).Some?
    requires deed.Browse? || deed.Logout? || deed.RevokeOwn? || deed.ChangePassword?
    ensures
      var me := Identity(settings, s, token, now);
      var after := Step(settings, s, Request(token, now, deed));
      && after.users == s.users && after.failures == s.failures && after.sessions.Keys == s.sessions.Keys
      && OthersKeep(s, after, token, me)
      && after.sessions[token].revoked == (if deed.Logout? then Some(now) else None)
      && (forall k :: k in s.sessions && k != token ==>
            if Some(s.sessions[k].user) == me && (deed.ChangePassword? || deed == RevokeOwn(k))
            then IsEnded(s.sessions[k], after.sessions[k], now)
            else after.sessions[k] == s.sessions[k])
  {
  }

  /** How a deed of the administrator `me` changes the users. */
  predicate UsersAfter(before: map<Id, User>, after: map<Id, User>, me: Id, deed: Deed) {
    match deed
    case CreateUser(id, role) => after == if id in before then before else before[id := User(role, true)]
    case Enable(id) => after == if id in before then before[id := User(before[id].role, true)] else before
    case Disable(id) =>
      after == if id in before && id != me then before[id := User(before[id].role, false)] else before
    case DeleteUser(id) => after == if id != me then before - {id} else before
    case _ => after == before
  }

  /** What each deed of an administrator does to the users. */
  lemma AdministratorsChangeUsers(settings: Settings, s: State, token: Token, now: int, deed: Deed)
    requires Identity(settings, s, token, now).Some?
    requires s.users[Identity(settings, s, token, now).value].role.Admin?
    ensures
      var me := Identity(settings, s, token, now).value;
      UsersAfter(s.users, Step(settings, s, Request(token, now, deed)).users, me, deed)
  {
    if deed.Disable? || deed.DeleteUser? {
      CountsNeverRefuse(settings, s, token, now, deed.id);
      AdminsAreKept(settings, s, token, now);
    }
  }

  lemma AdminsAreKept(settings: Settings, s: State, token: Token, now: int)
    ensures AfterIdentity(settings, s, token, now).users == s.users
  {
  }

  /** What it does to sessions: those of the user it is aimed at end or go, all others stay as they were. */
  lemma AdministratorsEndSessions(settings: Settings, s: State, token: Token, now: int, deed: Deed, k: Token)
    requires Identity(settings, s, token, now).Some?
    requires s.users[Identity(settings, s, token, now).value].role.Admin?
    requires deed.CreateUser? || deed.RevokeSessions? || deed.Enable? || deed.Disable? || deed.DeleteUser?
    requires k in s.sessions && k != token
    ensures
      var me := Identity(settings, s, token, now).value;
      var sessions := Step(settings, s, Request(token, now, deed)).sessions;
      var user := s.sessions[k].user;
      if deed == DeleteUser(user) && user != me && user in s.users then k !in sessions
      else
        && k in sessions
        && if deed == RevokeSessions(user) || (deed == Disable(user) && user != me && user in s.users)
           then IsEnded(s.sessions[k], sessions[k], now)
           else sessions[k] == s.sessions[k]
  {
    if deed.Disable? || deed.DeleteUser? {
      CountsNeverRefuse(settings, s, token, now, deed.id);
      AdminsAreKept(settings, s, token, now);
    }
  }

  /** Setting up works once; it makes an administrator and logs them in. */
  lemma SetupWorksOnce(settings: Settings, s: State, id: Id, token: Token, now: int)
    ensures
      var after := Step(settings, s, Setup(id, token, now));
      if s.users == map[] then
        && after.users == map[id := User(Admin, true)] && after.failures == s.failures
        && (token !in s.sessions ==>
              after.sessions == s.sessions[token := Session(id, now, now + settings.absolute, None)])
      else after == s
  {
  }

  /**
    * Only a login with the right password and second factor, to an active account, from an address with fewer
    * than five recent failures, makes a session, and that session is the account's and lasts for the absolute
    * period. Any other attempt is recorded as a failure, unless it was blocked.
    */
  lemma LoginNeedsProof(settings: Settings, s: State, a: Action)
    requires a.Login?
    ensures
      var after := Step(settings, s, a);
      var blocked := |RecordedSince(s.failures, a.address, a.now - 15 * 60_000_000)| >= 5;
      var good := a.proven && a.account.Some? && a.account.value in s.users && s.users[a.account.value].active;
      && after.users == s.users
      && after.failures == (if blocked || good then s.failures else s.failures + [Failure(a.address, a.now)])
      && after.sessions ==
         (if !blocked && good && a.token !in s.sessions
          then s.sessions[a.token := Session(a.account.value, a.now, a.now + settings.absolute, None)]
          else s.sessions)
  {
    BlockedByFive(s.failures, a.address, a.now);
  }

  // ------------------------------------------------------------------
  // The handlers
  // ------------------------------------------------------------------

  /** The request of `me`, whose role allows it, meets nothing in its way. */
  predicate IsFeasible(users: map<Id, User>, token: Token, me: Id, deed: Deed) {
    match deed
    case CreateUser(id, _) => id !in users
    case Enable(id) => id in users
    case Disable(id) => id in users && id != me
    case DeleteUser(id) => id in users && id != me
    case RevokeOwn(k) => k != token
    case _ => true
  }

  datatype HttpError = Unauthorized | Forbidden | Missing | Conflict | TooMany

  class Panel {
    const settings: Settings
    var users: map<Id, User>
    var sessions: map<Token, Session>
    var failures: seq<Failure>

    constructor (settings: Settings)
      ensures this.settings == settings && Now() == State(map[], map[], [])
      ensures Governed(Now()) && Throttled(Now().failures)
    {
      this.settings := settings;
      users, sessions, failures := map[], map[], [];
    }

    ghost function Now(): State
      reads this
    {
      State(users, sessions, failures)
    }

    /** `load_identity` */
    method LoadIdentity(token: Token, now: int) returns (user: Option<Id>)
      modifies this`sessions
      ensures user == Identity(settings, old(Now()), token, now)
      ensures Now() == AfterIdentity(settings, old(Now()), token, now)
      ensures user.Some? ==> user.value in users
    {
      if token !in sessions {
        return None;
      }
      var session := sessions[token];
      if session.revoked.Some? || session.expires <= now {
        return None;
      }
      if session.lastSeen + settings.idle <= now {
        sessions := sessions[token := session.(revoked := Some(now))];
        return None;
      }
      if session.user !in users || !users[session.user].active {
        return None;
      }
      if session.lastSeen + MINUTE <= now {
        sessions := sessions[token := session.(lastSeen := now)];
      }
      user := Some(session.user);
    }

    /** `create_session`; a token that is taken breaks the unique key. */
    method CreateSession(id: Id, token: Token, now: int)
      modifies this`sessions
      ensures Now() == WithSession(settings, old(Now()), id, token, now)
    {
      if token !in sessions {
        sessions := sessions[token := Session(id, now, now + settings.absolute, None)];
      }
    }

    /** `setup_admin` */
    method SetupAdmin(id: Id, token: Token, now: int) returns (r: Result<(), HttpError>)
      modifies this
      ensures Now() == Step(settings, old(Now()), Setup(id, token, now))
      ensures r.Ok? <==> old(users) == map[]
    {
      if users != map[] {
        return Err(Conflict);
      }
      users := users[id := User(Admin, true)];
      CreateSession(id, token, now);
      r := Ok(());
    }

    /** `login`; `proven` says that the password and the second factor are right. */
    method LogIn(address: Address, id: Option<Id>, proven: bool, token: Token, now: int)
      returns (r: Result<(), HttpError>)
      modifies this
      ensures Now() == Step(settings, old(Now()), Login(address, id, proven, token, now))
      ensures r == Err(TooMany) <==> IsBlocked(old(failures), address, now)
      ensures r == Err(Unauthorized) <==> failures == old(failures) + [Failure(address, now)]
    {
      if Recent(failures, address, now - WINDOW) >= ATTEMPTS {
        return Err(TooMany);
      }
      if id.None? || !proven || id.value !in users || !users[id.value].active {
        failures := failures + [Failure(address, now)];
        return Err(Unauthorized);
      }
      CreateSession(id.value, token, now);
      r := Ok(());
    }

    /** `for session in sessions: session.revoked_at = now` */
    method RevokeOpen(user: Id, spared: Option<Token>, now: int)
      modifies this`sessions
      ensures sessions == Revoked(old(sessions), user, spared, now)
    {
      var open := set k | k in sessions && IsRevocable(sessions[k], user) && Some(k) != spared;
      var before := sessions;
      while open != {}
        invariant sessions.Keys == before.Keys && open <= before.Keys
        invariant forall k :: k in open ==> IsRevocable(sessions[k], user) && Some(k) != spared
        invariant forall k :: k in before ==>
                    sessions[k] == if k in open || Some(k) == spared then before[k] else Ended(before[k], user, now)
        decreases |open|
      {
        var k :| k in open;
        sessions := sessions[k := sessions[k].(revoked := Some(now))];
        open := open - {k};
      }
    }

    /** The identity check and the guard of a request, then the request itself. */
    method Handle(token: Token, now: int, deed: Deed) returns (r: Result<(), HttpError>)
      modifies this
      ensures Now() == Step(settings, old(Now()), Request(token, now, deed))
      ensures r == Err(Unauthorized) <==> Identity(settings, old(Now()), token, now).None?
      ensures r == Err(Forbidden) <==>
                && Identity(settings, old(Now()), token, now).Some?
                && old(users)[Identity(settings, old(Now()), token, now).value].role.Member?
                && (deed.CreateUser? || deed.RevokeSessions? || deed.Enable? || deed.Disable? || deed.DeleteUser?)
      ensures Identity(settings, old(Now()), token, now).Some? && r != Err(Forbidden) ==>
                (r.Ok? <==> IsFeasible(old(users), token, Identity(settings, old(Now()), token, now).value, deed))
    {
      ghost var before := Now();
      var user := LoadIdentity(token, now);
      if user.None? {
        return Err(Unauthorized);
      }
      if NeedsAdmin(deed) && !users[user.value].role.Admin? {
        return Err(Forbidden);
      }
      match deed
      case Browse => r := Ok(());
      case Logout =>
        sessions := sessions[token := sessions[token].(revoked := Some(now))];
        r := Ok(());
      case RevokeOwn(k) => r := RevokeOwnSession(user.value, token, k, now);
      case ChangePassword =>
        RevokeOpen(user.value, Some(token), now);
        r := Ok(());
      case CreateUser(id, role) => r := AddUser(user.value, token, now, id, role);
      case RevokeSessions(id) =>
        RevokeOpen(id, None, now);
        r := Ok(());
      case Enable(id) => r := EnableUser(user.value, token, now, id);
      case Disable(id) =>
        CountsNeverRefuse(settings, before, token, now, id);
        assert MayDisable(Now(), user.value, id) <==> MayDisable(before, user.value, id);
        r := DisableUser(user.value, token, now, id);
      case DeleteUser(id) =>
        CountsNeverRefuse(settings, before, token, now, id);
        assert MayDelete(Now(), user.value, id) <==> MayDelete(before, user.value, id);
        r := RemoveUser(user.value, token, now, id);
    }

    /** `revoke_own_session` */
    method RevokeOwnSession(actor: Id, token: Token, k: Token, now: int) returns (r: Result<(), HttpError>)
      modifies this`sessions
      ensures Now() == Perform(old(Now()), token, actor, now, RevokeOwn(k))
      ensures r in {Ok(()), Err(Conflict)} && (r.Ok? <==> k != token)
    {
      if k == token {
        return Err(Conflict);
      }
      if k in sessions && sessions[k].user == actor && sessions[k].revoked.None? {
        sessions := sessions[k := sessions[k].(revoked := Some(now))];
      }
      r := Ok(());
    }

    /** `create_user`; an id in use stands for an e-mail address in use. */
    method AddUser(actor: Id, token: Token, now: int, id: Id, role: Role) returns (r: Result<(), HttpError>)
      modifies this`users
      ensures Now() == Perform(old(Now()), token, actor, now, CreateUser(id, role))
      ensures r in {Ok(()), Err(Conflict)} && (r.Ok? <==> id !in old(users))
    {
      if id in users {
        return Err(Conflict);
      }
      users := users[id := User(role, true)];
      r := Ok(());
    }

    /** `update_user_status` with "enable" */
    method EnableUser(actor: Id, token: Token, now: int, id: Id) returns (r: Result<(), HttpError>)
      modifies this`users
      ensures Now() == Perform(old(Now()), token, actor, now, Enable(id))
      ensures r in {Ok(()), Err(Missing)} && (r.Ok? <==> id in old(users))
    {
      if id !in users {
        return Err(Missing);
      }
      users := users[id := users[id].(active := true)];
      r := Ok(());
    }

    /** `update_user_status` with "disable" */
    method DisableUser(actor: Id, token: Token, now: int, id: Id) returns (r: Result<(), HttpError>)
      modifies this`users, this`sessions
      ensures Now() == Perform(old(Now()), token, actor, now, Disable(id))
      ensures r in {Ok(()), Err(Missing), Err(Conflict)} && (r.Ok? <==> MayDisable(old(Now()), actor, id))
    {
      if id == actor {
        return Err(Conflict);
      }
      if id !in users {
        return Err(Missing);
      }
      if users[id].role.Admin? && users[id].active {
        var activeAdmins := |ActiveAdmins(users)|;
        if activeAdmins <= 1 {
          return Err(Conflict);
        }
      }
      users := users[id := users[id].(active := false)];
      RevokeOpen(id, None, now);
      r := Ok(());
    }

    /** `delete_user`, which takes the sessions with it */
    method RemoveUser(actor: Id, token: Token, now: int, id: Id) returns (r: Result<(), HttpError>)
      modifies this`users, this`sessions
      ensures Now() == Perform(old(Now()), token, actor, now, DeleteUser(id))
      ensures r in {Ok(()), Err(Missing), Err(Conflict)} && (r.Ok? <==> MayDelete(old(Now()), actor, id))
    {
      if id == actor {
        return Err(Conflict);
      }
      if id !in users {
        return Err(Missing);
      }
      if users[id].role.Admin? {
        var adminCount := |Admins(users)|;
        if adminCount <= 1 {
          return Err(Conflict);
        }
      }
      users := users - {id};
      sessions := map k | k in sessions && sessions[k].user != id :: sessions[k];
      r := Ok(());
    }
  }
}
