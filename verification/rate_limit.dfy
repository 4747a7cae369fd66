/** The chat API's sliding-window rate limiter: the route table lookup, the
    per-request check made by the middleware, and the `RateLimiter.is_allowed`
    utility.

    The Redis sorted set behind each limiter key is a map from member name to
    score. The clock is the `now` parameter (whole seconds). The Redis
    connection is a `Backend`: absent, failing on every command, or up.

    As written, the check never reaches its sliding window (`DispatchAsWritten`,
    `IsAllowedAsWritten`): every request is let through. `CheckRateLimit`,
    `Dispatch` and `IsAllowed` are the corrected limiter, which reads each
    pipelined reply and so decides by the window. */
module RateLimit {
  import opened Wrappers
  import Seqs

  datatype LimitConfig = LimitConfig(requests: int, window: int)

  /** The settings the limiter reads, with their configured defaults. */
  datatype Settings = Settings(authRateLimit: int, messageRateLimit: int, adminRateLimit: int,
                               rateLimitRequests: int, rateLimitWindow: int)

  const DEFAULT_SETTINGS := Settings(5, 60, 100, 100, 60)

  /** Path patterns with their limits, in the order the dictionary was built. */
  type Table = seq<(string, LimitConfig)>

  function PathLimits(s: Settings): Table {
    [("/api/v1/auth/login", LimitConfig(s.authRateLimit, 60)),
     ("/api/v1/chat/messages", LimitConfig(s.messageRateLimit, 60)),
     ("/api/v1/admin", LimitConfig(s.adminRateLimit, 60))]
  }

  function DefaultLimit(s: Settings): LimitConfig {
    LimitConfig(s.rateLimitRequests, s.rateLimitWindow)
  }

  /** A dictionary has each key once. */
  predicate UniqueKeys(t: Table) {
    forall i, j :: 0 <= i < j < |t| ==> t[i].0 != t[j].0
  }

  /** Position of the first pattern equal to `path`. */
  function FindExact(t: Table, path: string): (r: Option<nat>)
    ensures r.Some? ==> r.value < |t| && t[r.value].0 == path && forall j :: 0 <= j < r.value ==> t[j].0 != path
    ensures r.None? ==> forall j :: 0 <= j < |t| ==> t[j].0 != path
  {
    if |t| == 0 then None
    else if t[0].0 == path then Some(0)
    else match FindExact(t[1..], path)
      case None => None
      case Some(i) => Some(i + 1)
  }

  /** Position of the first pattern that `path` starts with. */
  function FindPrefix(t: Table, path: string): (r: Option<nat>)
    ensures r.Some? ==> r.value < |t| && Seqs.IsPrefix(t[r.value].0, path) && forall j :: 0 <= j < r.value ==> !Seqs.IsPrefix(t[j].0, path)
    ensures r.None? ==> forall j :: 0 <= j < |t| ==> !Seqs.IsPrefix(t[j].0, path)
  {
    if |t| == 0 then None
    else if Seqs.IsPrefix(t[0].0, path) then Some(0)
    else match FindPrefix(t[1..], path)
      case None => None
      case Some(i) => Some(i + 1)
  }

  /** `_get_limit_config`: an exact match wins; otherwise the first pattern the
      path starts with; otherwise the default limit. */
  function GetLimitConfig(t: Table, default: LimitConfig, path: string): (c: LimitConfig)
    requires UniqueKeys(t)
    ensures forall i :: 0 <= i < |t| && t[i].0 == path ==> c == t[i].1
    ensures (forall j :: 0 <= j < |t| ==> t[j].0 != path) ==>
              forall i :: 0 <= i < |t| && Seqs.IsPrefix(t[i].0, path) && (forall j :: 0 <= j < i ==> !Seqs.IsPrefix(t[j].0, path)) ==> c == t[i].1
    ensures (forall j :: 0 <= j < |t| ==> !Seqs.IsPrefix(t[j].0, path)) ==> c == default
  {
    match FindExact(t, path)
    case Some(i) => t[i].1
    case None =>
      match FindPrefix(t, path)
      case Some(i) => t[i].1
      case None => default
  }

  /** No pattern of the table starts another one. */
  predicate PrefixFree(t: Table) {
    forall i, j :: 0 <= i < |t| && 0 <= j < |t| && i != j ==> !Seqs.IsPrefix(t[i].0, t[j].0)
  }

  /** When no pattern starts another, the exact-match step changes nothing: the
      lookup is the first prefix match or the default. */
  lemma ExactStepIsRedundant(t: Table, default: LimitConfig, path: string)
    requires UniqueKeys(t) && PrefixFree(t)
    ensures GetLimitConfig(t, default, path) == match FindPrefix(t, path) { case Some(i) => t[i].1 case None => default }
  {
    match FindExact(t, path)
    case None =>
    case Some(i) =>
      assert Seqs.IsPrefix(t[i].0, path);
  }

  lemma ConfiguredTableIsPrefixFree(s: Settings)
    ensures UniqueKeys(PathLimits(s)) && PrefixFree(PathLimits(s))
  {
    var t := PathLimits(s);
    assert t[0].0[9] == 'u' && t[1].0[9] == 'h' && t[2].0[9] == 'd';
  }

  /** Every path under the admin prefix gets the admin limit. */
  lemma AdminPathsUseAdminLimit(s: Settings, path: string)
    requires Seqs.IsPrefix("/api/v1/admin", path)
    ensures GetLimitConfig(PathLimits(s), DefaultLimit(s), path) == LimitConfig(s.adminRateLimit, 60)
  {
    var t := PathLimits(s);
    ConfiguredTableIsPrefixFree(s);
    assert path[9] == "/api/v1/admin"[9] == 'd';
    assert t[0].0[9] == 'u' && t[1].0[9] == 'h';
    assert !Seqs.IsPrefix(t[0].0, path) && !Seqs.IsPrefix(t[1].0, path);
    assert Seqs.IsPrefix(t[2].0, path);
  }

  // ----- sorted sets -----

  /** A Redis sorted set: member name to score. */
  type ZSet = map<string, int>

  datatype Backend = NoClient | Broken | Up(sets: map<string, ZSet>)

  function ZOf(sets: map<string, ZSet>, key: string): ZSet {
    if key in sets then sets[key] else map[]
  }

  /** `ZREMRANGEBYSCORE key 0 (now - window)`: bounds are inclusive. */
  function Prune(z: ZSet, now: int, window: int): (r: ZSet)
    ensures r.Keys <= z.Keys
    ensures forall m :: m in r ==> r[m] == z[m] && (z[m] < 0 || z[m] > now - window)
    ensures forall m :: m in z && z[m] > now - window ==> m in r
  {
    map m | m in z && !(0 <= z[m] <= now - window) :: z[m]
  }

  /** Discarding once per instant is enough, and a later discard subsumes an
      earlier one. */
  lemma PruneLater(z: ZSet, earlier: int, later: int, window: int)
    requires earlier <= later
    ensures Prune(Prune(z, earlier, window), later, window) == Prune(z, later, window)
  {
  }

  /** One sliding-window step on a pruned set of `count` members: reject when
      the count has reached the limit, otherwise record `member` at `now`. */
  datatype Step = Step(admitted: bool, count: int, after: ZSet)

  function WindowStep(z: ZSet, now: int, window: int, limit: int, member: string): (r: Step)
    ensures r.count == |Prune(z, now, window)|
    ensures r.admitted <==> r.count < limit
    ensures !r.admitted ==> r.after == Prune(z, now, window)
    ensures r.admitted ==> r.after.Keys == Prune(z, now, window).Keys + {member} && r.after[member] == now
    ensures r.admitted ==> forall m :: m in r.after && m != member ==> r.after[m] == z[m]
  {
    var p := Prune(z, now, window);
    if |p| >= limit then Step(false, |p|, p)
    else Step(true, |p|, p[member := now])
  }

  /** The member name the source records: the decimal rendering of the second. */
  function SecondsMember(now: int): string {
    Seqs.IntText(now)
  }

  /** Requests with the given member names, all in the same second: how many
      are admitted, and the set left behind. */
  function Burst(z: ZSet, now: int, window: int, limit: int, members: seq<string>): (nat, ZSet)
    decreases |members|
  {
    if |members| == 0 then (0, z)
    else
      var s := WindowStep(z, now, window, limit, members[0]);
      var rest := Burst(s.after, now, window, limit, members[1..]);
      (rest.0 + (if s.admitted then 1 else 0), rest.1)
  }

  function Repeat(m: string, n: nat): (r: seq<string>)
    ensures |r| == n
  {
    if n == 0 then [] else [m] + Repeat(m, n - 1)
  }

  /** `n` requests in the same second as the source records them: every one
      under the name of that second. */
  function BurstAsWritten(z: ZSet, now: int, window: int, limit: int, n: nat): (nat, ZSet) {
    Burst(z, now, window, limit, Repeat(SecondsMember(now), n))
  }

  /** Same-second requests share one member, so once two slots are free a burst
      of any length is admitted in full. */
  lemma SameSecondBurstAllAdmitted(z: ZSet, now: int, window: int, limit: int, n: nat)
    requires window > 0 && |Prune(z, now, window)| + 1 < limit
    ensures BurstAsWritten(z, now, window, limit, n).0 == n
  {
    RepeatedMemberAdmitted(z, now, window, limit, SecondsMember(now), n);
  }

  lemma {:induction false} RepeatedMemberAdmitted(z: ZSet, now: int, window: int, limit: int, m: string, n: nat)
    requires window > 0 && |Prune(z, now, window)| + 1 < limit
    ensures Burst(z, now, window, limit, Repeat(m, n)).0 == n
  {
    if n > 0 {
      var s := WindowStep(z, now, window, limit, m);
      StepWithRoom(z, now, window, limit, m);
      assert Repeat(m, n)[0] == m && Repeat(m, n)[1..] == Repeat(m, n - 1);
      HeldMemberAdmitted(s.after, now, window, limit, m, n - 1);
    }
  }

  /** A step with two free slots admits, and leaves a pruned set that holds the
      member and still has a free slot. */
  lemma StepWithRoom(z: ZSet, now: int, window: int, limit: int, m: string)
    requires window > 0 && |Prune(z, now, window)| + 1 < limit
    ensures var s := WindowStep(z, now, window, limit, m);
            s.admitted && Prune(s.after, now, window) == s.after && m in s.after && s.after[m] == now && |s.after| < limit
  {
    var p := Prune(z, now, window);
    var s := WindowStep(z, now, window, limit, m);
    assert s.after == p[m := now];
  }

  /** A pruned set that already holds the member at this second and has room
      admits every further request under that member. */
  lemma {:induction false} HeldMemberAdmitted(z: ZSet, now: int, window: int, limit: int, m: string, n: nat)
    requires window > 0 && m in z && z[m] == now
    requires Prune(z, now, window) == z && |z| < limit
    ensures Burst(z, now, window, limit, Repeat(m, n)).0 == n
  {
    if n > 0 {
      var s := WindowStep(z, now, window, limit, m);
      assert s.after == z;
      assert Repeat(m, n)[1..] == Repeat(m, n - 1);
      HeldMemberAdmitted(z, now, window, limit, m, n - 1);
    }
  }

  /** With a distinct, new member per request, a same-second burst is admitted
      at most up to the limit's free slots. */
  lemma {:induction false} DistinctMembersBounded(z: ZSet, now: int, window: int, limit: int, members: seq<string>)
    requires window > 0
    requires forall i, j :: 0 <= i < j < |members| ==> members[i] != members[j]
    requires forall i :: 0 <= i < |members| ==> members[i] !in z
    ensures Burst(z, now, window, limit, members).0 <= if limit > |Prune(z, now, window)| then limit - |Prune(z, now, window)| else 0
    decreases |members|
  {
    if |members| > 0 {
      var s := WindowStep(z, now, window, limit, members[0]);
      var p := Prune(z, now, window);
      assert Prune(s.after, now, window) == s.after;
      forall i | 0 <= i < |members[1..]|
        ensures members[1..][i] !in s.after
      {
        assert members[1..][i] == members[i + 1];
      }
      if s.admitted {
        assert members[0] !in p;
        assert s.after.Keys == p.Keys + {members[0]};
        assert |s.after.Keys| == |p.Keys| + 1;
      }
      DistinctMembersBounded(s.after, now, window, limit, members[1..]);
    }
  }

  /** The burst that tells the two member namings apart: limit 2, three
      requests in one second on a new key. */
  lemma ThreeRequestsLimitTwo()
    ensures BurstAsWritten(map[], 100, 60, 2, 3).0 == 3
    ensures Burst(map[], 100, 60, 2, ["r1", "r2", "r3"]).0 <= 2
  {
    assert Prune(map[], 100, 60) == map[];
    SameSecondBurstAllAdmitted(map[], 100, 60, 2, 3);
    DistinctMembersBounded(map[], 100, 60, 2, ["r1", "r2", "r3"]);
  }

  // ----- the middleware check -----

  /** The rate limit admits the request, or fails with the details of `RateLimitException`. */
  datatype Check = Pass | Exceeded(limit: int, window: int, current: int, resetTime: int)

  function Key(clientId: string, path: string): string {
    "rate_limit:" + clientId + ":" + path
  }

  /** Python's `%`, whose result takes the divisor's sign. */
  function PyMod(a: int, b: int): (r: int)
    requires b != 0
    ensures b > 0 ==> 0 <= r < b
    ensures b < 0 ==> b < r <= 0
    ensures b > 0 ==> r == a % b
  {
    if b > 0 then a % b else -((-a) % (-b))
  }

  /** `_check_rate_limit`, corrected: the count is the reply of `ZCARD` after
      the pruning, and the recorded member name is a parameter. A zero window
      raises in the modulo and, like a missing client or a failing backend,
      lets the request through with nothing recorded. */
  function CheckRateLimit(b: Backend, clientId: string, path: string, cfg: LimitConfig, now: int, member: string): (r: (Check, Backend))
    ensures cfg.window == 0 || !b.Up? ==> r == (Pass, b)
    ensures r.0.Exceeded? ==> b.Up? && cfg.window != 0 && r.0.limit == cfg.requests && r.0.window == cfg.window
    ensures r.0.Exceeded? ==> r.0.current >= cfg.requests
    ensures r.0.Exceeded? && cfg.window > 0 ==> now < r.0.resetTime <= now + cfg.window
    ensures b.Up? && cfg.window != 0 ==>
              var key := Key(clientId, path);
              var s := WindowStep(ZOf(b.sets, key), now, cfg.window, cfg.requests, member);
              r.1 == Up(b.sets[key := s.after]) && (r.0.Pass? <==> s.admitted)
  {
    if cfg.window == 0 then (Pass, b)
    else match b
      case NoClient => (Pass, b)
      case Broken => (Pass, b)
      case Up(sets) =>
        var key := Key(clientId, path);
        var s := WindowStep(ZOf(sets, key), now, cfg.window, cfg.requests, member);
        if s.admitted then (Pass, Up(sets[key := s.after]))
        else
          var windowStart := now - PyMod(now, cfg.window);
          (Exceeded(cfg.requests, cfg.window, s.count, windowStart + cfg.window), Up(sets[key := s.after]))
  }

  /** `dispatch`, corrected: with limiting disabled every request passes;
      otherwise the path's limit is looked up and checked by the window. */
  function Dispatch(settings: Settings, enabled: bool, b: Backend, clientId: string, path: string, now: int, member: string): (r: (Check, Backend))
    ensures !enabled ==> r == (Pass, b)
    ensures enabled ==>
              (ConfiguredTableIsPrefixFree(settings);
               r == CheckRateLimit(b, clientId, path, GetLimitConfig(PathLimits(settings), DefaultLimit(settings), path), now, member))
  {
    if !enabled then (Pass, b)
    else
      ConfiguredTableIsPrefixFree(settings);
      CheckRateLimit(b, clientId, path, GetLimitConfig(PathLimits(settings), DefaultLimit(settings), path), now, member)
  }

  // ----- the middleware as written -----

  /** What the limiter's `self.redis` is bound to. Constructed without a
      client, as the application registers the middleware, it is the imported
      module attribute `redis_manager`, which is `None` at import time and is
      never rebound in the importing module (the manager is created lazily by
      `get_redis_manager`). An injected manager carries a backend. */
  datatype Binding = ImportedNone | Injected(backend: Backend)

  /** `_check_rate_limit` as written. Every way through it lets the request
      pass and leaves the store as it was:
      - a zero window raises `ZeroDivisionError` in the modulo;
      - with the `None` binding, reading `.client` raises `AttributeError`;
      - a manager without a client returns early;
      - a failing backend raises;
      - on a live backend each command is awaited on a `redis.asyncio`
        pipeline, where queuing a command and awaiting the pipeline both give
        back the pipeline itself, so `current_requests` is the pipeline and
        `current_requests >= max_requests` raises `TypeError`. The queued
        commands are never executed.
      Every exception other than `RateLimitException` is caught and logged. */
  function CheckRateLimitAsWritten(bind: Binding, clientId: string, path: string, cfg: LimitConfig, now: int): (r: (Check, Binding))
    ensures r.0 == Pass
    ensures r.1 == bind
  {
    if cfg.window == 0 then (Pass, bind)
    else match bind
      case ImportedNone => (Pass, bind)
      case Injected(NoClient) => (Pass, bind)
      case Injected(Broken) => (Pass, bind)
      case Injected(Up(_)) => (Pass, bind)
  }

  /** `dispatch` as written: no request is ever rejected, whatever the
      configuration, the path or the state of the window. */
  function DispatchAsWritten(settings: Settings, enabled: bool, bind: Binding, clientId: string, path: string, now: int): (r: (Check, Binding))
    ensures r.0 == Pass && r.1 == bind
    ensures enabled ==>
              (ConfiguredTableIsPrefixFree(settings);
               r == CheckRateLimitAsWritten(bind, clientId, path, GetLimitConfig(PathLimits(settings), DefaultLimit(settings), path), now))
  {
    if !enabled then (Pass, bind)
    else
      ConfiguredTableIsPrefixFree(settings);
      CheckRateLimitAsWritten(bind, clientId, path, GetLimitConfig(PathLimits(settings), DefaultLimit(settings), path), now)
  }

  /** Where the two part: on a window already holding `requests` entries the
      corrected check rejects with the limit's details, while the check as
      written lets the request through and records nothing. */
  lemma FullWindowIgnoredAsWritten(sets: map<string, ZSet>, clientId: string, path: string, cfg: LimitConfig, now: int, member: string)
    requires cfg.window > 0
    requires |Prune(ZOf(sets, Key(clientId, path)), now, cfg.window)| >= cfg.requests
    ensures CheckRateLimit(Up(sets), clientId, path, cfg, now, member).0 == Exceeded(cfg.requests, cfg.window, |Prune(ZOf(sets, Key(clientId, path)), now, cfg.window)|, now - now % cfg.window + cfg.window)
    ensures CheckRateLimitAsWritten(Injected(Up(sets)), clientId, path, cfg, now) == (Pass, Injected(Up(sets)))
  {
  }

  /** The admin route with limit 1: a second request in the window is rejected
      by the corrected middleware and let through as written. */
  lemma SecondAdminRequestInWindow(sets: map<string, ZSet>, clientId: string, now: int)
    ensures var s := DEFAULT_SETTINGS.(adminRateLimit := 1);
            var key := Key(clientId, "/api/v1/admin/users");
            var first := Dispatch(s, true, Up(map[key := map[]]), clientId, "/api/v1/admin/users", now, "a");
            && first.0 == Pass
            && Dispatch(s, true, first.1, clientId, "/api/v1/admin/users", now, "b").0.Exceeded?
            && DispatchAsWritten(s, true, Injected(first.1), clientId, "/api/v1/admin/users", now).0 == Pass
  {
    var s := DEFAULT_SETTINGS.(adminRateLimit := 1);
    var path := "/api/v1/admin/users";
    AdminPathsUseAdminLimit(s, path);
    var key := Key(clientId, path);
    assert Prune(map[], now, 60) == map[];
    var first := Dispatch(s, true, Up(map[key := map[]]), clientId, path, now, "a");
    assert first.1 == Up(map[key := map[]][key := map["a" := now]]);
    assert ZOf(first.1.sets, key) == map["a" := now];
    assert Prune(map["a" := now], now, 60) == map["a" := now];
  }

  // ----- RateLimiter.is_allowed -----

  datatype Info =
    | Denied(limit: int, current: int, window: int, resetTime: int)
    | Granted(limit: int, current: int, remaining: int, window: int, resetTime: int)
    | FailedOpen

  /** `is_allowed` returns the integer 0 without a client, a pair otherwise. */
  datatype Verdict = NoClientZero | Decided(allowed: bool, info: Info)

  /** The limiter key; an empty identifier adds nothing. */
  function FullKey(key: string, identifier: string): string {
    "rate_limit:" + key + (if identifier != "" then ":" + identifier else "")
  }

  /** `is_allowed`, corrected: the count is the reply of `ZCARD` after the
      pruning; the request is granted iff it is below the limit. */
  function IsAllowed(b: Backend, key: string, identifier: string, limit: int, window: int, now: int, member: string): (r: (Verdict, Backend))
    ensures b.NoClient? ==> r == (NoClientZero, b)
    ensures b.Broken? ==> r == (Decided(true, FailedOpen), b)
    ensures r.0.Decided? && !r.0.allowed ==> r.0.info.Denied? && r.0.info.current >= limit && r.0.info.resetTime == now + window
    ensures r.0.Decided? && r.0.info.Granted? ==>
              r.0.allowed && r.0.info.current <= limit && r.0.info.remaining == limit - r.0.info.current && r.0.info.remaining >= 0
    ensures b.Up? ==>
              var fk := FullKey(key, identifier);
              var s := WindowStep(ZOf(b.sets, fk), now, window, limit, member);
              r.1 == Up(b.sets[fk := s.after]) && r.0.Decided? && (r.0.allowed <==> s.admitted) && !r.0.info.FailedOpen?
  {
    match b
    case NoClient => (NoClientZero, b)
    case Broken => (Decided(true, FailedOpen), b)
    case Up(sets) =>
      var fk := FullKey(key, identifier);
      var s := WindowStep(ZOf(sets, fk), now, window, limit, member);
      if !s.admitted then (Decided(false, Denied(limit, s.count, window, now + window)), Up(sets[fk := s.after]))
      else (Decided(true, Granted(limit, s.count + 1, limit - s.count - 1, window, now + window)), Up(sets[fk := s.after]))
  }

  /** `is_allowed` as written: a manager without a client gives the integer 0;
      every other call fails open. With the `None` binding `.client` raises
      `AttributeError`, a failing backend raises, and on a live backend
      `current_count >= limit` compares the awaited pipeline with an int and
      raises `TypeError`; the handler answers `(True, {"allowed": True,
      "error": ...})`. Nothing is recorded. */
  function IsAllowedAsWritten(bind: Binding, key: string, identifier: string, limit: int, window: int, now: int): (r: (Verdict, Binding))
    ensures r.1 == bind
    ensures r.0 == NoClientZero <==> bind == Injected(NoClient)
    ensures r.0 != NoClientZero ==> r.0 == Decided(true, FailedOpen)
  {
    match bind
    case ImportedNone => (Decided(true, FailedOpen), bind)
    case Injected(NoClient) => (NoClientZero, bind)
    case Injected(Broken) => (Decided(true, FailedOpen), bind)
    case Injected(Up(_)) => (Decided(true, FailedOpen), bind)
  }

  /** Where the two part: on a full window the corrected limiter denies, with
      the count and the reset time, while the limiter as written grants with
      an error in place of the limit's details. */
  lemma IsAllowedFailsOpenAsWritten(sets: map<string, ZSet>, key: string, identifier: string, limit: int, window: int, now: int, member: string)
    requires |Prune(ZOf(sets, FullKey(key, identifier)), now, window)| >= limit
    ensures IsAllowed(Up(sets), key, identifier, limit, window, now, member).0 ==
              Decided(false, Denied(limit, |Prune(ZOf(sets, FullKey(key, identifier)), now, window)|, window, now + window))
    ensures IsAllowedAsWritten(Injected(Up(sets)), key, identifier, limit, window, now).0 == Decided(true, FailedOpen)
  {
  }
}
