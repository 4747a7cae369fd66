/** The chat core's WebSocket error handler: the close-code table and the
    close policy built on it (reconnect or not, abnormal or not, how long to
    wait), and the per-type error statistics that decide whether an error is
    followed by a reconnect.

    The clock is a parameter (the ISO timestamp an error is stamped with), and
    so is the error's type: sorting a message into a type is regular-expression
    matching that is not part of this model. */
module WsErrors {
  import Seqs

  datatype Severity = Info | Warn | Error

  datatype CodeInfo = CodeInfo(name: string, description: string, severity: Severity)

  /** The named close codes, 1000 to 1015 (section 7.4.1 of RFC 6455). */
  const ERROR_CODES: map<int, CodeInfo> := map[
    1000 := CodeInfo("NORMAL_CLOSURE", "Normal closure", Info),
    1001 := CodeInfo("GOING_AWAY", "Going away", Info),
    1002 := CodeInfo("PROTOCOL_ERROR", "Protocol error", Error),
    1003 := CodeInfo("UNSUPPORTED_DATA", "Unsupported data", Error),
    1004 := CodeInfo("RESERVED", "Reserved", Warn),
    1005 := CodeInfo("NO_STATUS_RCVD", "No status received", Warn),
    1006 := CodeInfo("ABNORMAL_CLOSURE", "Abnormal closure", Error),
    1007 := CodeInfo("INVALID_FRAME_PAYLOAD_DATA", "Invalid frame payload data", Error),
    1008 := CodeInfo("POLICY_VIOLATION", "Policy violation", Error),
    1009 := CodeInfo("MESSAGE_TOO_BIG", "Message too big", Error),
    1010 := CodeInfo("MANDATORY_EXTENSION", "Mandatory extension", Error),
    1011 := CodeInfo("INTERNAL_ERROR", "Internal server error", Error),
    1012 := CodeInfo("SERVICE_RESTART", "Service restart", Warn),
    1013 := CodeInfo("TRY_AGAIN_LATER", "Try again later", Warn),
    1014 := CodeInfo("BAD_GATEWAY", "Bad gateway", Error),
    1015 := CodeInfo("TLS_HANDSHAKE", "TLS handshake failure", Error)
  ]

  /** Exactly the codes 1000 to 1015 are named. */
  lemma NamedCodesAreARange(code: int)
    ensures code in ERROR_CODES <==> 1000 <= code <= 1015
  {
    if 1000 <= code <= 1015 {
      assert code in {1000, 1001, 1002, 1003, 1004, 1005, 1006, 1007, 1008, 1009, 1010, 1011, 1012, 1013, 1014, 1015};
    }
  }

  // ---------------------------------------------------------------------------
  // Close policy

  /** Codes after which the client stays disconnected. */
  const NO_RECONNECT_CODES: set<int> := {1000, 1001, 1008, 1011}

  /** Codes that mark an abnormal closure. */
  const ABNORMAL_CODES: set<int> := {1002, 1006, 1007, 1009, 1011, 1014, 1015}

  /** `_shouldReconnectOnClose`: reconnect unless the closure was normal, the
      peer is going away, or it was a policy violation or an internal error. */
  predicate ShouldReconnectOnClose(code: int) {
    code !in NO_RECONNECT_CODES
  }

  /** `_isAbnormalClose`. */
  predicate IsAbnormalClose(code: int) {
    code in ABNORMAL_CODES
  }

  /** The final closures are named ones: normal closure and going away are
      informational, a policy violation is an error, and an internal error is
      the one closure both abnormal and final. Every abnormal closure is a
      named code at error severity. */
  lemma ClosePolicyAgreesWithTable(code: int)
    ensures !ShouldReconnectOnClose(code) ==> code in ERROR_CODES
    ensures !ShouldReconnectOnClose(code) ==> (ERROR_CODES[code].severity == Info <==> code in {1000, 1001})
    ensures !ShouldReconnectOnClose(code) && IsAbnormalClose(code) <==> code == 1011
    ensures IsAbnormalClose(code) ==> code in ERROR_CODES && ERROR_CODES[code].severity == Error
  {
    if !ShouldReconnectOnClose(code) {
      assert code in {1000, 1001, 1008, 1011};
    }
    if IsAbnormalClose(code) {
      assert code in {1002, 1006, 1007, 1009, 1011, 1014, 1015};
    }
  }

  /** `_getRecoveryDelay`, in milliseconds: quick after an abnormal closure,
      longer after a restart, longest when told to try again later. */
  function RecoveryDelay(code: int): (ms: nat)
    ensures 1000 <= ms <= 10000
    ensures ms == 1000 <==> code == 1006
    ensures ms == 5000 <==> code == 1012
    ensures ms == 10000 <==> code == 1013
    ensures ms == 2000 <==> code !in {1006, 1012, 1013}
  {
    if code == 1006 then 1000
    else if code == 1012 then 5000
    else if code == 1013 then 10000
    else 2000
  }

  datatype CloseInfo = CloseInfo(code: int, reason: string, name: string, description: string, severity: Severity, isAbnormal: bool)

  /** `_analyzeCloseCode`: a named code reports its table entry; any other
      code is `UNKNOWN`, described with its number, at warning severity. */
  function AnalyzeCloseCode(code: int, reason: string): (r: CloseInfo)
    ensures r.code == code && r.reason == reason && r.isAbnormal == IsAbnormalClose(code)
    ensures code in ERROR_CODES ==>
              r.name == ERROR_CODES[code].name && r.description == ERROR_CODES[code].description &&
              r.severity == ERROR_CODES[code].severity
    ensures code !in ERROR_CODES ==>
              r.name == "UNKNOWN" && r.severity == Warn && Seqs.IsPrefix("Unknown close code: ", r.description) &&
              r.description[|"Unknown close code: "|..] == Seqs.IntText(code)
  {
    var info := if code in ERROR_CODES then ERROR_CODES[code]
                else CodeInfo("UNKNOWN", "Unknown close code: " + Seqs.IntText(code), Warn);
    CloseInfo(code, reason, info.name, info.description, info.severity, IsAbnormalClose(code))
  }

  datatype CloseOutcome = CloseOutcome(info: CloseInfo, shouldReconnect: bool, recoveryDelay: nat)

  /** `handleClose`: the analysis of the code with the reconnect decision and
      the delay before it. */
  function HandleClose(code: int, reason: string): (r: CloseOutcome)
    ensures r.info == AnalyzeCloseCode(code, reason)
    ensures r.shouldReconnect == ShouldReconnectOnClose(code) && r.recoveryDelay == RecoveryDelay(code)
  {
    CloseOutcome(AnalyzeCloseCode(code, reason), ShouldReconnectOnClose(code), RecoveryDelay(code))
  }

  /** A code outside the table is reported at warning severity, counts as
      normal, and is followed by a reconnect after the default two seconds. */
  lemma UnknownCloseReconnects(code: int, reason: string)
    requires code !in ERROR_CODES
    ensures var r := HandleClose(code, reason);
            r.info.name == "UNKNOWN" && r.info.severity == Warn && !r.info.isAbnormal &&
            r.shouldReconnect && r.recoveryDelay == 2000
  {
    if code in NO_RECONNECT_CODES || code in ABNORMAL_CODES {
      NamedCodesAreARange(code);
    }
  }

  // ---------------------------------------------------------------------------
  // Error statistics and recovery strategies

  /** A recovery strategy. `retryBelow` is the bound its `shouldRetry` tests
      the error count against; `refusesInvalidCredentials` marks the one that
      also gives up on a message mentioning invalid credentials. The backoff
      factor is kept in tenths. */
  datatype Strategy = Strategy(maxRetries: nat, baseDelay: nat, maxDelay: nat, backoffTenths: nat,
                               retryBelow: nat, refusesInvalidCredentials: bool)

  const STRATEGIES: map<string, Strategy> := map[
    "connection" := Strategy(5, 1000, 30000, 20, 5, false),
    "authentication" := Strategy(3, 2000, 10000, 15, 3, true),
    "rateLimit" := Strategy(10, 5000, 60000, 15, 10, false)
  ]

  /** Every strategy's retry test uses its own `maxRetries` as the bound. */
  lemma StrategiesRetryUpToMax(t: string)
    requires t in STRATEGIES
    ensures STRATEGIES[t].retryBelow == STRATEGIES[t].maxRetries >= 1
  {
  }

  /** A strategy's `shouldRetry`, given how many errors of its type were counted. */
  predicate ShouldRetry(s: Strategy, message: string, attempt: nat) {
    attempt < s.retryBelow && !(s.refusesInvalidCredentials && Seqs.IsInfix("invalid credentials", message))
  }

  /** `_getRecoveryStrategy`: the type's own strategy, else the connection one. */
  function RecoveryStrategy(errorType: string): (s: Strategy)
    ensures errorType in STRATEGIES ==> s == STRATEGIES[errorType]
    ensures errorType !in STRATEGIES ==> s == STRATEGIES["connection"]
  {
    if errorType in STRATEGIES then STRATEGIES[errorType] else STRATEGIES["connection"]
  }

  datatype Stat = Stat(count: nat, lastOccurrence: string)

  type Stats = map<string, Stat>

  /** `_getErrorCount`: zero for a type never seen. */
  function ErrorCount(stats: Stats, errorType: string): nat {
    if errorType in stats then stats[errorType].count else 0
  }

  /** `_updateErrorStats`: the error's type is counted once more and stamped;
      every other type keeps its entry. */
  function UpdateErrorStats(stats: Stats, errorType: string, timestamp: string): (r: Stats)
    ensures r.Keys == stats.Keys + {errorType}
    ensures forall t :: ErrorCount(r, t) == ErrorCount(stats, t) + (if t == errorType then 1 else 0)
    ensures r[errorType].lastOccurrence == timestamp
    ensures forall t :: t in stats && t != errorType ==> r[t] == stats[t]
  {
    stats[errorType := Stat(ErrorCount(stats, errorType) + 1, timestamp)]
  }

  /** `_shouldReconnect`: a type without a strategy always reconnects; otherwise
      its strategy decides on the type's error count. */
  predicate ShouldReconnect(stats: Stats, errorType: string, message: string) {
    errorType !in STRATEGIES || ShouldRetry(STRATEGIES[errorType], message, ErrorCount(stats, errorType))
  }

  datatype ErrorOutcome = ErrorOutcome(shouldReconnect: bool, strategy: Strategy, stats: Stats)

  /** `handleError` as written: the error is counted first, and the reconnect
      decision then sees a count that already includes it. */
  function HandleErrorAsWritten(stats: Stats, errorType: string, message: string, timestamp: string): (r: ErrorOutcome)
    ensures r.stats == UpdateErrorStats(stats, errorType, timestamp)
    ensures r.strategy == RecoveryStrategy(errorType)
    ensures errorType in STRATEGIES ==>
              (r.shouldReconnect <==> ShouldRetry(STRATEGIES[errorType], message, ErrorCount(stats, errorType) + 1))
  {
    var counted := UpdateErrorStats(stats, errorType, timestamp);
    ErrorOutcome(ShouldReconnect(counted, errorType, message), RecoveryStrategy(errorType), counted)
  }

  /** `handleError` with the decision taken on the errors counted before this
      one, so that a strategy allows `maxRetries` reconnects. */
  function HandleError(stats: Stats, errorType: string, message: string, timestamp: string): (r: ErrorOutcome)
    ensures r.stats == UpdateErrorStats(stats, errorType, timestamp)
    ensures r.strategy == RecoveryStrategy(errorType)
    ensures errorType in STRATEGIES ==>
              (r.shouldReconnect <==> ShouldRetry(STRATEGIES[errorType], message, ErrorCount(stats, errorType)))
  {
    ErrorOutcome(ShouldReconnect(stats, errorType, message), RecoveryStrategy(errorType), UpdateErrorStats(stats, errorType, timestamp))
  }

  /** How many of `n` consecutive errors of one type are followed by a
      reconnect, handled as written or as corrected. */
  function Reconnects(stats: Stats, errorType: string, message: string, timestamp: string, n: nat, asWritten: bool): nat
    decreases n
  {
    if n == 0 then 0
    else
      var r := if asWritten then HandleErrorAsWritten(stats, errorType, message, timestamp)
               else HandleError(stats, errorType, message, timestamp);
      (if r.shouldReconnect then 1 else 0) + Reconnects(r.stats, errorType, message, timestamp, n - 1, asWritten)
  }

  /** `a` clamped to `0..n`. */
  function Clamp(a: int, n: nat): nat {
    if a <= 0 then 0 else if a < n then a else n
  }

  /** Of `n` consecutive errors of a type with a strategy (and a message the
      strategy does not refuse outright), the corrected handler reconnects
      after as many as the strategy has retries left; as written, one fewer. */
  lemma ReconnectBudget(stats: Stats, errorType: string, message: string, timestamp: string, n: nat)
    requires errorType in STRATEGIES
    requires !(STRATEGIES[errorType].refusesInvalidCredentials && Seqs.IsInfix("invalid credentials", message))
    ensures Reconnects(stats, errorType, message, timestamp, n, false) ==
              Clamp(STRATEGIES[errorType].maxRetries - ErrorCount(stats, errorType), n)
    ensures Reconnects(stats, errorType, message, timestamp, n, true) ==
              Clamp(STRATEGIES[errorType].maxRetries - 1 - ErrorCount(stats, errorType), n)
  {
    StrategiesRetryUpToMax(errorType);
    ReconnectsWithin(stats, errorType, message, timestamp, n, false, STRATEGIES[errorType].maxRetries);
    ReconnectsWithin(stats, errorType, message, timestamp, n, true, STRATEGIES[errorType].maxRetries);
  }

  /** `ReconnectBudget` for one way of handling, with the strategy's bound as `bound`. */
  lemma {:induction false} ReconnectsWithin(stats: Stats, errorType: string, message: string, timestamp: string, n: nat, asWritten: bool, bound: int)
    requires errorType in STRATEGIES && STRATEGIES[errorType].retryBelow == bound
    requires !(STRATEGIES[errorType].refusesInvalidCredentials && Seqs.IsInfix("invalid credentials", message))
    ensures Reconnects(stats, errorType, message, timestamp, n, asWritten) ==
              Clamp(bound - (if asWritten then 1 else 0) - ErrorCount(stats, errorType), n)
    decreases n
  {
    if n > 0 {
      var next := UpdateErrorStats(stats, errorType, timestamp);
      ReconnectsWithin(next, errorType, message, timestamp, n - 1, asWritten, bound);
      ReconnectStep(stats, errorType, message, timestamp, n, asWritten);
      ClampStep(bound - (if asWritten then 1 else 0) - ErrorCount(stats, errorType), n);
    }
  }

  /** One error of a planned type: it reconnects while the count it is judged
      on stays below the strategy's bound, and the rest follow on the updated
      statistics. */
  lemma ReconnectStep(stats: Stats, errorType: string, message: string, timestamp: string, n: nat, asWritten: bool)
    requires n > 0 && errorType in STRATEGIES
    requires !(STRATEGIES[errorType].refusesInvalidCredentials && Seqs.IsInfix("invalid credentials", message))
    ensures Reconnects(stats, errorType, message, timestamp, n, asWritten) ==
              (if ErrorCount(stats, errorType) + (if asWritten then 1 else 0) < STRATEGIES[errorType].retryBelow then 1 else 0) +
              Reconnects(UpdateErrorStats(stats, errorType, timestamp), errorType, message, timestamp, n - 1, asWritten)
  {
  }

  lemma ClampStep(a: int, n: nat)
    requires n > 0
    ensures Clamp(a, n) == (if a > 0 then 1 else 0) + Clamp(a - 1, n - 1)
  {
  }

  /** Types with no strategy reconnect after every error, however many came
      before. */
  lemma {:induction false} UnplannedTypesAlwaysReconnect(stats: Stats, errorType: string, message: string, timestamp: string, n: nat, asWritten: bool)
    requires errorType !in STRATEGIES
    ensures Reconnects(stats, errorType, message, timestamp, n, asWritten) == n
    decreases n
  {
    if n > 0 {
      UnplannedTypesAlwaysReconnect(UpdateErrorStats(stats, errorType, timestamp), errorType, message, timestamp, n - 1, asWritten);
    }
  }

  /** A message mentioning invalid credentials never leads to a reconnect
      after an authentication error. */
  lemma {:induction false} InvalidCredentialsNeverReconnect(stats: Stats, message: string, timestamp: string, n: nat)
    requires Seqs.IsInfix("invalid credentials", message)
    ensures Reconnects(stats, "authentication", message, timestamp, n, false) == 0
    ensures Reconnects(stats, "authentication", message, timestamp, n, true) == 0
    decreases n
  {
    if n > 0 {
      InvalidCredentialsNeverReconnect(UpdateErrorStats(stats, "authentication", timestamp), message, timestamp, n - 1);
    }
  }

  /** The discrepancy on a fresh handler: five connection errors in a row are
      followed by four reconnects as written, although the connection strategy
      allows five retries. */
  lemma ConnectionRetriesOneShort(message: string, timestamp: string)
    ensures Reconnects(map[], "connection", message, timestamp, 5, true) == 4
    ensures Reconnects(map[], "connection", message, timestamp, 5, false) == 5 == STRATEGIES["connection"].maxRetries
  {
    ReconnectBudget(map[], "connection", message, timestamp, 5);
  }
}
