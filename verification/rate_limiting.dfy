/** The fixed-window admission limiter of src/middleware/rateLimiting.ts as a
    state-transition function on the per-instance table from client key to
    window. The clock (`Date.now()`) and the 1% cleanup draw
    (`Math.random() < 0.01`) are inputs. */
module RateLimiting {
  import opened Base

  /** A client's window: requests counted so far and the instant (ms) after
      which the window is replaced. */
  datatype Window = Window(count: int, resetTime: int)

  type Table = map<string, Window>

  /** The three request headers the client identity is read from. */
  datatype ClientHeaders = ClientHeaders(
    cfConnectingIp: Option<string>,
    xForwardedFor: Option<string>,
    xRealIp: Option<string>)

  const DefaultMaxRequests: int := 5
  const DefaultWindowMs: int := 60000
  const KeyPrefix: string := "rate_limit:"
  const UnknownClient: string := "unknown"

  /** A header counts only when present and non-empty (JavaScript `||`). */
  predicate Given(h: Option<string>) {
    h.Some? && h.value != ""
  }

  /** `cf-connecting-ip || x-forwarded-for || x-real-ip || "unknown"`. */
  function ClientIp(h: ClientHeaders): (ip: string)
    ensures ip != ""
    ensures Given(h.cfConnectingIp) ==> ip == h.cfConnectingIp.value
    ensures !Given(h.cfConnectingIp) && Given(h.xForwardedFor) ==> ip == h.xForwardedFor.value
    ensures !Given(h.cfConnectingIp) && !Given(h.xForwardedFor) && Given(h.xRealIp) ==> ip == h.xRealIp.value
    ensures !Given(h.cfConnectingIp) && !Given(h.xForwardedFor) && !Given(h.xRealIp) ==> ip == UnknownClient
  {
    if Given(h.cfConnectingIp) then h.cfConnectingIp.value
    else if Given(h.xForwardedFor) then h.xForwardedFor.value
    else if Given(h.xRealIp) then h.xRealIp.value
    else UnknownClient
  }

  /** The table key of a request. */
  function ClientKey(h: ClientHeaders): (key: string)
    ensures StartsWith(key, KeyPrefix) && key[|KeyPrefix|..] == ClientIp(h)
  {
    KeyPrefix + ClientIp(h)
  }

  /** Requests whose identifying headers differ in the chosen address get
      different counters; headers choosing the same address share one. */
  lemma ClientKeySeparatesClients(a: ClientHeaders, b: ClientHeaders)
    ensures ClientKey(a) == ClientKey(b) <==> ClientIp(a) == ClientIp(b)
  {
    if ClientKey(a) == ClientKey(b) {
      assert ClientKey(a)[|KeyPrefix|..] == ClientKey(b)[|KeyPrefix|..];
    }
  }

  /** A window is replaced once the clock is strictly past its reset instant. */
  predicate Expired(w: Window, now: int) {
    now > w.resetTime
  }

  /** The window of a key after one more request at `now`. */
  function NextWindow(t: Table, key: string, now: int, windowMs: int): Window {
    if key !in t || Expired(t[key], now) then Window(1, now + windowMs)
    else Window(t[key].count + 1, t[key].resetTime)
  }

  /** What the middleware answers: pass on with the informational header
      values, or a 429. */
  datatype Verdict = Admitted(limit: int, remaining: int, resetTime: int) | Limited

  datatype Step = Step(table: Table, verdict: Verdict)

  /** One request for `key` at `now`: the window is created or replaced when
      missing or expired, otherwise incremented; the updated window is stored
      whether or not the request is refused; it is refused iff the updated
      count exceeds `maxRequests`. */
  function Admit(t: Table, key: string, now: int, maxRequests: int, windowMs: int): (s: Step)
    ensures s.table.Keys == t.Keys + {key}
    ensures forall k :: k in t && k != key ==> s.table[k] == t[k]
    ensures key !in t || Expired(t[key], now) ==> s.table[key] == Window(1, now + windowMs)
    ensures key in t && !Expired(t[key], now)
            ==> s.table[key].count == t[key].count + 1 && s.table[key].resetTime == t[key].resetTime
    ensures s.verdict.Limited? <==> s.table[key].count > maxRequests
    ensures s.verdict.Admitted? ==> s.verdict.remaining == maxRequests - s.table[key].count >= 0
    ensures s.verdict.Admitted? ==> s.verdict.limit == maxRequests && s.verdict.resetTime == s.table[key].resetTime
  {
    var w := NextWindow(t, key, now, windowMs);
    var t' := t[key := w];
    if w.count > maxRequests then Step(t', Limited)
    else Step(t', Admitted(maxRequests, maxRequests - w.count, w.resetTime))
  }

  /** `cleanupRateLimitCache`: drop every expired window, keep the rest as is. */
  function Cleanup(t: Table, now: int): (t': Table)
    ensures forall k :: k in t' <==> k in t && !Expired(t[k], now)
    ensures forall k :: k in t' ==> t'[k] == t[k]
  {
    map k | k in t && !Expired(t[k], now) :: t[k]
  }

  /** The whole middleware step: the client key from the headers, an
      optional sweep (`sweepAt` is the clock the sweep reads when the random
      draw triggers it, `None` otherwise), then the admission step. */
  function RateLimiter(t: Table, h: ClientHeaders, now: int, sweepAt: Option<int>,
                       maxRequests: int, windowMs: int): (s: Step)
    ensures ClientKey(h) in s.table
    ensures sweepAt.None? ==> s == Admit(t, ClientKey(h), now, maxRequests, windowMs)
    ensures sweepAt.Some? ==> s == Admit(Cleanup(t, sweepAt.value), ClientKey(h), now, maxRequests, windowMs)
    ensures sweepAt == Some(now) && windowMs >= 0
            ==> s.verdict == Admit(t, ClientKey(h), now, maxRequests, windowMs).verdict
    ensures forall k :: k in t && k != ClientKey(h) && (sweepAt.None? || !Expired(t[k], sweepAt.value))
                        ==> k in s.table && s.table[k] == t[k]
    ensures forall k :: k in t && k != ClientKey(h) && sweepAt.Some? && Expired(t[k], sweepAt.value)
                        ==> k !in s.table
  {
    var key := ClientKey(h);
    var swept := match sweepAt case None => t case Some(at) => Cleanup(t, at);
    if sweepAt == Some(now) && windowMs >= 0 then
      CleanupCommutesWithAdmit(t, key, now, maxRequests, windowMs);
      Admit(swept, key, now, maxRequests, windowMs)
    else
      Admit(swept, key, now, maxRequests, windowMs)
  }

  /** Sweeping is idempotent. */
  lemma CleanupIdempotent(t: Table, now: int)
    ensures Cleanup(Cleanup(t, now), now) == Cleanup(t, now)
  {
  }

  /** A sweep at the request's own instant changes no decision: an expired
      window and a missing one are treated alike. With a non-negative window
      length the sweep commutes with the request. */
  lemma CleanupCommutesWithAdmit(t: Table, key: string, now: int, maxRequests: int, windowMs: int)
    requires windowMs >= 0
    ensures Admit(Cleanup(t, now), key, now, maxRequests, windowMs).verdict
            == Admit(t, key, now, maxRequests, windowMs).verdict
    ensures Admit(Cleanup(t, now), key, now, maxRequests, windowMs).table
            == Cleanup(Admit(t, key, now, maxRequests, windowMs).table, now)
  {
    var c := Cleanup(t, now);
    assert NextWindow(c, key, now, windowMs) == NextWindow(t, key, now, windowMs);
    var lhs := Admit(c, key, now, maxRequests, windowMs).table;
    var rhs := Cleanup(Admit(t, key, now, maxRequests, windowMs).table, now);
    assert lhs.Keys == rhs.Keys;
  }

  /** Requests for different keys touch different entries, so their order
      does not matter. */
  lemma AdmitCommutes(t: Table, a: string, b: string, now: int, maxRequests: int, windowMs: int)
    requires a != b
    ensures var ab := Admit(Admit(t, a, now, maxRequests, windowMs).table, b, now, maxRequests, windowMs);
            var ba := Admit(Admit(t, b, now, maxRequests, windowMs).table, a, now, maxRequests, windowMs);
            ab.table == ba.table
  {
    var wa, wb := NextWindow(t, a, now, windowMs), NextWindow(t, b, now, windowMs);
    assert NextWindow(t[a := wa], b, now, windowMs) == wb;
    assert NextWindow(t[b := wb], a, now, windowMs) == wa;
    assert t[a := wa][b := wb] == t[b := wb][a := wa];
  }

  // ---------------------------------------------------------------------
  // Runs of requests from one client
  // ---------------------------------------------------------------------

  datatype Run = Run(table: Table, allowed: seq<bool>)

  /** Successive requests for one key at the given instants, recording which
      were admitted. */
  function Requests(t: Table, key: string, times: seq<int>, maxRequests: int, windowMs: int): (r: Run)
    ensures |r.allowed| == |times|
    decreases |times|
  {
    if |times| == 0 then Run(t, [])
    else
      var s := Admit(t, key, times[0], maxRequests, windowMs);
      var rest := Requests(s.table, key, times[1..], maxRequests, windowMs);
      Run(rest.table, [s.verdict.Admitted?] + rest.allowed)
  }

  /** A run for one key leaves every other key's window as it was. */
  lemma {:induction false} RequestsTouchOnlyTheirKey(t: Table, key: string, times: seq<int>,
                                                     maxRequests: int, windowMs: int, other: string)
    requires other != key
    ensures var r := Requests(t, key, times, maxRequests, windowMs);
            (other in r.table <==> other in t) && (other in t ==> r.table[other] == t[other])
    decreases |times|
  {
    if |times| > 0 {
      var s := Admit(t, key, times[0], maxRequests, windowMs);
      RequestsTouchOnlyTheirKey(s.table, key, times[1..], maxRequests, windowMs, other);
    }
  }

  /** Inside one live window the count grows by one per request and request
      number `c + i + 1` is admitted exactly when it does not exceed the limit. */
  lemma {:induction false} LiveWindowRun(t: Table, key: string, times: seq<int>, maxRequests: int, windowMs: int)
    requires key in t
    requires forall i :: 0 <= i < |times| ==> times[i] <= t[key].resetTime
    ensures var r := Requests(t, key, times, maxRequests, windowMs);
            && key in r.table
            && r.table[key] == Window(t[key].count + |times|, t[key].resetTime)
            && forall i :: 0 <= i < |times| ==> (r.allowed[i] <==> t[key].count + i + 1 <= maxRequests)
    decreases |times|
  {
    if |times| > 0 {
      var s := Admit(t, key, times[0], maxRequests, windowMs);
      assert s.table[key] == Window(t[key].count + 1, t[key].resetTime);
      LiveWindowRun(s.table, key, times[1..], maxRequests, windowMs);
      var r := Requests(t, key, times, maxRequests, windowMs);
      var rest := Requests(s.table, key, times[1..], maxRequests, windowMs);
      assert forall i :: 1 <= i < |times| ==> r.allowed[i] == rest.allowed[i - 1];
    }
  }

  /** A client with no live window gets a fresh one on its first request;
      the first `maxRequests` requests that fall inside it are admitted and
      every later one is refused. */
  lemma FreshWindowRun(t: Table, key: string, times: seq<int>, maxRequests: int, windowMs: int)
    requires |times| > 0
    requires key !in t || Expired(t[key], times[0])
    requires forall i :: 0 <= i < |times| ==> times[i] <= times[0] + windowMs
    ensures var r := Requests(t, key, times, maxRequests, windowMs);
            && key in r.table && r.table[key] == Window(|times|, times[0] + windowMs)
            && forall i :: 0 <= i < |times| ==> (r.allowed[i] <==> i + 1 <= maxRequests)
  {
    var s := Admit(t, key, times[0], maxRequests, windowMs);
    LiveWindowRun(s.table, key, times[1..], maxRequests, windowMs);
    var r := Requests(t, key, times, maxRequests, windowMs);
    var rest := Requests(s.table, key, times[1..], maxRequests, windowMs);
    assert forall i :: 1 <= i < |times| ==> r.allowed[i] == rest.allowed[i - 1];
  }

  /** With the default policy, six requests inside one minute are answered
      admit, admit, admit, admit, admit, refuse; the next request after the
      window has passed is admitted with a count of one. */
  lemma DefaultPolicyScenario(t: Table, key: string, start: int)
    requires key !in t
    ensures var times := [start, start + 1, start + 2, start + 3, start + 4, start + 5];
            var r := Requests(t, key, times, DefaultMaxRequests, DefaultWindowMs);
            && r.allowed == [true, true, true, true, true, false]
            && var later := Admit(r.table, key, start + DefaultWindowMs + 1, DefaultMaxRequests, DefaultWindowMs);
               later.verdict.Admitted? && later.table[key].count == 1
  {
    var times := [start, start + 1, start + 2, start + 3, start + 4, start + 5];
    FreshWindowRun(t, key, times, DefaultMaxRequests, DefaultWindowMs);
  }
}
