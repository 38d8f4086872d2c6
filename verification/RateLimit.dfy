/** The fixed-window rate limiter over a shared store of counters that expire. Times are nanoseconds since Go's
    zero time, from which `Truncate` counts its windows; the Unix epoch, from which keys count their seconds,
    is a whole number of seconds later, so keys are shared by the same windows. */
module RateLimit {

  const SECOND: nat := 1_000_000_000

  /** `ttl` is the window length, `life` how long the store keeps a counter after it is asked to expire in `ttl`. */
  datatype Config = Config(ttl: nat, life: nat, maxRequests: int)

  /** One counter per address and per second in which a window starts. */
  datatype Key = Key(ip: string, second: nat)

  datatype Expiry = Never | At(time: nat)

  type Positive = n: nat | n >= 1 witness 1

  datatype Counter = Counter(count: Positive, expiry: Expiry)

  type Store = map<Key, Counter>

  datatype Request = Request(time: nat, ip: string)

  /** The start of the window around `now`, in whole seconds. */
  function WindowSecond(ttl: nat, now: nat): nat
    requires ttl > 0
  {
    now / ttl * ttl / SECOND
  }

  function KeyOf(ttl: nat, r: Request): Key
    requires ttl > 0
  {
    Key(r.ip, WindowSecond(ttl, r.time))
  }

  /** The counter has not expired. */
  predicate Alive(c: Counter, now: nat) {
    c.expiry.Never? || now < c.expiry.time
  }

  predicate Counts(store: Store, key: Key, now: nat) {
    key in store && Alive(store[key], now)
  }

  /** The increment of one counter; the first one sets the expiry. An expired counter is as good as none. */
  function Incremented(life: nat, store: Store, key: Key, now: nat): Store {
    if Counts(store, key, now) then store[key := Counter(store[key].count + 1, store[key].expiry)]
    else store[key := Counter(1, At(now + life))]
  }

  function Next(cfg: Config, store: Store, r: Request): Store
    requires cfg.ttl > 0
  {
    Incremented(cfg.life, store, KeyOf(cfg.ttl, r), r.time)
  }

  predicate Allowed(cfg: Config, store: Store, r: Request)
    requires cfg.ttl > 0
  {
    Next(cfg, store, r)[KeyOf(cfg.ttl, r)].count <= cfg.maxRequests
  }

  /** How many requests of an address the run lets through at times from `lo` up to but not including `hi`. */
  function Admitted(cfg: Config, store: Store, reqs: seq<Request>, ip: string, lo: nat, hi: nat): nat
    requires cfg.ttl > 0
    decreases reqs
  {
    if reqs == [] then 0
    else
      (if reqs[0].ip == ip && lo <= reqs[0].time < hi && Allowed(cfg, store, reqs[0]) then 1 else 0) +
      Admitted(cfg, Next(cfg, store, reqs[0]), reqs[1..], ip, lo, hi)
  }

  /** A clock that never runs backwards. */
  predicate Clocked(reqs: seq<Request>) {
    forall i, j :: 0 <= i < j < |reqs| ==> reqs[i].time <= reqs[j].time
  }

  /** What is left of a limit after `used` requests. */
  function Left(limit: int, used: nat): nat {
    if limit <= used then 0 else limit - used
  }

  // ---------- windows and seconds ----------

  lemma MulStep(ttl: nat, j: nat, k: nat)
    requires j < k
    ensures j * ttl + ttl <= k * ttl
    decreases k
  {
    assert k * ttl == (k - 1) * ttl + ttl;
    if j < k - 1 {
      MulStep(ttl, j, k - 1);
    }
  }

  /** The window a time lies in is given by dividing. */
  lemma WindowOf(ttl: nat, t: nat, k: nat)
    requires ttl > 0
    ensures k * ttl <= t < k * ttl + ttl <==> t / ttl == k
  {
    var q := t / ttl;
    assert q * ttl <= t < q * ttl + ttl;
    if q < k {
      MulStep(ttl, q, k);
    } else if k < q {
      MulStep(ttl, k, q);
    }
  }

  /** Where the last window that starts in the first second ends: a second rounded up to whole windows. */
  function SecondInWindows(ttl: nat): (n: nat)
    requires ttl > 0
    ensures SECOND <= n < SECOND + ttl
  {
    (SECOND + ttl - 1) / ttl * ttl
  }

  /** Two windows that start in the same second end within that span. */
  lemma SameSecondSpan(ttl: nat, j: nat, k: nat)
    requires ttl > 0 && j <= k && j * ttl / SECOND == k * ttl / SECOND
    ensures k * ttl + ttl <= j * ttl + SecondInWindows(ttl)
  {
    var m, n := k - j, (SECOND + ttl - 1) / ttl;
    assert m * ttl == k * ttl - j * ttl < SECOND <= n * ttl;
    if n <= m {
      if n < m {
        MulStep(ttl, n, m);
      }
      assert false;
    }
    assert (m + 1) * ttl == m * ttl + ttl;
    if m + 1 < n {
      MulStep(ttl, m + 1, n);
    }
  }

  // ---------- the limit is kept ----------

  /** A counter outlives every window that starts in its second; or, with a limit of one, its own; windows
      of a nanosecond have no room for a counter to expire in. A caller can check this on the configuration. */
  predicate LivesLongEnough(cfg: Config)
    requires cfg.ttl > 0
  {
    cfg.ttl <= cfg.life && (cfg.maxRequests == 1 || cfg.ttl == 1 || SecondInWindows(cfg.ttl) <= cfg.life)
  }

  lemma {:induction false} NoneLate(cfg: Config, store: Store, reqs: seq<Request>, ip: string, lo: nat, hi: nat)
    requires cfg.ttl > 0
    requires forall i :: 0 <= i < |reqs| ==> hi <= reqs[i].time
    ensures Admitted(cfg, store, reqs, ip, lo, hi) == 0
    decreases reqs
  {
    if reqs != [] {
      NoneLate(cfg, Next(cfg, store, reqs[0]), reqs[1..], ip, lo, hi);
    }
  }

  /** The counter of a window's second is there for the whole window or gone when it starts; with a limit of
      one it may also go in between. */
  predicate Steady(cfg: Config, store: Store, key: Key, start: nat, end: nat) {
    key in store && store[key].expiry.At? && start < store[key].expiry.time < end ==> cfg.maxRequests == 1
  }

  /** What the window may still admit: nothing counts that will be gone before it ends. */
  function Budget(cfg: Config, store: Store, key: Key, end: nat): nat {
    if key in store && (store[key].expiry.Never? || end <= store[key].expiry.time)
    then Left(cfg.maxRequests, store[key].count)
    else Left(cfg.maxRequests, 0)
  }

  /** A counter that starts in an earlier window of the same second lives until the end of the window. */
  lemma StartsSteady(cfg: Config, t: nat, k: nat)
    requires cfg.ttl > 0 && LivesLongEnough(cfg) && t < k * cfg.ttl + cfg.ttl
    requires WindowSecond(cfg.ttl, t) == k * cfg.ttl / SECOND
    ensures k * cfg.ttl < t + cfg.life < k * cfg.ttl + cfg.ttl ==> cfg.maxRequests == 1
  {
    var j := t / cfg.ttl;
    WindowOf(cfg.ttl, t, j);
    if k < j {
      MulStep(cfg.ttl, k, j);
      assert false;
    }
    SameSecondSpan(cfg.ttl, j, k);
  }

  /** A request before the end of the window keeps the counter of the window's second steady. */
  lemma NextSteady(cfg: Config, store: Store, r: Request, ip: string, k: nat)
    requires cfg.ttl > 0 && LivesLongEnough(cfg) && r.time < k * cfg.ttl + cfg.ttl
    requires Steady(cfg, store, Key(ip, k * cfg.ttl / SECOND), k * cfg.ttl, k * cfg.ttl + cfg.ttl)
    ensures Steady(cfg, Next(cfg, store, r), Key(ip, k * cfg.ttl / SECOND), k * cfg.ttl, k * cfg.ttl + cfg.ttl)
  {
    var key := Key(ip, k * cfg.ttl / SECOND);
    if KeyOf(cfg.ttl, r) == key {
      StartsSteady(cfg, r.time, k);
    }
  }

  /** A request before the end of the window takes from its budget what it is admitted in it. */
  lemma NextBudget(cfg: Config, store: Store, r: Request, ip: string, k: nat)
    requires cfg.ttl > 0 && cfg.ttl <= cfg.life && r.time < k * cfg.ttl + cfg.ttl
    requires Steady(cfg, store, Key(ip, k * cfg.ttl / SECOND), k * cfg.ttl, k * cfg.ttl + cfg.ttl)
    ensures var key, end := Key(ip, k * cfg.ttl / SECOND), k * cfg.ttl + cfg.ttl;
      (if r.ip == ip && k * cfg.ttl <= r.time && Allowed(cfg, store, r) then 1 else 0) +
      Budget(cfg, Next(cfg, store, r), key, end) <= Budget(cfg, store, key, end)
  {
    if r.ip == ip && k * cfg.ttl <= r.time {
      WindowOf(cfg.ttl, r.time, k);
    }
  }

  /** The rest of a run admits at most what is left of a window's budget. */
  lemma WindowLeft(cfg: Config, store: Store, reqs: seq<Request>, ip: string, k: nat)
    requires cfg.ttl > 0 && LivesLongEnough(cfg) && Clocked(reqs)
    requires Steady(cfg, store, Key(ip, k * cfg.ttl / SECOND), k * cfg.ttl, k * cfg.ttl + cfg.ttl)
    ensures Admitted(cfg, store, reqs, ip, k * cfg.ttl, k * cfg.ttl + cfg.ttl) <=
            Budget(cfg, store, Key(ip, k * cfg.ttl / SECOND), k * cfg.ttl + cfg.ttl)
    decreases reqs
  {
    if reqs == [] {
    } else if reqs[0].time >= k * cfg.ttl + cfg.ttl {
      NoneLate(cfg, store, reqs, ip, k * cfg.ttl, k * cfg.ttl + cfg.ttl);
    } else {
      NextSteady(cfg, store, reqs[0], ip, k);
      NextBudget(cfg, store, reqs[0], ip, k);
      WindowLeft(cfg, Next(cfg, store, reqs[0]), reqs[1..], ip, k);
    }
  }

  /** What a run lets through in window `k`, from an empty store. */
  function AdmittedInWindow(cfg: Config, reqs: seq<Request>, ip: string, k: nat): nat
    requires cfg.ttl > 0
  {
    Admitted(cfg, map[], reqs, ip, k * cfg.ttl, k * cfg.ttl + cfg.ttl)
  }

  /** At most the limit in every window. */
  lemma WindowBound(cfg: Config, reqs: seq<Request>, ip: string, k: nat)
    requires cfg.ttl > 0 && LivesLongEnough(cfg) && Clocked(reqs)
    ensures AdmittedInWindow(cfg, reqs, ip, k) <= Left(cfg.maxRequests, 0)
  {
    WindowLeft(cfg, map[], reqs, ip, k);
  }

  lemma {:induction false} TwoWindowsCover(cfg: Config, store: Store, reqs: seq<Request>, ip: string,
                                           lo: nat, hi: nat, a: nat, b: nat, c: nat)
    requires cfg.ttl > 0 && a <= lo && hi <= c && a <= b <= c
    ensures Admitted(cfg, store, reqs, ip, lo, hi) <=
            Admitted(cfg, store, reqs, ip, a, b) + Admitted(cfg, store, reqs, ip, b, c)
    decreases reqs
  {
    if reqs != [] {
      TwoWindowsCover(cfg, Next(cfg, store, reqs[0]), reqs[1..], ip, lo, hi, a, b, c);
    }
  }

  /** At most twice the limit in every interval as long as a window, wherever it starts. */
  lemma IntervalBound(cfg: Config, reqs: seq<Request>, ip: string, lo: nat)
    requires cfg.ttl > 0 && LivesLongEnough(cfg) && Clocked(reqs)
    ensures Admitted(cfg, map[], reqs, ip, lo, lo + cfg.ttl) <= 2 * Left(cfg.maxRequests, 0)
  {
    var k := lo / cfg.ttl;
    var a := k * cfg.ttl;
    WindowOf(cfg.ttl, lo, k);
    assert (k + 1) * cfg.ttl == a + cfg.ttl;
    TwoWindowsCover(cfg, map[], reqs, ip, lo, lo + cfg.ttl, a, a + cfg.ttl, a + cfg.ttl + cfg.ttl);
    WindowBound(cfg, reqs, ip, k);
    WindowBound(cfg, reqs, ip, k + 1);
  }

  // ---------- the limit is not kept ----------

  /** `n` requests at one time, then some more. */
  function Burst(n: nat, time: nat, rest: seq<Request>): seq<Request> {
    if n == 0 then rest else [Request(time, "")] + Burst(n - 1, time, rest)
  }

  /** The clock is not before `from`, and does not run backwards. */
  predicate ClockedFrom(from: nat, reqs: seq<Request>) {
    Clocked(reqs) && forall i :: 0 <= i < |reqs| ==> from <= reqs[i].time
  }

  lemma {:induction false} BurstClocked(n: nat, time: nat, rest: seq<Request>)
    requires ClockedFrom(time, rest)
    ensures ClockedFrom(time, Burst(n, time, rest))
  {
    if n > 0 {
      BurstClocked(n - 1, time, rest);
    }
  }

  /** The store with one counter, that of the first second. */
  function Single(count: Positive, expireAt: nat): Store {
    map[Key("", 0) := Counter(count, At(expireAt))]
  }

  /** What one request in the first second does to it. */
  lemma SingleNext(cfg: Config, count: Positive, expireAt: nat, t: nat)
    requires cfg.ttl > 0 && WindowSecond(cfg.ttl, t) == 0
    ensures Next(cfg, map[], Request(t, "")) == Single(1, t + cfg.life)
    ensures Next(cfg, Single(count, expireAt), Request(t, ""))
         == if t < expireAt then Single(count + 1, expireAt) else Single(1, t + cfg.life)
  {
  }

  lemma {:induction false} AdmittedHead(cfg: Config, count: Positive, expireAt: nat, t: nat, rest: seq<Request>,
                                        lo: nat, hi: nat)
    requires cfg.ttl > 0 && WindowSecond(cfg.ttl, t) == 0 && lo <= t < hi && t < expireAt && count < cfg.maxRequests
    ensures Admitted(cfg, Single(count, expireAt), [Request(t, "")] + rest, "", lo, hi)
         == 1 + Admitted(cfg, Single(count + 1, expireAt), rest, "", lo, hi)
  {
    SingleNext(cfg, count, expireAt, t);
    assert ([Request(t, "")] + rest)[1..] == rest;
  }

  /** While its counter lives, a burst that fits the limit is let through whole. */
  lemma {:induction false} BurstAdmitted(cfg: Config, count: Positive, expireAt: nat, n: nat, t: nat,
                                         rest: seq<Request>, lo: nat, hi: nat)
    requires cfg.ttl > 0 && WindowSecond(cfg.ttl, t) == 0 && lo <= t < hi && t < expireAt
    requires count + n <= cfg.maxRequests
    ensures Admitted(cfg, Single(count, expireAt), Burst(n, t, rest), "", lo, hi)
         == n + Admitted(cfg, Single(count + n, expireAt), rest, "", lo, hi)
    decreases n
  {
    if n > 0 {
      AdmittedHead(cfg, count, expireAt, t, Burst(n - 1, t, rest), lo, hi);
      BurstAdmitted(cfg, count + 1, expireAt, n - 1, t, rest, lo, hi);
    }
  }

  /** A burst of the whole limit starts with a new counter, where there is none or the old one has expired. */
  lemma {:induction false} FreshBurst(cfg: Config, store: Store, t: nat, rest: seq<Request>, lo: nat, hi: nat)
    requires cfg.ttl > 0 && WindowSecond(cfg.ttl, t) == 0 && lo <= t < hi
    requires cfg.life > 0 && cfg.maxRequests >= 1
    requires Next(cfg, store, Request(t, "")) == Single(1, t + cfg.life)
    ensures Admitted(cfg, store, Burst(cfg.maxRequests, t, rest), "", lo, hi)
         == cfg.maxRequests + Admitted(cfg, Single(cfg.maxRequests, t + cfg.life), rest, "", lo, hi)
  {
    var n := cfg.maxRequests - 1;
    assert Burst(cfg.maxRequests, t, rest)[1..] == Burst(n, t, rest);
    BurstAdmitted(cfg, 1, t + cfg.life, n, t, rest, lo, hi);
  }

  /** A counter that does not outlive its own window: the limit once at the start, and once when it is gone. */
  function EarlyRun(cfg: Config): seq<Request>
    requires cfg.maxRequests >= 1
  {
    Burst(cfg.maxRequests, 0, Burst(cfg.maxRequests, cfg.life, []))
  }

  lemma EarlyOverrun(cfg: Config)
    requires 0 < cfg.life < cfg.ttl && cfg.maxRequests >= 1
    ensures Clocked(EarlyRun(cfg)) && AdmittedInWindow(cfg, EarlyRun(cfg), "", 0) == 2 * cfg.maxRequests
  {
    var later := Burst(cfg.maxRequests, cfg.life, []);
    BurstClocked(cfg.maxRequests, cfg.life, []);
    BurstClocked(cfg.maxRequests, 0, later);
    WindowOf(cfg.ttl, 0, 0);
    WindowOf(cfg.ttl, cfg.life, 0);
    SingleNext(cfg, 1, 0, 0);
    FreshBurst(cfg, map[], 0, later, 0, cfg.ttl);
    SingleNext(cfg, cfg.maxRequests, cfg.life, cfg.life);
    FreshBurst(cfg, Single(cfg.maxRequests, cfg.life), cfg.life, [], 0, cfg.ttl);
  }

  /** A store that keeps nothing admits everything. */
  lemma {:induction false} NothingKept(cfg: Config, store: Store, n: nat)
    requires cfg.ttl > 0 && cfg.life == 0 && cfg.maxRequests >= 1
    requires store == map[] || store == Single(1, 0)
    ensures Admitted(cfg, store, Burst(n, 0, []), "", 0, cfg.ttl) == n
    decreases n
  {
    if n > 0 {
      WindowOf(cfg.ttl, 0, 0);
      SingleNext(cfg, 1, 0, 0);
      assert Burst(n, 0, [])[1..] == Burst(n - 1, 0, []);
      NothingKept(cfg, Single(1, 0), n - 1);
    }
  }

  /** Windows of one second share a counter: one request starts it, so late that it expires just before the
      last of them ends; the rest of the limit follows at the start of that window, the whole limit again when
      the counter has gone. */
  function SharedRun(cfg: Config): seq<Request>
    requires 2 <= cfg.ttl <= cfg.life < SecondInWindows(cfg.ttl) && cfg.maxRequests >= 2
  {
    var end := SecondInWindows(cfg.ttl);
    [Request(end - cfg.life - 1, "")] +
    Burst(cfg.maxRequests - 1, end - cfg.ttl, Burst(cfg.maxRequests, end - 1, []))
  }

  lemma SharedClocked(cfg: Config)
    requires 2 <= cfg.ttl <= cfg.life < SecondInWindows(cfg.ttl) && cfg.maxRequests >= 2
    ensures Clocked(SharedRun(cfg))
  {
    var end := SecondInWindows(cfg.ttl);
    BurstClocked(cfg.maxRequests, end - 1, []);
    BurstClocked(cfg.maxRequests - 1, end - cfg.ttl, Burst(cfg.maxRequests, end - 1, []));
  }

  /** All but the first request, which its counter has counted already. */
  lemma SharedTail(cfg: Config, lo: nat, end: nat)
    requires 2 <= cfg.ttl <= cfg.life && cfg.maxRequests >= 2 && end == lo + cfg.ttl
    requires WindowSecond(cfg.ttl, lo) == WindowSecond(cfg.ttl, end - 1) == 0
    ensures var tail := Burst(cfg.maxRequests - 1, lo, Burst(cfg.maxRequests, end - 1, []));
      Admitted(cfg, Single(1, end - 1), tail, "", lo, end) == 2 * cfg.maxRequests - 1
  {
    var last := Burst(cfg.maxRequests, end - 1, []);
    BurstAdmitted(cfg, 1, end - 1, cfg.maxRequests - 1, lo, last, lo, end);
    SingleNext(cfg, cfg.maxRequests, end - 1, end - 1);
    FreshBurst(cfg, Single(cfg.maxRequests, end - 1), end - 1, [], lo, end);
  }

  /** For every limit of two or more, and every counter that does not outlive the windows of its second, a run
      that is let through almost twice in one window. */
  lemma ShortWindowsOverrun(cfg: Config)
    requires 2 <= cfg.ttl <= cfg.life < SecondInWindows(cfg.ttl) && cfg.maxRequests >= 2
    ensures var k := (SECOND + cfg.ttl - 1) / cfg.ttl - 1;
            Clocked(SharedRun(cfg)) && AdmittedInWindow(cfg, SharedRun(cfg), "", k) == 2 * cfg.maxRequests - 1
  {
    var end := SecondInWindows(cfg.ttl);
    var t0, lo := end - cfg.life - 1, end - cfg.ttl;
    SharedClocked(cfg);
    LastWindow(cfg.ttl);
    FirstSecond(cfg.ttl, t0);
    SingleNext(cfg, 1, 0, t0);
    SharedTail(cfg, lo, end);
    assert SharedRun(cfg)[1..] == Burst(cfg.maxRequests - 1, lo, Burst(cfg.maxRequests, end - 1, []));
  }

  /** The last window of the first second. */
  lemma LastWindow(ttl: nat)
    requires ttl >= 1
    ensures var end, n := SecondInWindows(ttl), (SECOND + ttl - 1) / ttl;
      (n - 1) * ttl == end - ttl && WindowSecond(ttl, end - ttl) == WindowSecond(ttl, end - 1) == 0
  {
    var end, n := SecondInWindows(ttl), (SECOND + ttl - 1) / ttl;
    assert (n - 1) * ttl == end - ttl;
    WindowOf(ttl, end - ttl, n - 1);
    WindowOf(ttl, end - 1, n - 1);
  }

  lemma FirstSecond(ttl: nat, t: nat)
    requires ttl > 0 && t < SECOND
    ensures WindowSecond(ttl, t) == 0
  {
    assert t / ttl * ttl <= t;
  }

  // ---------- the same at any other time ----------

  /** A time at which both a window and a second start. */
  predicate StartsBoth(ttl: nat, base: nat)
    requires ttl > 0
  {
    base % ttl == 0 && base % SECOND == 0
  }

  /** The run that much later. */
  function Later(reqs: seq<Request>, base: nat): seq<Request> {
    seq(|reqs|, i requires 0 <= i < |reqs| => Request(reqs[i].time + base, reqs[i].ip))
  }

  lemma DivShift(d: nat, base: nat, t: nat)
    requires d > 0 && base % d == 0
    ensures (base + t) / d == base / d + t / d
  {
    var p, q := base / d, t / d;
    assert (p + q) * d == p * d + q * d && base == p * d;
    WindowOf(d, t, q);
    WindowOf(d, base + t, p + q);
  }

  lemma SecondShift(ttl: nat, base: nat, t: nat)
    requires ttl > 0 && StartsBoth(ttl, base)
    ensures WindowSecond(ttl, t + base) == WindowSecond(ttl, t) + base / SECOND
  {
    var p, q := base / ttl, t / ttl;
    DivShift(ttl, base, t);
    assert (p + q) * ttl == p * ttl + q * ttl && base == p * ttl;
    DivShift(SECOND, base, q * ttl);
  }

  function ExpiryLater(e: Expiry, base: nat): Expiry {
    if e.Never? then Never else At(e.time + base)
  }

  /** The second store has the counters of the first, that much later. */
  ghost predicate SameLater(store: Store, later: Store, base: nat) {
    forall ip: string, second: nat ::
      && (Key(ip, second) in store <==> Key(ip, second + base / SECOND) in later)
      && (Key(ip, second) in store ==>
            var c := store[Key(ip, second)];
            later[Key(ip, second + base / SECOND)] == Counter(c.count, ExpiryLater(c.expiry, base)))
  }

  lemma NextLater(cfg: Config, store: Store, later: Store, base: nat, r: Request)
    requires cfg.ttl > 0 && StartsBoth(cfg.ttl, base) && SameLater(store, later, base)
    ensures SameLater(Next(cfg, store, r), Next(cfg, later, Request(r.time + base, r.ip)), base)
    ensures Allowed(cfg, later, Request(r.time + base, r.ip)) == Allowed(cfg, store, r)
  {
    SecondShift(cfg.ttl, base, r.time);
  }

  lemma {:induction false} AdmittedLater(cfg: Config, store: Store, later: Store, base: nat, reqs: seq<Request>,
                                         ip: string, lo: nat, hi: nat)
    requires cfg.ttl > 0 && StartsBoth(cfg.ttl, base) && SameLater(store, later, base)
    ensures Admitted(cfg, later, Later(reqs, base), ip, lo + base, hi + base) == Admitted(cfg, store, reqs, ip, lo, hi)
    decreases reqs
  {
    if reqs != [] {
      var r := reqs[0];
      NextLater(cfg, store, later, base, r);
      assert Later(reqs, base)[1..] == Later(reqs[1..], base);
      AdmittedLater(cfg, Next(cfg, store, r), Next(cfg, later, Request(r.time + base, r.ip)), base, reqs[1..], ip, lo,
                    hi);
    }
  }

  lemma MovedStart(ttl: nat, base: nat, k: nat)
    requires ttl > 0 && base % ttl == 0
    ensures (base / ttl + k) * ttl == base + k * ttl
  {
    var p := base / ttl;
    assert (p + k) * ttl == p * ttl + k * ttl && base == p * ttl;
  }

  /** A run moved to start where another window and second start is let through as before. */
  lemma MovedRun(cfg: Config, reqs: seq<Request>, ip: string, k: nat, base: nat)
    requires cfg.ttl > 0 && StartsBoth(cfg.ttl, base) && Clocked(reqs)
    ensures ClockedFrom(base, Later(reqs, base))
    ensures AdmittedInWindow(cfg, Later(reqs, base), ip, base / cfg.ttl + k) == AdmittedInWindow(cfg, reqs, ip, k)
  {
    MovedStart(cfg.ttl, base, k);
    AdmittedLater(cfg, map[], map[], base, reqs, ip, k * cfg.ttl, k * cfg.ttl + cfg.ttl);
  }

  // ---------- exactly when ----------

  /** The limit is kept in every window of every run that starts at `from` or later. */
  ghost predicate KeepsLimit(cfg: Config, from: nat)
    requires cfg.ttl > 0
  {
    forall reqs, ip, k | ClockedFrom(from, reqs) :: AdmittedInWindow(cfg, reqs, ip, k) <= cfg.maxRequests
  }

  /** A counter that does not live long enough lets too much through in some window from time zero on. */
  lemma Overrun(cfg: Config) returns (reqs: seq<Request>, k: nat)
    requires cfg.ttl > 0 && cfg.maxRequests >= 1 && !LivesLongEnough(cfg)
    ensures Clocked(reqs) && AdmittedInWindow(cfg, reqs, "", k) > cfg.maxRequests
  {
    if cfg.life == 0 {
      reqs, k := Burst(cfg.maxRequests + 1, 0, []), 0;
      BurstClocked(cfg.maxRequests + 1, 0, []);
      NothingKept(cfg, map[], cfg.maxRequests + 1);
    } else if cfg.life < cfg.ttl {
      reqs, k := EarlyRun(cfg), 0;
      EarlyOverrun(cfg);
    } else {
      reqs, k := SharedRun(cfg), (SECOND + cfg.ttl - 1) / cfg.ttl - 1;
      ShortWindowsOverrun(cfg);
    }
  }

  lemma LateStart(ttl: nat, from: nat) returns (base: nat)
    requires ttl > 0
    ensures base >= from && StartsBoth(ttl, base)
  {
    var n := from * SECOND;
    base := n * ttl;
    assert base == (from * ttl) * SECOND;
    WindowOf(ttl, base, n);
    WindowOf(SECOND, base, from * ttl);
    MulGrows(n, ttl);
  }

  lemma MulGrows(n: nat, d: nat)
    requires d > 0
    ensures n * d >= n
  {
  }

  /** For every window length, every lifetime and every limit, the limit is kept from any time on if and only
      if the counters live long enough. */
  lemma KeepsLimitIff(cfg: Config, from: nat)
    requires cfg.ttl > 0 && cfg.maxRequests >= 1
    ensures KeepsLimit(cfg, from) <==> LivesLongEnough(cfg)
  {
    if LivesLongEnough(cfg) {
      forall reqs, ip, k | ClockedFrom(from, reqs)
        ensures AdmittedInWindow(cfg, reqs, ip, k) <= cfg.maxRequests
      {
        WindowBound(cfg, reqs, ip, k);
      }
    } else {
      var reqs, k := Overrun(cfg);
      var base := LateStart(cfg.ttl, from);
      MovedRun(cfg, reqs, "", k, base);
      assert AdmittedInWindow(cfg, Later(reqs, base), "", base / cfg.ttl + k) > cfg.maxRequests;
    }
  }

  /** A window of a second or more needs its counter to be kept for just that window. */
  lemma LongWindows(cfg: Config)
    requires cfg.ttl >= SECOND
    ensures LivesLongEnough(cfg) <==> cfg.ttl <= cfg.life
  {
    var n := (SECOND + cfg.ttl - 1) / cfg.ttl;
    assert n == 1;
  }

  /** A minute's counter kept for a minute keeps every limit; half a second's kept for half a second does not. */
  lemma MinuteAndHalfSecond(maxRequests: int, from: nat)
    requires maxRequests >= 2
    ensures KeepsLimit(Config(60_000_000_000, 60_000_000_000, maxRequests), from)
    ensures !KeepsLimit(Config(500_000_000, 500_000_000, maxRequests), from)
  {
    KeepsLimitIff(Config(60_000_000_000, 60_000_000_000, maxRequests), from);
    KeepsLimitIff(Config(500_000_000, 500_000_000, maxRequests), from);
    LongWindows(Config(60_000_000_000, 60_000_000_000, maxRequests));
  }

  // ---------- nobody is refused for another, or for nothing ----------

  function OwnRequests(reqs: seq<Request>, ip: string): seq<Request> {
    if reqs == [] then []
    else if reqs[0].ip == ip then [reqs[0]] + OwnRequests(reqs[1..], ip)
    else OwnRequests(reqs[1..], ip)
  }

  /** The two stores have the same counters for the address. */
  ghost predicate SameFor(store: Store, other: Store, ip: string) {
    forall second: nat ::
      && (Key(ip, second) in store <==> Key(ip, second) in other)
      && (Key(ip, second) in store ==> store[Key(ip, second)] == other[Key(ip, second)])
  }

  lemma {:induction false} OthersDoNotCountFrom(cfg: Config, store: Store, other: Store, reqs: seq<Request>, ip: string,
                                                lo: nat, hi: nat)
    requires cfg.ttl > 0 && SameFor(store, other, ip)
    ensures Admitted(cfg, store, reqs, ip, lo, hi) == Admitted(cfg, other, OwnRequests(reqs, ip), ip, lo, hi)
    decreases reqs
  {
    if reqs != [] {
      var r := reqs[0];
      if r.ip == ip {
        OthersDoNotCountFrom(cfg, Next(cfg, store, r), Next(cfg, other, r), reqs[1..], ip, lo, hi);
        assert OwnRequests(reqs, ip)[1..] == OwnRequests(reqs[1..], ip);
      } else {
        OthersDoNotCountFrom(cfg, Next(cfg, store, r), other, reqs[1..], ip, lo, hi);
      }
    }
  }

  /** What an address is let through does not depend on the requests of any other, whatever the configuration. */
  lemma {:induction false} OthersDoNotCount(cfg: Config, reqs: seq<Request>, ip: string, k: nat)
    requires cfg.ttl > 0
    ensures AdmittedInWindow(cfg, reqs, ip, k) == AdmittedInWindow(cfg, OwnRequests(reqs, ip), ip, k)
  {
    OthersDoNotCountFrom(cfg, map[], map[], reqs, ip, k * cfg.ttl, k * cfg.ttl + cfg.ttl);
  }

  /** How many requests of an address come at times from `lo` up to but not including `hi`. */
  function Arrivals(reqs: seq<Request>, ip: string, lo: nat, hi: nat): nat {
    if reqs == [] then 0
    else (if reqs[0].ip == ip && lo <= reqs[0].time < hi then 1 else 0) + Arrivals(reqs[1..], ip, lo, hi)
  }

  lemma {:induction false} NobodyLate(reqs: seq<Request>, ip: string, lo: nat, hi: nat)
    requires forall i :: 0 <= i < |reqs| ==> hi <= reqs[i].time
    ensures Arrivals(reqs, ip, lo, hi) == 0
  {
    if reqs != [] {
      NobodyLate(reqs[1..], ip, lo, hi);
    }
  }

  /** Windows of a second or more start in different seconds. */
  lemma OwnSecond(ttl: nat, t: nat, k: nat)
    requires ttl >= SECOND && t < k * ttl
    ensures WindowSecond(ttl, t) != k * ttl / SECOND
  {
    var j := t / ttl;
    WindowOf(ttl, t, j);
    if k <= j {
      if k < j {
        MulStep(ttl, k, j);
      }
      assert false;
    }
    MulStep(ttl, j, k);
  }

  /** The counter of the window is not there yet, or stays until the window ends. */
  predicate Lasts(store: Store, key: Key, end: nat) {
    key in store ==> store[key].expiry.At? && end <= store[key].expiry.time
  }

  function Least(a: nat, b: nat): nat {
    if b < a then b else a
  }

  lemma NextExact(cfg: Config, store: Store, r: Request, ip: string, k: nat)
    requires SECOND <= cfg.ttl <= cfg.life && r.time < k * cfg.ttl + cfg.ttl
    requires Lasts(store, Key(ip, k * cfg.ttl / SECOND), k * cfg.ttl + cfg.ttl)
    ensures var key, end := Key(ip, k * cfg.ttl / SECOND), k * cfg.ttl + cfg.ttl;
      var inWindow := r.ip == ip && k * cfg.ttl <= r.time;
      var budget := Budget(cfg, store, key, end);
      && Lasts(Next(cfg, store, r), key, end)
      && (inWindow ==> (Allowed(cfg, store, r) <==> budget > 0))
      && Budget(cfg, Next(cfg, store, r), key, end) == if inWindow && budget > 0 then budget - 1 else budget
  {
    if r.ip == ip {
      if k * cfg.ttl <= r.time {
        WindowOf(cfg.ttl, r.time, k);
      } else {
        OwnSecond(cfg.ttl, r.time, k);
      }
    }
  }

  lemma {:induction false} WindowCounts(cfg: Config, store: Store, reqs: seq<Request>, ip: string, k: nat)
    requires SECOND <= cfg.ttl <= cfg.life && Clocked(reqs)
    requires Lasts(store, Key(ip, k * cfg.ttl / SECOND), k * cfg.ttl + cfg.ttl)
    ensures Admitted(cfg, store, reqs, ip, k * cfg.ttl, k * cfg.ttl + cfg.ttl)
         == Least(Budget(cfg, store, Key(ip, k * cfg.ttl / SECOND), k * cfg.ttl + cfg.ttl),
                  Arrivals(reqs, ip, k * cfg.ttl, k * cfg.ttl + cfg.ttl))
    decreases reqs
  {
    if reqs == [] {
    } else if reqs[0].time >= k * cfg.ttl + cfg.ttl {
      NoneLate(cfg, store, reqs, ip, k * cfg.ttl, k * cfg.ttl + cfg.ttl);
      NobodyLate(reqs, ip, k * cfg.ttl, k * cfg.ttl + cfg.ttl);
    } else {
      NextExact(cfg, store, reqs[0], ip, k);
      WindowCounts(cfg, Next(cfg, store, reqs[0]), reqs[1..], ip, k);
    }
  }

  /** For windows of a second or more, kept for a window: in every window an address is let through exactly as
      often as it asks, up to the limit. Nobody is refused early, nor for others. */
  lemma {:induction false} WindowExact(cfg: Config, reqs: seq<Request>, ip: string, k: nat)
    requires SECOND <= cfg.ttl <= cfg.life && Clocked(reqs)
    ensures AdmittedInWindow(cfg, reqs, ip, k)
         == Least(Left(cfg.maxRequests, 0), Arrivals(reqs, ip, k * cfg.ttl, k * cfg.ttl + cfg.ttl))
  {
    WindowCounts(cfg, map[], reqs, ip, k);
  }

  /** The limiter: one store of counters, a window length and the store's own lifetime for it. */
  class RateLimiterCache {
    var store: Store
    const ttl: nat
    const life: nat

    constructor (ttl: nat, life: nat)
      requires ttl > 0
      ensures this.ttl == ttl && this.life == life && store == map[]
    {
      this.ttl, this.life := ttl, life;
      store := map[];
    }

    /** The store's increment; a counter it creates, for one that has expired or never was, does not expire yet. */
    method Incr(key: Key, now: nat) returns (count: Positive)
      modifies this
      ensures var alive := Counts(old(store), key, now);
        && count == (if alive then old(store)[key].count + 1 else 1)
        && store == old(store)[key := Counter(count, if alive then old(store)[key].expiry else Never)]
    {
      count := 1;
      var expiry := Never;
      if Counts(store, key, now) {
        count, expiry := store[key].count + 1, store[key].expiry;
      }
      store := store[key := Counter(count, expiry)];
    }

    /** Counts the request and says whether it is within the limit. */
    method Allow(now: nat, ip: string, maxRequests: int) returns (ok: bool)
      requires ttl > 0
      modifies this
      ensures var cfg := Config(ttl, life, maxRequests);
              store == Next(cfg, old(store), Request(now, ip)) &&
              ok == Allowed(cfg, old(store), Request(now, ip))
    {
      var window := now / ttl * ttl / SECOND;
      var key := Key(ip, window);
      var count := Incr(key, now);
      if count == 1 {
        store := store[key := Counter(count, At(now + life))];
      }
      ok := count <= maxRequests;
    }
  }
}
