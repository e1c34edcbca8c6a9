/** A Redis counter whose window opens at its first INCR: what INCR and EXPIRE do to the key,
    and how many small counts any stretch of time can see. */
module WindowCounter {
  import opened Common

  datatype Counter = NoKey | Count(n: nat, expiry: Option<int>) {

    function Live(now: int): Counter {
      if Count? && expiry.Some? && expiry.value <= now then NoKey else this
    }

    /** INCR creates a missing key without a TTL. */
    function Incr(now: int): (c: Counter)
      ensures c.Count?
    {
      match Live(now)
      case NoKey => Count(1, None)
      case Count(n, expiry) => Count(n + 1, expiry)
    }

    function Expire(now: int, ttl: nat): Counter {
      match Live(now)
      case NoKey => this
      case Count(n, _) => Count(n, Some(now + ttl))
    }
  }

  const WINDOW: nat := 3600

  /** One INCR: when it ran and what it returned. */
  datatype Hit = Hit(t: int, n: nat)

  function Last(log: seq<Hit>): Hit
    requires log != []
  {
    log[|log| - 1]
  }

  /** When the current window opened. */
  function LastOpen(log: seq<Hit>): int
    requires log != []
  {
    if |log| == 1 || Last(log).n == 1 then Last(log).t else LastOpen(log[..|log| - 1])
  }

  /** Counts go 1, 2, 3, ... and restart at 1 after the last count, no sooner than a window after
      they did before. */
  ghost predicate Windowed(log: seq<Hit>) {
    log == [] ||
    var front, last := log[..|log| - 1], Last(log);
    && Windowed(front)
    && if front == [] then last.n == 1
       else Last(front).t <= last.t
            && (last.n == Last(front).n + 1
                || (last.n == 1 && Last(front).t < last.t && LastOpen(front) + WINDOW <= last.t))
  }

  /** The log belongs to the key: nothing else explains the stored count, and the key expires
      after its last count and not before its window is over. */
  ghost predicate Explains(log: seq<Hit>, c: Counter, now: int) {
    && Windowed(log)
    && (log == [] <==> c == NoKey)
    && (log != [] ==> Last(log).t <= now && c.n == Last(log).n && c.n > 0
                      && (c.expiry.Some? ==> LastOpen(log) + WINDOW <= c.expiry.value && Last(log).t < c.expiry.value))
  }

  lemma {:induction false} OpenBeforeLast(log: seq<Hit>)
    requires Windowed(log) && log != []
    ensures LastOpen(log) <= Last(log).t && Last(log).n >= 1
  {
    if |log| > 1 {
      OpenBeforeLast(log[..|log| - 1]);
    }
  }

  lemma IncrExplained(log: seq<Hit>, c: Counter, now: int)
    requires Explains(log, c, now)
    ensures Explains(log + [Hit(now, c.Incr(now).n)], c.Incr(now), now)
  {}

  /** Even a belated EXPIRE, by a handler that opened an earlier window, is harmless. */
  lemma ExpireExplained(log: seq<Hit>, c: Counter, now: int)
    requires Explains(log, c, now)
    ensures Explains(log, c.Expire(now, WINDOW), now)
  {
    if log != [] {
      OpenBeforeLast(log);
    }
  }

  predicate Counted(hit: Hit, from: int, to: int, limit: nat) {
    from <= hit.t < to && hit.n <= limit
  }

  /** How many INCRs in [from, to) returned at most `limit`. */
  function Within(log: seq<Hit>, from: int, to: int, limit: nat): nat {
    if log == [] then 0
    else Within(log[..|log| - 1], from, to, limit) + if Counted(Last(log), from, to, limit) then 1 else 0
  }

  lemma {:induction false} NoneYet(log: seq<Hit>, from: int, to: int, limit: nat)
    requires Windowed(log) && (log != [] ==> Last(log).t < from)
    ensures Within(log, from, to, limit) == 0
  {
    if log != [] {
      NoneYet(log[..|log| - 1], from, to, limit);
    }
  }

  // ---------------------------------------------------------------- the bound

  /** How many small counts fit between the start of a span and a window that opens `x` seconds
      into it: those of the windows opened in between, and those of a window that was open when
      the span began, unless the next one opened at once. */
  function Before(limit: nat, x: nat): nat
    requires limit > 0
  {
    Times(limit, x / WINDOW) + if x % WINDOW == 0 then 0 else limit - 1
  }

  lemma BeforeMono(limit: nat, x: nat, y: nat)
    requires limit > 0 && x <= y
    ensures Before(limit, x) <= Before(limit, y)
  {
    if x / WINDOW == y / WINDOW {
    } else {
      assert Times(limit, x / WINDOW + 1) == Times(limit, x / WINDOW) + limit;
      TimesMono(limit, x / WINDOW + 1, y / WINDOW);
    }
  }

  lemma BeforeNext(limit: nat, x: nat)
    requires limit > 0
    ensures Before(limit, x + WINDOW) == Before(limit, x) + limit
  {
    assert (x + WINDOW) / WINDOW == x / WINDOW + 1;
  }

  /** The most small counts in a span: a last window opens in its last second. */
  function SpanMax(limit: nat, span: nat): nat
    requires limit > 0 && span > 0
  {
    Before(limit, span - 1) + limit
  }

  /** What the log so far allows, by where its last window opened. */
  predicate Room(log: seq<Hit>, from: int, span: nat, limit: nat, count: nat)
    requires log != [] && limit > 0 && span > 0
  {
    var open, n := LastOpen(log), Min(Last(log).n, limit);
    if open < from then count <= n - 1
    else if open < from + span then count <= Before(limit, open - from) + n
    else count <= SpanMax(limit, span)
  }

  lemma {:induction false} BoundSoFar(log: seq<Hit>, from: int, span: nat, limit: nat)
    requires Windowed(log) && log != [] && span > 0 && limit > 0
    ensures Room(log, from, span, limit, Within(log, from, from + span, limit))
  {
    var to := from + span;
    var front, last := log[..|log| - 1], Last(log);
    OpenBeforeLast(log);
    if last.t < from {
      NoneYet(log, from, to, limit);
    } else if front == [] {
    } else {
      BoundSoFar(front, from, span, limit);
      OpenBeforeLast(front);
      if last.n == 1 {
        if Last(front).t < from { NoneYet(front, from, to, limit); }
        NewWindow(log, from, span, limit, Within(front, from, to, limit));
      }
    }
  }

  /** The last count opens a window; `count` is how many were in the span before it. */
  lemma NewWindow(log: seq<Hit>, from: int, span: nat, limit: nat, count: nat)
    requires Windowed(log) && |log| > 1 && span > 0 && limit > 0 && from <= Last(log).t && Last(log).n == 1
    requires Room(log[..|log| - 1], from, span, limit, count)
    requires Last(log[..|log| - 1]).t < from ==> count == 0
    ensures Last(log).t < from + span ==> count <= Before(limit, Last(log).t - from)
    ensures from + span <= Last(log).t ==> count <= SpanMax(limit, span)
  {
    var t, open := Last(log).t, LastOpen(log[..|log| - 1]);
    OpenBeforeLast(log[..|log| - 1]);
    if from <= open < from + span {
      BeforeNext(limit, open - from);
      BeforeMono(limit, open - from, span - 1);
      BeforeMono(limit, open - from + WINDOW, t - from);
    } else if open < from && from < t {
      BeforeMono(limit, 1, t - from);
    }
  }

  /** Over any span of time, wherever it starts, no more than `SpanMax` INCRs return `limit` or
      less. */
  lemma SpanBound(log: seq<Hit>, from: int, span: nat, limit: nat)
    requires Windowed(log) && span > 0 && limit > 0
    ensures Within(log, from, from + span, limit) <= SpanMax(limit, span)
  {
    if log != [] {
      BoundSoFar(log, from, span, limit);
      OpenBeforeLast(log);
      if from <= LastOpen(log) < from + span {
        BeforeMono(limit, LastOpen(log) - from, span - 1);
      }
    }
  }

  lemma SpanOfWindows(limit: nat, m: nat)
    requires limit > 0 && m > 0
    ensures SpanMax(limit, m * WINDOW) == limit * (m + 1) - 1
  {
    assert (m * WINDOW - 1) / WINDOW == m - 1;
    assert Times(limit, m) == Times(limit, m - 1) + limit;
    TimesIsProduct(limit, m + 1);
    assert (m + 1) * limit == limit * (m + 1);
  }

  /** Over any `m` windows' worth of time, wherever it starts, at most limit (m + 1) - 1 INCRs
      return `limit` or less. */
  lemma WindowBound(log: seq<Hit>, from: int, m: nat, limit: nat)
    requires Windowed(log) && m > 0 && limit > 0
    ensures Within(log, from, from + m * WINDOW, limit) <= limit * (m + 1) - 1
  {
    SpanBound(log, from, m * WINDOW, limit);
    SpanOfWindows(limit, m);
  }
}
