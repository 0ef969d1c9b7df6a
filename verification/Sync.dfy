/**
 * law_sync, which turns a resumable operation into one that waits (source/lawd/server.c),
 * and what it makes of the buffered input operations of a connection.
 */
module Sync {
  import opened Streams

  datatype Direction = ForRead | ForWrite

  /** One law_sync_wait: the timeout given to law_ewait and the events registered. */
  datatype Wait = Wait(timeout: int, direction: Direction)

  /**
   * What a call meets: the result of its i-th callback, the i-th reading of the clock (the
   * first is taken on entry) and the result of its i-th event registration.
   */
  datatype World = World(cb: nat -> Code, clock: nat -> int, ectl: nat -> Code)

  ghost predicate Sane(w: World) {
    forall i: nat :: w.ectl(i).OK? || w.ectl(i).SYS?
  }

  /** The first n callbacks all asked to be retried, with the deadline still ahead, and their events were registered. */
  ghost predicate Retried(w: World, timeout: int, n: nat) {
    forall i: nat :: i < n ==> Retry(w.cb(i)) && w.clock(i + 1) < w.clock(0) + timeout && w.ectl(i) == OK
  }

  /**
   * The call ends after n callbacks with err: every round but the last asked to be retried in
   * time and was registered.  The last one is OK, or late, or ended by a code of its own, or
   * asked for a retry in time that could not be registered.
   */
  ghost predicate Ran(w: World, timeout: int, err: Code, n: nat) {
    && n > 0 && Retried(w, timeout, n - 1)
    && var last := w.cb(n - 1);
       if last == OK then err == OK
       else if w.clock(0) + timeout <= w.clock(n) then err == TIME
       else if Retry(last) then err == SYS && w.ectl(n - 1) == SYS
       else err == last
  }

  /**
   * The wait of the i-th round: positive, exactly the time left, for the direction asked for,
   * and longer than the given timeout exactly if the clock was set back before its first reading.
   */
  predicate RightWait(w: World, timeout: int, i: nat, wait: Wait) {
    && 0 < wait.timeout == w.clock(0) + timeout - w.clock(i + 1)
    && (wait.timeout > timeout <==> w.clock(i + 1) < w.clock(0))
    && wait.direction == if w.cb(i) == WANTW then ForWrite else ForRead
  }

  ghost predicate Waited(w: World, timeout: int, waits: seq<Wait>) {
    forall i: nat :: i < |waits| ==> RightWait(w, timeout, i, waits[i])
  }

  /**
   * law_sync.  Its clock is the real-time clock, which may be set back; some reading comes
   * at or after the deadline.  A wait exceeds the given timeout only after the clock was set
   * back.  Waits that end early, or that law_ewait could not arm, are not told apart.
   */
  method Call(w: World, timeout: int, ghost late: nat) returns (err: Code, n: nat, waits: seq<Wait>)
    requires Sane(w) && late > 0 && w.clock(late) >= w.clock(0) + timeout
    ensures Ran(w, timeout, err, n) && Waited(w, timeout, waits)
    ensures |waits| == if Retry(w.cb(n - 1)) && w.clock(n) < w.clock(0) + timeout then n else n - 1
    ensures n <= late
  {
    hide Retried, Waited, RightWait;
    var expiry := w.clock(0) + timeout;
    waits := [];
    n := 1;
    err := w.cb(0);
    NothingYet(w, timeout);
    while err != OK
      invariant n == |waits| + 1 && err == w.cb(n - 1)
      invariant Waited(w, timeout, waits) && Retried(w, timeout, n - 1)
      invariant n <= late
      decreases late - n
    {
      var now := w.clock(n);
      if expiry <= now { return TIME, n, waits; }
      if !Retry(err) { return err, n, waits; }
      var wait := Wait(expiry - now, if err == WANTW then ForWrite else ForRead);
      OneWait(w, timeout, waits, wait);
      waits := waits + [wait];
      var registered := w.ectl(n - 1);
      if registered != OK { return registered, n, waits; }
      OneRetry(w, timeout, n - 1);
      err := w.cb(n);
      n := n + 1;
    }
  }

  lemma NothingYet(w: World, timeout: int)
    ensures Retried(w, timeout, 0) && Waited(w, timeout, [])
  {
  }

  lemma OneRetry(w: World, timeout: int, n: nat)
    requires Retried(w, timeout, n) && Retry(w.cb(n)) && w.clock(n + 1) < w.clock(0) + timeout && w.ectl(n) == OK
    ensures Retried(w, timeout, n + 1)
  {
  }

  lemma OneWait(w: World, timeout: int, waits: seq<Wait>, wait: Wait)
    requires Waited(w, timeout, waits) && w.clock(|waits| + 1) < w.clock(0) + timeout
    requires wait.timeout == w.clock(0) + timeout - w.clock(|waits| + 1)
    requires wait.direction == if w.cb(|waits|) == WANTW then ForWrite else ForRead
    ensures Waited(w, timeout, waits + [wait])
  {
    assert RightWait(w, timeout, |waits|, wait);
  }

  // Lifts ----------------------------------------------------------------------------------

  /**
   * law_htc_ensure_input_sync: if it reports OK then nbytes are buffered; it consumes
   * nothing whatever it reports, never asks for a retry, and reports OOB only for a
   * request that was too large from the start, unless 2 * nbytes - 1 exceeds the buffer.
   * Reads that never fail for good leave OK, the deadline and a failed registration.
   */
  lemma EnsureInputLifted(w: World, timeout: int, err: Code, n: nat,
                          p: Pos, max: nat, nbytes: nat, rs: nat -> Response, len: nat)
    requires Ran(w, timeout, err, n) && Fits(p, max)
    requires EnsureResponses(p, max, nbytes, seq(n, rs), len)
    requires forall i: nat :: w.cb(i) == EnsureAll(p, max, nbytes, seq(i + 1, rs)).0
    ensures var q := EnsureAll(p, max, nbytes, seq(n, rs)).1;
            && q.offset == p.offset && p.end <= q.end && Fits(q, max)
            && (err == OK ==> q.end - q.offset >= nbytes)
            && (err == OOB && p.end - p.offset < nbytes ==> 2 * nbytes > max + 1)
            && !Retry(err)
    ensures p.end - p.offset < nbytes && 2 * nbytes <= max + 1 && Willing(seq(n, rs)) ==>
              err in {OK, TIME} || (err == SYS && w.ectl(n - 1) == SYS)
  {
    if p.end - p.offset < nbytes && 2 * nbytes <= max + 1 && Willing(seq(n, rs)) {
      EnsuringEnds(p, max, nbytes, seq(n, rs), len);
    }
    EnsureAllWorks(p, max, nbytes, seq(n, rs), len);
    assert w.cb(n - 1) == EnsureAll(p, max, nbytes, seq(n - 1 + 1, rs)).0;
  }

  /**
   * The waiting reads of a request line or of headers, parse included.  OK: the parser took
   * exactly the bytes from base to the end of the first delimiter, and the offset is there.
   * SYN or OOM: it was given those bytes and refused them or ran out of memory, and the
   * offset is at base.  OOB: no delimiter ends within max bytes of base.  Reads that never
   * fail for good leave only these, the deadline and a failed registration.
   */
  lemma ReadParseLifted(w: World, timeout: int, err: Code, n: nat, t: seq<nat>, max: nat, base: nat, d: seq<nat>,
                        parser: seq<nat> -> Parse, end: nat, rs: nat -> Response)
    requires Ran(w, timeout, err, n)
    requires d != [] && |d| <= max && base <= end <= |t| && end - base <= max
    requires forall i: nat :: w.cb(i) == ParseAll(t, max, base, d, parser, Pos(base, end), seq(i + 1, rs)).0
    ensures !Retry(err)
    ensures err in {OK, SYN, OOM} ==> exists at: nat :: First(t, base, d, at) && at + |d| - base <= max
    ensures var q := ParseAll(t, max, base, d, parser, Pos(base, end), seq(n, rs)).1;
            forall at: nat :: First(t, base, d, at) && err in {OK, SYN, OOM} ==>
              var seen := t[base..at + |d|];
              && (err == OK <==> parser(seen) == Parsed(|seen|)) && (err == OOM <==> parser(seen) == ParseOOM)
              && q.offset == if err == OK then at + |d| else base
    ensures err == OOB ==> forall k: nat :: First(t, base, d, k) ==> k + |d| - base > max
    ensures Patient(t, max, base, d, Pos(base, end), seq(n, rs)) ==>
              err in {OK, SYN, OOM, OOB, TIME} || (err == SYS && w.ectl(n - 1) == SYS)
  {
    hide ParseAll, First, Match, Patient;
    if Patient(t, max, base, d, Pos(base, end), seq(n, rs)) {
      ParsingNeverFails(t, max, base, d, parser, end, seq(n, rs));
    }
    ParsingIsChunkIndependent(t, max, base, d, parser, end, seq(n, rs));
    assert w.cb(n - 1) == ParseAll(t, max, base, d, parser, Pos(base, end), seq(n - 1 + 1, rs)).0;
  }
}
