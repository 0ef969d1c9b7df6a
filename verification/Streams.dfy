/**
 * Buffered connection I/O over positions in a stream: what each resumable operation of
 * source/lawd/http_conn.c returns and where it leaves the buffer's offset and end, and
 * what any number of retries with any chunking amounts to.
 *
 * Offsets are absolute: the buffer holds stream bytes offset up to end, at most max of
 * them.  The peer's stream is the sequence of all bytes it ever sends.
 */
module Streams {
  datatype Code = OK | OOB | WANTR | WANTW | EOF | SYS | SSL | TIME | SYN | OOM | WS

  /** What one system call does: move at most n bytes, or fail with a code. */
  datatype Response = Ready(n: nat) | Refuse(code: Code)

  /** An intptr_t result: a positive count, or a code. */
  datatype Io = Count(n: nat) | Fail(code: Code)

  datatype Pos = Pos(offset: nat, end: nat)

  predicate Retry(c: Code) { c == WANTR || c == WANTW }

  function Readies(rs: seq<Response>): nat {
    if rs == [] then 0 else (if rs[0].Ready? then 1 else 0) + Readies(rs[1..])
  }

  function Min(a: nat, b: nat): nat { if a < b then a else b }

  predicate Fits(p: Pos, max: nat) { p.offset <= p.end && p.end - p.offset <= max }

  /** read(2) and SSL_read never give zero bytes, more than there are, or OK as an error. */
  predicate ReadResponse(r: Response, p: Pos, len: nat) {
    match r
    case Ready(n) => 0 < n && p.end + n <= len
    case Refuse(code) => code in {WANTR, WANTW, EOF, SYS, SSL}
  }

  /** law_htc_read_data. */
  function ReadData(p: Pos, max: nat, r: Response): (Io, Pos)
    requires Fits(p, max)
  {
    var avail := max - (p.end - p.offset);
    if avail == 0 then (Fail(OOB), p)
    else match r
      case Ready(n) => (Count(Min(n, avail)), p.(end := p.end + Min(n, avail)))
      case Refuse(code) => (Fail(code), p)
  }

  // law_htc_ensure_input ----------------------------------------------------------

  function EnsureInput(p: Pos, max: nat, nbytes: nat, r: Response): (Code, Pos)
    requires Fits(p, max)
  {
    if p.end - p.offset + nbytes > max then (OOB, p)
    else if p.end - p.offset >= nbytes then (OK, p)
    else
      var (io, q) := ReadData(p, max, r);
      match io
      case Fail(code) => (code, q)
      case Count(n) => if n == 0 then (OK, q) else (if q.end - p.offset >= nbytes then OK else WANTR, q)
  }

  /**
   * One call: OOB exactly if nbytes more than is buffered would not fit, then nothing is read;
   * otherwise OK exactly if nbytes are now buffered.  Bytes are read only if they were missing,
   * and what else comes back is WANTR after a read and the read's own code if it failed.
   */
  lemma EnsureInputAnswers(p: Pos, max: nat, nbytes: nat, r: Response, len: nat)
    requires Fits(p, max) && ReadResponse(r, p, len)
    ensures var (c, q) := EnsureInput(p, max, nbytes, r);
            var held := p.end - p.offset;
            && (c == OOB <==> held + nbytes > max)
            && (c == OK <==> held + nbytes <= max && q.end - q.offset >= nbytes)
            && (c != OOB && c != OK ==> c == if r.Ready? then WANTR else r.code)
            && q.offset == p.offset
            && q.end - p.end == if held < nbytes <= max - held && r.Ready? then Min(r.n, max - held) else 0
  {
    var (io, m) := ReadData(p, max, r);
    assert m.offset == p.offset;
  }

  /** Calls repeated while the result asks for a retry, as law_sync repeats them. */
  function EnsureAll(p: Pos, max: nat, nbytes: nat, rs: seq<Response>): (Code, Pos)
    requires Fits(p, max) && rs != []
    decreases |rs|
  {
    var (c, q) := EnsureInput(p, max, nbytes, rs[0]);
    if Retry(c) && |rs| > 1 && Fits(q, max) then EnsureAll(q, max, nbytes, rs[1..]) else (c, q)
  }

  /** Each response is one the kernel can give when its call is made. */
  ghost predicate EnsureResponses(p: Pos, max: nat, nbytes: nat, rs: seq<Response>, len: nat)
    requires Fits(p, max)
    decreases |rs|
  {
    rs != [] ==>
      && ReadResponse(rs[0], p, len)
      && var (c, q) := EnsureInput(p, max, nbytes, rs[0]);
         Fits(q, max) && EnsureResponses(q, max, nbytes, rs[1..], len)
  }

  /**
   * Lifted to a synchronous call: OK means nbytes are buffered, nothing is consumed
   * whatever the result, and OOB comes back only if the request was out of bounds from
   * the start or 2 * nbytes - 1 exceeds the buffer.
   */
  lemma {:induction false} EnsureAllWorks(p: Pos, max: nat, nbytes: nat, rs: seq<Response>, len: nat)
    requires Fits(p, max) && rs != [] && EnsureResponses(p, max, nbytes, rs, len)
    ensures var (c, q) := EnsureAll(p, max, nbytes, rs);
            && q.offset == p.offset && p.end <= q.end && Fits(q, max)
            && (c == OK ==> q.end - q.offset >= nbytes)
            && (p.end - p.offset < nbytes && 2 * nbytes <= max + 1 ==> c != OOB)
    decreases |rs|
  {
    var (c, q) := EnsureInput(p, max, nbytes, rs[0]);
    if Retry(c) && |rs| > 1 { EnsureAllWorks(q, max, nbytes, rs[1..], len); }
  }

  /** Every read delivers or asks to be called again. */
  predicate Willing(rs: seq<Response>) { forall r :: r in rs ==> r.Ready? || Retry(r.code) }

  /** With at least as many reads that deliver as bytes are missing, and none that fails for good, calls end in OK. */
  lemma {:induction false} EnsuringEnds(p: Pos, max: nat, nbytes: nat, rs: seq<Response>, len: nat)
    requires Fits(p, max) && rs != [] && EnsureResponses(p, max, nbytes, rs, len)
    requires Willing(rs)
    requires p.end - p.offset < nbytes && 2 * nbytes <= max + 1
    ensures EnsureAll(p, max, nbytes, rs).0 in {OK, WANTR, WANTW}
    ensures Readies(rs) >= nbytes - (p.end - p.offset) ==> EnsureAll(p, max, nbytes, rs).0 == OK
    decreases |rs|
  {
    EnsureInputAnswers(p, max, nbytes, rs[0], len);
    var (c, q) := EnsureInput(p, max, nbytes, rs[0]);
    var held := p.end - p.offset;
    assert rs[0].Ready? ==> q.end - q.offset == held + Min(rs[0].n, max - held) >= held + 1;
    if Retry(c) && |rs| > 1 {
      EnsuringEnds(q, max, nbytes, rs[1..], len);
      assert Readies(rs) == Readies(rs[1..]) + if rs[0].Ready? then 1 else 0;
    } else {
      assert |rs| == 1 ==> Readies(rs) == if rs[0].Ready? then 1 else 0;
      assert c == OK || Readies(rs) < nbytes - held;
    }
  }

  /**
   * The bound is exact: if fewer than nbytes are buffered and nbytes fit, some chunking of
   * nbytes - 1 bytes makes a retry fail with OOB exactly when 2 * nbytes - 1 exceeds max.
   */
  lemma ChunkingCanFail(p: Pos, max: nat, nbytes: nat, len: nat)
    requires Fits(p, max) && p.end - p.offset + nbytes <= max && p.end - p.offset + 1 < nbytes
    requires p.offset + nbytes <= len
    ensures var rs := [Ready(nbytes - 1 - (p.end - p.offset)), Ready(1)];
            && EnsureResponses(p, max, nbytes, rs[..1], len)
            && (EnsureAll(p, max, nbytes, rs).0 == OOB <==> 2 * nbytes > max + 1)
  {
  }

  // law_htc_read_scan ---------------------------------------------------------------

  /** The delimiter starts at stream position p and ends by position end. */
  predicate Match(t: seq<nat>, d: seq<nat>, p: nat, end: nat) {
    p + |d| <= end <= |t| && t[p..p + |d|] == d
  }

  /** pgc_buf_scan: the first start at or after p whose delimiter ends by end, if any. */
  function Scan(t: seq<nat>, d: seq<nat>, p: nat, end: nat): (r: int)
    requires end <= |t|
    ensures r >= 0 ==> p <= r && Match(t, d, r, end) && forall k: nat :: p <= k < r ==> !Match(t, d, k, end)
    ensures r < 0 ==> forall k: nat :: p <= k ==> !Match(t, d, k, end)
    decreases end - p
  {
    if p + |d| > end then -1
    else if t[p..p + |d|] == d then p
    else Scan(t, d, p + 1, end)
  }

  lemma ScanUnfold(t: seq<nat>, d: seq<nat>, p: nat, end: nat)
    requires end <= |t|
    ensures p + |d| > end ==> Scan(t, d, p, end) == -1
    ensures p + |d| <= end && t[p..p + |d|] == d ==> Scan(t, d, p, end) == p
    ensures p + |d| <= end && t[p..p + |d|] != d ==> Scan(t, d, p, end) == Scan(t, d, p + 1, end)
  {
  }

  /** Where a failed scan leaves the offset: before the last |d| - 1 bytes, but never back. */
  function Resume(offset: nat, end: nat, dlen: nat): nat {
    if offset + dlen <= end then end - dlen + 1 else offset
  }

  /** pgc_buf_seek finds a position that is not past the end and still in the ring. */
  predicate Seekable(p: nat, end: nat, max: nat) { p <= end && end - p <= max }

  function ReadScan(t: seq<nat>, max: nat, base: nat, d: seq<nat>, p: Pos, r: Response): (Code, Pos)
    requires Fits(p, max) && ReadResponse(r, p, |t|) && p.end <= |t|
  {
    if max < |d| then (OOB, p)
    else if !Seekable(base, p.end, max) then (OOB, p)
    else
      var (io, q) := ReadData(Pos(base, p.end), max, r);
      if io.Fail? && io.code !in {WANTW, WANTR, EOF, OOB} then (io.code, p)
      else
        var hit := Scan(t, d, p.offset, q.end);
        if hit >= 0 then (OK, Pos(hit + |d|, q.end))
        else
          var f := Pos(Resume(p.offset, q.end, |d|), q.end);
          if q.end - base >= max then (OOB, f)
          else if io.Count? then (WANTR, f)
          else (io.code, f)
  }

  /** No delimiter that starts at base or later has been passed over. */
  ghost predicate Unseen(t: seq<nat>, base: nat, d: seq<nat>, p: Pos) {
    p.end <= |t| && base <= p.offset && forall k: nat :: base <= k < p.offset ==> !Match(t, d, k, |t|)
  }

  /** The first delimiter of the whole stream at or after base. */
  predicate First(t: seq<nat>, base: nat, d: seq<nat>, at: nat) {
    base <= at && Match(t, d, at, |t|) && forall k: nat :: base <= k < at ==> !Match(t, d, k, |t|)
  }

  /** Every delimiter at or after base ends past the bytes received so far. */
  ghost predicate Beyond(t: seq<nat>, base: nat, d: seq<nat>, end: nat) {
    forall k: nat :: base <= k && Match(t, d, k, |t|) ==> k + |d| > end
  }

  lemma MatchedBy(t: seq<nat>, d: seq<nat>, end: nat)
    requires end <= |t|
    ensures forall k: nat :: Match(t, d, k, end) <==> Match(t, d, k, |t|) && k + |d| <= end
  {
  }

  /** One call, from a state in which earlier calls left off. */
  lemma ReadScanStep(t: seq<nat>, max: nat, base: nat, d: seq<nat>, p: Pos, r: Response)
    requires d != [] && Fits(p, max) && ReadResponse(r, p, |t|)
    requires Unseen(t, base, d, p) && Seekable(base, p.end, max)
    ensures var (c, q) := ReadScan(t, max, base, d, p, r);
            && p.end <= q.end <= |t| && Seekable(base, q.end, max) && Fits(q, max)
            && (c == OK ==> q.offset >= |d| && First(t, base, d, q.offset - |d|) && q.offset <= q.end)
            && (c != OK ==> Unseen(t, base, d, q))
            && (Retry(c) || c == EOF ==> q.end - base < max && Beyond(t, base, d, q.end))
            && (c == OOB ==> max < |d| || (q.end - base == max && Beyond(t, base, d, q.end)))
            && (r.Ready? && Retry(c) ==> p.end < q.end)
            && c != SYN && c != OOM
  {
    hide Match;
    var (c, q) := ReadScan(t, max, base, d, p, r);
    var (io, m) := ReadData(Pos(base, p.end), max, r);
    if max >= |d| && !(io.Fail? && io.code !in {WANTW, WANTR, EOF, OOB}) {
      MatchedBy(t, d, m.end);
      var hit := Scan(t, d, p.offset, m.end);
      if hit < 0 {
        assert forall k: nat :: base <= k < Resume(p.offset, m.end, |d|) ==> !Match(t, d, k, |t|);
      }
    }
  }

  /**
   * The answer of one call.  A read that fails for good is reported as it is, and nothing
   * moves.  Otherwise OK is reported exactly if the first delimiter ends among the bytes
   * now received, with the offset just past it; if not, OOB exactly if max bytes follow base,
   * and else WANTR after a read that delivered or the code of one that did not.
   */
  lemma ReadScanAnswers(t: seq<nat>, max: nat, base: nat, d: seq<nat>, p: Pos, r: Response)
    requires d != [] && Fits(p, max) && ReadResponse(r, p, |t|) && Unseen(t, base, d, p)
    ensures var (c, q) := ReadScan(t, max, base, d, p, r);
            if max < |d| || !Seekable(base, p.end, max) then (c, q) == (OOB, p)
            else if p.end - base < max && r.Refuse? && r.code in {SYS, SSL} then (c, q) == (r.code, p)
            else
              && q.end - p.end == (if r.Ready? then Min(r.n, max - (p.end - base)) else 0)
              && (c == OK <==> exists at: nat :: First(t, base, d, at) && at + |d| <= q.end)
              && (forall at: nat :: c == OK && First(t, base, d, at) ==> q.offset == at + |d|)
              && (c != OK ==>
                    && c == (if q.end - base == max then OOB else if r.Ready? then WANTR else r.code)
                    && q.offset == if p.offset + |d| <= q.end then q.end - |d| + 1 else p.offset)
  {
    hide Match;
    if max >= |d| && Seekable(base, p.end, max) {
      ReadScanStep(t, max, base, d, p, r);
      var (c, q) := ReadScan(t, max, base, d, p, r);
      MatchedBy(t, d, q.end);
      if c == OK {
        var at := q.offset - |d|;
        assert First(t, base, d, at);
        forall k: nat | First(t, base, d, k) ensures k == at {}
      }
    }
  }

  /** Calls with one base repeated while they ask for a retry. */
  function ScanAll(t: seq<nat>, max: nat, base: nat, d: seq<nat>, p: Pos, rs: seq<Response>): (Code, Pos)
    requires rs != [] && Fits(p, max) && p.end <= |t|
    decreases |rs|
  {
    if !ReadResponse(rs[0], p, |t|) then (SYS, p)
    else
      var (c, q) := ReadScan(t, max, base, d, p, rs[0]);
      if Retry(c) && |rs| > 1 && Fits(q, max) && q.end <= |t| then ScanAll(t, max, base, d, q, rs[1..]) else (c, q)
  }

  lemma {:induction false} ScanAllWorks(t: seq<nat>, max: nat, base: nat, d: seq<nat>, p: Pos, rs: seq<Response>)
    requires d != [] && rs != [] && Fits(p, max) && Unseen(t, base, d, p) && Seekable(base, p.end, max) && |d| <= max
    ensures var (c, q) := ScanAll(t, max, base, d, p, rs);
            && p.end <= q.end <= |t| && Seekable(base, q.end, max) && Fits(q, max)
            && (c == OK ==> q.offset >= |d| && First(t, base, d, q.offset - |d|) && q.offset - base <= max)
            && (c == OOB ==> forall k: nat :: First(t, base, d, k) ==> k + |d| - base > max)
            && (Retry(c) || c == EOF ==> forall k: nat :: First(t, base, d, k) ==> k + |d| > q.end)
    decreases |rs|
  {
    hide Match, ReadScan;
    if ReadResponse(rs[0], p, |t|) {
      ReadScanStep(t, max, base, d, p, rs[0]);
      var (c, q) := ReadScan(t, max, base, d, p, rs[0]);
      if Retry(c) && |rs| > 1 {
        ScanAllWorks(t, max, base, d, q, rs[1..]);
      } else {
        assert forall k: nat :: First(t, base, d, k) ==> base <= k && Match(t, d, k, |t|);
      }
    }
  }

  /**
   * Chunk independence: from a fresh start at base, whatever the responses, calls that
   * come to an end with OK or OOB agree: OK, with the offset just past the first
   * delimiter, if that end lies within max bytes of base; OOB otherwise.
   */
  lemma ScanningIsChunkIndependent(t: seq<nat>, max: nat, base: nat, d: seq<nat>, end: nat, rs: seq<Response>)
    requires d != [] && |d| <= max && rs != [] && base <= end <= |t| && end - base <= max
    ensures var (c, q) := ScanAll(t, max, base, d, Pos(base, end), rs);
            c == OK || c == OOB ==>
              && (c == OK <==> exists k: nat :: First(t, base, d, k) && k + |d| - base <= max)
              && forall k: nat :: First(t, base, d, k) && k + |d| - base <= max ==> q.offset == k + |d|
  {
    ScanAllWorks(t, max, base, d, Pos(base, end), rs);
    var (c, q) := ScanAll(t, max, base, d, Pos(base, end), rs);
    if c == OK {
      assert First(t, base, d, q.offset - |d|);
      forall k: nat | First(t, base, d, k) ensures k == q.offset - |d| {}
    }
  }

  /** In any mix with others, calls still to be retried have had fewer reads that deliver than the window has bytes. */
  lemma {:induction false} ScanningEnds(t: seq<nat>, max: nat, base: nat, d: seq<nat>, p: Pos, rs: seq<Response>)
    requires d != [] && rs != [] && Fits(p, max) && Unseen(t, base, d, p) && Seekable(base, p.end, max) && |d| <= max
    ensures Retry(ScanAll(t, max, base, d, p, rs).0) ==> Readies(rs) < max - (p.end - base)
    decreases |rs|
  {
    hide Match, ReadScan;
    if ReadResponse(rs[0], p, |t|) {
      ReadScanStep(t, max, base, d, p, rs[0]);
      var (c, q) := ReadScan(t, max, base, d, p, rs[0]);
      if Retry(c) && |rs| > 1 { ScanningEnds(t, max, base, d, q, rs[1..]); }
    }
  }

  /** Responses the kernel can give when their calls are made, each delivering or asking to be called again. */
  ghost predicate Patient(t: seq<nat>, max: nat, base: nat, d: seq<nat>, p: Pos, rs: seq<Response>)
    requires Fits(p, max) && p.end <= |t|
    decreases |rs|
  {
    rs != [] ==>
      && ReadResponse(rs[0], p, |t|) && (rs[0].Ready? || Retry(rs[0].code))
      && var (c, q) := ReadScan(t, max, base, d, p, rs[0]);
         Retry(c) && Fits(q, max) && q.end <= |t| ==> Patient(t, max, base, d, q, rs[1..])
  }

  /** Reads that never fail for good make no call fail for good: it finds, is out of bounds, or asks for more. */
  lemma {:induction false} ScanningNeverFails(t: seq<nat>, max: nat, base: nat, d: seq<nat>, p: Pos, rs: seq<Response>)
    requires d != [] && rs != [] && Fits(p, max) && Unseen(t, base, d, p) && Seekable(base, p.end, max) && |d| <= max
    requires Patient(t, max, base, d, p, rs)
    ensures ScanAll(t, max, base, d, p, rs).0 in {OK, OOB, WANTR, WANTW}
    decreases |rs|
  {
    hide Match, ReadScan;
    ReadScanStep(t, max, base, d, p, rs[0]);
    ReadScanAnswers(t, max, base, d, p, rs[0]);
    var (c, q) := ReadScan(t, max, base, d, p, rs[0]);
    if Retry(c) && |rs| > 1 { ScanningNeverFails(t, max, base, d, q, rs[1..]); }
  }

  /**
   * Total correctness of scanning: from a fresh start at base, with as many reads that deliver
   * as the window has free bytes, calls end in OK if the first delimiter ends within max bytes
   * of base, with the offset just past it, and in OOB if not.
   */
  lemma ScanningSucceeds(t: seq<nat>, max: nat, base: nat, d: seq<nat>, end: nat, rs: seq<Response>)
    requires d != [] && |d| <= max && rs != [] && base <= end <= |t| && end - base <= max
    requires Patient(t, max, base, d, Pos(base, end), rs) && Readies(rs) >= max - (end - base)
    ensures var (c, q) := ScanAll(t, max, base, d, Pos(base, end), rs);
            && c == (if exists k: nat :: First(t, base, d, k) && k + |d| - base <= max then OK else OOB)
            && forall k: nat :: First(t, base, d, k) && k + |d| - base <= max ==> q.offset == k + |d|
  {
    hide ScanAll, Patient, Match;
    ScanningNeverFails(t, max, base, d, Pos(base, end), rs);
    ScanningEnds(t, max, base, d, Pos(base, end), rs);
    ScanningIsChunkIndependent(t, max, base, d, end, rs);
  }

  // law_hts_read_scan_parse -----------------------------------------------------------

  datatype Parse = Parsed(consumed: nat) | ParseOOM | ParseFailed

  /** What becomes of a scan's result: a found delimiter hands the parser the bytes from base to its end. */
  function Judge(t: seq<nat>, base: nat, parser: seq<nat> -> Parse, c: Code, q: Pos): (Code, Pos)
    requires c == OK ==> base <= q.offset <= |t|
  {
    if c != OK then (c, q)
    else match parser(t[base..q.offset])
      case ParseOOM => (OOM, Pos(base, q.end))
      case ParseFailed => (SYN, Pos(base, q.end))
      case Parsed(consumed) => if consumed == q.offset - base then (OK, q) else (SYN, Pos(base, q.end))
  }

  function ScanParse(t: seq<nat>, max: nat, base: nat, d: seq<nat>, parser: seq<nat> -> Parse, p: Pos, r: Response)
    : (Code, Pos)
    requires Fits(p, max) && ReadResponse(r, p, |t|) && p.end <= |t| && (p.end - base <= max ==> base <= p.offset)
  {
    if p.end - base > max then (OOB, p)
    else
      var (c, q) := ReadScan(t, max, base, d, p, r);
      Judge(t, base, parser, c, q)
  }

  /** Calls with one base repeated while they ask for a retry. */
  function ParseAll(t: seq<nat>, max: nat, base: nat, d: seq<nat>, parser: seq<nat> -> Parse, p: Pos, rs: seq<Response>)
    : (Code, Pos)
    requires rs != [] && Fits(p, max) && p.end <= |t| && base <= p.offset
    decreases |rs|
  {
    if !ReadResponse(rs[0], p, |t|) then (SYS, p)
    else
      var (c, q) := ScanParse(t, max, base, d, parser, p, rs[0]);
      if Retry(c) && |rs| > 1 && Fits(q, max) && q.end <= |t| && base <= q.offset
      then ParseAll(t, max, base, d, parser, q, rs[1..])
      else (c, q)
  }

  /** All the calls come to one scan and one judgement of what it found. */
  lemma {:induction false} ParseAllIsJudged(t: seq<nat>, max: nat, base: nat, d: seq<nat>, parser: seq<nat> -> Parse,
                                            p: Pos, rs: seq<Response>)
    requires d != [] && rs != [] && Fits(p, max) && Unseen(t, base, d, p) && Seekable(base, p.end, max) && |d| <= max
    ensures var (c, q) := ScanAll(t, max, base, d, p, rs);
            && (c == OK ==> base <= q.offset <= |t|)
            && ParseAll(t, max, base, d, parser, p, rs) == Judge(t, base, parser, c, q)
    decreases |rs|
  {
    hide Match, ReadScan;
    if ReadResponse(rs[0], p, |t|) {
      ReadScanStep(t, max, base, d, p, rs[0]);
      var (c, q) := ReadScan(t, max, base, d, p, rs[0]);
      if Retry(c) && |rs| > 1 { ParseAllIsJudged(t, max, base, d, parser, q, rs[1..]); }
    }
  }

  /** A scan alone never blames the parser. */
  lemma {:induction false} ScanNeverJudges(t: seq<nat>, max: nat, base: nat, d: seq<nat>, p: Pos, rs: seq<Response>)
    requires d != [] && rs != [] && Fits(p, max) && Unseen(t, base, d, p) && Seekable(base, p.end, max) && |d| <= max
    ensures ScanAll(t, max, base, d, p, rs).0 !in {SYN, OOM}
    decreases |rs|
  {
    hide Match, ReadScan;
    if ReadResponse(rs[0], p, |t|) {
      ReadScanStep(t, max, base, d, p, rs[0]);
      var (c, q) := ReadScan(t, max, base, d, p, rs[0]);
      if Retry(c) && |rs| > 1 { ScanNeverJudges(t, max, base, d, q, rs[1..]); }
    }
  }

  /**
   * From a fresh start at base: OK means the parser took exactly the bytes up to the end of
   * the first delimiter, which is where the offset is; SYN and OOM mean that it was given
   * those bytes and did not take them, and the offset is back at base; OOB means no
   * delimiter ends within max bytes of base.
   */
  lemma ParsingIsChunkIndependent(t: seq<nat>, max: nat, base: nat, d: seq<nat>, parser: seq<nat> -> Parse,
                                  end: nat, rs: seq<Response>)
    requires d != [] && |d| <= max && rs != [] && base <= end <= |t| && end - base <= max
    ensures var (c, q) := ParseAll(t, max, base, d, parser, Pos(base, end), rs);
            && (c in {OK, SYN, OOM} ==> exists at: nat :: First(t, base, d, at) && at + |d| - base <= max)
            && (forall at: nat :: First(t, base, d, at) && c in {OK, SYN, OOM} ==>
                  var seen := t[base..at + |d|];
                  && (c == OK <==> parser(seen) == Parsed(|seen|)) && (c == OOM <==> parser(seen) == ParseOOM)
                  && q.offset == if c == OK then at + |d| else base)
            && (c == OOB ==> forall k: nat :: First(t, base, d, k) ==> k + |d| - base > max)
  {
    hide ScanAll, ParseAll, Match;
    var p := Pos(base, end);
    ScanAllWorks(t, max, base, d, p, rs);
    ScanNeverJudges(t, max, base, d, p, rs);
    ParseAllIsJudged(t, max, base, d, parser, p, rs);
    var (c, q) := ScanAll(t, max, base, d, p, rs);
    if c == OK {
      var at := q.offset - |d|;
      assert First(t, base, d, at);
      forall k: nat | First(t, base, d, k) ensures k == at {}
    }
  }

  /** Reads that never fail for good leave only the parser's verdicts, OOB and requests for more. */
  lemma ParsingNeverFails(t: seq<nat>, max: nat, base: nat, d: seq<nat>, parser: seq<nat> -> Parse,
                          end: nat, rs: seq<Response>)
    requires d != [] && |d| <= max && rs != [] && base <= end <= |t| && end - base <= max
    requires Patient(t, max, base, d, Pos(base, end), rs)
    ensures ParseAll(t, max, base, d, parser, Pos(base, end), rs).0 in {OK, SYN, OOM, OOB, WANTR, WANTW}
  {
    hide ScanAll, ParseAll, Match, Patient;
    ScanningNeverFails(t, max, base, d, Pos(base, end), rs);
    ParseAllIsJudged(t, max, base, d, parser, Pos(base, end), rs);
  }

  /**
   * Total correctness of parsing: with reads as in ScanningSucceeds, calls end in the
   * parser's verdict on the bytes up to the end of the first delimiter if that lies within
   * max bytes of base, and in OOB if not.
   */
  lemma ParsingSucceeds(t: seq<nat>, max: nat, base: nat, d: seq<nat>, parser: seq<nat> -> Parse,
                        end: nat, rs: seq<Response>)
    requires d != [] && |d| <= max && rs != [] && base <= end <= |t| && end - base <= max
    requires Patient(t, max, base, d, Pos(base, end), rs) && Readies(rs) >= max - (end - base)
    ensures var (c, q) := ParseAll(t, max, base, d, parser, Pos(base, end), rs);
            && (c == OOB <==> !exists at: nat :: First(t, base, d, at) && at + |d| - base <= max)
            && forall at: nat :: First(t, base, d, at) && at + |d| - base <= max ==>
                 var seen := t[base..at + |d|];
                 c == match parser(seen)
                      case ParseOOM => OOM
                      case ParseFailed => SYN
                      case Parsed(consumed) => if consumed == |seen| then OK else SYN
  {
    hide ScanAll, ParseAll, Match, Patient;
    ScanningSucceeds(t, max, base, d, end, rs);
    ParseAllIsJudged(t, max, base, d, parser, Pos(base, end), rs);
    ParsingIsChunkIndependent(t, max, base, d, parser, end, rs);
  }
}
