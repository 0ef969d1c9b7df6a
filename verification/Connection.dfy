/**
 * The connection's ring buffers and the operations that move them in place
 * (source/lawd/http_conn.c, and law_hts_read_scan_parse in source/lawd/http_server.c).
 * Offsets only grow; the byte of stream position p lives at index p modulo the length.
 */
module Connection {
  import opened Modular
  import opened Streams

  /** pgc_buf, with the stream its positions count in. */
  class Ring {
    const data: array<nat>
    var offset: nat
    var end: nat
    ghost var stream: seq<nat>

    /** The ring holds the last data.Length bytes before end, and every unconsumed byte is among them. */
    ghost predicate Valid()
      reads this, data
    {
      && data.Length > 0 && Fits(Where(), data.Length) && end <= |stream|
      && forall p: nat :: p < end <= p + data.Length ==> data[p % data.Length] == stream[p]
    }

    constructor (length: nat, stream: seq<nat>)
      requires length > 0
      ensures Valid() && fresh(data) && data.Length == length && offset == 0 && end == 0 && this.stream == stream
    {
      data := new nat[length](_ => 0);
      offset, end := 0, 0;
      this.stream := stream;
    }

    function Where(): Pos
      reads this
    {
      Pos(offset, end)
    }

    /** The bytes the ring itself stores for positions lo up to hi. */
    function Bytes(lo: nat, hi: nat): (r: seq<nat>)
      requires lo <= hi && data.Length > 0
      reads this, data
      ensures |r| == hi - lo
    {
      seq(hi - lo, i requires 0 <= i reads this, data => data[(lo + i) % data.Length])
    }

    /** As long as lo is within the ring's reach, the stored bytes are the stream's. */
    lemma BytesAreStream(lo: nat, hi: nat)
      requires Valid() && lo <= hi <= end <= lo + data.Length
      ensures Bytes(lo, hi) == stream[lo..hi]
    {
    }

    /** pgc_buf_seek: only to a position the ring still reaches. */
    method Seek(p: nat) returns (ok: bool)
      requires Valid()
      modifies this`offset
      ensures Valid()
      ensures ok <==> Seekable(p, end, data.Length)
      ensures offset == if ok then p else old(offset)
    {
      ok := p <= end && end - p <= data.Length;
      if ok { offset := p; }
    }

    /** Bytes arrive at the end; only what the ring no longer reaches is overwritten. */
    method Append(bytes: seq<nat>)
      requires Valid() && end + |bytes| <= |stream| && bytes == stream[end..end + |bytes|]
      requires |bytes| <= data.Length - (end - offset)
      modifies this`end, data
      ensures Valid() && end == old(end) + |bytes|
    {
      var i := 0;
      while i < |bytes|
        invariant 0 <= i <= |bytes| && end == old(end) + i && Valid()
      {
        assert bytes[i] == stream[end];
        forall p: nat | p < end && end + 1 <= p + data.Length ensures p % data.Length != end % data.Length {
          if p % data.Length == end % data.Length { ModUnique(p, end, data.Length); }
        }
        data[end % data.Length] := bytes[i];
        end := end + 1;
        i := i + 1;
      }
    }

    /** The search of pgc_buf_scan over the stored bytes, from the offset on. */
    method Find(d: seq<nat>) returns (hit: int)
      requires Valid() && d != []
      ensures hit == Scan(stream, d, offset, end)
    {
      hide Scan, Match;
      var p := offset;
      while p + |d| <= end
        invariant offset <= p <= end
        invariant Scan(stream, d, offset, end) == Scan(stream, d, p, end)
        decreases end - p
      {
        BytesAreStream(p, p + |d|);
        ScanUnfold(stream, d, p, end);
        if Bytes(p, p + |d|) == d { return p; }
        p := p + 1;
      }
      ScanUnfold(stream, d, p, end);
      return -1;
    }

    /** pgc_buf_scan: past the first delimiter in the buffer, or before its last |d| - 1 bytes. */
    method ScanFor(d: seq<nat>) returns (ok: bool)
      requires Valid() && d != []
      modifies this`offset
      ensures Valid()
      ensures ok <==> Scan(stream, d, old(offset), end) >= 0
      ensures offset == if ok then Scan(stream, d, old(offset), end) + |d| else Resume(old(offset), end, |d|)
    {
      hide Scan;
      var hit := Find(d);
      if hit >= 0 {
        offset := hit + |d|;
        return true;
      }
      if offset + |d| <= end { offset := end - |d| + 1; }
      return false;
    }

    /** pgc_buf_get: the next n bytes, or nothing. */
    method Get(n: nat) returns (c: Code, bytes: seq<nat>)
      requires Valid()
      modifies this`offset
      ensures Valid() && c == if n <= end - old(offset) then OK else OOB
      ensures offset == old(offset) + if c == OK then n else 0
      ensures c == OK ==> bytes == stream[old(offset)..offset]
    {
      if n > end - offset { return OOB, []; }
      BytesAreStream(offset, offset + n);
      bytes := Bytes(offset, offset + n);
      offset := offset + n;
      return OK, bytes;
    }
  }

  // Input ---------------------------------------------------------------------------------

  /** A connection's input side.  In each call, net holds the bytes a ready read can take. */
  class Input {
    const buf: Ring

    constructor (buf: Ring)
      ensures this.buf == buf
    {
      this.buf := buf;
    }

    /** The response is one the kernel can give, and net is the stream's next bytes. */
    ghost predicate Offers(r: Response, net: seq<nat>)
      reads buf
    {
      && ReadResponse(r, buf.Where(), |buf.stream|)
      && (r.Ready? ==> net == buf.stream[buf.end..buf.end + r.n])
    }

    /** law_htc_read_data. */
    method ReadFrom(r: Response, net: seq<nat>) returns (io: Io)
      requires buf.Valid() && Offers(r, net)
      modifies buf`end, buf.data
      ensures buf.Valid() && (io, buf.Where()) == ReadData(old(buf.Where()), buf.data.Length, r)
      ensures var room := buf.data.Length - (old(buf.end) - buf.offset);
              && io == (if room == 0 then Fail(OOB) else if r.Refuse? then Fail(r.code) else Count(Min(r.n, room)))
              && buf.end == old(buf.end) + if io.Count? then io.n else 0
    {
      var block := buf.end - buf.offset;
      var avail := buf.data.Length - block;
      if avail == 0 { return Fail(OOB); }
      match r {
        case Ready(n) =>
          var k := Min(n, avail);
          buf.Append(net[..k]);
          return Count(k);
        case Refuse(code) =>
          return Fail(code);
      }
    }

    /** law_htc_ensure_input. */
    method Ensure(nbytes: nat, r: Response, net: seq<nat>) returns (c: Code)
      requires buf.Valid() && Offers(r, net)
      modifies buf`end, buf.data
      ensures buf.Valid()
      ensures (c, buf.Where()) == EnsureInput(old(buf.Where()), buf.data.Length, nbytes, r)
    {
      var offset, end := buf.offset, buf.end;
      if end - offset + nbytes > buf.data.Length { return OOB; }
      if buf.end - offset >= nbytes { return OK; }
      var io := ReadFrom(r, net);
      match io {
        case Fail(code) => return code;
        case Count(n) => return if buf.end - offset >= nbytes then OK else WANTR;
      }
    }

    /** law_htc_read_scan: seek to base, read, seek back, scan. */
    method ReadAndScan(base: nat, d: seq<nat>, r: Response, net: seq<nat>) returns (c: Code)
      requires buf.Valid() && Offers(r, net) && d != [] && base <= buf.offset
      modifies buf`offset, buf`end, buf.data
      ensures buf.Valid()
      ensures (c, buf.Where()) == ReadScan(buf.stream, buf.data.Length, base, d, old(buf.Where()), r)
    {
      hide Scan, Match;
      var max := buf.data.Length;
      if max < |d| { return OOB; }
      var offset := buf.offset;
      var ok := buf.Seek(base);
      if !ok { return OOB; }
      var io := ReadFrom(r, net);
      ok := buf.Seek(offset);
      assert ok;
      if io.Fail? && io.code !in {WANTW, WANTR, EOF, OOB} { return io.code; }
      ok := buf.ScanFor(d);
      if ok { return OK; }
      if buf.end - base >= max { return OOB; }
      return if io.Count? then WANTR else io.code;
    }

    /**
     * law_hts_read_scan_parse: when the delimiter is found, the parser is given exactly the
     * stream's bytes from base to the end of the first delimiter, read out of the ring.
     */
    method ReadScanParse(base: nat, d: seq<nat>, parser: seq<nat> -> Parse, r: Response, net: seq<nat>)
      returns (c: Code, seen: seq<nat>)
      requires buf.Valid() && Offers(r, net) && d != []
      requires base <= buf.end && (buf.end - base <= buf.data.Length ==> Unseen(buf.stream, base, d, buf.Where()))
      modifies buf`offset, buf`end, buf.data
      ensures buf.Valid()
      ensures (c, buf.Where()) == ScanParse(buf.stream, buf.data.Length, base, d, parser, old(buf.Where()), r)
      ensures seen != [] ==> exists at: nat ::
                First(buf.stream, base, d, at) && at + |d| <= buf.end && seen == buf.stream[base..at + |d|]
      ensures c == OK ==> seen != [] && parser(seen) == Parsed(|seen|) && buf.offset == base + |seen|
      ensures c == SYN || c == OOM ==> seen != [] && parser(seen) != Parsed(|seen|) && buf.offset == base
      ensures Retry(c) ==> seen == [] && Unseen(buf.stream, base, d, buf.Where()) && buf.end - base < buf.data.Length
    {
      hide Scan, Match, ReadScan;
      seen := [];
      if buf.end - base > buf.data.Length { return OOB, []; }
      ReadScanStep(buf.stream, buf.data.Length, base, d, buf.Where(), r);
      c := ReadAndScan(base, d, r, net);
      if c != OK { return c, []; }
      var end := buf.offset;
      var ok := buf.Seek(base);
      assert ok;
      buf.BytesAreStream(base, end);
      seen := buf.Bytes(base, end);
      assert First(buf.stream, base, d, end - |d|);
      match parser(seen) {
        case ParseOOM => return OOM, seen;
        case ParseFailed => return SYN, seen;
        case Parsed(consumed) =>
          if consumed != |seen| { return SYN, seen; }
      }
      ok := buf.Seek(end);
      return OK, seen;
    }
  }

  // Output --------------------------------------------------------------------------------

  /** write(2) may write nothing; SSL_write gives a positive count. */
  predicate WriteResponse(r: Response) {
    r.Refuse? ==> r.code in {WANTR, WANTW, SYS, SSL}
  }

  /** A connection's output side; the ring's stream is every byte put so far. */
  class Output {
    const buf: Ring
    ghost var delivered: seq<nat>

    /** What was delivered and what is pending are, in order, what was put. */
    ghost predicate Valid()
      reads this, buf, buf.data
    {
      buf.Valid() && buf.end == |buf.stream| && delivered == buf.stream[..buf.offset]
    }

    constructor (length: nat)
      requires length > 0
      ensures Valid() && buf.stream == [] && delivered == [] && buf.data.Length == length
    {
      buf := new Ring(length, []);
      delivered := [];
    }

    function Pending(): int
      reads buf
    {
      buf.end - buf.offset
    }

    function Room(): int
      reads buf
    {
      buf.data.Length - Pending()
    }

    /** The room there is once nbytes have been asked for and the write they may need got response r. */
    function RoomFor(nbytes: nat, r: Response): int
      requires Pending() >= 0
      reads buf
    {
      Room() + if Room() < nbytes <= buf.data.Length && r.Ready? then Min(r.n, Pending()) else 0
    }

    /** Delivered bytes followed by the bytes the ring still stores are the bytes put. */
    lemma Conserved()
      requires Valid()
      ensures delivered + buf.Bytes(buf.offset, buf.end) == buf.stream
    {
    }

    /** pgc_buf_put: all the bytes, or none. */
    method Put(bytes: seq<nat>) returns (c: Code)
      requires Valid()
      modifies buf`end, buf`stream, buf.data
      ensures Valid() && c == if |bytes| <= buf.data.Length - old(Pending()) then OK else OOB
      ensures buf.stream == if c == OK then old(buf.stream) + bytes else old(buf.stream)
    {
      if |bytes| > buf.data.Length - (buf.end - buf.offset) { return OOB; }
      buf.stream := buf.stream + bytes;
      assert delivered == buf.stream[..buf.offset];
      buf.Append(bytes);
      return OK;
    }

    /** law_htc_write_data; with nothing pending it reports zero and tries no write. */
    method WriteTo(r: Response) returns (io: Io)
      requires Valid() && WriteResponse(r)
      modifies this`delivered, buf`offset
      ensures Valid()
      ensures io == if old(Pending()) == 0 then Count(0)
              else match r case Ready(n) => Count(Min(n, old(Pending()))) case Refuse(code) => Fail(code)
      ensures buf.offset == old(buf.offset) + if io.Count? then io.n else 0
      ensures delivered == old(delivered) + if io.Count? then old(buf.stream)[old(buf.offset)..buf.offset] else []
    {
      if buf.end - buf.offset == 0 { return Count(0); }
      match r {
        case Refuse(code) => return Fail(code);
        case Ready(n) =>
          var k := Min(n, buf.end - buf.offset);
          buf.BytesAreStream(buf.offset, buf.offset + k);
          var sent := buf.Bytes(buf.offset, buf.offset + k);
          assert buf.stream[..buf.offset + k] == buf.stream[..buf.offset] + sent;
          delivered := delivered + sent;
          buf.offset := buf.offset + k;
          return Count(k);
      }
    }

    /** law_htc_ensure_output: OK means room for nbytes unless a write wrote nothing. */
    method Ensure(nbytes: nat, r: Response) returns (c: Code)
      requires Valid() && WriteResponse(r)
      modifies this`delivered, buf`offset
      ensures Valid()
      ensures Pending() == old(Pending()) -
                if old(Room()) < nbytes <= buf.data.Length && r.Ready? then Min(r.n, old(Pending())) else 0
      ensures c == OOB <==> nbytes > buf.data.Length
      ensures c == OK <==> nbytes <= buf.data.Length && (Room() >= nbytes || r == Ready(0))
      ensures c != OOB && c != OK ==> c == if r.Ready? then WANTW else r.code
    {
      var max := buf.data.Length;
      if nbytes > max { return OOB; }
      if max - (buf.end - buf.offset) >= nbytes { return OK; }
      var io := WriteTo(r);
      if io.Fail? { return io.code; }
      if io.n == 0 { return OK; }
      return if max - (buf.end - buf.offset) >= nbytes then OK else WANTW;
    }

    /** law_htc_flush: OK means nothing is pending unless a write wrote nothing. */
    method Flush(r: Response) returns (c: Code)
      requires Valid() && WriteResponse(r)
      modifies this`delivered, buf`offset
      ensures Valid()
      ensures Pending() == old(Pending()) - if r.Ready? then Min(r.n, old(Pending())) else 0
      ensures c == OK <==> Pending() == 0 || r == Ready(0)
      ensures c != OK ==> c == if r.Ready? then WANTW else r.code
      ensures old(Pending()) == 0 ==> delivered == old(delivered)
    {
      if buf.end - buf.offset == 0 { return OK; }
      var io := WriteTo(r);
      if io.Fail? { return io.code; }
      if io.n == 0 { return OK; }
      return if buf.end - buf.offset == 0 then OK else WANTW;
    }
  }
}
