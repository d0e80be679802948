/**
 * `FileDownload`: one streamed download. The HTTP fetch is a sequence of
 * events (header lines, then body chunks) handed to the object's callbacks;
 * each chunk is counted against a 50 MiB cap, fed to the SHA-256 hasher and
 * written to the file; the digest is taken once the fetch completes.
 */
module FileDownloads {
  import opened Common
  import Decimal

  type Byte = b: int | 0 <= b < 256

  /** The size cap: 50 MiB. */
  const MaxBytes: nat := 50 * 1024 * 1024

  /** A SHA-256 digest in hexadecimal: 64 characters. */
  type HexDigest = s: string | |s| == 64
    witness "0000000000000000000000000000000000000000000000000000000000000000"

  /** Response headers by name. */
  type Headers = map<string, string>

  /** What the HTTP client hands to the callbacks. */
  datatype Event = HeaderLine(line: string) | Chunk(data: seq<Byte>)

  datatype DownloadError =
    | AlreadyStarted       // `start` called a second time
    | SizeLimitExceeded    // more than MaxBytes received
    | FetchFailed          // the fetch itself raised (connection failure, error status)
    | NoHash               // `get_hash` before the download completed
    | NoContentType        // `get_mime_type` without a Content-Type header
    | BadContentLength     // a Content-Length that is not a number

  // ---------------------------------------------------------------------------
  // Header lines
  // ---------------------------------------------------------------------------

  predicate IsSpace(c: char)
  {
    c == ' ' || c == '\t' || c == '\r' || c == '\n'
  }

  /** `s` without leading and trailing white space. */
  function Trim(s: string): (r: string)
    ensures |r| <= |s|
    ensures r != [] ==> !IsSpace(r[0]) && !IsSpace(r[|r| - 1])
    decreases |s|
  {
    if s == [] then []
    else if IsSpace(s[0]) then Trim(s[1..])
    else if IsSpace(s[|s| - 1]) then Trim(s[..|s| - 1])
    else s
  }

  /** Every character of `t` is white space. */
  predicate AllSpace(t: string)
  {
    forall k :: 0 <= k < |t| ==> IsSpace(t[k])
  }

  /**
   * `Trim` removes exactly the white space at the two ends: the result is a
   * slice of `s` and everything cut off before and after it is white space.
   */
  lemma {:induction false} TrimCutsOnlySpace(s: string)
    ensures exists i, j :: 0 <= i <= j <= |s| && Trim(s) == s[i..j] && AllSpace(s[..i]) && AllSpace(s[j..])
    decreases |s|
  {
    if s == [] {
      assert Trim(s) == s[0..0] && s[..0] == [] && s[0..] == [];
    } else if IsSpace(s[0]) {
      TrimCutsOnlySpace(s[1..]);
      var i, j :| 0 <= i <= j <= |s| - 1 && Trim(s[1..]) == s[1..][i..j]
                  && AllSpace(s[1..][..i]) && AllSpace(s[1..][j..]);
      TrimDropFirst(s, i, j);
    } else if IsSpace(s[|s| - 1]) {
      var t := s[..|s| - 1];
      TrimCutsOnlySpace(t);
      var i, j :| 0 <= i <= j <= |t| && Trim(t) == t[i..j] && AllSpace(t[..i]) && AllSpace(t[j..]);
      TrimDropLast(s, i, j);
    } else {
      assert Trim(s) == s[0..|s|] && s[..0] == [] && s[|s|..] == [];
    }
  }

  lemma TrimDropFirst(s: string, i: nat, j: nat)
    requires s != [] && IsSpace(s[0]) && i <= j <= |s| - 1
    requires Trim(s[1..]) == s[1..][i..j] && AllSpace(s[1..][..i]) && AllSpace(s[1..][j..])
    ensures Trim(s) == s[i + 1..j + 1] && AllSpace(s[..i + 1]) && AllSpace(s[j + 1..])
  {
    assert s[..i + 1] == [s[0]] + s[1..][..i];
    assert s[j + 1..] == s[1..][j..];
  }

  lemma TrimDropLast(s: string, i: nat, j: nat)
    requires s != [] && !IsSpace(s[0]) && IsSpace(s[|s| - 1]) && i <= j <= |s| - 1
    requires var t := s[..|s| - 1]; Trim(t) == t[i..j] && AllSpace(t[..i]) && AllSpace(t[j..])
    ensures Trim(s) == s[i..j] && AllSpace(s[..i]) && AllSpace(s[j..])
  {
    var t := s[..|s| - 1];
    assert s[..i] == t[..i];
    assert s[j..] == t[j..] + [s[|s| - 1]];
  }

  /** Position of the first ':' in `line`, if any. */
  function FirstColon(line: string): (r: Option<nat>)
    ensures r.Some? ==> r.value < |line| && line[r.value] == ':'
                        && forall j :: 0 <= j < r.value ==> line[j] != ':'
    ensures r.None? ==> forall j :: 0 <= j < |line| ==> line[j] != ':'
  {
    if line == [] then None
    else if line[0] == ':' then Some(0)
    else match FirstColon(line[1..])
      case Some(i) => Some(i + 1)
      case None => None
  }

  /**
   * Adds one `Name: value` line to the headers. A repeated name has the new value
   * appended after a comma. A line without a colon leaves the headers unchanged.
   */
  function ParseLine(headers: Headers, line: string): (r: Headers)
    ensures FirstColon(line).None? ==> r == headers
    ensures FirstColon(line).Some? ==> r.Keys == headers.Keys + {line[..FirstColon(line).value]}
    ensures forall k :: k in headers && (FirstColon(line).None? || k != line[..FirstColon(line).value])
                        ==> r[k] == headers[k]
    ensures FirstColon(line).Some? ==>
              var name, value := line[..FirstColon(line).value], Trim(line[FirstColon(line).value + 1..]);
              r[name] == if name in headers then headers[name] + "," + value else value
  {
    match FirstColon(line)
    case None => headers
    case Some(i) =>
      var name, value := line[..i], Trim(line[i + 1..]);
      if name in headers then headers[name := headers[name] + "," + value]
      else headers[name := value]
  }

  /** The headers after parsing each line in turn. */
  function ParseLines(headers: Headers, lines: seq<string>): Headers
    decreases |lines|
  {
    if lines == [] then headers else ParseLines(ParseLine(headers, lines[0]), lines[1..])
  }

  // ---------------------------------------------------------------------------
  // The callbacks, as functions of the download's state
  // ---------------------------------------------------------------------------

  /**
   * What the callbacks maintain: bytes received, the bytes hashed (which are the
   * bytes written), the parsed headers and whether the status line has been seen.
   */
  datatype Snapshot = Snapshot(received: nat, stored: seq<Byte>, headers: Headers, gotStatus: bool)

  /** A snapshot and whether processing may go on. */
  datatype Step = Step(state: Snapshot, ok: bool)

  /** `_process_header`: the first line (the status line) is only noted; every later line is parsed. */
  function FeedHeader(s: Snapshot, line: string): Snapshot
  {
    if s.gotStatus then s.(headers := ParseLine(s.headers, line)) else s.(gotStatus := true)
  }

  /** `_process_chunk`: count the chunk; past the cap, fail without hashing or writing it. */
  function FeedChunk(s: Snapshot, data: seq<Byte>): Step
  {
    var n := s.received + |data|;
    if n > MaxBytes then Step(s.(received := n), false)
    else Step(s.(received := n, stored := s.stored + data), true)
  }

  /** The events in order, stopping at the first chunk that breaks the cap. */
  function Run(s: Snapshot, events: seq<Event>): Step
    decreases |events|
  {
    if events == [] then Step(s, true)
    else match events[0]
      case HeaderLine(line) => Run(FeedHeader(s, line), events[1..])
      case Chunk(data) =>
        var t := FeedChunk(s, data);
        if t.ok then Run(t.state, events[1..]) else t
  }

  /** The body bytes of a sequence of events, in order. */
  function ChunkBytes(events: seq<Event>): seq<Byte>
    decreases |events|
  {
    if events == [] then []
    else (if events[0].Chunk? then events[0].data else []) + ChunkBytes(events[1..])
  }

  /** The header lines of a sequence of events, in order. */
  function HeaderLines(events: seq<Event>): seq<string>
    decreases |events|
  {
    if events == [] then []
    else (if events[0].HeaderLine? then [events[0].line] else []) + HeaderLines(events[1..])
  }

  /** A run that succeeds has counted, hashed and written exactly the body bytes, in order. */
  lemma {:induction false} RunStoresBody(s: Snapshot, events: seq<Event>)
    requires Run(s, events).ok
    ensures Run(s, events).state.stored == s.stored + ChunkBytes(events)
    ensures Run(s, events).state.received == s.received + |ChunkBytes(events)|
    decreases |events|
  {
    if events != [] {
      match events[0]
      case HeaderLine(line) =>
        RunStoresBody(FeedHeader(s, line), events[1..]);
      case Chunk(data) =>
        RunStoresBody(FeedChunk(s, data).state, events[1..]);
        assert s.stored + data + ChunkBytes(events[1..]) == s.stored + (data + ChunkBytes(events[1..]));
    }
  }

  /** Starting within the cap, a run succeeds exactly when the whole body fits in the cap. */
  lemma {:induction false} RunWithinCap(s: Snapshot, events: seq<Event>)
    requires s.received <= MaxBytes
    ensures Run(s, events).ok <==> s.received + |ChunkBytes(events)| <= MaxBytes
    decreases |events|
  {
    if events != [] {
      match events[0]
      case HeaderLine(line) =>
        RunWithinCap(FeedHeader(s, line), events[1..]);
      case Chunk(data) =>
        if FeedChunk(s, data).ok {
          RunWithinCap(FeedChunk(s, data).state, events[1..]);
        }
    }
  }

  /** The snapshot after one event that is processed without failing. */
  function After(s: Snapshot, e: Event): Snapshot
  {
    if e.HeaderLine? then FeedHeader(s, e.line) else FeedChunk(s, e.data).state
  }

  /** The position of the chunk at which a failing run stops. */
  function FailingChunk(s: Snapshot, events: seq<Event>): (k: nat)
    requires !Run(s, events).ok
    ensures k < |events| && events[k].Chunk?
    decreases |events|
  {
    if events[0].Chunk? && !FeedChunk(s, events[0].data).ok then 0
    else 1 + FailingChunk(After(s, events[0]), events[1..])
  }

  /**
   * A run that fails stops at the chunk that takes the count past the cap: the
   * bytes before it were stored, and that chunk was counted but neither hashed
   * nor written.
   */
  lemma {:induction false} RunFailure(s: Snapshot, events: seq<Event>)
    requires !Run(s, events).ok
    ensures var k := FailingChunk(s, events);
            && Run(s, events).state.stored == s.stored + ChunkBytes(events[..k])
            && Run(s, events).state.received == s.received + |ChunkBytes(events[..k])| + |events[k].data|
            && Run(s, events).state.received > MaxBytes
    decreases |events|
  {
    var e, tail := events[0], events[1..];
    if e.Chunk? && !FeedChunk(s, e.data).ok {
      assert ChunkBytes(events[..0]) == [];
      assert s.stored + [] == s.stored;
    } else {
      var t := After(s, e);
      var head := if e.Chunk? then e.data else [];
      assert Run(s, events) == Run(t, tail);
      assert t.stored == s.stored + head && t.received == s.received + |head|;
      RunFailure(t, tail);
      var k := FailingChunk(t, tail);
      assert events[..k + 1][1..] == tail[..k];
      assert ChunkBytes(events[..k + 1]) == head + ChunkBytes(tail[..k]);
      assert s.stored + head + ChunkBytes(tail[..k]) == s.stored + (head + ChunkBytes(tail[..k]));
    }
  }

  /** The header lines a run actually parses: all but the first unless the status line was seen. */
  function ParsedLines(gotStatus: bool, lines: seq<string>): seq<string>
  {
    if gotStatus || lines == [] then lines else lines[1..]
  }

  /** After a successful run, the headers are the parse of every header line but the status line. */
  lemma {:induction false} RunParsesHeaders(s: Snapshot, events: seq<Event>)
    requires Run(s, events).ok
    ensures Run(s, events).state.headers == ParseLines(s.headers, ParsedLines(s.gotStatus, HeaderLines(events)))
    ensures Run(s, events).state.gotStatus == (s.gotStatus || HeaderLines(events) != [])
    decreases |events|
  {
    if events != [] {
      match events[0]
      case HeaderLine(line) =>
        var t := FeedHeader(s, line);
        RunParsesHeaders(t, events[1..]);
        assert HeaderLines(events) == [line] + HeaderLines(events[1..]);
        if s.gotStatus {
          assert ([line] + HeaderLines(events[1..]))[1..] == HeaderLines(events[1..]);
        } else {
          assert ParsedLines(s.gotStatus, HeaderLines(events)) == HeaderLines(events[1..]);
        }
      case Chunk(data) =>
        RunParsesHeaders(FeedChunk(s, data).state, events[1..]);
        assert HeaderLines(events) == HeaderLines(events[1..]);
    }
  }

  /** Before the status line is seen, the first header line's text has no effect at all. */
  lemma StatusLineIgnored(s: Snapshot, status1: string, status2: string, rest: seq<Event>)
    requires !s.gotStatus
    ensures Run(s, [HeaderLine(status1)] + rest) == Run(s, [HeaderLine(status2)] + rest)
  {
    assert ([HeaderLine(status1)] + rest)[1..] == rest;
    assert ([HeaderLine(status2)] + rest)[1..] == rest;
  }

  // ---------------------------------------------------------------------------
  // The class
  // ---------------------------------------------------------------------------

  class FileDownload {
    const uri: string
    /** SHA-256 of the bytes fed to the hasher; its internals are not modelled. */
    const digest: seq<Byte> -> HexDigest
    /** The bytes fed to the hasher so far. */
    var hashed: seq<Byte>
    /** The bytes written to the file stream so far. */
    var written: seq<Byte>
    var bytesReceived: nat
    var headers: Headers
    var hash: Option<HexDigest>
    var done: bool
    var started: bool
    var gotStatus: bool

    /** Hasher and file see the same bytes; the hash exists exactly when the download is done. */
    ghost predicate Valid()
      reads this
    {
      && written == hashed
      && |hashed| <= bytesReceived
      && (hash.Some? <==> done)
      && (done ==> started)
    }

    /** The state the callbacks work on. */
    function View(): Snapshot
      reads this
    {
      Snapshot(bytesReceived, hashed, headers, gotStatus)
    }

    constructor (uri: string, digest: seq<Byte> -> HexDigest)
      ensures Valid()
      ensures this.uri == uri && this.digest == digest
      ensures View() == Snapshot(0, [], map[], false) && written == []
      ensures hash == None && !done && !started
    {
      this.uri := uri;
      this.digest := digest;
      hashed, written := [], [];
      bytesReceived := 0;
      headers := map[];
      hash := None;
      done, started, gotStatus := false, false, false;
    }

    /** `_process_header`. */
    method ProcessHeader(line: string)
      requires Valid()
      modifies this
      ensures Valid()
      ensures View() == FeedHeader(old(View()), line)
      ensures hash == old(hash) && done == old(done) && started == old(started)
    {
      if gotStatus {
        headers := ParseLine(headers, line);
      } else {
        gotStatus := true;
      }
    }

    /** `_process_chunk`: fails with SizeLimitExceeded once more than MaxBytes have arrived. */
    method ProcessChunk(data: seq<Byte>) returns (r: Outcome<DownloadError>)
      requires Valid()
      modifies this
      ensures Valid()
      ensures Step(View(), r.Pass?) == FeedChunk(old(View()), data)
      ensures r.Fail? ==> r.error == SizeLimitExceeded
      ensures hash == old(hash) && done == old(done) && started == old(started)
    {
      bytesReceived := bytesReceived + |data|;
      if bytesReceived > MaxBytes {
        return Fail(SizeLimitExceeded);
      }
      hashed := hashed + data;
      written := written + data;
      r := Pass;
    }

    /**
     * `start`: refuses a second start; otherwise marks the download started,
     * runs the fetch's events through the callbacks and, when the fetch
     * completes, stores the digest and only then marks the download done. On
     * success it returns the parsed headers. `fetchFails` says whether the fetch
     * raised after delivering `events`.
     */
    method Start(events: seq<Event>, fetchFails: bool) returns (r: Result<Headers, DownloadError>)
      requires Valid()
      modifies this
      ensures Valid()
      ensures old(started) ==> r == Err(AlreadyStarted) && View() == old(View())
                               && hash == old(hash) && done == old(done) && started
      ensures !old(started) ==> started && View() == Run(old(View()), events).state
      ensures !old(started) && !Run(old(View()), events).ok ==>
                r == Err(SizeLimitExceeded) && !done && hash == None
      ensures !old(started) && Run(old(View()), events).ok && fetchFails ==>
                r == Err(FetchFailed) && !done && hash == None
      ensures !old(started) && Run(old(View()), events).ok && !fetchFails ==>
                r == Ok(headers) && done && hash == Some(digest(hashed))
    {
      if started {
        return Err(AlreadyStarted);
      }
      started := true;
      var i := 0;
      while i < |events|
        invariant 0 <= i <= |events|
        invariant Valid() && started && !done && hash == None
        invariant Run(old(View()), events) == Run(View(), events[i..])
      {
        assert events[i..][0] == events[i] && events[i..][1..] == events[i + 1..];
        match events[i] {
          case HeaderLine(line) =>
            ProcessHeader(line);
          case Chunk(data) =>
            var outcome := ProcessChunk(data);
            if outcome.Fail? {
              return Err(SizeLimitExceeded);
            }
        }
        i := i + 1;
      }
      assert events[i..] == [];
      if fetchFails {
        return Err(FetchFailed);
      }
      hash := Some(digest(hashed));
      done := true;
      r := Ok(headers);
    }

    /** `is_done`: true exactly when the digest has been computed. */
    function IsDone(): (r: bool)
      requires Valid()
      reads this
      ensures r <==> hash.Some?
      ensures r ==> started
    {
      done
    }

    /** `is_started`. */
    function IsStarted(): (r: bool)
      requires Valid()
      reads this
      ensures !r ==> !done && hash == None
    {
      started
    }

    /**
     * `get_progress`: 100 once done; otherwise, with no Content-Length or a zero
     * one, minus the bytes received; otherwise the percentage received.
     * A Content-Length that is not a decimal numeral fails, as `float()` would.
     */
    function GetProgress(): (r: Result<real, DownloadError>)
      reads this
      ensures done ==> r == Ok(100.0)
      ensures !done && "Content-Length" !in headers ==> r == Ok(-(bytesReceived as real))
      ensures !done && "Content-Length" in headers ==>
                match Decimal.ParseNat(headers["Content-Length"])
                case None => r == Err(BadContentLength)
                case Some(total) =>
                  r == Ok(if total == 0 then -(bytesReceived as real)
                          else bytesReceived as real / total as real * 100.0)
    {
      if done then Ok(100.0)
      else
        var text := if "Content-Length" in headers then headers["Content-Length"] else "0";
        match Decimal.ParseNat(text)
        case None => Err(BadContentLength)
        case Some(total) =>
          if total == 0 then Ok(-(bytesReceived as real))
          else Ok(bytesReceived as real / total as real * 100.0)
    }

    /** `get_hash`: fails while no digest has been computed. */
    function GetHash(): (r: Result<HexDigest, DownloadError>)
      reads this
      ensures hash.None? ==> r == Err(NoHash)
      ensures hash.Some? ==> r == Ok(hash.value)
    {
      match hash
      case None => Err(NoHash)
      case Some(h) => Ok(h)
    }

    /** `get_mime_type`: the Content-Type header, or a failure when none has been parsed. */
    function GetMimeType(): (r: Result<string, DownloadError>)
      reads this
      ensures "Content-Type" !in headers ==> r == Err(NoContentType)
      ensures "Content-Type" in headers ==> r == Ok(headers["Content-Type"])
    {
      if "Content-Type" in headers then Ok(headers["Content-Type"]) else Err(NoContentType)
    }
  }

  /** A valid download has a hash to give exactly when it is done. */
  lemma HashReadableOnlyWhenDone(d: FileDownload)
    requires d.Valid()
    ensures d.GetHash().Ok? <==> d.done
  {
  }

  /** While a known length is not yet exceeded, progress lies between 0 and 100 percent. */
  lemma ProgressWithinKnownLength(d: FileDownload, total: nat)
    requires !d.done && "Content-Length" in d.headers
    requires Decimal.ParseNat(d.headers["Content-Length"]) == Some(total)
    requires 0 < total && d.bytesReceived <= total
    ensures d.GetProgress().Ok? && 0.0 <= d.GetProgress().value <= 100.0
  {
    var x, t := d.bytesReceived as real, total as real;
    assert x / t <= 1.0;
  }
}
