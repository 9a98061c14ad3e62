/** Lines out of a byte stream, however it was cut into chunks. */
module Framing {
  import opened Basics
  import opened Transport

  const CHUNK := 8192

  datatype Outcome = Frame(raw: seq<Byte>) | End | Failure(tooLong: bool)

  /** The position of the first LF, or the length if there is none. */
  function FirstLf(s: seq<Byte>): (k: nat)
    ensures k <= |s| && LF !in s[..k] && (k < |s| ==> s[k] == LF)
  {
    if s == [] || s[0] == LF then 0
    else
      var k := FirstLf(s[1..]);
      assert s[..k + 1] == [s[0]] + s[1..][..k];
      k + 1
  }

  lemma {:induction false} FirstLfIs(s: seq<Byte>, k: nat)
    requires k <= |s| && LF !in s[..k] && (k < |s| ==> s[k] == LF)
    ensures FirstLf(s) == k
    decreases k
  {
  }

  /** What a reader owes its caller for a stream that ends after `s`: its first line if that is within the
      bound with its LF, nothing at the end, and otherwise a failure: too long once the bound is full
      without an LF, incomplete if the stream ends before. */
  function NextFrame(s: seq<Byte>): Outcome {
    var k := FirstLf(s);
    if k < |s| && k + 1 <= MAX_FRAME then Frame(s[..k]) else if s == [] then End else Failure(k >= MAX_FRAME)
  }

  function Rest(s: seq<Byte>): seq<Byte> {
    var k := FirstLf(s);
    if k < |s| then s[k + 1..] else []
  }

  /** An LF in what was looked at is the first LF of the whole. */
  lemma FoundIsFirst(frame: seq<Byte>, pending: seq<Byte>, more: seq<Byte>)
    requires LF !in frame && FirstLf(pending) < |pending|
    ensures var k := |frame| + FirstLf(pending);
            var s := frame + pending + more;
            k < |s| && FirstLf(s) == k && s[..k] == frame + pending[..FirstLf(pending)] && s[k + 1..] == pending[FirstLf(pending) + 1..] + more
  {
    var s := frame + pending + more;
    var k := |frame| + FirstLf(pending);
    assert s[..k] == frame + pending[..FirstLf(pending)];
    FirstLfIs(s, k);
  }

  lemma {:induction false} NotYet(frame: seq<Byte>, more: seq<Byte>)
    requires LF !in frame
    ensures FirstLf(frame + more) >= |frame|
    decreases |frame|
  {
  }

  class StdioTransport {
    var pending: seq<Byte>
    var incoming: seq<seq<Byte>>        // chunks still to come; none is empty, the end of input follows

    ghost predicate Valid()
      reads this
    {
      [] !in incoming
    }

    /** The bytes not handed out yet, wherever they were cut. */
    ghost function Stream(): seq<Byte>
      reads this
    {
      pending + Joined(incoming)
    }

    /** `read_frame`, on a stream that does not stall. */
    method ReadFrame() returns (r: Outcome)
      requires Valid()
      modifies this
      ensures Valid()
      ensures r == NextFrame(old(Stream()))
      ensures r.Frame? ==> Stream() == Rest(old(Stream()))
    {
      ghost var s := Stream();
      var frame: seq<Byte> := [];
      assert s == frame + pending + Joined(incoming);
      while true
        invariant Valid() && LF !in frame && |frame| <= MAX_FRAME
        invariant s == frame + pending + Joined(incoming)
        decreases |incoming|
      {
        var newline := FirstLf(pending);
        var found := newline < |pending|;
        var take := if found then newline + 1 else |pending|;
        if found {
          FoundIsFirst(frame, pending, Joined(incoming));
        } else {
          assert LF !in pending by { assert pending[..|pending|] == pending; }
          NotYet(frame + pending, Joined(incoming));
        }
        if |frame| + take > MAX_FRAME {
          return Failure(true);
        }
        if found {
          frame, pending := frame + pending[..newline], pending[newline + 1..];
          return Frame(frame);
        }
        frame, pending := frame + pending, [];
        if |frame| == MAX_FRAME {
          return Failure(true);
        }
        if incoming == [] {
          assert s == frame;
          NotYet(frame, []);
          assert frame + [] == frame;
          return if frame != [] then Failure(false) else End;
        }
        assert Joined(incoming) == incoming[0] + Joined(incoming[1..]);
        pending, incoming := incoming[0], incoming[1..];
      }
      r := End;
    }

    /** A session: frames until the input ends or fails. */
    method ReadAll() returns (frames: seq<seq<Byte>>, clean: bool)
      requires Valid()
      modifies this
      ensures frames == Lines(old(Stream())).0 && clean == Lines(old(Stream())).1
    {
      frames := [];
      ghost var s := Stream();
      assert [] + Lines(s).0 == Lines(s).0;
      hide Lines, NextFrame, Rest, Joined;
      while true
        invariant Valid()
        invariant Lines(s).0 == frames + Lines(Stream()).0 && Lines(s).1 == Lines(Stream()).1
        decreases |Stream()|
      {
        ghost var before := Stream();
        LinesStep(before);
        var r := ReadFrame();
        match r
        case Frame(raw) =>
          OneMoreLine(frames, raw, Lines(Stream()).0);
          frames := frames + [raw];
        case End =>
          NoMoreLines(frames);
          return frames, true;
        case Failure(_) =>
          NoMoreLines(frames);
          return frames, false;
      }
    }
  }

  /** The accepted lines of a stream, and whether it ended cleanly. */
  function Lines(s: seq<Byte>): (seq<seq<Byte>>, bool)
    decreases |s|
  {
    match NextFrame(s)
    case End => ([], true)
    case Failure(_) => ([], false)
    case Frame(raw) => ([raw] + Lines(Rest(s)).0, Lines(Rest(s)).1)
  }

  lemma LinesStep(s: seq<Byte>)
    ensures match NextFrame(s)
            case End => Lines(s) == ([], true) && s == []
            case Failure(_) => Lines(s) == ([], false)
            case Frame(raw) => Lines(s) == ([raw] + Lines(Rest(s)).0, Lines(Rest(s)).1) && |Rest(s)| < |s|
  {
  }

  lemma OneMoreLine(lines: seq<seq<Byte>>, line: seq<Byte>, more: seq<seq<Byte>>)
    ensures lines + ([line] + more) == (lines + [line]) + more
  {
  }

  lemma NoMoreLines(lines: seq<seq<Byte>>)
    ensures lines + [] == lines
  {
  }

  lemma FrameIsLine(s: seq<Byte>)
    requires NextFrame(s).Frame?
    ensures var raw := NextFrame(s).raw;
            s == raw + [LF] + Rest(s) && LF !in raw && |raw| + 1 <= MAX_FRAME
  {
  }

  function Terminated(lines: seq<seq<Byte>>): seq<Byte> {
    if lines == [] then [] else lines[0] + [LF] + Terminated(lines[1..])
  }

  /** Reading loses and invents nothing: the lines with their LFs are the stream, up to the
      first line that is too long or not terminated; each is within the bound. */
  lemma {:induction false} LinesAreTheStream(s: seq<Byte>)
    ensures forall line | line in Lines(s).0 :: LF !in line && |line| + 1 <= MAX_FRAME
    ensures Terminated(Lines(s).0) <= s
    ensures Lines(s).1 ==> Terminated(Lines(s).0) == s
    ensures !Lines(s).1 ==> NextFrame(s[|Terminated(Lines(s).0)|..]).Failure?
    decreases |s|
  {
    hide Lines, NextFrame, Rest, FirstLf;
    LinesStep(s);
    match NextFrame(s)
    case Frame(raw) =>
      FrameIsLine(s);
      var rest := Rest(s);
      LinesAreTheStream(rest);
      var more := Lines(rest).0;
      var done := Terminated(more);
      assert ([raw] + more)[1..] == more && ([raw] + more)[0] == raw;
      assert Terminated([raw] + more) == raw + [LF] + done;
      hide Terminated;
      PrefixAfter(raw + [LF], done, rest);
    case End =>
    case Failure(_) =>
      assert s[0..] == s;
  }

  lemma PrefixAfter(head: seq<Byte>, done: seq<Byte>, rest: seq<Byte>)
    requires done <= rest
    ensures head + done <= head + rest && (head + rest)[|head + done|..] == rest[|done|..]
    ensures done == rest ==> head + done == head + rest
  {
  }

  /** And it reads back exactly what a peer wrote as terminated lines within the bound. */
  lemma {:induction false} WrittenLinesAreRead(lines: seq<seq<Byte>>)
    requires forall line | line in lines :: LF !in line && |line| + 1 <= MAX_FRAME
    ensures Lines(Terminated(lines)) == (lines, true)
    decreases |lines|
  {
    hide Lines, NextFrame, Rest, FirstLf;
    if lines == [] {
      LinesStep([]);
      assert NextFrame([]) == End by { EmptyEnds(); }
    } else {
      var rest := Terminated(lines[1..]);
      assert Terminated(lines) == lines[0] + [LF] + rest;
      hide Terminated;
      LineIsFrame(lines[0], rest);
      WrittenLinesAreRead(lines[1..]);
      LinesStep(lines[0] + [LF] + rest);
      assert lines == [lines[0]] + lines[1..];
    }
  }

  lemma EmptyEnds()
    ensures NextFrame([]) == End
  {
  }

  lemma LineIsFrame(line: seq<Byte>, rest: seq<Byte>)
    requires LF !in line && |line| + 1 <= MAX_FRAME
    ensures NextFrame(line + [LF] + rest) == Frame(line) && Rest(line + [LF] + rest) == rest
  {
    var s := line + [LF] + rest;
    assert s[..|line|] == line && s[|line| + 1..] == rest;
    FirstLfIs(s, |line|);
    hide FirstLf;
  }

  // ---------------------------------------------------------------- the daemon's side

  datatype Response = Handled(raw: seq<Byte>) | TooLarge | Closed

  /** What the buffer alone already says about the response. */
  lemma Arrived(buffer: seq<Byte>, socket: seq<Byte>)
    ensures var newline := FirstLf(buffer);
            var found := newline < |buffer|;
            var frameSize := if found then newline + 1 else |buffer|;
            && (frameSize > MAX_FRAME || (!found && frameSize == MAX_FRAME) ==> Expected(buffer + socket) == TooLarge)
            && (found && frameSize <= MAX_FRAME ==> Expected(buffer + socket) == Handled(buffer[..newline]))
            && (!found ==> LF !in buffer)
  {
    var k := FirstLf(buffer);
    FirstLfOfMore(buffer, socket);
    hide FirstLf;
  }

  /** More bytes do not move an LF that is there, and put none before their start. */
  lemma FirstLfOfMore(s: seq<Byte>, more: seq<Byte>)
    ensures var k := FirstLf(s);
            && (k < |s| ==> FirstLf(s + more) == k && (s + more)[..k] == s[..k])
            && (k == |s| ==> LF !in s && FirstLf(s + more) >= k)
  {
    var k := FirstLf(s);
    if k < |s| {
      assert (s + more)[..k] == s[..k];
      FirstLfIs(s + more, k);
    } else {
      assert s[..k] == s;
      NotYet(s, more);
    }
  }

  lemma ClosedEarly(buffer: seq<Byte>)
    requires LF !in buffer && |buffer| < MAX_FRAME
    ensures Expected(buffer + []) == Closed
  {
  }

  class Connection {
    var socket: seq<Byte>               // what the peer still sends before it closes
    var buffer: seq<Byte>

    ghost predicate Waiting()
      reads this
    {
      LF !in buffer && |buffer| < MAX_FRAME
    }

    /** One readiness event of `_read`: some bytes arrive, as many as the system likes. */
    method Read() returns (response: Option<Response>)
      requires Waiting()
      modifies this
      ensures buffer + socket == old(buffer + socket)
      ensures response == None ==> Waiting() && |socket| < |old(socket)|
      ensures response.Some? ==> response.value == Expected(old(buffer + socket))
    {
      hide Expected;
      ghost var s := buffer + socket;
      if socket == [] {
        ClosedEarly(buffer);
        return Some(Closed);
      }
      var cap := if CHUNK < MAX_FRAME + 1 - |buffer| then CHUNK else MAX_FRAME + 1 - |buffer|;
      var n :| 1 <= n <= cap && n <= |socket|;
      assert s == (buffer + socket[..n]) + socket[n..];
      buffer, socket := buffer + socket[..n], socket[n..];
      assert s == buffer + socket;
      Arrived(buffer, socket);
      var newline := FirstLf(buffer);
      var found := newline < |buffer|;
      var frameSize := if found then newline + 1 else |buffer|;
      if frameSize > MAX_FRAME || (!found && frameSize == MAX_FRAME) {
        return Some(TooLarge);
      }
      if found {
        return Some(Handled(buffer[..newline]));
      }
      response := None;
    }

    /** Events until the connection has its one response. */
    method Serve() returns (response: Response)
      requires buffer == []
      modifies this
      ensures response == Expected(old(socket))
    {
      ghost var s := socket;
      assert buffer + socket == s;
      var r := None;
      while r == None
        invariant buffer + socket == s
        invariant r == None ==> Waiting()
        invariant r.Some? ==> r.value == Expected(s)
        decreases r == None, |socket|
      {
        r := Read();
      }
      response := r.value;
    }
  }

  /** The response to everything the peer sends: its first line if it fits, an error once it
      cannot fit any more, and none if the peer closes first. */
  function Expected(s: seq<Byte>): Response {
    var k := FirstLf(s);
    if k < |s| && k + 1 <= MAX_FRAME then Handled(s[..k]) else if k >= MAX_FRAME then TooLarge else Closed
  }

  /** Both sides accept the same first frames. */
  lemma SameFirstFrames(s: seq<Byte>, raw: seq<Byte>)
    ensures Expected(s) == Handled(raw) <==> NextFrame(s) == Frame(raw)
    ensures NextFrame(s).Failure? || NextFrame(s).End? <==> Expected(s) == TooLarge || Expected(s) == Closed
  {
  }
}
