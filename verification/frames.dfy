/** Newline-terminated frames, read off a socket in chunks of any size. */
module Frames {

  type Byte = b: int | 0 <= b < 256
  type Bytes = seq<Byte>

  const NEWLINE: Byte := 10
  const MAX_FRAME_BYTES: nat := 16777216

  // --- what a byte stream holds --------------------------------------------------------

  /** The index of the first newline from `from` on, or -1. */
  function FindNewline(s: Bytes, from: nat): (r: int)
    requires from <= |s|
    ensures r == -1 || from <= r < |s|
    ensures r >= 0 ==> s[r] == NEWLINE
    ensures forall k | from <= k < (if r < 0 then |s| else r) :: s[k] != NEWLINE
    decreases |s| - from
  {
    if from == |s| then -1 else if s[from] == NEWLINE then from else FindNewline(s, from + 1)
  }

  predicate OneLine(s: Bytes) {
    forall k | 0 <= k < |s| :: s[k] != NEWLINE
  }

  /** The lines of a stream that are terminated ... */
  function Lines(s: Bytes): seq<Bytes> {
    var i := FindNewline(s, 0);
    if i < 0 then [] else [s[..i]] + Lines(s[i + 1..])
  }

  /** ... and what follows the last newline. */
  function Tail(s: Bytes): Bytes {
    var i := FindNewline(s, 0);
    if i < 0 then s else Tail(s[i + 1..])
  }

  predicate IsBlank(b: Byte) {
    b == 32 || 9 <= b <= 13
  }

  predicate Blank(s: Bytes) {
    forall k | 0 <= k < |s| :: IsBlank(s[k])
  }

  datatype Outcome = Outcome(frames: seq<Bytes>, tooLarge: bool)

  /** What a reader has to make of `lines` and the unterminated `tail`: the lines that are not blank,
      up to the first that is over the limit. */
  function Deliver(lines: seq<Bytes>, tail: Bytes): Outcome {
    if lines == [] then Outcome([], |tail| > MAX_FRAME_BYTES)
    else if |lines[0]| > MAX_FRAME_BYTES then Outcome([], true)
    else
      var rest := Deliver(lines[1..], tail);
      Outcome((if Blank(lines[0]) then [] else [lines[0]]) + rest.frames, rest.tooLarge)
  }

  function DeliverAll(stream: Bytes): Outcome {
    Deliver(Lines(stream), Tail(stream))
  }

  // --- splitting a stream in two -------------------------------------------------------

  lemma {:induction false} TailIsOneLine(s: Bytes)
    ensures OneLine(Tail(s))
  {
    var i := FindNewline(s, 0);
    if i >= 0 {
      TailIsOneLine(s[i + 1..]);
    }
  }

  /** A newline ends the first line, whatever follows. */
  lemma FirstLine(line: Bytes, rest: Bytes)
    requires OneLine(line)
    ensures Lines(line + [NEWLINE] + rest) == [line] + Lines(rest)
    ensures Tail(line + [NEWLINE] + rest) == Tail(rest)
  {
    var s := line + [NEWLINE] + rest;
    var i := FindNewline(s, 0);
    assert s[|line|] == NEWLINE;
    assert forall k | 0 <= k < |line| :: s[k] == line[k];
    assert i == |line|;
    assert s[..i] == line && s[i + 1..] == rest;
  }

  lemma Regroup<T>(a: seq<T>, b: seq<T>, c: seq<T>)
    ensures a + b + c == a + (b + c)
  {
  }

  /** Lines of a stream that goes on: those there were, and those of what was left with the rest. */
  lemma {:induction false} LinesGoOn(p: Bytes, t: Bytes)
    ensures Lines(p + t) == Lines(p) + Lines(Tail(p) + t)
    ensures Tail(p + t) == Tail(Tail(p) + t)
    decreases |p|
  {
    var i := FindNewline(p, 0);
    if i >= 0 {
      var line, rest := p[..i], p[i + 1..];
      assert p == line + [NEWLINE] + rest;
      LinesGoOn(rest, t);
      FirstLine(line, rest + t);
      Regroup(line + [NEWLINE], rest, t);
      Regroup([line], Lines(rest), Lines(Tail(rest) + t));
    }
  }

  lemma {:induction false} DeliverGoesOn(a: seq<Bytes>, b: seq<Bytes>, tail: Bytes)
    ensures
      var x, y := Deliver(a, []), Deliver(b, tail);
      Deliver(a + b, tail) == if x.tooLarge then x else Outcome(x.frames + y.frames, y.tooLarge)
  {
    if a == [] {
      assert a + b == b;
    } else {
      assert (a + b)[0] == a[0] && (a + b)[1..] == a[1..] + b;
      DeliverGoesOn(a[1..], b, tail);
      Regroup(if Blank(a[0]) then [] else [a[0]], Deliver(a[1..], []).frames, Deliver(b, tail).frames);
    }
  }

  /** An over-long tail stays over-long: with more bytes it is a longer tail or too long a line. */
  lemma LongTailStays(tail: Bytes, t: Bytes)
    requires OneLine(tail) && |tail| > MAX_FRAME_BYTES
    ensures DeliverAll(tail + t) == Outcome([], true)
  {
    var s := tail + t;
    var i := FindNewline(s, 0);
    assert forall k | 0 <= k < |tail| :: s[k] == tail[k];
    assert i < 0 || i >= |tail|;
    if i >= 0 {
      assert Lines(s)[0] == s[..i];
    }
  }

  /** Once a stream is over the limit, no more bytes change what is delivered. */
  lemma TooLargeStays(p: Bytes, t: Bytes)
    requires DeliverAll(p).tooLarge
    ensures DeliverAll(p + t) == DeliverAll(p)
  {
    LinesGoOn(p, t);
    TailIsOneLine(p);
    DeliverGoesOn(Lines(p), [], Tail(p));
    assert Lines(p) + [] == Lines(p);
    DeliverGoesOn(Lines(p), Lines(Tail(p) + t), Tail(Tail(p) + t));
    if !Deliver(Lines(p), []).tooLarge {
      LongTailStays(Tail(p), t);
    }
  }

  // --- reading -------------------------------------------------------------------------

  /** One turn of the reader: bytes (none at the end of the stream), an error, or the stop flag. */
  datatype Read = Data(bytes: Bytes) | ReadError | StopSet

  datatype How = Waiting | Ended | RaisedError | RaisedTooLarge

  predicate Ends(r: Read) {
    !r.Data? || r.bytes == []
  }

  /** The bytes received before the reader ends. */
  function Received(input: seq<Read>): Bytes {
    if input == [] || Ends(input[0]) then [] else input[0].bytes + Received(input[1..])
  }

  /** How the reads end a reader that meets no over-long frame. */
  function EndOf(input: seq<Read>, raiseErrors: bool): How {
    if input == [] then Waiting
    else if input[0].ReadError? then (if raiseErrors then RaisedError else Ended)
    else if Ends(input[0]) then Ended
    else EndOf(input[1..], raiseErrors)
  }

  lemma {:induction false} ReceivedMore(input: seq<Read>, k: nat)
    requires k <= |input| && forall j | 0 <= j < k :: !Ends(input[j])
    ensures Received(input) == Received(input[..k]) + Received(input[k..])
    decreases k
  {
    if k == 0 {
      assert input[0..] == input;
    } else {
      var rest := input[1..];
      ReceivedMore(rest, k - 1);
      TakeMore(input, k);
    }
  }

  lemma ReceivedNext(input: seq<Read>, k: nat)
    requires k < |input| && !Ends(input[k]) && forall j | 0 <= j < k :: !Ends(input[j])
    ensures Received(input[..k + 1]) == Received(input[..k]) + input[k].bytes
  {
    var some := input[..k + 1];
    ReceivedMore(some, k);
    assert some[..k] == input[..k] && some[k..] == [input[k]] && some[k..][1..] == [];
  }

  lemma {:induction false} EndLater(input: seq<Read>, k: nat, raiseErrors: bool)
    requires k <= |input| && forall j | 0 <= j < k :: !Ends(input[j])
    ensures EndOf(input, raiseErrors) == EndOf(input[k..], raiseErrors)
    decreases k
  {
    if k == 0 {
      assert input[0..] == input;
    } else {
      EndLater(input[1..], k - 1, raiseErrors);
      TakeMore(input, k);
    }
  }

  /** What a reader receives is what it read before its first error, its stop or the end of the stream; that one
      decides how it ends. */
  lemma {:induction false} EndIs(input: seq<Read>, k: nat, raiseErrors: bool)
    requires k <= |input| && forall j | 0 <= j < k :: input[j].Data? && input[j].bytes != []
    requires k < |input| ==> input[k].Data? ==> input[k].bytes == []
    ensures EndOf(input, raiseErrors) ==
            if k == |input| then Waiting
            else if input[k].ReadError? && raiseErrors then RaisedError else Ended
    ensures Received(input) == Received(input[..k])
    decreases k
  {
    if k > 0 {
      EndIs(input[1..], k - 1, raiseErrors);
      TakeMore(input, k);
    }
  }

  lemma TakeMore(input: seq<Read>, k: nat)
    requires 0 < k <= |input|
    ensures input[..k][0] == input[0] && input[..k][1..] == input[1..][..k - 1] && input[k..] == input[1..][k - 1..]
  {
  }

  /** Where a reader stands: the stream `done` is delivered, and `buf` holds the rest. */
  ghost predicate Standing(frames: seq<Bytes>, done: Bytes, buf: Bytes, got: Bytes) {
    && got == done + buf && Tail(done) == []
    && Deliver(Lines(done), []) == Outcome(frames, false)
  }

  /** A line and its newline, after a part of the stream that ends with one. */
  lemma LineAdded(done: Bytes, line: Bytes)
    requires Tail(done) == [] && OneLine(line)
    ensures Tail(done + (line + [NEWLINE])) == []
    ensures Lines(done + (line + [NEWLINE])) == Lines(done) + [line]
  {
    FirstLine(line, []);
    assert line + [NEWLINE] + [] == line + [NEWLINE] && [] + (line + [NEWLINE]) == line + [NEWLINE];
    LinesGoOn(done, line + [NEWLINE]);
    assert [line] + Lines([]) == [line];
  }

  lemma DeliverOneMore(lines: seq<Bytes>, line: Bytes, frames: seq<Bytes>)
    requires Deliver(lines, []) == Outcome(frames, false)
    ensures |line| <= MAX_FRAME_BYTES ==>
              Deliver(lines + [line], []) == Outcome(if Blank(line) then frames else frames + [line], false)
    ensures |line| > MAX_FRAME_BYTES ==> Deliver(lines + [line], []) == Outcome(frames, true)
  {
    DeliverGoesOn(lines, [line], []);
    assert frames + [] == frames;
  }

  /** A line taken off the buffer. */
  lemma LineTaken(frames: seq<Bytes>, done: Bytes, line: Bytes, rest: Bytes, got: Bytes)
    requires Standing(frames, done, line + [NEWLINE] + rest, got) && OneLine(line)
    ensures |line| > MAX_FRAME_BYTES ==> DeliverAll(got) == Outcome(frames, true)
    ensures |line| <= MAX_FRAME_BYTES ==>
              Standing(if Blank(line) then frames else frames + [line], done + (line + [NEWLINE]), rest, got)
  {
    LineAdded(done, line);
    DeliverOneMore(Lines(done), line, frames);
    Regroup(done, line + [NEWLINE], rest);
    if |line| > MAX_FRAME_BYTES {
      NowTooLarge(frames, done + (line + [NEWLINE]));
      TooLargeStays(done + (line + [NEWLINE]), rest);
    }
  }

  lemma NowTooLarge(frames: seq<Bytes>, done: Bytes)
    requires Tail(done) == [] && Deliver(Lines(done), []) == Outcome(frames, true)
    ensures DeliverAll(done) == Outcome(frames, true)
  {
  }

  /** No newline is left in the buffer. */
  lemma Settled(frames: seq<Bytes>, done: Bytes, buf: Bytes, got: Bytes)
    requires Standing(frames, done, buf, got) && OneLine(buf)
    ensures DeliverAll(got) == Outcome(frames, |buf| > MAX_FRAME_BYTES)
  {
    LinesGoOn(done, buf);
    assert [] + buf == buf;
    assert FindNewline(buf, 0) < 0;
    DeliverGoesOn(Lines(done), [], buf);
    assert frames + [] == frames;
    assert Lines(done) + [] == Lines(done);
  }

  /** Yield the frames of what is read.  However it is cut into reads, the frames and the refusal are
      those of the whole stream.  `scanned` counts the bytes looked at for a newline. */
  method IterFrames(input: seq<Read>, raiseErrors: bool) returns (frames: seq<Bytes>, how: How, ghost scanned: nat)
    ensures Outcome(frames, how.RaisedTooLarge?) == DeliverAll(Received(input))
    ensures !how.RaisedTooLarge? ==> how == EndOf(input, raiseErrors)
    ensures scanned <= |Received(input)|
  {
    var buf: Bytes := [];
    frames, scanned := [], 0;
    ghost var done: Bytes := [];
    for i := 0 to |input|
      invariant forall j | 0 <= j < i :: !Ends(input[j])
      invariant Standing(frames, done, buf, Received(input[..i])) && OneLine(buf) && |buf| <= MAX_FRAME_BYTES
      invariant scanned == |Received(input[..i])|
    {
      ReceivedMore(input, i);
      EndLater(input, i, raiseErrors);
      assert input[i..][0] == input[i] && (Ends(input[i]) ==> Received(input) == Received(input[..i]));
      if input[i].StopSet? || input[i].ReadError? {
        Settled(frames, done, buf, Received(input[..i]));
        how := if input[i].ReadError? && raiseErrors then RaisedError else Ended;
        return;
      }
      var data := input[i].bytes;
      if data == [] {
        Settled(frames, done, buf, Received(input[..i]));
        return frames, Ended, scanned;
      }
      var over;
      frames, buf, over, done, scanned := TakeLines(frames, buf, data, done, Received(input[..i]), scanned);
      ReceivedNext(input, i);
      ReceivedMore(input, i + 1);
      if over {
        TooLargeStays(Received(input[..i + 1]), Received(input[i + 1..]));
        return frames, RaisedTooLarge, scanned;
      }
    }
    ReceivedMore(input, |input|);
    EndLater(input, |input|, raiseErrors);
    assert input[..|input|] == input;
    Settled(frames, done, buf, Received(input));
    how := Waiting;
  }

  /** One read: only its bytes are scanned. */
  method TakeLines(before: seq<Bytes>, held: Bytes, data: Bytes, ghost done0: Bytes, ghost got: Bytes,
                   ghost scanned0: nat)
    returns (frames: seq<Bytes>, buf: Bytes, over: bool, ghost done: Bytes, ghost scanned: nat)
    requires Standing(before, done0, held, got) && OneLine(held)
    ensures over ==> DeliverAll(got + data) == Outcome(frames, true)
    ensures !over ==> Standing(frames, done, buf, got + data) && OneLine(buf) && |buf| <= MAX_FRAME_BYTES
    ensures scanned <= scanned0 + |data| && (!over ==> scanned == scanned0 + |data|)
  {
    frames, done, scanned := before, done0, scanned0;
    var scan: nat := |held|;
    buf := held + data;
    assert done + buf == got + data;
    var end := FindNewline(buf, scan);
    while end != -1
      invariant scan <= |buf| && OneLine(buf[..scan]) && end == FindNewline(buf, scan)
      invariant Standing(frames, done, buf, got + data)
      invariant scanned + (|buf| - scan) == scanned0 + |data|
      decreases |buf|
    {
      var line := buf[..end];
      scanned := scanned + (end + 1 - scan);
      ghost var rest := buf[end + 1..];
      assert buf == line + [NEWLINE] + rest;
      LineTaken(frames, done, line, rest, got + data);
      done := done + (line + [NEWLINE]);
      buf := buf[end + 1..];
      scan := 0;
      if |line| > MAX_FRAME_BYTES { return frames, buf, true, done, scanned; }
      if !Blank(line) {
        frames := frames + [line];
      }
      end := FindNewline(buf, scan);
    }
    scanned := scanned + (|buf| - scan);
    over := |buf| > MAX_FRAME_BYTES;
    Settled(frames, done, buf, got + data);
  }

  // --- writing -------------------------------------------------------------------------

  /** What `send_frame` appends to the wire for each message: its text, then a newline. */
  function Wire(messages: seq<Bytes>): Bytes {
    if messages == [] then [] else messages[0] + [NEWLINE] + Wire(messages[1..])
  }

  /** A JSON text is on one line (section 7 of RFC 8259), and not blank. */
  predicate Sendable(m: Bytes) {
    OneLine(m) && !Blank(m) && |m| <= MAX_FRAME_BYTES
  }

  /** A reader gets back exactly what was sent, and nothing is refused. */
  lemma {:induction false} SentIsDelivered(messages: seq<Bytes>)
    requires forall k | 0 <= k < |messages| :: Sendable(messages[k])
    ensures DeliverAll(Wire(messages)) == Outcome(messages, false)
  {
    if messages != [] {
      SentIsDelivered(messages[1..]);
      FirstLine(messages[0], Wire(messages[1..]));
      assert ([messages[0]] + Lines(Wire(messages[1..])))[1..] == Lines(Wire(messages[1..]));
      assert messages == [messages[0]] + messages[1..];
    }
  }

  /** What a reader delivers are lines that hold a byte other than a space, each within 16 MiB, as are all before
      it; and it delivers every such line. */
  lemma {:induction false} DeliveredIff(lines: seq<Bytes>, tail: Bytes, x: Bytes)
    ensures x in Deliver(lines, tail).frames <==>
            && (exists i :: 0 <= i < |x| && x[i] != 32 && !(9 <= x[i] <= 13))
            && exists k :: 0 <= k < |lines| && lines[k] == x && forall j | 0 <= j <= k :: |lines[j]| <= 16777216
  {
    if lines != [] {
      DeliveredIff(lines[1..], tail, x);
      NotBlank(lines[0]);
      LaterWithin(lines, x);
    }
  }

  lemma LaterWithin(lines: seq<Bytes>, x: Bytes)
    requires lines != []
    ensures
      var rest := lines[1..];
      (exists k :: 0 <= k < |lines| && lines[k] == x && forall j | 0 <= j <= k :: |lines[j]| <= 16777216) <==>
      && |lines[0]| <= 16777216
      && (lines[0] == x
          || exists k :: 0 <= k < |rest| && rest[k] == x && forall j | 0 <= j <= k :: |rest[j]| <= 16777216)
  {
    var rest := lines[1..];
    if k :| 0 <= k < |rest| && rest[k] == x && forall j | 0 <= j <= k :: |rest[j]| <= 16777216 {
      assert lines[k + 1] == x && forall j | 0 < j <= k + 1 :: lines[j] == rest[j - 1];
    }
    if k :| 0 < k < |lines| && lines[k] == x && forall j | 0 <= j <= k :: |lines[j]| <= 16777216 {
      assert rest[k - 1] == x && forall j | 0 <= j <= k - 1 :: rest[j] == lines[j + 1];
    }
  }

  lemma NotBlank(x: Bytes)
    ensures !Blank(x) <==> exists i :: 0 <= i < |x| && x[i] != 32 && !(9 <= x[i] <= 13)
  {
    if !Blank(x) {
      var i :| 0 <= i < |x| && !IsBlank(x[i]);
      assert x[i] != 32 && !(9 <= x[i] <= 13);
    }
  }

  /** A reader refuses a stream iff one of its lines, or what is left at its end, is over the limit. */
  lemma {:induction false} RefusedIff(lines: seq<Bytes>, tail: Bytes)
    ensures Deliver(lines, tail).tooLarge <==>
            |tail| > MAX_FRAME_BYTES || exists k :: 0 <= k < |lines| && |lines[k]| > MAX_FRAME_BYTES
  {
    if lines != [] {
      RefusedIff(lines[1..], tail);
      if k :| 0 <= k < |lines| - 1 && |lines[1..][k]| > MAX_FRAME_BYTES {
        assert |lines[k + 1]| > MAX_FRAME_BYTES;
      }
      if k :| 0 <= k < |lines| && |lines[k]| > MAX_FRAME_BYTES {
        assert k > 0 ==> |lines[1..][k - 1]| > MAX_FRAME_BYTES;
      }
    }
  }
}
