/**
 * The socket between master and worker, byte by byte. The master sends PROCEED with the listener's
 * file descriptor, the worker answers with its pid on a line, and only then do any number of
 * threads send newline-terminated JSON frames, one at a time under the client's mutex.
 */
module WorkerChannel {
  import opened Results
  import Decimal
  import GoInt

  const PROCEED := "PROCEED"

  /** The size of the worker's handshake buffer. */
  const HANDSHAKE_BUFFER := 128

  /** What json.Marshal makes of a message: not empty, no raw newline, no carriage return at the end. */
  predicate IsBody(body: string) {
    '\n' !in body && body != [] && body[|body| - 1] != '\r'
  }

  datatype Master = Accepted | SentProceed | Registered(pid: int) | Refused

  datatype Worker = AwaitingFd | GotFd | Listening

  /** The frame the mutex holder is writing, and how many of its bytes are written. */
  datatype Sending = Sending(body: string, written: nat)

  /** What a finished Send left in the stream: its whole frame, or the start of one whose write failed. */
  datatype Piece = Whole(body: string) | Torn(text: string)

  /**
   * `toWorker` and `toMaster` are all bytes written so far, `taken` the bytes the handshake read
   * took, and `pieces` what the finished Sends wrote. A failed write leaves the client usable: the
   * master goes on to send over it, if only the shutdown message.
   */
  datatype State = State(
    workerPid: int, master: Master, worker: Worker, toWorker: string, toMaster: string, taken: nat,
    lock: Option<Sending>, pieces: seq<Piece>)

  function Initial(pid: int): State {
    State(pid, Accepted, AwaitingFd, "", "", 0, None, [])
  }

  datatype Action =
    | WriteProceed
    | ReadFd(n: nat)
    | WritePid
    | ReadPid
    | Acquire(body: string)
    | Write(count: nat)
    | Release
    | FailWrite

  function Frame(body: string): string {
    body + "\n"
  }

  /** The first line of a text that has one, without its newline. */
  function FirstLine(s: string): string
    requires '\n' in s
  {
    if s[0] == '\n' then "" else [s[0]] + FirstLine(s[1..])
  }

  predicate IsSpace(c: char) {
    c == ' ' || c == '\t' || c == '\n' || c == '\r' || c == '\U{000B}' || c == '\U{000C}'
  }

  function TrimSpace(s: string): string {
    if s == [] then s
    else if IsSpace(s[0]) then TrimSpace(s[1..])
    else if IsSpace(s[|s| - 1]) then TrimSpace(s[..|s| - 1])
    else s
  }

  predicate Enabled(s: State, a: Action) {
    match a
    case WriteProceed => s.master.Accepted?
    case ReadFd(n) => s.worker.AwaitingFd? && 1 <= n <= |s.toWorker| && n <= HANDSHAKE_BUFFER
    case WritePid => s.worker.GotFd?
    case ReadPid => s.master.SentProceed? && '\n' in s.toMaster
    case Acquire(body) => s.master.Registered? && s.lock.None? && IsBody(body)
    case Write(count) => s.lock.Some? && s.lock.value.written + count <= |Frame(s.lock.value.body)|
    case Release => s.lock.Some? && s.lock.value.written == |Frame(s.lock.value.body)|
    case FailWrite => s.lock.Some? && s.lock.value.written < |Frame(s.lock.value.body)|
  }

  function Step(s: State, a: Action): State
    requires Enabled(s, a)
  {
    match a
    case WriteProceed => s.(master := SentProceed, toWorker := s.toWorker + PROCEED)
    case ReadFd(n) => s.(worker := GotFd, taken := n)
    case WritePid => s.(worker := Listening, toMaster := s.toMaster + Decimal.Format(s.workerPid) + "\n")
    case ReadPid =>
      var (pid, ok) := Decimal.Atoi(TrimSpace(FirstLine(s.toMaster)));
      s.(master := if ok then Registered(pid) else Refused)
    case Acquire(body) => s.(lock := Some(Sending(body, 0)))
    case Write(count) =>
      var Sending(body, written) := s.lock.value;
      s.(toWorker := s.toWorker + Frame(body)[written..written + count],
         lock := Some(Sending(body, written + count)))
    case Release => s.(lock := None, pieces := s.pieces + [Whole(s.lock.value.body)])
    case FailWrite => s.(lock := None, pieces := s.pieces + [Torn(s.lock.value.body[..s.lock.value.written])])
  }

  predicate Runs(s: State, actions: seq<Action>)
    decreases |actions|
  {
    actions == [] || (Enabled(s, actions[0]) && Runs(Step(s, actions[0]), actions[1..]))
  }

  function Run(s: State, actions: seq<Action>): State
    requires Runs(s, actions)
    decreases |actions|
  {
    if actions == [] then s else Run(Step(s, actions[0]), actions[1..])
  }

  // ---------- framing ----------

  function Bytes(piece: Piece): string {
    match piece
    case Whole(body) => Frame(body)
    case Torn(text) => text
  }

  function StreamOf(pieces: seq<Piece>): string {
    if pieces == [] then "" else Bytes(pieces[0]) + StreamOf(pieces[1..])
  }

  /** The frames written completely. */
  function Bodies(pieces: seq<Piece>): seq<string> {
    if pieces == [] then []
    else (if pieces[0].Whole? then [pieces[0].body] else []) + Bodies(pieces[1..])
  }

  /** The lines of the stream: a torn start, and anything before it, runs into the next whole frame. */
  function LinesOf(pieces: seq<Piece>, before: string): seq<string>
    decreases |pieces|
  {
    if pieces == [] then []
    else match pieces[0]
      case Whole(body) => [before + body] + LinesOf(pieces[1..], "")
      case Torn(text) => LinesOf(pieces[1..], before + text)
  }

  /** What follows the last whole frame. */
  function Tail(pieces: seq<Piece>, before: string): string
    decreases |pieces|
  {
    if pieces == [] then before
    else match pieces[0]
      case Whole(_) => Tail(pieces[1..], "")
      case Torn(text) => Tail(pieces[1..], before + text)
  }

  predicate WellFormed(pieces: seq<Piece>) {
    forall p <- pieces :: if p.Whole? then IsBody(p.body) else '\n' !in p.text
  }

  /** Every write that failed after its first byte came after the last whole frame. */
  predicate TornLast(pieces: seq<Piece>) {
    forall i, j :: 0 <= i < j < |pieces| && pieces[j].Whole? ==> pieces[i].Whole? || pieces[i].text == ""
  }

  /** The newline-terminated lines of a text, without their newlines. */
  function CompleteLines(s: string): seq<string> {
    if '\n' !in s then []
    else
      var line := FirstLine(s);
      FirstLineLength(s);
      [line] + CompleteLines(s[|line| + 1..])
  }

  lemma {:induction false} FirstLineLength(s: string)
    requires '\n' in s
    ensures |FirstLine(s)| < |s| && s[..|FirstLine(s)|] == FirstLine(s) && s[|FirstLine(s)|] == '\n'
    ensures '\n' !in FirstLine(s)
  {
    if s[0] != '\n' {
      assert '\n' in s[1..];
      FirstLineLength(s[1..]);
      assert s == [s[0]] + s[1..];
    }
  }

  lemma {:induction false} FirstLineOf(line: string, rest: string)
    requires '\n' !in line
    ensures FirstLine(line + "\n" + rest) == line
  {
    var s := line + "\n" + rest;
    assert s[|line|] == '\n';
    if line != [] {
      assert s[0] == line[0];
      assert s[1..] == line[1..] + "\n" + rest;
      FirstLineOf(line[1..], rest);
    }
  }

  lemma CompleteLinesStart(line: string, rest: string)
    requires '\n' !in line
    ensures CompleteLines(line + "\n" + rest) == [line] + CompleteLines(rest)
  {
    var s := line + "\n" + rest;
    assert s[|line|] == '\n';
    FirstLineOf(line, rest);
    assert s[|line| + 1..] == rest;
  }

  lemma {:induction false} StreamAppend(pieces: seq<Piece>, piece: Piece)
    ensures StreamOf(pieces + [piece]) == StreamOf(pieces) + Bytes(piece)
  {
    if pieces == [] {
      assert [piece][1..] == [];
    } else {
      assert (pieces + [piece])[1..] == pieces[1..] + [piece];
      StreamAppend(pieces[1..], piece);
    }
  }

  lemma Regroup(a: string, b: string, c: string, d: string)
    ensures a + (Frame(b) + c) + d == (a + b) + "\n" + (c + d)
    ensures a + (b + c) + d == (a + b) + c + d
  {
  }

  lemma LinesAfterWhole(before: string, body: string, stream: string, rest: string)
    requires '\n' !in before && '\n' !in body
    ensures CompleteLines(before + (Frame(body) + stream) + rest) == [before + body] + CompleteLines(stream + rest)
  {
    Regroup(before, body, stream, rest);
    CompleteLinesStart(before + body, stream + rest);
  }

  lemma NothingBefore(stream: string, rest: string)
    ensures "" + stream + rest == stream + rest && stream + "" == stream
  {
  }

  /** The complete lines of a stream with something before it and an unfinished rest. */
  lemma {:induction false} LinesOfStream(before: string, pieces: seq<Piece>, rest: string)
    requires WellFormed(pieces) && '\n' !in before && '\n' !in rest
    ensures CompleteLines(before + StreamOf(pieces) + rest) == LinesOf(pieces, before)
    decreases |pieces|
  {
    if pieces == [] {
      assert before + StreamOf(pieces) + rest == before + rest;
    } else {
      var later := pieces[1..];
      assert pieces[0] in pieces;
      assert WellFormed(later);
      if pieces[0].Whole? {
        LinesOfStream("", later, rest);
        NothingBefore(StreamOf(later), rest);
        LinesAfterWhole(before, pieces[0].body, StreamOf(later), rest);
      } else {
        Regroup(before, pieces[0].text, StreamOf(later), rest);
        LinesOfStream(before + pieces[0].text, later, rest);
      }
    }
  }

  lemma {:induction false} BodiesEmptyIff(pieces: seq<Piece>)
    ensures Bodies(pieces) == [] <==> forall i :: 0 <= i < |pieces| ==> pieces[i].Torn?
  {
    if pieces != [] {
      BodiesEmptyIff(pieces[1..]);
      if Bodies(pieces) == [] {
        assert forall i :: 0 < i < |pieces| ==> pieces[i] == pieces[1..][i - 1];
      }
    }
  }

  lemma TornLastTail(pieces: seq<Piece>)
    requires pieces != []
    ensures TornLast(pieces) <==>
            TornLast(pieces[1..]) && (Bodies(pieces[1..]) == [] || pieces[0].Whole? || pieces[0].text == "")
  {
    var later := pieces[1..];
    BodiesEmptyIff(later);
    if TornLast(pieces) {
      forall i, j | 0 <= i < j < |later| && later[j].Whole? ensures later[i].Whole? || later[i].text == "" {
        assert later[i] == pieces[i + 1] && later[j] == pieces[j + 1];
      }
      if j :| 0 <= j < |later| && later[j].Whole? {
        assert pieces[j + 1].Whole?;
      }
    } else {
      var i, j :| 0 <= i < j < |pieces| && pieces[j].Whole? && !pieces[i].Whole? && pieces[i].text != "";
      assert later[j - 1].Whole?;
      if i > 0 {
        assert later[i - 1] == pieces[i];
      }
    }
  }

  lemma ConsEqual(a: string, b: string, x: seq<string>, y: seq<string>)
    ensures [a] + x == [b] + y <==> a == b && x == y
  {
    assert ([a] + x)[0] == a && ([b] + y)[0] == b;
    assert ([a] + x)[1..] == x && ([b] + y)[1..] == y;
  }

  lemma ConcatKeepsIff(a: string, b: string)
    ensures a + b == b <==> a == ""
    ensures a + b == "" <==> a == "" && b == ""
  {
    assert |a + b| == |a| + |b|;
  }

  /** The lines are exactly the whole frames if and only if nothing precedes one that is not a frame. */
  lemma {:induction false} LinesAreBodiesIff(pieces: seq<Piece>, before: string)
    ensures LinesOf(pieces, before) == Bodies(pieces) <==>
            Bodies(pieces) == [] || (before == "" && TornLast(pieces))
    decreases |pieces|
  {
    if pieces != [] {
      var later := pieces[1..];
      TornLastTail(pieces);
      if pieces[0].Whole? {
        var body := pieces[0].body;
        LinesAreBodiesIff(later, "");
        NoWholeIsTornLast(later);
        ConsEqual(before + body, body, LinesOf(later, ""), Bodies(later));
        ConcatKeepsIff(before, body);
      } else {
        LinesAreBodiesIff(later, before + pieces[0].text);
        ConcatKeepsIff(before, pieces[0].text);
        assert Bodies(pieces) == Bodies(later);
      }
    }
  }

  lemma NoWholeIsTornLast(pieces: seq<Piece>)
    ensures Bodies(pieces) == [] ==> TornLast(pieces)
  {
    BodiesEmptyIff(pieces);
  }

  lemma ConsPrefix(line: string, a: seq<string>, b: seq<string>)
    requires a <= b
    ensures [line] + a <= [line] + b
  {
  }

  lemma PrefixAfterLine(line: string, part: string, rest: string)
    requires '\n' !in line && CompleteLines(part) <= CompleteLines(rest)
    ensures CompleteLines(line + "\n" + part) <= CompleteLines(line + "\n" + rest)
  {
    CompleteLinesStart(line, rest);
    CompleteLinesStart(line, part);
    ConsPrefix(line, CompleteLines(part), CompleteLines(rest));
  }

  lemma SplitAtFirstLine(s: string) returns (line: string, rest: string)
    requires '\n' in s
    ensures s == line + "\n" + rest && '\n' !in line && |rest| < |s|
  {
    FirstLineLength(s);
    line := FirstLine(s);
    rest := s[|line| + 1..];
  }

  /** Reading only part of a text gives a prefix of its lines. */
  lemma {:induction false} PrefixOfLines(part: string, more: string)
    ensures CompleteLines(part) <= CompleteLines(part + more)
    decreases |part|
  {
    if '\n' in part {
      var line, rest := SplitAtFirstLine(part);
      PrefixOfLines(rest, more);
      PrefixAfterLine(line, rest, rest + more);
      assert part + more == line + "\n" + (rest + more);
    }
  }

  /** bufio.ScanLines drops one carriage return at the end of a line. */
  function DropCR(line: string): string {
    if line != [] && line[|line| - 1] == '\r' then line[..|line| - 1] else line
  }

  /** Everything bufio.Scanner yields from a stream that ends: an unterminated last line counts. */
  function ScanLines(s: string): seq<string> {
    if s == [] then []
    else if '\n' !in s then [DropCR(s)]
    else
      var line := FirstLine(s);
      FirstLineLength(s);
      [DropCR(line)] + ScanLines(s[|line| + 1..])
  }

  /** A line ends at its newline, without one carriage return before it. */
  lemma CarriageReturnIsDropped(line: string)
    requires '\n' !in line && (line == [] || line[|line| - 1] != '\r')
    ensures ScanLines(line + "\r\n") == [line] && ScanLines(line + "\n") == [line]
  {
    assert line + "\r\n" == (line + "\r") + "\n" + "" && line + "\n" == line + "\n" + "";
    ScanLinesStart(line + "\r", "");
    ScanLinesStart(line, "");
    assert (line + "\r")[..|line|] == line;
  }

  lemma ScanLinesStart(line: string, rest: string)
    requires '\n' !in line
    ensures ScanLines(line + "\n" + rest) == [DropCR(line)] + ScanLines(rest)
  {
    var s := line + "\n" + rest;
    assert s[|line|] == '\n';
    FirstLineOf(line, rest);
    assert s[|line| + 1..] == rest;
  }

  /** What the scanner yields of a stream that ends: its lines, and the tail as one more. */
  function Yielded(pieces: seq<Piece>, before: string): seq<string> {
    LinesOf(pieces, before) + if Tail(pieces, before) == "" then [] else [DropCR(Tail(pieces, before))]
  }

  lemma ScanAfterWhole(before: string, body: string, later: seq<Piece>)
    requires '\n' !in before && IsBody(body) && ScanLines("" + StreamOf(later)) == Yielded(later, "")
    ensures ScanLines(before + (Frame(body) + StreamOf(later))) == [before + body] + Yielded(later, "")
  {
    Regroup(before, body, StreamOf(later), "");
    assert before + (Frame(body) + StreamOf(later)) + "" == before + (Frame(body) + StreamOf(later));
    assert StreamOf(later) + "" == StreamOf(later) == "" + StreamOf(later);
    assert (before + body)[|before + body| - 1] == body[|body| - 1];
    ScanLinesStart(before + body, StreamOf(later));
  }

  lemma {:induction false} ScanLinesOfStream(before: string, pieces: seq<Piece>)
    requires WellFormed(pieces) && '\n' !in before
    ensures ScanLines(before + StreamOf(pieces)) == Yielded(pieces, before)
    decreases |pieces|
  {
    if pieces == [] {
      assert before + StreamOf(pieces) == before;
    } else {
      var later := pieces[1..];
      assert pieces[0] in pieces;
      assert WellFormed(later);
      if pieces[0].Whole? {
        ScanLinesOfStream("", later);
        ScanAfterWhole(before, pieces[0].body, later);
        assert Yielded(pieces, before) == [before + pieces[0].body] + Yielded(later, "");
      } else {
        assert before + StreamOf(pieces) == (before + pieces[0].text) + StreamOf(later);
        ScanLinesOfStream(before + pieces[0].text, later);
      }
    }
  }

  // ---------- the handshake orders the bytes ----------

  /** Bytes of the frame that is being written. */
  function Unfinished(s: State): string {
    match s.lock
    case Some(sending) =>
      if sending.written <= |Frame(sending.body)| then Frame(sending.body)[..sending.written] else ""
    case None => ""
  }

  ghost predicate Ordered(s: State) {
    && s.toWorker == (if s.master.Accepted? then "" else PROCEED) + StreamOf(s.pieces) + Unfinished(s)
    && (s.worker.AwaitingFd? <==> s.taken == 0)
    && s.taken <= |PROCEED| && (s.taken > 0 ==> !s.master.Accepted?)
    && s.toMaster == (if s.worker.Listening? then Decimal.Format(s.workerPid) + "\n" else "")
    && (s.master.Registered? || s.master.Refused? ==> s.worker.Listening?)
    && (s.master.Registered? ==> s.master.pid == s.workerPid)
    && (s.pieces != [] || s.lock.Some? ==> s.master.Registered?)
    && (s.lock.Some? ==> IsBody(s.lock.value.body) && s.lock.value.written <= |Frame(s.lock.value.body)|)
    && WellFormed(s.pieces)
  }

  lemma {:induction false} TrimSpaceKeeps(s: string)
    requires s == [] || (!IsSpace(s[0]) && !IsSpace(s[|s| - 1]))
    ensures TrimSpace(s) == s
  {
  }

  /** White space around a text is trimmed. */
  lemma {:induction false} TrimSpaceStrips(before: string, s: string, after: string)
    requires (forall c <- before :: IsSpace(c)) && (forall c <- after :: IsSpace(c))
    requires s != [] && !IsSpace(s[0]) && !IsSpace(s[|s| - 1])
    ensures TrimSpace(before + s + after) == s
    decreases |before| + |after|
  {
    var text := before + s + after;
    if before != [] {
      assert text[0] == before[0] && text[1..] == before[1..] + s + after;
      TrimSpaceStrips(before[1..], s, after);
    } else if after != [] {
      assert text[0] == s[0] && text[|text| - 1] == after[|after| - 1];
      assert text[..|text| - 1] == before + s + after[..|after| - 1];
      TrimSpaceStrips(before, s, after[..|after| - 1]);
    } else {
      assert text == s;
    }
  }

  /** The master reads back exactly the pid the worker wrote. */
  lemma PidRoundTrip(pid: GoInt.Int)
    ensures Decimal.Atoi(TrimSpace(FirstLine(Decimal.Format(pid) + "\n"))) == (pid, true)
  {
    var text := Decimal.Format(pid);
    assert forall c <- text :: Decimal.IsDigit(c) || c == '-';
    assert '\n' !in text;
    assert text + "\n" == text + "\n" + "";
    FirstLineOf(text, "");
    TrimSpaceKeeps(text);
    Decimal.AtoiFormat(pid);
  }

  lemma SliceExtends(before: string, frame: string, written: nat, count: nat)
    requires written + count <= |frame|
    ensures before + frame[..written] + frame[written..written + count] == before + frame[..written + count]
  {
    assert frame[..written] + frame[written..written + count] == frame[..written + count];
  }

  lemma WriteKeepsOrdered(s: State, count: nat)
    requires Enabled(s, Write(count)) && Ordered(s)
    ensures Ordered(Step(s, Write(count)))
  {
    var Sending(body, written) := s.lock.value;
    SliceExtends(PROCEED + StreamOf(s.pieces), Frame(body), written, count);
  }

  lemma EndedStream(pieces: seq<Piece>, piece: Piece, start: string, unfinished: string)
    requires Bytes(piece) == unfinished
    ensures start + StreamOf(pieces) + unfinished == start + StreamOf(pieces + [piece]) + ""
  {
    StreamAppend(pieces, piece);
    assert start + StreamOf(pieces) + unfinished == start + (StreamOf(pieces) + unfinished);
  }

  lemma ReleaseKeepsOrdered(s: State)
    requires Enabled(s, Release) && Ordered(s)
    ensures Ordered(Step(s, Release))
  {
    var Sending(body, written) := s.lock.value;
    assert Frame(body)[..written] == Frame(body);
    EndedStream(s.pieces, Whole(body), PROCEED, Unfinished(s));
  }

  lemma FailWriteKeepsOrdered(s: State)
    requires Enabled(s, FailWrite) && Ordered(s)
    ensures Ordered(Step(s, FailWrite))
  {
    var Sending(body, written) := s.lock.value;
    assert Frame(body)[..written] == body[..written];
    EndedStream(s.pieces, Torn(body[..written]), PROCEED, Unfinished(s));
  }

  lemma StepKeepsOrdered(s: State, a: Action)
    requires Enabled(s, a) && Ordered(s) && GoInt.MIN <= s.workerPid <= GoInt.MAX
    ensures Ordered(Step(s, a))
  {
    match a
    case WriteProceed =>
      assert s.toWorker == "" && StreamOf(s.pieces) == "" && Unfinished(s) == "";
    case ReadFd(n) =>
      assert StreamOf(s.pieces) == "" && Unfinished(s) == "";
    case WritePid =>
    case ReadPid => PidRoundTrip(s.workerPid);
    case Acquire(body) =>
      assert Frame(body)[..0] == "";
    case Write(count) => WriteKeepsOrdered(s, count);
    case Release => ReleaseKeepsOrdered(s);
    case FailWrite => FailWriteKeepsOrdered(s);
  }

  lemma {:induction false} RunsStayOrdered(s: State, actions: seq<Action>)
    requires Ordered(s) && GoInt.MIN <= s.workerPid <= GoInt.MAX && Runs(s, actions)
    ensures Ordered(Run(s, actions))
    ensures Run(s, actions).workerPid == s.workerPid
    decreases |actions|
  {
    if actions != [] {
      StepKeepsOrdered(s, actions[0]);
      RunsStayOrdered(Step(s, actions[0]), actions[1..]);
    }
  }

  /** The bytes that reach the worker's line scanner when n bytes of the stream have arrived. */
  function Scanned(s: State, n: nat): string
    requires s.taken <= n <= |s.toWorker|
  {
    s.toWorker[s.taken..n]
  }

  /** What the Sends have written, with the frame whose mutex is not yet released. */
  function Pieces(s: State): seq<Piece> {
    s.pieces + if FrameWritten(s) then [Whole(s.lock.value.body)] else []
  }

  /** The mutex holder has written its whole frame but not yet released the mutex. */
  predicate FrameWritten(s: State) {
    s.lock.Some? && s.lock.value.written == |Frame(s.lock.value.body)|
  }

  /**
   * In every interleaving of master, worker and sending threads: no frame byte is written before
   * the worker has consumed its handshake message, frames never interleave, and the master
   * registered the worker under its own pid. When the handshake read took all of PROCEED, the
   * complete lines the worker has received, however few bytes have arrived, are a prefix of the
   * lines of what the Sends wrote, all of them once everything has arrived; and those are the
   * whole frames, in order, unless a torn one was followed by a whole one.
   */
  lemma WorkerReceivesFramesInOrder(pid: GoInt.Int, actions: seq<Action>, n: nat)
    requires Runs(Initial(pid), actions)
    requires var s := Run(Initial(pid), actions); s.taken <= n <= |s.toWorker|
    ensures var s := Run(Initial(pid), actions);
      && (|s.toWorker| > 7 ==> s.taken > 0) && (s.toWorker != "" ==> "PROCEED" <= s.toWorker)
      && (s.master.Registered? ==> s.master.pid == pid)
      && (s.taken == |PROCEED| ==>
          && CompleteLines(Scanned(s, n)) <= LinesOf(Pieces(s), "")
          && (n == |s.toWorker| ==> CompleteLines(Scanned(s, n)) == LinesOf(Pieces(s), ""))
          && (TornLast(Pieces(s)) ==> LinesOf(Pieces(s), "") == Bodies(Pieces(s))))
  {
    RunsStayOrdered(Initial(pid), actions);
    var s := Run(Initial(pid), actions);
    FramesFollowHandshake(s);
    if s.taken == |PROCEED| {
      StreamHasLines(s);
      ReceivedLines(s, n);
      LinesAreBodiesIff(Pieces(s), "");
    }
  }

  lemma FramesFollowHandshake(s: State)
    requires Ordered(s)
    ensures |s.toWorker| > |PROCEED| ==> s.taken > 0
    ensures s.toWorker != "" ==> PROCEED <= s.toWorker
  {
    if s.taken == 0 || s.master.Accepted? {
      assert s.pieces == [] && Unfinished(s) == "";
    } else {
      assert s.toWorker == PROCEED + (StreamOf(s.pieces) + Unfinished(s));
    }
  }

  lemma ReceivedLines(s: State, n: nat)
    requires s.taken <= n <= |s.toWorker|
    ensures CompleteLines(Scanned(s, n)) <= CompleteLines(s.toWorker[s.taken..])
    ensures n == |s.toWorker| ==> Scanned(s, n) == s.toWorker[s.taken..]
  {
    PrefixOfLines(Scanned(s, n), s.toWorker[n..]);
    assert s.toWorker[s.taken..] == Scanned(s, n) + s.toWorker[n..];
  }

  /** What arrives after the handshake read: what it left of PROCEED, the pieces, a frame in progress. */
  lemma StreamAfterHandshake(s: State)
    requires Ordered(s) && s.taken > 0
    ensures s.taken <= |s.toWorker|
    ensures s.toWorker[s.taken..] == PROCEED[s.taken..] + StreamOf(s.pieces) + Unfinished(s)
  {
  }

  /** The stream once the frame in progress counts as written. */
  lemma StreamOfWritten(s: State)
    requires Ordered(s) && FrameWritten(s)
    ensures StreamOf(s.pieces) + Unfinished(s) == StreamOf(Pieces(s)) && WellFormed(Pieces(s))
  {
    var body := s.lock.value.body;
    StreamAppend(s.pieces, Whole(body));
    assert Frame(body)[..|Frame(body)|] == Frame(body);
  }

  lemma StreamHasLines(s: State)
    requires Ordered(s) && s.taken == |PROCEED|
    ensures CompleteLines(s.toWorker[s.taken..]) == LinesOf(Pieces(s), "")
  {
    StreamAfterHandshake(s);
    var arriving, stream := s.toWorker[s.taken..], StreamOf(s.pieces);
    assert arriving == stream + Unfinished(s);
    if FrameWritten(s) {
      StreamOfWritten(s);
      NothingBefore(StreamOf(Pieces(s)), "");
      LinesOfStream("", Pieces(s), "");
    } else {
      UnfinishedIsPartOfLine(s);
      NothingBefore(stream, Unfinished(s));
      LinesOfStream("", s.pieces, Unfinished(s));
      assert Pieces(s) == s.pieces;
    }
  }

  lemma UnfinishedIsPartOfLine(s: State)
    requires Ordered(s) && !FrameWritten(s)
    ensures '\n' !in Unfinished(s)
  {
    if s.lock.Some? {
      var Sending(body, written) := s.lock.value;
      assert Frame(body)[..written] == body[..written];
    }
  }

  /**
   * The worker's line stream is exactly the frames sent if and only if the handshake read took the
   * whole PROCEED message and no whole frame followed a torn one: what is left of either becomes
   * part of the next line.
   */
  lemma LinesMatchIffProceedConsumed(pid: GoInt.Int, actions: seq<Action>)
    requires Runs(Initial(pid), actions)
    requires var s := Run(Initial(pid), actions); Bodies(s.pieces) != [] && s.lock.None?
    ensures var s := Run(Initial(pid), actions);
      && 0 < s.taken <= |s.toWorker|
      && (CompleteLines(s.toWorker[s.taken..]) == Bodies(s.pieces) <==>
          s.taken == |PROCEED| && TornLast(s.pieces))
  {
    RunsStayOrdered(Initial(pid), actions);
    LinesMatchIff(Run(Initial(pid), actions));
  }

  lemma LinesMatchIff(s: State)
    requires Ordered(s) && Bodies(s.pieces) != [] && s.lock.None?
    ensures 0 < s.taken <= |s.toWorker|
    ensures CompleteLines(s.toWorker[s.taken..]) == Bodies(s.pieces) <==> s.taken == |PROCEED| && TornLast(s.pieces)
  {
    StreamAfterHandshake(s);
    assert '\n' !in PROCEED;
    LinesOfStream(PROCEED[s.taken..], s.pieces, "");
    assert s.toWorker[s.taken..] == PROCEED[s.taken..] + StreamOf(s.pieces) + "";
    LinesAreBodiesIff(s.pieces, PROCEED[s.taken..]);
  }

  /**
   * When the master is gone and every byte has arrived, the worker's scanner has yielded exactly
   * the lines of what the Sends wrote, followed by the tail a failed write left, if any.
   */
  lemma WorkerScansFramesSent(pid: GoInt.Int, actions: seq<Action>)
    requires Runs(Initial(pid), actions)
    requires var s := Run(Initial(pid), actions); s.taken == |PROCEED| && s.lock.None?
    ensures var s := Run(Initial(pid), actions);
      && s.taken <= |s.toWorker|
      && ScanLines(s.toWorker[s.taken..]) == Yielded(s.pieces, "")
      && (TornLast(s.pieces) ==> LinesOf(s.pieces, "") == Bodies(s.pieces))
  {
    RunsStayOrdered(Initial(pid), actions);
    ScansFramesSent(Run(Initial(pid), actions));
  }

  lemma ScansFramesSent(s: State)
    requires Ordered(s) && s.taken == |PROCEED| && s.lock.None?
    ensures s.taken <= |s.toWorker|
    ensures ScanLines(s.toWorker[s.taken..]) == Yielded(s.pieces, "")
    ensures TornLast(s.pieces) ==> LinesOf(s.pieces, "") == Bodies(s.pieces)
  {
    StreamAfterHandshake(s);
    assert s.toWorker[s.taken..] == "" + StreamOf(s.pieces);
    ScanLinesOfStream("", s.pieces);
    LinesAreBodiesIff(s.pieces, "");
  }

  // ---------- both failures happen ----------

  lemma RunsFrom(s: State, a: Action, rest: seq<Action>)
    ensures Runs(s, [a] + rest) <==> Enabled(s, a) && Runs(Step(s, a), rest)
    ensures Runs(s, [a] + rest) ==> Run(s, [a] + rest) == Run(Step(s, a), rest)
  {
    assert ([a] + rest)[1..] == rest;
  }

  lemma {:induction false} RunsConcat(s: State, first: seq<Action>, second: seq<Action>)
    requires Runs(s, first) && Runs(Run(s, first), second)
    ensures Runs(s, first + second) && Run(s, first + second) == Run(Run(s, first), second)
    decreases |first|
  {
    if first == [] {
      assert first + second == second;
    } else {
      assert (first + second)[1..] == first[1..] + second;
      RunsConcat(Step(s, first[0]), first[1..], second);
    }
  }

  /** A handshake whose read takes n bytes of PROCEED. */
  function Handshake(n: nat): seq<Action> {
    [WriteProceed, ReadFd(n), WritePid, ReadPid]
  }

  function Shaken(pid: int, n: nat): State {
    State(pid, Registered(pid), Listening, PROCEED, Decimal.Format(pid) + "\n", n, None, [])
  }

  lemma HandshakeRuns(pid: GoInt.Int, n: nat)
    requires 1 <= n <= |PROCEED|
    ensures Runs(Initial(pid), Handshake(n)) && Run(Initial(pid), Handshake(n)) == Shaken(pid, n)
  {
    var s1 := Step(Initial(pid), WriteProceed);
    var s2 := Step(s1, ReadFd(n));
    var s3 := Step(s2, WritePid);
    assert s3.toMaster == Decimal.Format(pid) + "\n";
    PidRoundTrip(pid);
    assert s3.toMaster[|s3.toMaster| - 1] == '\n';
    assert Step(s3, ReadPid) == Shaken(pid, n);
    RunsFrom(s3, ReadPid, []);
    RunsFrom(s2, WritePid, [ReadPid]);
    RunsFrom(s1, ReadFd(n), [WritePid, ReadPid]);
    RunsFrom(Initial(pid), WriteProceed, [ReadFd(n), WritePid, ReadPid]);
  }

  /** One Send that succeeds, in one write. */
  lemma SendRuns(s: State, body: string)
    requires s.master.Registered? && s.lock.None? && IsBody(body)
    ensures var send := [Acquire(body), Write(|Frame(body)|), Release];
      && Runs(s, send)
      && Run(s, send) == s.(toWorker := s.toWorker + Frame(body), pieces := s.pieces + [Whole(body)])
  {
    var s1 := Step(s, Acquire(body));
    var s2 := Step(s1, Write(|Frame(body)|));
    assert Frame(body)[0..0 + |Frame(body)|] == Frame(body);
    RunsFrom(s2, Release, []);
    RunsFrom(s1, Write(|Frame(body)|), [Release]);
    RunsFrom(s, Acquire(body), [Write(|Frame(body)|), Release]);
  }

  /** One Send whose write fails after n bytes. */
  lemma FailingSendRuns(s: State, body: string, n: nat)
    requires s.master.Registered? && s.lock.None? && IsBody(body) && n <= |body|
    ensures var send := [Acquire(body), Write(n), FailWrite];
      && Runs(s, send)
      && Run(s, send) == s.(toWorker := s.toWorker + body[..n], pieces := s.pieces + [Torn(body[..n])])
  {
    var s1 := Step(s, Acquire(body));
    var s2 := Step(s1, Write(n));
    assert Frame(body)[0..0 + n] == body[..n];
    RunsFrom(s2, FailWrite, []);
    RunsFrom(s1, Write(n), [FailWrite]);
    RunsFrom(s, Acquire(body), [Write(n), FailWrite]);
  }

  lemma LineOf(start: string, n: nat, body: string)
    requires n <= |start| && '\n' !in start && '\n' !in body
    ensures CompleteLines((start + Frame(body))[n..]) == [start[n..] + body]
    ensures n < |start| ==> [start[n..] + body] != [body]
  {
    assert (start + Frame(body))[n..] == (start[n..] + body) + "\n" + "";
    CompleteLinesStart(start[n..] + body, "");
    assert |start[n..] + body| == |start| - n + |body|;
  }

  lemma BodiesOfLast(pieces: seq<Piece>, body: string)
    requires pieces == [] || (|pieces| == 1 && pieces[0].Torn?)
    ensures Bodies(pieces + [Whole(body)]) == [body]
  {
    assert [Whole(body)][1..] == [];
    assert Bodies([Whole(body)]) == [body];
    if pieces == [] {
      assert pieces + [Whole(body)] == [Whole(body)];
    } else {
      assert (pieces + [Whole(body)])[1..] == [Whole(body)];
      assert Bodies(pieces + [Whole(body)]) == [] + Bodies([Whole(body)]);
    }
  }

  /** What is left of `start` is joined to the only frame of the stream. */
  ghost predicate Spoiled(s: State, start: string, body: string) {
    && s.taken < |start| && s.toWorker == start + Frame(body)
    && Bodies(s.pieces) == [body] != CompleteLines(s.toWorker[s.taken..]) == [start[s.taken..] + body]
  }

  /** A handshake read that takes only part of PROCEED spoils the first line. */
  lemma ShortReadSpoilsLine(pid: GoInt.Int, n: nat, body: string)
    requires 1 <= n < |PROCEED| && IsBody(body)
    ensures var steps := Handshake(n) + [Acquire(body), Write(|Frame(body)|), Release];
      Runs(Initial(pid), steps) && Spoiled(Run(Initial(pid), steps), PROCEED, body)
  {
    HandshakeRuns(pid, n);
    SendRuns(Shaken(pid, n), body);
    RunsConcat(Initial(pid), Handshake(n), [Acquire(body), Write(|Frame(body)|), Release]);
    LineOf(PROCEED, n, body);
    BodiesOfLast([], body);
  }

  /** A frame sent after a torn one is joined to it, although the whole of PROCEED was read. */
  lemma TornFrameSpoilsNext(pid: GoInt.Int, torn: string, n: nat, body: string)
    requires IsBody(torn) && 1 <= n <= |torn| && IsBody(body)
    ensures var steps := Handshake(|PROCEED|) +
                         ([Acquire(torn), Write(n), FailWrite] + [Acquire(body), Write(|Frame(body)|), Release]);
      && Runs(Initial(pid), steps)
      && Run(Initial(pid), steps).taken == |PROCEED|
      && Spoiled(Run(Initial(pid), steps), PROCEED + torn[..n], body)
  {
    FailThenSendRuns(Shaken(pid, |PROCEED|), torn, n, body);
    HandshakeRuns(pid, |PROCEED|);
    RunsConcat(Initial(pid), Handshake(|PROCEED|),
               [Acquire(torn), Write(n), FailWrite] + [Acquire(body), Write(|Frame(body)|), Release]);
    LineOf(PROCEED + torn[..n], |PROCEED|, body);
    BodiesOfLast([Torn(torn[..n])], body);
  }

  lemma FailThenSendRuns(s: State, torn: string, n: nat, body: string)
    requires s.master.Registered? && s.lock.None? && s.pieces == [] && IsBody(torn) && n <= |torn| && IsBody(body)
    ensures var steps := [Acquire(torn), Write(n), FailWrite] + [Acquire(body), Write(|Frame(body)|), Release];
      && Runs(s, steps)
      && Run(s, steps) ==
           s.(toWorker := s.toWorker + torn[..n] + Frame(body), pieces := [Torn(torn[..n])] + [Whole(body)])
  {
    FailingSendRuns(s, torn, n);
    var s1 := Run(s, [Acquire(torn), Write(n), FailWrite]);
    SendRuns(s1, body);
    RunsConcat(s, [Acquire(torn), Write(n), FailWrite], [Acquire(body), Write(|Frame(body)|), Release]);
  }
}
