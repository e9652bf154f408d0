/** The worker process: it accepts the handshake, then obeys instructions line by line. */
module Workers {
  import opened Results
  import opened WorkerChannel
  import Decimal
  import GoInt

  /** What a line means to the worker: the JSON decoder and the message type decide. */
  datatype Instruction = Carry | Shutdown | Malformed

  /** The lines carried out when the context is done after that many. */
  function CarriedLines(lines: seq<string>, decode: string -> Instruction, doneAfter: nat): seq<string> {
    if doneAfter == 0 || lines == [] || decode(lines[0]) != Carry then []
    else [lines[0]] + CarriedLines(lines[1..], decode, doneAfter - 1)
  }

  /**
   * They are precisely the prefix before the context was done, the stream ended, or a line was
   * malformed or a shutdown, whichever came first.
   */
  lemma {:induction false} CarriedIsPrefix(lines: seq<string>, decode: string -> Instruction, doneAfter: nat)
    ensures var carried := CarriedLines(lines, decode, doneAfter);
      && carried <= lines && |carried| <= doneAfter
      && (forall line <- carried :: decode(line) == Carry)
      && (|carried| == doneAfter || |carried| == |lines| || decode(lines[|carried|]) != Carry)
  {
    if doneAfter > 0 && lines != [] && decode(lines[0]) == Carry {
      CarriedIsPrefix(lines[1..], decode, doneAfter - 1);
      assert lines == [lines[0]] + lines[1..];
    }
  }

  /** What is carried out in the end, given what was and the lines that remain. */
  function CarriedFrom(
    carried: seq<string>, lines: seq<string>, decode: string -> Instruction, doneAfter: nat): seq<string>
    requires |carried| <= doneAfter
  {
    carried + CarriedLines(lines, decode, doneAfter - |carried|)
  }

  lemma CarriedStep(carried: seq<string>, lines: seq<string>, decode: string -> Instruction, doneAfter: nat)
    requires lines != [] && |carried| < doneAfter && decode(lines[0]) == Carry
    ensures CarriedFrom(carried, lines, decode, doneAfter) ==
            CarriedFrom(carried + [lines[0]], lines[1..], decode, doneAfter)
  {
  }

  lemma CarriedEnds(carried: seq<string>, lines: seq<string>, decode: string -> Instruction, doneAfter: nat)
    requires |carried| <= doneAfter
    requires |carried| == doneAfter || lines == [] || decode(lines[0]) != Carry
    ensures CarriedFrom(carried, lines, decode, doneAfter) == carried
  {
  }

  /**
   * What the worker carries out of a run's stream is a prefix of the frames sent in it, then the
   * tail of a failed write; it ends at the first shutdown, malformed line or done context, or
   * with the stream. A whole frame after a torn one is joined to it.
   */
  lemma WorkerCarriesFramesSent(pid: GoInt.Int, actions: seq<Action>, decode: string -> Instruction, doneAfter: nat)
    requires Runs(Initial(pid), actions)
    requires var s := Run(Initial(pid), actions); s.taken == |PROCEED| && s.lock.None?
    ensures var s := Run(Initial(pid), actions);
      var lines := Yielded(s.pieces, "");
      && s.taken <= |s.toWorker|
      && (TornLast(s.pieces) ==> Bodies(s.pieces) <= lines && |lines| <= |Bodies(s.pieces)| + 1)
      && var carried := CarriedLines(ScanLines(s.toWorker[s.taken..]), decode, doneAfter);
         && carried <= lines && |carried| <= doneAfter
         && (forall line <- carried :: decode(line) == Carry)
         && (|carried| == doneAfter || |carried| == |lines| || decode(lines[|carried|]) != Carry)
  {
    WorkerScansFramesSent(pid, actions);
    CarriedIsPrefix(Yielded(Run(Initial(pid), actions).pieces, ""), decode, doneAfter);
  }

  class Worker {
    const pid: int
    var fd: Option<int>

    constructor (pid: int)
      ensures this.pid == pid && fd == None
    {
      this.pid := pid;
      fd := None;
    }

    /** The descriptor arrives with the handshake message or not at all; the answer is the pid on a line. */
    method AcceptHandshake(received: Option<int>, writeFails: bool) returns (report: Option<string>)
      modifies this
      ensures fd == if received.Some? then received else old(fd)
      ensures report.Some? <==> received.Some? && !writeFails
      ensures report.Some? ==> report.value == Step(Initial(pid).(worker := GotFd), WritePid).toMaster
    {
      if received.None? {
        return None;
      }
      fd := received;
      if writeFails {
        return None;
      }
      return Some(Decimal.Format(pid) + "\n");
    }

    /**
     * Obeys the lines of a stream that ends. Running out of lines, a malformed line and a shutdown
     * cancel the worker; a context that is done, checked before each line, just ends the loop.
     */
    method ReceiveMessage(stream: string, decode: string -> Instruction, doneAfter: nat)
      returns (carried: seq<string>, cancelled: bool)
      ensures carried == CarriedLines(ScanLines(stream), decode, doneAfter)
      ensures cancelled <==> |carried| < doneAfter
    {
      var rest := stream;
      ghost var lines := ScanLines(stream);
      carried, cancelled := [], false;
      while !cancelled && |carried| < doneAfter
        invariant |carried| <= doneAfter && (cancelled ==> |carried| < doneAfter)
        invariant CarriedFrom(carried, lines, decode, doneAfter) ==
                  CarriedFrom([], ScanLines(stream), decode, doneAfter)
        invariant if cancelled then lines == [] || decode(lines[0]) != Carry else lines == ScanLines(rest)
        decreases |rest|, !cancelled
      {
        var more, line, next := Scan(rest);
        if !more || decode(line) != Carry {
          cancelled := true;
        } else {
          CarriedStep(carried, lines, decode, doneAfter);
          carried, rest, lines := carried + [line], rest[next..], lines[1..];
        }
      }
      CarriedEnds(carried, lines, decode, doneAfter);
    }

    /** scanner.Scan: whether there is another line, the line, and how many bytes it took. */
    method Scan(rest: string) returns (more: bool, line: string, next: nat)
      ensures more <==> rest != []
      ensures !more ==> ScanLines(rest) == [] && next == 0
      ensures more ==> 0 < next <= |rest| && ScanLines(rest) == [line] + ScanLines(rest[next..])
    {
      if rest == [] {
        return false, "", 0;
      }
      more := true;
      line, next := ScanLine(rest);
    }

    /** One step of the scanner: the next line and how many bytes it took. */
    method ScanLine(rest: string) returns (line: string, next: nat)
      requires rest != []
      ensures 0 < next <= |rest|
      ensures ScanLines(rest) == [line] + ScanLines(rest[next..])
    {
      var end := 0;
      while end < |rest| && rest[end] != '\n'
        invariant end <= |rest|
        invariant '\n' !in rest[..end]
      {
        end := end + 1;
      }
      line := DropCR(rest[..end]);
      if end < |rest| {
        next := end + 1;
        assert rest == rest[..end] + "\n" + rest[next..];
        ScanLinesStart(rest[..end], rest[next..]);
      } else {
        next := end;
        assert rest[..end] == rest;
      }
    }
  }
}
