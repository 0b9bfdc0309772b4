/** The sequential stages of the I/O bridge: the line framer, the line
    writer, the signal relay and the state-change bridge. Each stage is a
    loop over what it receives; a channel or stream it consumes is the finite
    sequence of values it delivers before it ends, and a channel, writer or
    process it feeds is the sequence of values the stage hands to it. */
module Stages {
  import opened Base
  import opened Whitespace
  import opened Lines

  /** A byte stream as the framer's buffered reader sees it: the text its
      reads deliver, then the error the read after the last byte returns
      (`io.EOF` when the stream ends normally). */
  datatype Stream = Stream(data: string, end: Error)

  /** What one `ReadString('\n')` call returns, and where the reader then stands. */
  datatype ReadResult = ReadResult(line: string, err: Option<Error>, next: nat)

  /** `bufio.Reader.ReadString('\n')` on a reader standing at `pos`: the text
      up to and including the next '\n' with no error; when no '\n' is left,
      all remaining text together with the stream's terminating error. */
  function ReadString(s: Stream, pos: nat): (r: ReadResult)
    requires pos <= |s.data|
    ensures pos <= r.next <= |s.data| && r.line == s.data[pos..r.next]
    ensures r.err.None? <==> '\n' in s.data[pos..]
    ensures r.err.None? ==> pos < r.next && s.data[r.next - 1] == '\n' && '\n' !in s.data[pos..r.next - 1]
    ensures r.err.Some? ==> r.err.value == s.end && r.next == |s.data|
  {
    var rest := s.data[pos..];
    var k := IndexOf(rest, '\n');
    if k < |rest| then
      assert s.data[pos..pos + k] == rest[..k];
      ReadResult(s.data[pos..pos + k + 1], None, pos + k + 1)
    else
      ReadResult(rest, Some(s.end), |s.data|)
  }

  /** `readLines`: reads the stream line by line, trims each line and sends
      the non-empty ones. It returns at `io.EOF`, dropping an unterminated
      last line, and panics on any other read error. What it sends is
      exactly the framing of the stream's text. */
  method ReadLines(s: Stream) returns (sent: seq<string>, halt: Halt)
    ensures sent == Frame(s.data)
    ensures halt == if s.end == EOF then Returned else Panicked(s.end)
  {
    sent := [];
    var pos := 0;
    while true
      invariant pos <= |s.data|
      invariant sent + Frame(s.data[pos..]) == Frame(s.data)
      decreases |s.data| - pos
    {
      var r := ReadString(s, pos);
      if r.err.Some? {
        FrameAtEnd(s, pos, sent);
        if r.err == Some(EOF) {
          halt := Returned;
          return;
        }
        halt := Panicked(r.err.value);
        return;
      }
      FrameReadLine(s, pos, sent);
      var line := TrimSpace(r.line);
      if line != [] {
        sent := sent + [line];
      }
      pos := r.next;
    }
  }

  /** When `ReadString` finds no '\n', nothing is left to emit. */
  lemma FrameAtEnd(s: Stream, pos: nat, sent: seq<string>)
    requires pos <= |s.data| && ReadString(s, pos).err.Some?
    requires sent + Frame(s.data[pos..]) == Frame(s.data)
    ensures sent == Frame(s.data)
    ensures ReadString(s, pos).err == Some(s.end)
  {
    SegmentsOfUnterminated(s.data[pos..]);
    assert sent + [] == sent;
  }

  /** One successful `ReadString` consumes one segment: the framing of the
      remaining text is that line, trimmed and kept when non-empty, followed
      by the framing of what comes after it. */
  lemma ReadLineFrames(s: Stream, pos: nat)
    requires pos <= |s.data| && ReadString(s, pos).err.None?
    ensures var r := ReadString(s, pos); var t := TrimSpace(r.line);
            Frame(s.data[pos..]) == (if t == [] then [] else [t]) + Frame(s.data[r.next..])
  {
    var r := ReadString(s, pos);
    var d, next := s.data, r.next;
    var seg, rest := d[pos..next - 1], d[next..];
    SliceAround(d, pos, next);
    assert r.line == seg + ['\n'];
    assert d[pos..] == seg + "\n" + rest;
    TrimSpaceDropsTrailingSpace(seg, '\n');
    FrameStep(seg, rest);
  }

  /** The loop invariant of ReadLines survives one successful read. */
  lemma FrameReadLine(s: Stream, pos: nat, sent: seq<string>)
    requires pos <= |s.data| && ReadString(s, pos).err.None?
    requires sent + Frame(s.data[pos..]) == Frame(s.data)
    ensures var r := ReadString(s, pos); var t := TrimSpace(r.line);
            (if t == [] then sent else sent + [t]) + Frame(s.data[r.next..]) == Frame(s.data)
  {
    var r := ReadString(s, pos);
    ReadLineFrames(s, pos);
    KeepLine(sent, TrimSpace(r.line), Frame(s.data[pos..]), Frame(s.data[r.next..]), Frame(s.data));
  }

  /** Regrouping the framer's output around one kept or dropped line. */
  lemma KeepLine(sent: seq<string>, t: string, here: seq<string>, after: seq<string>, all: seq<string>)
    requires sent + here == all
    requires here == (if t == [] then [] else [t]) + after
    ensures (if t == [] then sent else sent + [t]) + after == all
  {
    if t == [] {
      assert here == after;
    } else {
      assert sent + ([t] + after) == sent + [t] + after;
    }
  }

  /** Where a slice ends at a position, the text splits around the last
      character before that position. */
  lemma SliceAround(d: string, a: nat, b: nat)
    requires a < b <= |d|
    ensures d[a..b] == d[a..b - 1] + [d[b - 1]]
    ensures d[a..] == d[a..b - 1] + [d[b - 1]] + d[b..]
  {
  }

  /** `writeLines`: writes each line it receives followed by '\n'. It stops
      at the first failed write: quietly on `io.EOF`, with a panic on any
      other error. The sink receives exactly the lines it accepted, each
      terminated, in order. */
  method WriteLines(sink: Peer, lines: seq<string>) returns (written: string, halt: Halt)
    ensures written == Terminated(lines[..Honoured(sink, |lines|)])
    ensures halt == if sink.accepts >= |lines| || sink.failure == EOF then Returned else Panicked(sink.failure)
  {
    written := [];
    var i := 0;
    while i < |lines|
      invariant i <= |lines| && i <= sink.accepts
      invariant written == Terminated(lines[..i])
    {
      var err := Answer(sink, i);
      if err == Some(EOF) {
        return written, Returned;
      }
      if err.Some? {
        return written, Panicked(err.value);
      }
      TerminatedSnoc(lines[..i], lines[i]);
      assert lines[..i + 1] == lines[..i] + [lines[i]];
      written := written + lines[i] + "\n";
      i := i + 1;
    }
    assert lines[..i] == lines[..Honoured(sink, |lines|)];
    halt := Returned;
  }

  /** An OS signal, forwarded verbatim. */
  datatype Signal = Signal(number: nat)

  /** `passSignals`: hands each received signal to the process in order and
      stops after the first delivery that fails; no later signal is sent.
      The signals attempted are all delivered except, when delivery failed,
      the last one. */
  method PassSignals(process: Peer, signals: seq<Signal>) returns (attempted: seq<Signal>, failed: Option<Error>)
    ensures failed == if process.accepts < |signals| then Some(process.failure) else None
    ensures |attempted| == if failed.Some? then process.accepts + 1 else |signals|
    ensures attempted == signals[..|attempted|]
  {
    attempted := [];
    var i := 0;
    while i < |signals|
      invariant i <= |signals| && i <= process.accepts
      invariant attempted == signals[..i]
    {
      attempted := attempted + [signals[i]];
      var err := Answer(process, i);
      if err.Some? {
        assert attempted == signals[..i + 1];
        return attempted, err;
      }
      i := i + 1;
    }
    failed := None;
  }

  /** An automaton state change; only its command matters to the bridge. */
  datatype StateChange = StateChange(command: string)

  /** The commands of a sequence of state changes, in order. */
  function CommandsOf(changes: seq<StateChange>): (commands: seq<string>)
    ensures |commands| == |changes|
    ensures forall i :: 0 <= i < |changes| ==> commands[i] == changes[i].command
  {
    if changes == [] then [] else [changes[0].command] + CommandsOf(changes[1..])
  }

  /** `passStateChanges`: forwards the command of every state change, in order. */
  method PassStateChanges(changes: seq<StateChange>) returns (commands: seq<string>)
    ensures commands == CommandsOf(changes)
  {
    commands := [];
    for i := 0 to |changes|
      invariant commands == CommandsOf(changes[..i])
    {
      assert changes[..i + 1] == changes[..i] + [changes[i]];
      CommandsOfAppend(changes[..i], [changes[i]]);
      commands := commands + [changes[i].command];
    }
    assert changes[..|changes|] == changes;
  }

  lemma {:induction false} CommandsOfAppend(a: seq<StateChange>, b: seq<StateChange>)
    ensures CommandsOf(a + b) == CommandsOf(a) + CommandsOf(b)
  {
    if a == [] {
      assert a + b == b;
    } else {
      assert (a + b)[1..] == a[1..] + b;
      CommandsOfAppend(a[1..], b);
    }
  }

  /** The command path from the automaton to the child's input: the bridge
      feeds the writer. The child receives each command followed by one
      terminator, in emission order, up to the first failed write; when no
      command holds a '\n', splitting what it receives gives back exactly
      those commands. */
  method DeliverCommands(changes: seq<StateChange>, stdin: Peer) returns (written: string, halt: Halt)
    ensures written == Terminated(CommandsOf(changes)[..Honoured(stdin, |changes|)])
    ensures (forall i :: 0 <= i < |changes| ==> '\n' !in changes[i].command) ==>
              Segments(written) == CommandsOf(changes)[..Honoured(stdin, |changes|)]
  {
    var commands := PassStateChanges(changes);
    written, halt := WriteLines(stdin, commands);
    var delivered := commands[..Honoured(stdin, |changes|)];
    if forall i :: 0 <= i < |changes| ==> '\n' !in changes[i].command {
      assert forall i :: 0 <= i < |delivered| ==> '\n' !in delivered[i];
      SegmentsOfTerminated(delivered);
    }
  }
}
