# igniter-shell-go I/O bridge, modelled in Dafny

This project models the sequential logic of the I/O bridge in
`shell/run.go`. The bridge sits between a supervised child process and an
external automaton. Its parts are:

- **Line framer** (`readLines`). It reads the child's output stream up to
  each `'\n'`, trims every line with Go's `strings.TrimSpace` and sends the
  non-empty results to the output bus. It stops at end of stream and
  panics on any other read error.
- **Line writer** (`writeLines`). It writes every command from the input
  bus, followed by `'\n'`, to the child's input. It stops quietly on
  `io.EOF` and panics on any other write error.
- **Signal relay** (`passSignals`). It forwards every received OS signal to
  the child and stops at the first failed delivery.
- **State-change bridge** (`passStateChanges`). It forwards the command of
  every automaton state change to the input bus.
- **Exit-status decoding** (`waitCommand`). It turns the outcome of
  waiting for the child into an (exit code, error) pair.
- **The four buses**: buffered Go channels with capacities 200, 20, 20
  and 20.

Modules:

- `Base`: shared values.
  - Go errors (`io.EOF` or any other error).
  - How a goroutine ends (`Returned` or `Panicked`).
  - `Peer`: a sink or process that honours its first `accepts` requests
    and fails every later one with one error. Every stage stops at its first
    failure, so this pair covers any behaviour of a real writer or process
    as far as a stage can observe it.
- `Whitespace`: Go's `unicode.IsSpace` and `strings.TrimSpace`, specified by
  the padding characterisation `TrimSpace(p + m + q) == m`.
- `Lines`: the specification functions.
  - `Segments`: the `'\n'`-terminated segments of a text.
  - `Unterminated`: the text after the last `'\n'`.
  - `Terminated`: what the writer produces.
  - `Clean`: the framer's trim-and-filter step.
  - `Frame = Clean ∘ Segments`: the lines the framer emits.
  - Lemmas about these functions.
- `Stages`: the four loops as methods, each proved against its
  specification.
  - A stream is the text its reads deliver, followed by the error that the
    read after the last byte returns.
  - A channel a stage consumes is the finite sequence of values it
    delivers before it is closed.
  - What a stage sends, writes or delivers is an output sequence.
- `ExitStatus`: `waitCommand` over a tagged datatype for the result of
  `cmd.Wait()`.
- `Buses`: the capacity constants and a `Bus` class. A bus is a bounded
  FIFO queue with Go's send, receive and close outcomes.

Strings are sequences of Unicode code points, which are Go's runes.
`'\n'` never occurs inside a multi-byte UTF-8 sequence. Splitting code
points at `'\n'` therefore matches splitting bytes at `'\n'`.

The model states these behaviours of the code:

- Only `io.EOF` stops the writer quietly. Any other write error panics,
  including an OS pipe's broken-pipe error (`shell/run.go:287-292`).
  `WriteLines` models exactly this.
- When waiting fails, `waitCommand` returns exit code 0 together with the
  error (`shell/run.go:247-252`). `WaitCommand` says so.
- An `*exec.ExitError` whose system detail is not a wait status is passed
  on as an error. It is not decoded.

## Model

| member | source | states |
|---|---|---|
| Whitespace.IsSpace | shell/run.go:271 | Go's `unicode.IsSpace`: the Latin-1 spaces and the other code points with the Unicode White_Space property, which `strings.TrimSpace` removes |
| Lines.Segments | shell/run.go:263 | The '\n'-terminated pieces that successive `ReadString` calls return, in order, without their terminators; there are no more of them than characters of text |
| Lines.Terminated | shell/run.go:286 | What the writer produces for a sequence of lines: each line followed by '\n'; at least one character per line, and non-empty output ends with '\n' |
| Lines.Clean | shell/run.go:271-274 | The framer's trim-and-filter step: at most one line per segment |
| Lines.Frame | shell/run.go:256-276 | The lines the framer emits for a text: its segments, trimmed, with empty results dropped; never more lines than characters |
| Whitespace.TrimSpace | shell/run.go:271 | The trimmed line neither starts nor ends with a space, and it is empty exactly when the line is all space |
| Whitespace.TrimSpaceOfPadded | shell/run.go:271 | Reference characterisation: trimming any all-space padding around a trimmed string gives back that string |
| Whitespace.TrimSpacePadding | shell/run.go:271 | Every line is its trimmed form with all-space padding on both sides, so trimming only removes surrounding space |
| Whitespace.TrimSpaceIdempotent | shell/run.go:271 | Trimming twice is the same as trimming once |
| Whitespace.TrimSpaceFixedPoints | shell/run.go:271 | A line is left unchanged by trimming exactly when it neither starts nor ends with a space |
| Whitespace.TrimSpaceDropsTrailingSpace | shell/run.go:262-271 | The `'\n'` that `ReadString` leaves on a line does not change the trimmed line |
| Lines.Unterminated | shell/run.go:262-266 | The text after the last terminator contains no `'\n'` |
| Lines.SegmentsHaveNoTerminator | shell/run.go:263 | No segment that a read delivers contains a `'\n'` |
| Lines.TerminatedOfSegments | shell/run.go:263 | Any text is its segments, each followed by `'\n'`, followed by the unterminated tail, so splitting loses nothing |
| Lines.TerminatedSnoc | shell/run.go:286 | Writing one more line appends exactly that line and one terminator |
| Lines.SegmentsAfterTerminated | shell/run.go:263 | Text made of terminated lines followed by more text splits into those lines followed by the segments of the rest |
| Lines.SegmentsOfTerminated | shell/run.go:285-286 | Round trip: the segments of the writer's output are exactly the lines written, and nothing is left over |
| Lines.CleanLinesAreClean | shell/run.go:271-274 | The filter keeps at most one line per segment, and every line kept is non-empty and trimmed |
| Lines.FrameLinesAreClean | shell/run.go:271-274 | Every line the framer emits is non-empty and has no leading or trailing space |
| Lines.CleanKeepsCleanLines | shell/run.go:271-274 | The filter leaves a sequence of non-empty, trimmed lines unchanged |
| Lines.FrameStep | shell/run.go:262-275 | One terminated segment yields exactly one emitted line, its trimmed form, when that is non-empty, and nothing when it is all space; the rest is framed after it |
| Lines.FrameAfterTerminated | shell/run.go:262-275 | Framing is compositional at segment boundaries, so lines come out in input order |
| Lines.FrameDropsUnterminatedTail | shell/run.go:263-266 | A final segment not terminated by `'\n'` is never emitted |
| Lines.FrameOfTerminated | shell/run.go:262-275 | Round trip of writer and framer: framing the writer's output for non-empty, trimmed, `'\n'`-free lines gives back those lines |
| Stages.ReadString | shell/run.go:263 | A read returns the text up to and including the next `'\n'` with no error; when no `'\n'` is left, it returns all remaining text with the stream's terminating error |
| Stages.ReadLines | shell/run.go:256-276 | The framer sends exactly `Frame` of the stream's text. It returns at `io.EOF` and panics with any other read error, after which nothing more is sent |
| Stages.FrameAtEnd | shell/run.go:263-269 | When a read finds no `'\n'`, everything the framer will ever send has already been sent |
| Stages.ReadLineFrames | shell/run.go:262-275 | One successful read consumes one segment: the framing of the remaining text is that line, trimmed and kept when non-empty, followed by the framing of what comes after |
| Stages.FrameReadLine | shell/run.go:270-274 | The framer's invariant, "sent so far followed by the framing of the unread text is the framing of the whole text", survives one loop iteration |
| Stages.WriteLines | shell/run.go:279-295 | The sink receives exactly each accepted line followed by `'\n'`, in bus order, up to the first failed write. The writer returns when every write succeeds or the failure is `io.EOF`, and panics otherwise |
| Stages.PassSignals | shell/run.go:298-311 | The signals attempted are a prefix of those received, in order. All are delivered except, after a failure, the last one: the relay stops after the first failed delivery and sends no later signal |
| Stages.CommandsOf | shell/run.go:319-321 | The bridge's output has the same length as its input, and each output item is the command of the corresponding state change |
| Stages.CommandsOfAppend | shell/run.go:319-321 | The bridge maps concatenated inputs to concatenated outputs, so order is preserved |
| Stages.PassStateChanges | shell/run.go:315-322 | The bridge forwards exactly the commands of the state changes, in order |
| Stages.DeliverCommands | shell/run.go:279-322 | The writer's output is each command followed by one terminator, in emission order, up to the first failed write. When no command contains `'\n'`, splitting the writer's output gives back exactly those commands |
| ExitStatus.WaitCommand | shell/run.go:233-253 | An exit error carrying a wait status becomes that status's code with no error. Success gives code 0 and no error. Any other error is returned unchanged with code 0, so an error and a decoded code never come together |
| ExitStatus.WaitResult | shell/run.go:239 | The outcome `cmd.Wait()` gives for a child that ran to completion: nil exactly for status 0, otherwise an exit error carrying that status |
| ExitStatus.CompletedChildReportsStatus | shell/run.go:239-245 | For a child that ran to completion, the reported code is its exit status, with no error, whether that status is zero or not |
| Buses.Bus.constructor | shell/run.go:75-86 | A new bus is empty, open and has the given capacity |
| Buses.Bus.Send | shell/run.go:273 | A send on an open bus with room appends the value at the back. A full bus is left unchanged, and so is a closed one, where the send is reported as a fault. The buffer never exceeds the capacity |
| Buses.Bus.Receive | shell/run.go:285 | A receive takes the oldest buffered value. An empty bus reports nothing yet, or drained once it is closed. What was received followed by what is buffered is always everything sent, so the bus is FIFO |
| Buses.Bus.Close | shell/run.go:79-86 | Closing keeps the buffered values. Closing a closed bus is reported as a fault |
| Buses.MakeBuses | shell/run.go:75-86 | The output, input, state-change and signal buses are created open and empty, with nothing sent or received yet, and with capacities 200, 20, 20 and 20 |

## Left out

- Orchestration (`RunWithStateMachine`, `runCommand`, `runCommandPTY`): goroutine start-up order, deferred channel closing and shutdown. These are about concurrency, which a sequential model does not capture.
- Setup of pipes and the pseudo-terminal, and process start. These are OS and foreign-library calls, and their failures are only returned.
- Stream duplication with `io.TeeReader`/`io.Pipe`, and the `io.Copy` passthrough to the terminal. The framer is assumed to read an unaltered copy of the child's output.
- The interleaving of the stdout and stderr framers on the one output bus. Each framer is modelled on its own stream.
- `signal.Notify`/`signal.Stop` and the platform signal list. A signal is an opaque number, forwarded unchanged.
- The internals of `syscall.WaitStatus.ExitStatus()`. The code is an opaque integer carried by the status; for a child killed by a signal it is whatever that call returns.
- The `statemachine` package, which produces the state changes and consumes the output lines. It is not part of this model.
- Stages.DeliverCommands: the raw terminal input that `io.Copy` also writes into the same child input (`shell/run.go:164`, `shell/run.go:218`) is not modelled; the property is about the writer's output only.
- Stages.WriteLines: a failed write is taken to write nothing, so partial writes are not modelled.
- Buses.Bus.Send: a full bus reports `Full` instead of blocking. A send that would block, and the rendezvous of an unbuffered channel, are not modelled.
- Buses.Bus.Receive: an empty open bus reports `Empty` instead of blocking.
- Stages.ReadLines: text is a sequence of code points, so invalid UTF-8 in the child's output is not represented.
