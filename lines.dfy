/** Line framing of a byte stream, as specification functions: how the text
    a stage reads splits into '\n'-terminated segments, how the line writer
    terminates the lines it writes, and which lines the framer emits. */
module Lines {
  import opened Whitespace

  /** The first position of `c` in `s`, or |s| if `c` does not occur. */
  function IndexOf(s: string, c: char): (k: nat)
    ensures k <= |s|
    ensures k < |s| ==> s[k] == c
    ensures forall j :: 0 <= j < k ==> s[j] != c
  {
    if s == [] then 0 else if s[0] == c then 0 else 1 + IndexOf(s[1..], c)
  }

  /** IndexOf is determined by its contract: the first occurrence is unique. */
  lemma IndexOfAt(s: string, c: char, k: nat)
    requires k < |s| && s[k] == c
    requires forall j :: 0 <= j < k ==> s[j] != c
    ensures IndexOf(s, c) == k
  {
  }

  /** The '\n'-terminated segments of `d`, in order, without their
      terminators. Text after the last '\n' is not a segment. */
  function Segments(d: string): (segs: seq<string>)
    ensures |segs| <= |d|
    decreases |d|
  {
    var k := IndexOf(d, '\n');
    if k == |d| then [] else [d[..k]] + Segments(d[k + 1..])
  }

  /** The text after the last '\n' of `d` (all of `d` if it has none). */
  function Unterminated(d: string): (tail: string)
    ensures '\n' !in tail
    decreases |d|
  {
    var k := IndexOf(d, '\n');
    if k == |d| then d else Unterminated(d[k + 1..])
  }

  /** What the line writer puts on its sink: each line followed by '\n'. */
  function Terminated(lines: seq<string>): (d: string)
    ensures |lines| <= |d|
    ensures lines != [] ==> d[|d| - 1] == '\n'
  {
    if lines == [] then [] else lines[0] + "\n" + Terminated(lines[1..])
  }

  /** The framer's filter: trim every segment and keep the non-empty results. */
  function Clean(segs: seq<string>): (lines: seq<string>)
    ensures |lines| <= |segs|
  {
    if segs == [] then []
    else
      var t := TrimSpace(segs[0]);
      (if t == [] then [] else [t]) + Clean(segs[1..])
  }

  /** The lines the framer emits for a stream whose text is `d`. */
  function Frame(d: string): (lines: seq<string>)
    ensures |lines| <= |d|
  {
    Clean(Segments(d))
  }

  /** No segment contains a line terminator. */
  lemma {:induction false} SegmentsHaveNoTerminator(d: string)
    ensures forall i :: 0 <= i < |Segments(d)| ==> '\n' !in Segments(d)[i]
    decreases |d|
  {
    var k := IndexOf(d, '\n');
    if k < |d| {
      SegmentsHaveNoTerminator(d[k + 1..]);
      assert Segments(d) == [d[..k]] + Segments(d[k + 1..]);
    }
  }

  /** The filter keeps at most one line per segment, and every line it keeps
      is non-empty and neither starts nor ends with a space. */
  lemma {:induction false} CleanLinesAreClean(segs: seq<string>)
    ensures |Clean(segs)| <= |segs|
    ensures forall i :: 0 <= i < |Clean(segs)| ==> Clean(segs)[i] != [] && IsTrimmed(Clean(segs)[i])
  {
    if segs != [] {
      CleanLinesAreClean(segs[1..]);
    }
  }

  /** Every line the framer emits is non-empty and has no leading or
      trailing space. */
  lemma FrameLinesAreClean(d: string)
    ensures forall i :: 0 <= i < |Frame(d)| ==> Frame(d)[i] != [] && IsTrimmed(Frame(d)[i])
  {
    CleanLinesAreClean(Segments(d));
  }

  lemma TerminatedAppend(a: seq<string>, b: seq<string>)
    ensures Terminated(a + b) == Terminated(a) + Terminated(b)
  {
    if a == [] {
      assert a + b == b;
    } else {
      assert (a + b)[1..] == a[1..] + b;
      TerminatedAppend(a[1..], b);
    }
  }

  /** Writing one more line appends that line and a terminator. */
  lemma TerminatedSnoc(lines: seq<string>, line: string)
    ensures Terminated(lines + [line]) == Terminated(lines) + line + "\n"
  {
    TerminatedAppend(lines, [line]);
    assert Terminated([line]) == line + "\n" + [];
  }

  lemma TerminatedCons(lines: seq<string>, rest: string)
    requires lines != []
    ensures Terminated(lines) + rest == lines[0] + "\n" + (Terminated(lines[1..]) + rest)
  {
  }

  /** One segment followed by more text: the segment comes first. */
  lemma SegmentsCons(seg: string, rest: string)
    requires '\n' !in seg
    ensures Segments(seg + "\n" + rest) == [seg] + Segments(rest)
    ensures Unterminated(seg + "\n" + rest) == Unterminated(rest)
  {
    var d := seg + "\n" + rest;
    IndexOfAt(d, '\n', |seg|);
    assert d[..|seg|] == seg;
    assert d[|seg| + 1..] == rest;
  }

  /** Text made of terminated lines followed by `rest` splits back into those
      lines followed by the segments of `rest`. */
  lemma {:induction false} SegmentsAfterTerminated(lines: seq<string>, rest: string)
    requires forall i :: 0 <= i < |lines| ==> '\n' !in lines[i]
    ensures Segments(Terminated(lines) + rest) == lines + Segments(rest)
  {
    if lines == [] {
      assert Terminated(lines) + rest == rest;
    } else {
      var tail := Terminated(lines[1..]) + rest;
      calc {
        Segments(Terminated(lines) + rest);
        { TerminatedCons(lines, rest); }
        Segments(lines[0] + "\n" + tail);
        { SegmentsCons(lines[0], tail); }
        [lines[0]] + Segments(tail);
        { SegmentsAfterTerminated(lines[1..], rest); }
        [lines[0]] + (lines[1..] + Segments(rest));
        { assert lines == [lines[0]] + lines[1..]; }
        lines + Segments(rest);
      }
    }
  }

  /** ... and its unterminated tail is that of `rest`. */
  lemma {:induction false} UnterminatedAfterTerminated(lines: seq<string>, rest: string)
    requires forall i :: 0 <= i < |lines| ==> '\n' !in lines[i]
    ensures Unterminated(Terminated(lines) + rest) == Unterminated(rest)
  {
    if lines == [] {
      assert Terminated(lines) + rest == rest;
    } else {
      var tail := Terminated(lines[1..]) + rest;
      TerminatedCons(lines, rest);
      SegmentsCons(lines[0], tail);
      UnterminatedAfterTerminated(lines[1..], rest);
    }
  }

  /** Round trip for the writer's output: its segments are exactly the lines
      written, in order, with nothing duplicated or left over. */
  lemma SegmentsOfTerminated(lines: seq<string>)
    requires forall i :: 0 <= i < |lines| ==> '\n' !in lines[i]
    ensures Segments(Terminated(lines)) == lines
    ensures Unterminated(Terminated(lines)) == []
  {
    SegmentsAfterTerminated(lines, []);
    UnterminatedAfterTerminated(lines, []);
    assert Terminated(lines) + [] == Terminated(lines);
    assert lines + [] == lines;
  }

  /** The other direction: any text is its segments, terminated, followed by
      its unterminated tail. */
  lemma {:induction false} TerminatedOfSegments(d: string)
    ensures Terminated(Segments(d)) + Unterminated(d) == d
    decreases |d|
  {
    var k := IndexOf(d, '\n');
    if k < |d| {
      var seg, rest := d[..k], d[k + 1..];
      assert d == seg + "\n" + rest;
      SegmentsCons(seg, rest);
      var segs := Segments(rest);
      calc {
        Terminated(Segments(d)) + Unterminated(d);
        Terminated([seg] + segs) + Unterminated(rest);
        { TerminatedCons([seg] + segs, Unterminated(rest));
          assert ([seg] + segs)[1..] == segs; }
        seg + "\n" + (Terminated(segs) + Unterminated(rest));
        { TerminatedOfSegments(rest); }
        seg + "\n" + rest;
      }
    } else {
      assert Segments(d) == [];
    }
  }

  /** A final segment with no '\n' contributes no segment. */
  lemma SegmentsOfUnterminated(tail: string)
    requires '\n' !in tail
    ensures Segments(tail) == [] && Unterminated(tail) == tail
  {
    assert IndexOf(tail, '\n') == |tail|;
  }

  lemma {:induction false} CleanAppend(a: seq<string>, b: seq<string>)
    ensures Clean(a + b) == Clean(a) + Clean(b)
  {
    if a != [] {
      assert (a + b)[0] == a[0];
      assert (a + b)[1..] == a[1..] + b;
      CleanAppend(a[1..], b);
    } else {
      assert a + b == b;
    }
  }

  /** The filter keeps lines that are already trimmed and non-empty unchanged. */
  lemma {:induction false} CleanKeepsCleanLines(lines: seq<string>)
    requires forall i :: 0 <= i < |lines| ==> lines[i] != [] && IsTrimmed(lines[i])
    ensures Clean(lines) == lines
  {
    if lines != [] {
      TrimSpaceFixedPoints(lines[0]);
      CleanKeepsCleanLines(lines[1..]);
    }
  }

  /** A single segment yields its trimmed form, or nothing when it is all space. */
  lemma CleanOne(seg: string)
    ensures Clean([seg]) == if AllSpace(seg) then [] else [TrimSpace(seg)]
  {
    assert [seg][1..] == [];
  }

  /** Framing is compositional at segment boundaries: the framer's output for
      terminated lines followed by more text is the cleaned lines followed by
      the output for the rest. Lines come out in input order. */
  lemma FrameAfterTerminated(lines: seq<string>, rest: string)
    requires forall i :: 0 <= i < |lines| ==> '\n' !in lines[i]
    ensures Frame(Terminated(lines) + rest) == Clean(lines) + Frame(rest)
  {
    SegmentsAfterTerminated(lines, rest);
    CleanAppend(lines, Segments(rest));
  }

  /** A final segment that is not terminated by '\n' is never emitted. */
  lemma FrameDropsUnterminatedTail(lines: seq<string>, tail: string)
    requires forall i :: 0 <= i < |lines| ==> '\n' !in lines[i]
    requires '\n' !in tail
    ensures Frame(Terminated(lines) + tail) == Frame(Terminated(lines))
  {
    FrameAfterTerminated(lines, tail);
    SegmentsOfUnterminated(tail);
    FrameAfterTerminated(lines, []);
    assert Terminated(lines) + [] == Terminated(lines);
  }

  /** Exactly one emitted line per terminated segment whose trimmed form is
      not empty: framing one segment followed by `rest`. */
  lemma FrameStep(seg: string, rest: string)
    requires '\n' !in seg
    ensures Frame(seg + "\n" + rest) == (if AllSpace(seg) then [] else [TrimSpace(seg)]) + Frame(rest)
  {
    SegmentsCons(seg, rest);
    CleanAppend([seg], Segments(rest));
    CleanOne(seg);
  }

  /** Round trip of writer and framer: framing the text the writer produces
      for lines that are trimmed, non-empty and free of '\n' gives those lines. */
  lemma FrameOfTerminated(lines: seq<string>)
    requires forall i :: 0 <= i < |lines| ==> '\n' !in lines[i]
    requires forall i :: 0 <= i < |lines| ==> lines[i] != [] && IsTrimmed(lines[i])
    ensures Frame(Terminated(lines)) == lines
  {
    SegmentsOfTerminated(lines);
    CleanKeepsCleanLines(lines);
  }
}
