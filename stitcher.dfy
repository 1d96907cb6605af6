/** The timestamp stitcher: turns the recognizer's possibly overlapping
    hypotheses into transcript lines whose intervals do not overlap. */
module Stitcher {
  import opened Wrappers
  import opened Protocol

  /** `format_output_transcript` on hypothesis `o` with watermark `lastEnd`
      (the end of the previous line, unset at first): the line to emit, if
      any, and the new watermark. */
  function Stitch(lastEnd: Option<real>, o: Segment): (r: (Option<Message>, Option<real>))
    ensures o.begin.None? ==> r.0.None? && r.1 == lastEnd
    ensures o.begin.Some? ==> r.0.Some? && r.1 == Some(r.0.value.end)
    ensures o.begin.Some? ==>
      var m := r.0.value;
      && m.end == o.end * 1000.0
      && m.text == o.text
      && o.begin.value * 1000.0 <= m.begin
      && (lastEnd.Some? ==> lastEnd.value <= m.begin)
      && (m.begin == o.begin.value * 1000.0 || (lastEnd.Some? && m.begin == lastEnd.value))
  {
    match o.begin
    case None => (None, lastEnd)
    case Some(b) =>
      var beg := b * 1000.0;
      var end := o.end * 1000.0;
      var beg' := if lastEnd.Some? && lastEnd.value > beg then lastEnd.value else beg;
      (Some(Message(beg', end, o.text)), Some(end))
  }

  /** The lines emitted for a series of hypotheses, and the final watermark. */
  function StitchAll(lastEnd: Option<real>, segs: seq<Segment>): (seq<Message>, Option<real>)
    decreases |segs|
  {
    if segs == [] then ([], lastEnd)
    else
      var (m, e) := Stitch(lastEnd, segs[0]);
      var (rest, e') := StitchAll(e, segs[1..]);
      (if m.Some? then [m.value] + rest else rest, e')
  }

  /** The hypotheses that carry a begin time. */
  function Present(segs: seq<Segment>): (p: seq<Segment>)
    ensures forall i :: 0 <= i < |p| ==> p[i].begin.Some?
    decreases |segs|
  {
    if segs == [] then []
    else (if segs[0].begin.Some? then [segs[0]] else []) + Present(segs[1..])
  }

  /** Non-overlap: every emitted line begins no earlier than the previous one
      ends, and the first no earlier than the watermark it started from; the
      final watermark is the end of the last line emitted. */
  lemma {:induction false} StitchAllNonOverlapping(lastEnd: Option<real>, segs: seq<Segment>)
    ensures var (out, e) := StitchAll(lastEnd, segs);
      && NonOverlapping(out)
      && (lastEnd.Some? && out != [] ==> lastEnd.value <= out[0].begin)
      && e == (if out == [] then lastEnd else Some(out[|out| - 1].end))
    decreases |segs|
  {
    if segs != [] {
      var (m, e) := Stitch(lastEnd, segs[0]);
      StitchAllNonOverlapping(e, segs[1..]);
      var (rest, e') := StitchAll(e, segs[1..]);
      if m.Some? {
        var out := [m.value] + rest;
        forall i | 0 <= i < |out| - 1 ensures out[i].end <= out[i + 1].begin {
          if i > 0 {
            assert out[i] == rest[i - 1] && out[i + 1] == rest[i];
          }
        }
      }
    }
  }

  /** Exactly the hypotheses with a begin time are emitted, in order, each
      with its end and text and a begin no earlier than its own. */
  lemma {:induction false} StitchAllFollowsPresent(lastEnd: Option<real>, segs: seq<Segment>)
    ensures |StitchAll(lastEnd, segs).0| == |Present(segs)|
    ensures forall i :: 0 <= i < |Present(segs)| ==> Emits(StitchAll(lastEnd, segs).0, i, Present(segs)[i])
    decreases |segs|
  {
    if segs != [] {
      var (m, e) := Stitch(lastEnd, segs[0]);
      StitchAllFollowsPresent(e, segs[1..]);
      var rest := StitchAll(e, segs[1..]).0;
      var p := Present(segs[1..]);
      if m.Some? {
        assert Present(segs) == [segs[0]] + p;
        forall i | 1 <= i < |Present(segs)| ensures Emits(StitchAll(lastEnd, segs).0, i, Present(segs)[i]) {
          assert Emits(rest, i - 1, p[i - 1]);
        }
      } else {
        assert Present(segs) == p;
      }
    }
  }

  /** Line `i` of `out` was emitted for hypothesis `s`. */
  predicate Emits(out: seq<Message>, i: nat, s: Segment)
    requires s.begin.Some?
  {
    && i < |out|
    && out[i].end == s.end * 1000.0
    && out[i].text == s.text
    && s.begin.value * 1000.0 <= out[i].begin
  }

  /** The example of a hypothesis revised with a slightly earlier begin: its
      begin is clamped to the end of the previous line. */
  lemma StitchClampsRevisedBegin()
    ensures StitchAll(None, [Segment(Some(0.0), 1.72, "hello"), Segment(Some(1.70), 3.00, "hello world")]).0
         == [Message(0.0, 1720.0, "hello"), Message(1720.0, 3000.0, "hello world")]
  {
  }

  /** Only the begin is clamped: a hypothesis that ends before the watermark
      yields a line whose end precedes its begin. */
  lemma StitchKeepsEarlyEnd()
    ensures Stitch(Some(2000.0), Segment(Some(1.0), 1.5, "x")).0 == Some(Message(2000.0, 1500.0, "x"))
  {
  }

  /** Successive lines need not begin later and later: a hypothesis that
      ends before the watermark pulls the watermark back, so the next line
      may begin before the previous one did. Lines still do not overlap. */
  lemma StitchBeginsCanFall()
    ensures StitchAll(None, [Segment(Some(2.0), 2.5, "a"), Segment(Some(1.0), 1.5, "b"), Segment(Some(1.0), 3.0, "c")]).0
         == [Message(2000.0, 2500.0, "a"), Message(2500.0, 1500.0, "b"), Message(1500.0, 3000.0, "c")]
  {
  }
}
