/** The per-connection session loop of the server as a function of its
    inputs, and what that loop guarantees. */
module Session {
  import opened Wrappers
  import opened Protocol
  import opened Framer
  import opened Accumulator
  import opened Stitcher
  import opened Recognition

  /** Everything one session changes: the connection, the stitching
      watermark, and the adapter's audio and call log. */
  datatype World = World(link: Link, lastEnd: Option<real>, chunks: seq<seq<int>>, log: seq<Event>)

  /** What the session does not change: the PCM decoding of a read, the
      adapter's answers, and the threshold `min_chunk * SAMPLING_RATE`. */
  datatype Env = Env(decode: Bytes -> seq<int>, respond: seq<seq<int>> -> Segment, limit: real)

  /** Why a session ended. */
  datatype EndReason = PeerClosed | BrokenPipe

  /** `send_result`: stitch the hypothesis and send the line, if there is one.
      The boolean is false when the send raised a broken pipe. */
  function Report(w: World, o: Segment): (r: (bool, World))
    ensures r.1.link.inbox == w.link.inbox && r.1.chunks == w.chunks && r.1.log == w.log
    ensures r.1.lastEnd == Stitch(w.lastEnd, o).1
    ensures o.begin.None? ==> r == (true, w)
    ensures o.begin.Some? ==> r == (SendLine(w.link, Stitch(w.lastEnd, o).0.value).0,
                                     w.(link := SendLine(w.link, Stitch(w.lastEnd, o).0.value).1,
                                        lastEnd := Stitch(w.lastEnd, o).1))
  {
    var st := Stitch(w.lastEnd, o);
    if st.0.None? then (true, w.(lastEnd := st.1))
    else
      var sent := SendLine(w.link, st.0.value);
      (sent.0, w.(link := sent.1, lastEnd := st.1))
  }

  /** One pass of the loop of `process`: receive a chunk and stop if there is
      none; otherwise insert it, poll, report, and stop if the report hit a
      broken pipe. */
  function Step(w: World, env: Env): (r: (World, Option<EndReason>))
    ensures |r.0.link.inbox| <= |w.link.inbox|
    ensures r.1.None? ==> |r.0.link.inbox| < |w.link.inbox|
  {
    var rcv := Receive(w.link.inbox, env.decode, env.limit);
    var w0 := w.(link := w.link.(inbox := rcv.rest));
    match rcv.audio
    case None => (w0, Some(PeerClosed))
    case Some(a) =>
      var o := env.respond(w.chunks + [a]);
      var rep := Report(w0.(chunks := w.chunks + [a], log := w.log + [Fed(a), Polled(o)]), o);
      (rep.1, if rep.0 then None else Some(BrokenPipe))
  }

  /** The loop of `process`, after `init`, run until a pass stops it. */
  function Loop(w: World, env: Env): (r: (World, EndReason))
    ensures |r.0.link.inbox| <= |w.link.inbox|
    decreases |w.link.inbox|
  {
    var st := Step(w, env);
    if st.1.Some? then (st.0, st.1.value) else Loop(st.0, env)
  }

  /** The chunk a pass received, if any. */
  function Chunk(w: World, env: Env): Option<seq<int>> {
    Receive(w.link.inbox, env.decode, env.limit).audio
  }

  /** The adapter calls for inserting `added`, one chunk at a time, on top
      of `base`: each chunk is inserted, then the adapter is polled. */
  function Trace(respond: seq<seq<int>> -> Segment, base: seq<seq<int>>, added: seq<seq<int>>): seq<Event>
    decreases |added|
  {
    if added == [] then []
    else [Fed(added[0]), Polled(respond(base + [added[0]]))] + Trace(respond, base + [added[0]], added[1..])
  }

  /** The hypotheses those polls return. */
  function Answers(respond: seq<seq<int>> -> Segment, base: seq<seq<int>>, added: seq<seq<int>>): seq<Segment>
    decreases |added|
  {
    if added == [] then []
    else [respond(base + [added[0]])] + Answers(respond, base + [added[0]], added[1..])
  }

  /** The invariant the loop keeps while it runs: the framer's invariant,
      the lines written do not overlap, and the watermark is the end of the
      last line written. */
  ghost predicate Consistent(w: World) {
    && Coherent(w.link)
    && NonOverlapping(w.link.wire)
    && (w.link.wire != [] ==> w.lastEnd == Some(w.link.wire[|w.link.wire| - 1].end))
  }

  /** A session's starting state is consistent. */
  lemma FreshConsistent(inbox: seq<Bytes>, outcomes: seq<bool>, log: seq<Event>)
    ensures Consistent(World(Link(inbox, outcomes, [], None), None, [], log))
  {
  }

  /** `send_result` only appends to the wire, never an immediate repeat or an
      overlapping line, and keeps the invariant unless the pipe broke. */
  lemma ReportConsistent(w: World, o: Segment)
    requires Consistent(w)
    ensures var (ok, w') := Report(w, o);
      && w.link.wire <= w'.link.wire
      && NoAdjacentDup(w'.link.wire) && NonOverlapping(w'.link.wire)
      && (ok ==> Consistent(w'))
  {
    var (m, lastEnd) := Stitch(w.lastEnd, o);
    if m.Some? {
      var msg := m.value;
      var wire := w.link.wire;
      SendLineCoherent(w.link, msg);
      if w.link.lastLine != Some(msg) && Accepts(w.link.outcomes) {
        var wire' := wire + [msg];
        forall i | 0 <= i < |wire'| - 1 ensures wire'[i].end <= wire'[i + 1].begin {
          if i < |wire| - 1 {
            assert wire'[i] == wire[i] && wire'[i + 1] == wire[i + 1];
          }
        }
      }
    }
  }

  /** A pass whose receive yields nothing ends the session, the stream read
      down to `rest`. */
  lemma StepPeerClosed(w: World, env: Env, rest: seq<Bytes>)
    requires Receive(w.link.inbox, env.decode, env.limit) == Received(None, rest)
    ensures Step(w, env) == (w.(link := w.link.(inbox := rest)), Some(PeerClosed))
    ensures Loop(w, env) == (w.(link := w.link.(inbox := rest)), PeerClosed)
  {
  }

  /** A pass that receives chunk `a` polls for `o` and ends in the outcome of
      `send_result`; the session goes on from there unless the pipe broke. */
  lemma StepDelivered(w: World, env: Env, rest: seq<Bytes>, a: seq<int>, o: Segment, ok: bool, w2: World)
    requires Receive(w.link.inbox, env.decode, env.limit) == Received(Some(a), rest)
    requires o == env.respond(w.chunks + [a])
    requires (ok, w2) == Report(w.(link := w.link.(inbox := rest), chunks := w.chunks + [a], log := w.log + [Fed(a), Polled(o)]), o)
    ensures Step(w, env) == (w2, if ok then None else Some(BrokenPipe))
    ensures Loop(w, env) == if ok then Loop(w2, env) else (w2, BrokenPipe)
  {
  }

  /** What one pass does to the adapter, and that it stops without a chunk. */
  lemma StepChunk(w: World, env: Env)
    ensures var (w1, stop) := Step(w, env);
      && (Chunk(w, env).None? ==> stop == Some(PeerClosed) && w1 == w.(link := w1.link) && w1.link == w.link.(inbox := w1.link.inbox))
      && (Chunk(w, env).Some? ==>
            var a := Chunk(w, env).value;
            && w1.chunks == w.chunks + [a]
            && w1.log == w.log + [Fed(a), Polled(env.respond(w.chunks + [a]))])
      && w1.link.inbox == Receive(w.link.inbox, env.decode, env.limit).rest
  {
  }

  /** Over a whole session: the wire only grows, and never carries two equal
      lines in a row or two overlapping lines. */
  lemma {:induction false} LoopWire(w: World, env: Env)
    requires Consistent(w)
    ensures var f := Loop(w, env).0;
      w.link.wire <= f.link.wire && NoAdjacentDup(f.link.wire) && NonOverlapping(f.link.wire)
    decreases |w.link.inbox|
  {
    var (w1, stop) := Step(w, env);
    var rcv := Receive(w.link.inbox, env.decode, env.limit);
    if rcv.audio.Some? {
      var a := rcv.audio.value;
      var o := env.respond(w.chunks + [a]);
      ReportConsistent(w.(link := w.link.(inbox := rcv.rest), chunks := w.chunks + [a], log := w.log + [Fed(a), Polled(o)]), o);
      if stop.None? {
        LoopWire(w1, env);
      }
    }
  }

  /** The adapter's chunk list went from `c0` to `c1` and its log from `l0`
      to `l1`: the chunks only grow, and the calls made are exactly the
      insert-then-poll pairs of the new chunks. */
  ghost predicate Logged(respond: seq<seq<int>> -> Segment, c0: seq<seq<int>>, c1: seq<seq<int>>, l0: seq<Event>, l1: seq<Event>) {
    c0 <= c1 && l1 == l0 + Trace(respond, c0, c1[|c0|..])
  }

  /** The log part of going from session state `w` to `f`. */
  ghost predicate LogFollows(w: World, f: World, respond: seq<seq<int>> -> Segment) {
    Logged(respond, w.chunks, f.chunks, w.log, f.log)
  }

  lemma {:induction false} TraceAppend(respond: seq<seq<int>> -> Segment, base: seq<seq<int>>, a: seq<seq<int>>, b: seq<seq<int>>)
    ensures Trace(respond, base, a + b) == Trace(respond, base, a) + Trace(respond, base + a, b)
    decreases |a|
  {
    if a == [] {
      assert a + b == b && base + a == base;
    } else {
      assert (a + b)[0] == a[0] && (a + b)[1..] == a[1..] + b;
      assert base + [a[0]] + a[1..] == base + a;
      TraceAppend(respond, base + [a[0]], a[1..], b);
    }
  }

  lemma LoggedTrans(respond: seq<seq<int>> -> Segment, c0: seq<seq<int>>, c1: seq<seq<int>>, c2: seq<seq<int>>,
                    l0: seq<Event>, l1: seq<Event>, l2: seq<Event>)
    requires Logged(respond, c0, c1, l0, l1) && Logged(respond, c1, c2, l1, l2)
    ensures Logged(respond, c0, c2, l0, l2)
  {
    var a, b := c1[|c0|..], c2[|c1|..];
    assert c0 + a == c1;
    assert c2[|c0|..] == a + b;
    TraceAppend(respond, c0, a, b);
  }

  lemma LogFollowsTrans(w: World, w1: World, f: World, respond: seq<seq<int>> -> Segment)
    requires LogFollows(w, w1, respond) && LogFollows(w1, f, respond)
    ensures LogFollows(w, f, respond)
  {
    LoggedTrans(respond, w.chunks, w1.chunks, f.chunks, w.log, w1.log, f.log);
  }

  /** One pass logs an insert and a poll for the chunk it received, if any. */
  lemma StepLog(w: World, env: Env)
    ensures LogFollows(w, Step(w, env).0, env.respond)
  {
    var w1 := Step(w, env).0;
    StepChunk(w, env);
    if Chunk(w, env).Some? {
      assert w1.chunks[|w.chunks|..] == [Chunk(w, env).value];
    } else {
      assert w1.chunks[|w.chunks|..] == [];
    }
  }

  /** The adapter's log after a session: the chunks only grow, and the calls
      made are exactly the insert-then-poll pairs of the new chunks. */
  lemma {:induction false} LoopLog(w: World, env: Env)
    ensures LogFollows(w, Loop(w, env).0, env.respond)
    decreases |w.link.inbox|
  {
    var st := Step(w, env);
    StepLog(w, env);
    if st.1.None? {
      LoopLog(st.0, env);
      LogFollowsTrans(w, st.0, Loop(st.0, env).0, env.respond);
    }
  }

  lemma {:induction false} TraceLength(respond: seq<seq<int>> -> Segment, base: seq<seq<int>>, added: seq<seq<int>>)
    ensures |Trace(respond, base, added)| == 2 * |added|
    ensures Reset !in Trace(respond, base, added)
    decreases |added|
  {
    if added != [] {
      TraceLength(respond, base + [added[0]], added[1..]);
    }
  }

  lemma {:induction false} TraceAt(respond: seq<seq<int>> -> Segment, base: seq<seq<int>>, added: seq<seq<int>>, k: nat)
    requires k < |added|
    ensures |Trace(respond, base, added)| == 2 * |added|
    ensures Trace(respond, base, added)[2 * k] == Fed(added[k])
    ensures Trace(respond, base, added)[2 * k + 1] == Polled(respond(base + added[..k + 1]))
    decreases k
  {
    TraceLength(respond, base, added);
    var t := Trace(respond, base, added);
    var t' := Trace(respond, base + [added[0]], added[1..]);
    assert t == [Fed(added[0]), Polled(respond(base + [added[0]]))] + t';
    if k == 0 {
      assert added[..1] == [added[0]];
    } else {
      TraceAt(respond, base + [added[0]], added[1..], k - 1);
      assert t[2 * k] == t'[2 * (k - 1)] && t[2 * k + 1] == t'[2 * (k - 1) + 1];
      assert base + added[..k + 1] == base + [added[0]] + added[1..][..k];
    }
  }

  /** The trace of a session: `init` is not called again, and chunk `k` is
      inserted once, right before the poll that first sees it. */
  lemma TraceAlternates(respond: seq<seq<int>> -> Segment, base: seq<seq<int>>, added: seq<seq<int>>)
    ensures var t := Trace(respond, base, added);
      && |t| == 2 * |added|
      && Reset !in t
      && forall k :: 0 <= k < |added| ==>
           t[2 * k] == Fed(added[k]) && t[2 * k + 1] == Polled(respond(base + added[..k + 1]))
  {
    TraceLength(respond, base, added);
    forall k | 0 <= k < |added|
      ensures Trace(respond, base, added)[2 * k] == Fed(added[k])
      ensures Trace(respond, base, added)[2 * k + 1] == Polled(respond(base + added[..k + 1]))
    {
      TraceAt(respond, base, added, k);
    }
  }

  lemma ConcatSingle(a: seq<int>)
    ensures Concat([a]) == a
  {
    assert [a][..0] == [];
  }

  /** Reading the stream `inbox` down to `rest` turned the chunk list `c0`
      into `c1`: a prefix of the stream is consumed, the chunks only grow, and
      the new chunks, joined, are the decoded audio of exactly the consumed
      reads. */
  ghost predicate Follows(decode: Bytes -> seq<int>, inbox: seq<Bytes>, rest: seq<Bytes>, c0: seq<seq<int>>, c1: seq<seq<int>>) {
    && |rest| <= |inbox|
    && rest == inbox[|inbox| - |rest|..]
    && c0 <= c1
    && Concat(c1[|c0|..]) == DecodeAll(decode, inbox[..|inbox| - |rest|])
  }

  lemma FollowsTrans(decode: Bytes -> seq<int>, inbox: seq<Bytes>, rest: seq<Bytes>, rest2: seq<Bytes>,
                     c0: seq<seq<int>>, c1: seq<seq<int>>, c2: seq<seq<int>>)
    requires Follows(decode, inbox, rest, c0, c1) && Follows(decode, rest, rest2, c1, c2)
    ensures Follows(decode, inbox, rest2, c0, c2)
  {
    var n1 := |inbox| - |rest|;
    var n := |inbox| - |rest2|;
    assert rest2 == inbox[n..];
    assert c2[|c0|..] == c1[|c0|..] + c2[|c1|..];
    ConcatAppend(c1[|c0|..], c2[|c1|..]);
    assert inbox[..n] == inbox[..n1] + rest[..n - n1];
    DecodeAllAppend(decode, inbox[..n1], rest[..n - n1]);
  }

  /** The audio part of going from session state `w` to `f`. */
  ghost predicate AudioFollows(w: World, f: World, decode: Bytes -> seq<int>) {
    Follows(decode, w.link.inbox, f.link.inbox, w.chunks, f.chunks)
  }

  lemma AudioFollowsTrans(w: World, w1: World, f: World, decode: Bytes -> seq<int>)
    requires AudioFollows(w, w1, decode) && AudioFollows(w1, f, decode)
    ensures AudioFollows(w, f, decode)
  {
    FollowsTrans(decode, w.link.inbox, w1.link.inbox, f.link.inbox, w.chunks, w1.chunks, f.chunks);
  }

  /** One pass consumes a prefix of the stream and inserts the decoded audio
      of exactly those reads. */
  lemma StepAudio(w: World, env: Env)
    ensures AudioFollows(w, Step(w, env).0, env.decode)
  {
    var w1 := Step(w, env).0;
    ReceiveCollects(w.link.inbox, env.decode, env.limit);
    StepChunk(w, env);
    if Chunk(w, env).Some? {
      var a := Chunk(w, env).value;
      assert w1.chunks[|w.chunks|..] == [a];
      ConcatSingle(a);
    } else {
      assert w1.chunks[|w.chunks|..] == [];
    }
  }

  /** No audio is lost, duplicated or reordered between the socket and the
      adapter: a session consumes a prefix of the stream, and the chunks it
      inserts are, joined, the decoded audio of exactly those reads. */
  lemma {:induction false} LoopAudio(w: World, env: Env)
    ensures AudioFollows(w, Loop(w, env).0, env.decode)
    decreases |w.link.inbox|
  {
    var st := Step(w, env);
    StepAudio(w, env);
    if st.1.None? {
      LoopAudio(st.0, env);
      AudioFollowsTrans(w, st.0, Loop(st.0, env).0, env.decode);
    }
  }

  /** The lines the client receives for a series of hypotheses when no write
      fails, starting from state `w`. */
  function Delivered(w: World, segs: seq<Segment>): seq<Message> {
    Dedup(w.link.lastLine, StitchAll(w.lastEnd, segs).0)
  }

  /** `send_result` that does not hit a broken pipe moves the first line of
      the expected delivery onto the wire; one that does leaves the wire as
      it was. A write that is accepted never hits a broken pipe. */
  lemma ReportDelivers(w: World, o: Segment, later: seq<Segment>)
    ensures var (ok, w1) := Report(w, o);
      && (Accepts(w.link.outcomes) ==> ok)
      && (ok ==> w.link.wire + Delivered(w, [o] + later) == w1.link.wire + Delivered(w1, later))
      && (!ok ==> w1.link.wire == w.link.wire)
  {
    var (m, e) := Stitch(w.lastEnd, o);
    var rest := StitchAll(e, later).0;
    assert ([o] + later)[1..] == later;
    if m.Some? {
      assert StitchAll(w.lastEnd, [o] + later).0 == [m.value] + rest;
      assert ([m.value] + rest)[1..] == rest;
    } else {
      assert StitchAll(w.lastEnd, [o] + later).0 == rest;
    }
  }

  /** When no write fails, the session ends only because the client closed,
      and the client receives exactly the deduplicated stitching of the
      hypotheses the adapter was polled for. */
  lemma {:induction false} LoopWithoutWriteFailure(w: World, env: Env)
    requires false !in w.link.outcomes
    ensures var f := Loop(w, env).0;
      && Loop(w, env).1 == PeerClosed
      && w.chunks <= f.chunks
      && f.link.wire == w.link.wire + Delivered(w, Answers(env.respond, w.chunks, f.chunks[|w.chunks|..]))
    decreases |w.link.inbox|
  {
    var st := Step(w, env);
    var w1 := st.0;
    if st.1.None? {
      StepDelivers(w, env, []);
      LoopWithoutWriteFailure(w1, env);
      var f := Loop(w1, env).0;
      var later := f.chunks[|w1.chunks|..];
      StepDelivers(w, env, later);
      assert f.chunks[|w.chunks|..] == w1.chunks[|w.chunks|..] + later;
    } else {
      StepDelivers(w, env, []);
      assert w1.chunks[|w.chunks|..] == [];
    }
  }

  /** One pass: the chunks only grow; a pass that ends the session writes
      nothing, and one ended by the client's close inserts nothing; with no
      refused write ahead it hits no broken pipe; and a pass that goes on
      writes the first line, if any, of the expected delivery for the chunk
      it received followed by any `later` chunks. */
  lemma StepDelivers(w: World, env: Env, later: seq<seq<int>>)
    ensures var st := Step(w, env);
      var w1 := st.0;
      && w.chunks <= w1.chunks
      && (st.1.Some? ==> w1.link.wire == w.link.wire)
      && (st.1 == Some(PeerClosed) ==> w1.chunks == w.chunks)
      && (false !in w.link.outcomes ==> false !in w1.link.outcomes && st.1 != Some(BrokenPipe))
      && (st.1.None? ==>
            w.link.wire + Delivered(w, Answers(env.respond, w.chunks, w1.chunks[|w.chunks|..] + later))
            == w1.link.wire + Delivered(w1, Answers(env.respond, w1.chunks, later)))
  {
    var w1 := Step(w, env).0;
    StepChunk(w, env);
    var rcv := Receive(w.link.inbox, env.decode, env.limit);
    if rcv.audio.Some? {
      var a := rcv.audio.value;
      var o := env.respond(w.chunks + [a]);
      var w0 := w.(link := w.link.(inbox := rcv.rest), chunks := w.chunks + [a], log := w.log + [Fed(a), Polled(o)]);
      var answers := Answers(env.respond, w.chunks + [a], later);
      ReportDelivers(w0, o, answers);
      assert Report(w0, o).1 == w1;
      assert w1.link.outcomes == w.link.outcomes || w1.link.outcomes == w.link.outcomes[1..];
      assert w1.chunks[|w.chunks|..] + later == [a] + later;
      assert Answers(env.respond, w.chunks, [a] + later) == [o] + answers;
      assert Delivered(w0, [o] + answers) == Delivered(w, [o] + answers);
    }
  }

  /** Whatever the writes' outcomes, the client receives a prefix of the
      deduplicated stitching of the hypotheses the adapter was polled for:
      a refused write cuts the delivery short and nothing is written after
      it. */
  lemma {:induction false} LoopWirePrefix(w: World, env: Env)
    ensures var f := Loop(w, env).0;
      && w.chunks <= f.chunks
      && w.link.wire <= f.link.wire
      && f.link.wire <= w.link.wire + Delivered(w, Answers(env.respond, w.chunks, f.chunks[|w.chunks|..]))
    decreases |w.link.inbox|
  {
    var st := Step(w, env);
    var w1 := st.0;
    if st.1.None? {
      StepDelivers(w, env, []);
      LoopWirePrefix(w1, env);
      var f := Loop(w1, env).0;
      var later := f.chunks[|w1.chunks|..];
      StepDelivers(w, env, later);
      assert f.chunks[|w.chunks|..] == w1.chunks[|w.chunks|..] + later;
      var d := Delivered(w, Answers(env.respond, w.chunks, f.chunks[|w.chunks|..]));
      var d1 := Delivered(w1, Answers(env.respond, w1.chunks, later));
      // w.wire + d == w1.wire + d1, and f.wire is w1.wire followed by a prefix of d1
      assert w.link.wire <= w1.link.wire by {
        assert w.link.wire == (w1.link.wire + d1)[..|w.link.wire|];
        assert |w.link.wire| <= |w1.link.wire| + |d1|;
      }
      assert f.link.wire <= w1.link.wire + d1;
    } else {
      StepDelivers(w, env, []);
    }
  }

  /** A client that sends only non-empty payloads and then closes, on a
      connection whose writes all succeed and with a positive threshold, has
      its whole stream consumed. */
  lemma {:induction false} LoopDrains(w: World, env: Env)
    requires 0.0 < env.limit
    requires false !in w.link.outcomes
    requires forall i :: 0 <= i < |w.link.inbox| ==> w.link.inbox[i] != []
    ensures Loop(w, env).0.link.inbox == []
    decreases |w.link.inbox|
  {
    var inbox := w.link.inbox;
    var rcv := Receive(inbox, env.decode, env.limit);
    var (w1, stop) := Step(w, env);
    StepChunk(w, env);
    GatherNothing(inbox, env.decode, env.limit, []);
    if rcv.audio.Some? {
      ReceiveCollects(inbox, env.decode, env.limit);
      var n1 := |inbox| - |rcv.rest|;
      LoopWithoutWriteFailure(w, env);
      assert stop.None?;
      assert false !in w1.link.outcomes by {
        assert w1.link.outcomes == w.link.outcomes || w1.link.outcomes == w.link.outcomes[1..];
      }
      assert forall i :: 0 <= i < |w1.link.inbox| ==> w1.link.inbox[i] == inbox[n1 + i];
      LoopDrains(w1, env);
    }
  }

  /** Such a client has all of its audio inserted, in order, the partial
      last chunk included. */
  lemma LoopDeliversAllAudio(w: World, env: Env)
    requires 0.0 < env.limit
    requires false !in w.link.outcomes
    requires forall i :: 0 <= i < |w.link.inbox| ==> w.link.inbox[i] != []
    ensures var f := Loop(w, env).0;
      && w.chunks <= f.chunks
      && Concat(f.chunks[|w.chunks|..]) == DecodeAll(env.decode, w.link.inbox)
  {
    var f := Loop(w, env).0;
    LoopDrains(w, env);
    LoopAudio(w, env);
    var inbox := w.link.inbox;
    assert Follows(env.decode, inbox, [], w.chunks, f.chunks);
    assert inbox[..|inbox| - 0] == inbox;
  }

  /** A client that closes before sending anything gets no line, and the
      adapter is neither fed nor polled. */
  lemma LoopSilentClient(w: World, env: Env)
    requires Recv(w.link.inbox).0 == []
    ensures var (f, reason) := Loop(w, env);
      reason == PeerClosed && f.link.wire == w.link.wire && f.chunks == w.chunks && f.log == w.log
  {
    GatherNothing(w.link.inbox, env.decode, env.limit, []);
  }

  /** A session ends on a broken pipe only if some write was refused. */
  lemma LoopBrokenPipe(w: World, env: Env)
    requires Loop(w, env).1 == BrokenPipe
    ensures false in w.link.outcomes
  {
    if false !in w.link.outcomes {
      LoopWithoutWriteFailure(w, env);
    }
  }

  /** A hypothesis polled twice in a row reaches the client twice: the
      second time its begin is clamped to its own end, so the line differs
      from the first one and passes the dedup. Only a third repeat, which
      gives the same line as the second, is dropped. */
  lemma RepeatedHypothesisSentTwice(w: World)
    requires w.link.lastLine == None && w.lastEnd == None
    ensures var s := Segment(Some(1.0), 2.0, "hi");
      && StitchAll(None, [s, s]).0 == [Message(1000.0, 2000.0, "hi"), Message(2000.0, 2000.0, "hi")]
      && Delivered(w, [s, s]) == [Message(1000.0, 2000.0, "hi"), Message(2000.0, 2000.0, "hi")]
      && Delivered(w, [s, s, s]) == Delivered(w, [s, s])
  {
    var s := Segment(Some(1.0), 2.0, "hi");
    var m1, m2 := Message(1000.0, 2000.0, "hi"), Message(2000.0, 2000.0, "hi");
    assert [s, s, s][1..] == [s, s] && [s, s][1..] == [s];
    assert StitchAll(Some(2000.0), [s]).0 == [m2];
    assert StitchAll(Some(2000.0), [s, s]).0 == [m2, m2];
    assert StitchAll(None, [s, s, s]).0 == [m1, m2, m2];
    assert [m1, m2, m2][1..] == [m2, m2] && [m2, m2][1..] == [m2] && [m1, m2][1..] == [m2];
    assert Dedup(Some(m2), [m2]) == [];
    assert Dedup(Some(m1), [m2, m2]) == [m2];
    assert StitchAll(None, [s, s]).0 == [m1, m2];
    assert Dedup(Some(m1), [m2]) == [m2];
    assert Dedup(None, [m1, m2]) == [m1, m2];
    assert Dedup(None, [m1, m2, m2]) == [m1, m2];
  }
}
