/** The server's per-connection processor, which changes its fields, its
    connection and the recognizer in place, each method proved against the
    specification of the session. */
module Server {
  import opened Wrappers
  import opened Protocol
  import opened Framer
  import opened Accumulator
  import opened Stitcher
  import opened Recognition
  import opened Session

  /** Serves one client connection; the next client gets a new instance. */
  class ServerProcessor {
    const connection: Connection
    const asr: Recognizer
    /** The least audio, in seconds, worth another recognition pass. */
    const minChunk: real
    /** The decoding of a raw read as 16-bit little-endian mono PCM. */
    const decode: Bytes -> seq<int>
    /** The end of the last line formatted, in milliseconds; unset at first. */
    var lastEnd: Option<real>

    constructor (c: Connection, asr: Recognizer, minChunk: real, decode: Bytes -> seq<int>)
      ensures connection == c && this.asr == asr && this.minChunk == minChunk && this.decode == decode
      ensures lastEnd == None
    {
      connection := c;
      this.asr := asr;
      this.minChunk := minChunk;
      this.decode := decode;
      lastEnd := None;
    }

    /** The sample count that ends a wait for audio. */
    function Limit(): real {
      minChunk * (SamplingRate as real)
    }

    function Settings(): Env {
      Session.Env(decode, asr.respond, Limit())
    }

    /** The session state held by this processor, its connection and its
        recognizer. */
    function Snapshot(): World
      reads this, connection, asr
    {
      World(connection.Model(), lastEnd, asr.chunks, asr.log)
    }

    /** Reads and decodes until the collected audio reaches the threshold or
        the client closes; absent if nothing was collected. */
    method ReceiveAudioChunk() returns (a: Option<seq<int>>)
      modifies connection
      ensures Received(a, connection.inbox) == Receive(old(connection.inbox), decode, Limit())
      ensures connection.Model() == old(connection.Model()).(inbox := connection.inbox)
    {
      ghost var g := Gather(connection.inbox, decode, Limit(), []);
      var out: seq<seq<int>> := [];
      while (Total(out) as real) < Limit()
        invariant Gather(connection.inbox, decode, Limit(), out) == g
        invariant connection.Model() == old(connection.Model()).(inbox := connection.inbox)
        decreases |connection.inbox|
      {
        ghost var before := connection.inbox;
        var raw := connection.ReceiveRaw();
        if raw == [] {
          assert g == Gathered(connection.inbox, out);
          break;
        }
        out := out + [decode(raw)];
      }
      assert g == Gathered(connection.inbox, out);
      if out == [] {
        a := None;
      } else {
        a := Some(Concat(out));
      }
    }

    /** Clamps the begin of hypothesis `o` to the end of the previous line and
        advances the watermark; absent, with nothing changed, if `o` has no
        begin. */
    method FormatOutputTranscript(o: Segment) returns (msg: Option<Message>)
      modifies this
      ensures (msg, lastEnd) == Stitch(old(lastEnd), o)
    {
      if o.begin.Some? {
        var beg, end := o.begin.value * 1000.0, o.end * 1000.0;
        if lastEnd.Some? && lastEnd.value > beg {
          beg := lastEnd.value;
        }
        lastEnd := Some(end);
        msg := Some(Message(beg, end, o.text));
      } else {
        msg := None;
      }
    }

    /** Formats `o` and sends the line, if there is one; `ok` is false when
        the send raised a broken pipe. */
    method SendResult(o: Segment) returns (ok: bool)
      modifies this, connection
      ensures (ok, Snapshot()) == Report(old(Snapshot()), o)
      ensures old(connection.Valid()) ==> connection.Valid()
    {
      var msg := FormatOutputTranscript(o);
      if msg.Some? {
        ok := connection.Send(msg.value);
      } else {
        ok := true;
      }
    }

    /** Handles one client connection: `init`, then receive, insert, poll
        and send until the client closes or a send hits a broken pipe. */
    method Process() returns (reason: EndReason)
      requires connection.Valid()
      modifies this, connection, asr
      ensures (Snapshot(), reason) == Loop(old(Snapshot()).(chunks := [], log := old(asr.log) + [Reset]), Settings())
      ensures connection.Valid()
    {
      asr.Init();
      ghost var start := Snapshot();
      assert start == old(Snapshot()).(chunks := [], log := old(asr.log) + [Reset]);
      while true
        invariant Loop(Snapshot(), Settings()) == Loop(start, Settings())
        invariant connection.Valid()
        decreases |connection.inbox|
      {
        ghost var before := Snapshot();
        var a := ReceiveAudioChunk();
        if a.None? {
          StepPeerClosed(before, Settings(), connection.inbox);
          reason := PeerClosed;
          return;
        }
        ghost var rest := connection.inbox;
        asr.InsertAudioChunk(a.value);
        var o := asr.ProcessIter();
        ghost var polled := Snapshot();
        assert polled == before.(link := before.link.(inbox := rest),
                                 chunks := before.chunks + [a.value],
                                 log := before.log + [Fed(a.value), Polled(o)]);
        var ok := SendResult(o);
        StepDelivered(before, Settings(), rest, a.value, o, ok, Snapshot());
        if !ok {
          reason := BrokenPipe;
          return;
        }
      }
    }
  }

  /** One pass of the accept loop: a fresh connection and processor serve the
      client to the end. The client never gets two equal lines in a row or
      two overlapping lines; the recognizer is initialised once, then fed
      each received chunk once before each poll, and what it is fed is the
      decoded audio of a prefix of the client's stream; the session ends on
      a broken pipe only if a write was refused; the client gets a prefix of
      the deduplicated stitching of every hypothesis polled, and all of it
      when no write is refused. */
  method ServeConnection(inbox: seq<Bytes>, outcomes: seq<bool>, asr: Recognizer, minChunk: real, decode: Bytes -> seq<int>)
    returns (wire: seq<Message>, reason: EndReason)
    modifies asr
    ensures NoAdjacentDup(wire) && NonOverlapping(wire)
    ensures asr.log == old(asr.log) + [Reset] + Trace(asr.respond, [], asr.chunks)
    ensures exists n :: 0 <= n <= |inbox| && Concat(asr.chunks) == DecodeAll(decode, inbox[..n])
    ensures reason == BrokenPipe ==> false in outcomes
    ensures wire <= Dedup(None, StitchAll(None, Answers(asr.respond, [], asr.chunks)).0)
    ensures false !in outcomes ==>
      reason == PeerClosed && wire == Dedup(None, StitchAll(None, Answers(asr.respond, [], asr.chunks)).0)
  {
    var c := new Connection(inbox, outcomes);
    var proc := new ServerProcessor(c, asr, minChunk, decode);
    ghost var log0 := asr.log;
    reason := proc.Process();
    wire := c.wire;
    ghost var w := World(Link(inbox, outcomes, [], None), None, [], log0 + [Reset]);
    ghost var env := proc.Settings();
    assert (c.Model(), proc.lastEnd, asr.chunks, asr.log) == (Loop(w, env).0.link, Loop(w, env).0.lastEnd, Loop(w, env).0.chunks, Loop(w, env).0.log);
    assert reason == Loop(w, env).1;
    assert asr.chunks[|w.chunks|..] == asr.chunks;
    assert NoAdjacentDup(wire) && NonOverlapping(wire) by {
      FreshConsistent(inbox, outcomes, log0 + [Reset]);
      LoopWire(w, env);
    }
    assert asr.log == log0 + [Reset] + Trace(asr.respond, [], asr.chunks) by {
      LoopLog(w, env);
    }
    assert exists n :: 0 <= n <= |inbox| && Concat(asr.chunks) == DecodeAll(decode, inbox[..n]) by {
      LoopAudio(w, env);
    }
    assert wire <= Dedup(None, StitchAll(None, Answers(asr.respond, [], asr.chunks)).0) by {
      LoopWirePrefix(w, env);
    }
    if reason == BrokenPipe {
      LoopBrokenPipe(w, env);
    }
    if false !in outcomes {
      LoopWithoutWriteFailure(w, env);
    }
  }
}
