/** The audio accumulator: pulling raw reads off the connection until enough
    decoded audio is available for another recognition pass, or the client
    has closed. */
module Accumulator {
  import opened Wrappers
  import opened Protocol
  import opened Framer

  /** Samples per second of the client's audio. */
  const SamplingRate: int := 16000

  /** The number of samples in a list of decoded reads. */
  function Total(parts: seq<seq<int>>): nat {
    if parts == [] then 0 else Total(parts[..|parts| - 1]) + |parts[|parts| - 1]|
  }

  /** The decoded reads joined in order. */
  function Concat(parts: seq<seq<int>>): (r: seq<int>)
    ensures |r| == Total(parts)
  {
    if parts == [] then [] else Concat(parts[..|parts| - 1]) + parts[|parts| - 1]
  }

  /** The audio carried by a run of reads, in order; a read with no bytes
      (the close) carries none and is never decoded. */
  function DecodeAll(decode: Bytes -> seq<int>, rs: seq<Bytes>): seq<int> {
    if rs == [] then []
    else (if rs[0] == [] then [] else decode(rs[0])) + DecodeAll(decode, rs[1..])
  }

  /** What is left of the stream and what was collected when the loop of
      `receive_audio_chunk` stops, having collected `parts` so far. */
  datatype Gathered = Gathered(rest: seq<Bytes>, parts: seq<seq<int>>)

  function Gather(inbox: seq<Bytes>, decode: Bytes -> seq<int>, limit: real, parts: seq<seq<int>>): (g: Gathered)
    ensures |g.rest| <= |inbox| && parts <= g.parts
    ensures |parts| < |g.parts| ==> |g.rest| < |inbox|
    decreases |inbox|
  {
    if !((Total(parts) as real) < limit) then Gathered(inbox, parts)
    else
      var next := Recv(inbox);
      if next.0 == [] then Gathered(next.1, parts)
      else Gather(next.1, decode, limit, parts + [decode(next.0)])
  }

  /** The result of one `receive_audio_chunk` and the stream left after it. */
  datatype Received = Received(audio: Option<seq<int>>, rest: seq<Bytes>)

  function Receive(inbox: seq<Bytes>, decode: Bytes -> seq<int>, limit: real): (r: Received)
    ensures |r.rest| <= |inbox|
    ensures r.audio.Some? ==> |r.rest| < |inbox|
  {
    var g := Gather(inbox, decode, limit, []);
    if g.parts == [] then Received(None, g.rest) else Received(Some(Concat(g.parts)), g.rest)
  }

  lemma {:induction false} ConcatAppend(a: seq<seq<int>>, b: seq<seq<int>>)
    ensures Concat(a + b) == Concat(a) + Concat(b)
    decreases |b|
  {
    if b != [] {
      assert (a + b)[..|a + b| - 1] == a + b[..|b| - 1];
      ConcatAppend(a, b[..|b| - 1]);
    } else {
      assert a + b == a;
    }
  }

  lemma {:induction false} DecodeAllAppend(decode: Bytes -> seq<int>, a: seq<Bytes>, b: seq<Bytes>)
    ensures DecodeAll(decode, a + b) == DecodeAll(decode, a) + DecodeAll(decode, b)
    decreases |a|
  {
    if a == [] {
      assert a + b == b;
    } else {
      assert (a + b)[1..] == a[1..] + b;
      DecodeAllAppend(decode, a[1..], b);
    }
  }

  /** The number of reads the loop of `receive_audio_chunk` consumes. */
  function Consumed(inbox: seq<Bytes>, decode: Bytes -> seq<int>, limit: real, parts: seq<seq<int>>): nat {
    |inbox| - |Gather(inbox, decode, limit, parts).rest|
  }

  /** The audio of the first `j` reads, split after the first read. */
  lemma DecodePrefixStep(decode: Bytes -> seq<int>, inbox: seq<Bytes>, j: nat)
    requires 1 <= j <= |inbox|
    ensures DecodeAll(decode, inbox[..j])
         == (if inbox[0] == [] then [] else decode(inbox[0])) + DecodeAll(decode, inbox[1..][..j - 1])
  {
    assert inbox[..j][1..] == inbox[1..][..j - 1];
  }

  /** One step of the loop: a payload read below the threshold. */
  lemma GatherStep(inbox: seq<Bytes>, decode: Bytes -> seq<int>, limit: real, parts: seq<seq<int>>)
    requires (Total(parts) as real) < limit && inbox != [] && inbox[0] != []
    ensures Gather(inbox, decode, limit, parts) == Gather(inbox[1..], decode, limit, parts + [decode(inbox[0])])
    ensures Consumed(inbox, decode, limit, parts) == Consumed(inbox[1..], decode, limit, parts + [decode(inbox[0])]) + 1
    ensures Total(parts + [decode(inbox[0])]) == Total(parts) + |decode(inbox[0])|
    ensures Concat(parts + [decode(inbox[0])]) == Concat(parts) + decode(inbox[0])
  {
    var parts' := parts + [decode(inbox[0])];
    assert parts'[..|parts'| - 1] == parts;
  }

  /** The loop consumes a prefix of the stream. */
  lemma {:induction false} GatherConsumesPrefix(inbox: seq<Bytes>, decode: Bytes -> seq<int>, limit: real, parts: seq<seq<int>>)
    ensures Gather(inbox, decode, limit, parts).rest == inbox[Consumed(inbox, decode, limit, parts)..]
    decreases |inbox|
  {
    if (Total(parts) as real) < limit && inbox != [] && inbox[0] != [] {
      GatherStep(inbox, decode, limit, parts);
      GatherConsumesPrefix(inbox[1..], decode, limit, parts + [decode(inbox[0])]);
    }
  }

  /** What the loop collects is the audio of the consumed reads, in order. */
  lemma {:induction false} GatherCollects(inbox: seq<Bytes>, decode: Bytes -> seq<int>, limit: real, parts: seq<seq<int>>)
    ensures Concat(Gather(inbox, decode, limit, parts).parts)
         == Concat(parts) + DecodeAll(decode, inbox[..Consumed(inbox, decode, limit, parts)])
    decreases |inbox|
  {
    var n := Consumed(inbox, decode, limit, parts);
    if !((Total(parts) as real) < limit) || inbox == [] {
      assert inbox[..n] == [];
    } else if inbox[0] == [] {
      DecodePrefixStep(decode, inbox, 1);
    } else {
      GatherStep(inbox, decode, limit, parts);
      GatherCollects(inbox[1..], decode, limit, parts + [decode(inbox[0])]);
      DecodePrefixStep(decode, inbox, n);
    }
  }

  /** Every read is made while the collected total is below the threshold. */
  lemma {:induction false} GatherGated(inbox: seq<Bytes>, decode: Bytes -> seq<int>, limit: real, parts: seq<seq<int>>)
    ensures forall j :: 0 <= j < Consumed(inbox, decode, limit, parts) ==>
      ((Total(parts) + |DecodeAll(decode, inbox[..j])|) as real) < limit
    decreases |inbox|
  {
    var n := Consumed(inbox, decode, limit, parts);
    if (Total(parts) as real) < limit && inbox != [] && inbox[0] != [] {
      var d := decode(inbox[0]);
      GatherStep(inbox, decode, limit, parts);
      GatherGated(inbox[1..], decode, limit, parts + [d]);
      forall j | 0 <= j < n
        ensures ((Total(parts) + |DecodeAll(decode, inbox[..j])|) as real) < limit
      {
        if j == 0 {
          assert inbox[..0] == [];
        } else {
          DecodePrefixStep(decode, inbox, j);
        }
      }
    } else if (Total(parts) as real) < limit {
      assert inbox[..0] == [];
    }
  }

  /** Only the last consumed read can be the close, and the loop stops at the
      threshold, at the end of the stream or at the close. */
  lemma {:induction false} GatherStops(inbox: seq<Bytes>, decode: Bytes -> seq<int>, limit: real, parts: seq<seq<int>>)
    ensures var n := Consumed(inbox, decode, limit, parts);
      && (forall j :: 0 <= j < n - 1 ==> inbox[j] != [])
      && (limit <= ((Total(parts) + |DecodeAll(decode, inbox[..n])|) as real) || n == |inbox| || inbox[n - 1] == [])
    decreases |inbox|
  {
    var n := Consumed(inbox, decode, limit, parts);
    if !((Total(parts) as real) < limit) || inbox == [] {
      assert inbox[..n] == [];
    } else if inbox[0] != [] {
      var d := decode(inbox[0]);
      GatherStep(inbox, decode, limit, parts);
      GatherStops(inbox[1..], decode, limit, parts + [d]);
      DecodePrefixStep(decode, inbox, n);
      forall j | 0 <= j < n - 1
        ensures inbox[j] != []
      {
        if j > 0 {
          assert inbox[j] == inbox[1..][j - 1];
        }
      }
      assert n - 1 > 0 ==> inbox[1..][n - 2] == inbox[n - 1];
    }
  }

  /** The loop collects nothing exactly when it does not start or its first
      read is the close. */
  lemma GatherNothing(inbox: seq<Bytes>, decode: Bytes -> seq<int>, limit: real, parts: seq<seq<int>>)
    ensures |Gather(inbox, decode, limit, parts).parts| == |parts|
        <==> (!((Total(parts) as real) < limit) || Recv(inbox).0 == [])
  {
  }

  /** One `receive_audio_chunk` consumes a prefix of the stream and returns
      the audio of those reads, if there is any. */
  lemma ReceiveCollects(inbox: seq<Bytes>, decode: Bytes -> seq<int>, limit: real)
    ensures var r := Receive(inbox, decode, limit);
      var n := |inbox| - |r.rest|;
      && r.rest == inbox[n..]
      && (r.audio.Some? ==> r.audio.value == DecodeAll(decode, inbox[..n]))
      && (r.audio.None? ==> DecodeAll(decode, inbox[..n]) == [])
  {
    GatherConsumesPrefix(inbox, decode, limit, []);
    GatherCollects(inbox, decode, limit, []);
  }

  /** One `receive_audio_chunk`: with `n` reads consumed, the rest of the
      stream is what follows them; the result is absent exactly when the
      threshold is not positive or the first read is the close, and otherwise
      it is the audio of the consumed reads in order; every read was made
      while the collected total was below the threshold; and the call stops
      only at the threshold, at the end of the stream or at the close. */
  lemma ReceiveSpec(inbox: seq<Bytes>, decode: Bytes -> seq<int>, limit: real)
    ensures var r := Receive(inbox, decode, limit);
      var n := |inbox| - |r.rest|;
      && r.rest == inbox[n..]
      && (r.audio.None? <==> (!(0.0 < limit) || Recv(inbox).0 == []))
      && (r.audio.Some? ==> r.audio.value == DecodeAll(decode, inbox[..n]))
      && (r.audio.None? ==> DecodeAll(decode, inbox[..n]) == [] && n <= 1)
      && (forall j :: 0 <= j < n ==> (|DecodeAll(decode, inbox[..j])| as real) < limit)
      && (forall j :: 0 <= j < n - 1 ==> inbox[j] != [])
      && (limit <= (|DecodeAll(decode, inbox[..n])| as real) || n == |inbox| || inbox[n - 1] == [])
  {
    GatherConsumesPrefix(inbox, decode, limit, []);
    GatherCollects(inbox, decode, limit, []);
    GatherGated(inbox, decode, limit, []);
    GatherStops(inbox, decode, limit, []);
    GatherNothing(inbox, decode, limit, []);
  }
}
