/** The line framer of one client connection: raw reads from the client and
    outgoing transcript lines with suppression of immediate repeats. */
module Framer {
  import opened Wrappers
  import opened Protocol

  /** Abstract state of a connection: the reads the client will still deliver
      (an empty read is the client's close), the answers the transport will
      give to the next writes (false is a broken pipe; writes beyond the list
      succeed), the lines written so far, and the last line written. */
  datatype Link = Link(inbox: seq<Bytes>, outcomes: seq<bool>, wire: seq<Message>, lastLine: Option<Message>)

  /** One socket read: the next payload, or the empty payload once the client
      has closed. */
  function Recv(inbox: seq<Bytes>): (Bytes, seq<Bytes>) {
    if inbox == [] then ([], []) else (inbox[0], inbox[1..])
  }

  /** Whether the transport takes the next write. */
  predicate Accepts(outcomes: seq<bool>) {
    outcomes == [] || outcomes[0]
  }

  function Rest(outcomes: seq<bool>): seq<bool> {
    if outcomes == [] then [] else outcomes[1..]
  }

  /** What `send` does to a connection. The boolean is false exactly when the
      write raised a broken pipe. */
  function SendLine(c: Link, line: Message): (r: (bool, Link))
    ensures r.1.inbox == c.inbox
    ensures c.lastLine == Some(line) ==> r == (true, c)
    ensures c.lastLine != Some(line) ==> r.0 == Accepts(c.outcomes) && r.1.outcomes == Rest(c.outcomes)
    ensures r.0 ==> r.1.lastLine == Some(line)
    ensures r.0 && c.lastLine != Some(line) ==> r.1.wire == c.wire + [line]
    ensures !r.0 ==> r.1.wire == c.wire && r.1.lastLine == c.lastLine
  {
    if c.lastLine == Some(line) then (true, c)
    else if Accepts(c.outcomes) then
      (true, c.(outcomes := Rest(c.outcomes), wire := c.wire + [line], lastLine := Some(line)))
    else (false, c.(outcomes := Rest(c.outcomes)))
  }

  /** The framer's invariant: the remembered line is the last line written,
      and no line was written twice in a row. */
  ghost predicate Coherent(c: Link) {
    NoAdjacentDup(c.wire) && c.lastLine == LastOf(c.wire)
  }

  lemma SendLineCoherent(c: Link, line: Message)
    requires Coherent(c)
    ensures Coherent(SendLine(c, line).1)
    ensures c.wire <= SendLine(c, line).1.wire
  {
  }

  /** The lines that reach the client when every line of `lines` is sent and
      every write succeeds, starting with `last` remembered. */
  function Dedup<T(==)>(last: Option<T>, lines: seq<T>): seq<T>
    decreases |lines|
  {
    if lines == [] then []
    else if Some(lines[0]) == last then Dedup(last, lines[1..])
    else [lines[0]] + Dedup(Some(lines[0]), lines[1..])
  }

  /** The dedup never produces two equal neighbours, nor starts with the
      remembered line. */
  lemma {:induction false} DedupNoAdjacentDup<T>(last: Option<T>, lines: seq<T>)
    decreases |lines|
    ensures NoAdjacentDup(Dedup(last, lines))
    ensures Dedup(last, lines) != [] && last.Some? ==> Dedup(last, lines)[0] != last.value
  {
    if lines != [] {
      DedupNoAdjacentDup(Some(lines[0]), lines[1..]);
      if Some(lines[0]) == last {
        DedupNoAdjacentDup(last, lines[1..]);
      }
    }
  }

  /** After a non-empty list is sent, the last line that reached the client
      (or, if none did, the line remembered before) is the list's last element. */
  lemma {:induction false} DedupRemembersLast<T>(last: Option<T>, lines: seq<T>)
    decreases |lines|
    ensures lines != [] ==> (if Dedup(last, lines) == [] then last else LastOf(Dedup(last, lines))) == Some(lines[|lines| - 1])
  {
    if lines != [] {
      assert lines[1..] != [] ==> lines[1..][|lines[1..]| - 1] == lines[|lines| - 1];
      if Some(lines[0]) == last {
        DedupRemembersLast(last, lines[1..]);
      } else {
        DedupRemembersLast(Some(lines[0]), lines[1..]);
      }
    }
  }

  /** Nothing is dropped from a list that has no immediate repeats. */
  lemma {:induction false} DedupKeepsDistinct<T>(last: Option<T>, lines: seq<T>)
    requires NoAdjacentDup(lines)
    requires lines != [] && last.Some? ==> lines[0] != last.value
    ensures Dedup(last, lines) == lines
    decreases |lines|
  {
    if lines != [] {
      assert NoAdjacentDup(lines[1..]) by {
        forall i | 0 <= i < |lines[1..]| - 1 ensures lines[1..][i] != lines[1..][i + 1] {
          assert lines[1..][i] == lines[i + 1] && lines[1..][i + 1] == lines[i + 2];
        }
      }
      assert lines[1..] != [] ==> lines[1..][0] == lines[1];
      DedupKeepsDistinct(Some(lines[0]), lines[1..]);
    }
  }

  /** Sending the client's stream a second time through a fresh dedup changes nothing. */
  lemma DedupIdempotent<T>(last: Option<T>, lines: seq<T>)
    ensures Dedup(last, Dedup(last, lines)) == Dedup(last, lines)
  {
    DedupNoAdjacentDup(last, lines);
    DedupKeepsDistinct(last, Dedup(last, lines));
  }

  /** The connection wrapper of the server. */
  class Connection {
    var inbox: seq<Bytes>
    var outcomes: seq<bool>
    var wire: seq<Message>
    var lastLine: Option<Message>

    function Model(): Link
      reads this
    {
      Link(inbox, outcomes, wire, lastLine)
    }

    ghost predicate Valid()
      reads this
    {
      Coherent(Model())
    }

    /** A new connection remembers no line (the source's empty string, which
        no transcript line equals). */
    constructor (inbox: seq<Bytes>, outcomes: seq<bool>)
      ensures Model() == Link(inbox, outcomes, [], None)
      ensures Valid()
    {
      this.inbox := inbox;
      this.outcomes := outcomes;
      wire := [];
      lastLine := None;
    }

    /** Writes `line` unless it repeats the last line written; `ok` is false
        when the write raised a broken pipe. */
    method Send(line: Message) returns (ok: bool)
      modifies this
      ensures (ok, Model()) == SendLine(old(Model()), line)
      ensures old(lastLine) == Some(line) ==> ok && unchanged(this)
      ensures old(Valid()) ==> Valid()
    {
      if Some(line) == lastLine {
        ok := true;
        return;
      }
      ok := SendOneLine(line);
      if ok {
        lastLine := Some(line);
      }
      if old(Valid()) {
        SendLineCoherent(old(Model()), line);
      }
    }

    /** The transport's write of one framed line. */
    method SendOneLine(line: Message) returns (ok: bool)
      modifies this`wire, this`outcomes
      ensures ok == Accepts(old(outcomes)) && outcomes == Rest(old(outcomes))
      ensures wire == if ok then old(wire) + [line] else old(wire)
    {
      ok := Accepts(outcomes);
      if ok {
        wire := wire + [line];
      }
      outcomes := Rest(outcomes);
    }

    /** One read of raw audio bytes; the empty payload means the client closed. */
    method ReceiveRaw() returns (raw: Bytes)
      modifies this`inbox
      ensures (raw, inbox) == Recv(old(inbox))
    {
      if inbox == [] {
        raw := [];
      } else {
        raw := inbox[0];
        inbox := inbox[1..];
      }
    }
  }
}
