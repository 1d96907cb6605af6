# Per-connection session of the whisper streaming server

This project models the session logic of `whisper_online_server.py`. That is the part of the real-time transcription server that serves one client connection. The client streams raw 16-bit PCM audio at 16000 Hz. The server collects the audio into chunks of at least `min_chunk` seconds, or less when the client closes first, and feeds them to an incremental recogniser. It turns each hypothesis `(begin, end, text)` that has a begin time into a transcript line whose interval does not overlap the previous line. It sends the line unless it repeats the last line sent. The session ends when the client closes or a send hits a broken pipe.

Modules:

- `Protocol`: bytes, the recogniser's `Segment` (seconds, optional begin) and the outgoing `Message` (milliseconds).
- `Framer`: the `Connection` class (`last_line`, reads, writes) and the pure `SendLine`/`Dedup` specification.
- `Accumulator`: the loop of `receive_audio_chunk` as the function `Gather`/`Receive`, with its properties.
- `Stitcher`: `format_output_transcript` as `Stitch`/`StitchAll`, with non-overlap.
- `Recognition`: the recogniser adapter (`init`, `insert_audio_chunk`, `process_iter`) as a class that logs its calls.
- `Session`: one pass of the loop of `process` (`Step`), the whole loop (`Loop`), and the session-wide guarantees.
- `Server`: the `ServerProcessor` class, whose methods change its fields, the connection and the recogniser in place. Each method is proved equal to the matching pure function (`Accumulator.Receive`, `Stitcher.Stitch`, `Session.Report`, `Session.Loop`). `ServeConnection` is one pass of the accept loop.

The pure functions that the session-wide lemmas are stated in: `Framer.Recv` is one `conn.recv` on the modelled stream (line 116); `Framer.Dedup` is the lines a series of `send` calls delivers when every write succeeds (lines 104-109); `Stitcher.StitchAll` is a series of `format_output_transcript` calls (lines 157-172).

The environment is given as data:

- The client's stream is a sequence of reads. A read with no bytes, or the end of the sequence, is the close. The model does not force the reads after a close to be empty (see "Left out").
- Socket writes answer from a sequence of outcomes. `false` is a broken pipe. Writes beyond the sequence succeed.
- The PCM decoding is a function parameter from bytes to samples.
- The recogniser answers each poll by a function of the chunks inserted since `init`.

Timestamps are reals: seconds from the recogniser, milliseconds in the output.

Behaviour that follows from the code and is kept in the model:

- If `min_chunk * 16000` is not positive, `receive_audio_chunk` never reads. It returns `None`, so the session ends at once.
- A read with bytes that decode to no samples still counts as collected. The chunk returned can then be empty rather than `None`. The code tests whether the list of reads is empty, not the audio.
- Only the begin is clamped. A hypothesis that ends before the previous line's end gives a line whose end precedes its begin (`Stitcher.StitchKeepsEarlyEnd`).
- A hypothesis polled twice in a row reaches the client twice. The second time, its begin is clamped to its own end, so the line differs from the first and passes the dedup; only a third repeat is dropped (`Session.RepeatedHypothesisSentTwice`).
- The begins of successive lines can go backwards. A hypothesis that ends before the watermark sets the watermark back, so the next line can begin before the previous one did. Lines still do not overlap (`Stitcher.StitchBeginsCanFall`).
- Line 187 polls the global `online` rather than `self.online_asr_proc`. The server passes that same object to the processor (line 210), so the model uses one recogniser for both calls. That recogniser is shared by all connections and reset by `init`. It is not a fresh adapter per session.

## Model

| member | source | states |
|---|---|---|
| `Framer.SendLine` | whisper_online_server.py:104-109 | a line equal to the remembered one writes nothing and changes nothing; any other line is written and remembered when the write succeeds; a broken pipe writes nothing and keeps the old memory |
| `Framer.SendLineCoherent` | whisper_online_server.py:104-109 | sending keeps the framer invariant: the remembered line is the last line written, and the wire never has two equal lines in a row; the wire only grows |
| `Framer.DedupNoAdjacentDup` | whisper_online_server.py:104-109 | the lines a series of sends puts on the wire never repeat in a row, and never start with the line remembered before |
| `Framer.DedupRemembersLast` | whisper_online_server.py:106-109 | after a series of sends, the line last written (or the line remembered before, if none was written) is the last line sent |
| `Framer.DedupKeepsDistinct` | whisper_online_server.py:104-109 | a series with no immediate repeats (and not starting with the remembered line) is written in full |
| `Framer.DedupIdempotent` | whisper_online_server.py:104-109 | passing the written lines through the dedup again removes nothing |
| `Framer.Connection.constructor` | whisper_online_server.py:98-102 | a new connection has written nothing and remembers no line |
| `Framer.Connection.Send` | whisper_online_server.py:104-109 | `send` changes the connection as `SendLine` says; an equal line leaves the object unchanged; the framer invariant is kept |
| `Framer.Connection.SendOneLine` | whisper_online_server.py:108 | the transport write appends the line to the wire unless it raises a broken pipe |
| `Framer.Connection.ReceiveRaw` | whisper_online_server.py:115-117 | one read returns the next payload of the stream, or no bytes when the stream is exhausted |
| `Accumulator.Concat` | whisper_online_server.py:139-148 | the joined audio has as many samples as the sum of the lengths of the reads |
| `Accumulator.Gather` | whisper_online_server.py:138-145 | the loop never lengthens the stream, keeps the reads already collected as a prefix of what it returns, and consumes at least one read whenever it collects more |
| `Accumulator.Receive` | whisper_online_server.py:134-148 | a call consumes reads, and it consumes at least one whenever it returns audio |
| `Accumulator.GatherConsumesPrefix` | whisper_online_server.py:139-142 | the reads consumed are a prefix of the stream |
| `Accumulator.GatherCollects` | whisper_online_server.py:139-148 | what is collected is the decoded audio of the consumed reads, in order, after what was already there |
| `Accumulator.GatherGated` | whisper_online_server.py:139-142 | every read is made while the collected total is below `min_chunk * SAMPLING_RATE` |
| `Accumulator.GatherStops` | whisper_online_server.py:139-142 | only the last consumed read can be the close; the loop stops once the threshold is met, the stream is exhausted or the client closed |
| `Accumulator.GatherNothing` | whisper_online_server.py:139-147 | nothing is collected exactly when the loop does not start or its first read is the close |
| `Accumulator.ReceiveCollects` | whisper_online_server.py:138-148 | one call consumes a prefix; it returns the decoded audio of those reads, and when it returns `None` they carry no audio |
| `Accumulator.ReceiveSpec` | whisper_online_server.py:134-148 | `None` exactly when the threshold is not positive or the first read is the close (at most one read consumed); otherwise the in-order audio of all consumed reads; threshold gating before each read; stop only at threshold or close |
| `Stitcher.Stitch` | whisper_online_server.py:162-172 | without a begin: no line and the watermark unchanged; with one: end is `end*1000`, text kept, begin is `begin*1000` or the watermark, whichever is larger (the watermark only when set), and the watermark becomes the new end |
| `Stitcher.StitchAllNonOverlapping` | whisper_online_server.py:157-167 | across any series of hypotheses every emitted begin is at least the previous emitted end, the first at least the starting watermark; the final watermark is the last emitted end |
| `Stitcher.StitchAllFollowsPresent` | whisper_online_server.py:162-172 | exactly the hypotheses with a begin are emitted, in order, each with its own end and text and a begin no earlier than its own |
| `Stitcher.StitchClampsRevisedBegin` | whisper_online_server.py:163-167 | (0.00, 1.72, hello) then (1.70, 3.00, hello world) give lines 0-1720 and 1720-3000 |
| `Stitcher.StitchBeginsCanFall` | whisper_online_server.py:163-167 | (2.0, 2.5), (1.0, 1.5), (1.0, 3.0) give lines beginning at 2000, 2500 and 1500: begins are not monotone, though lines do not overlap |
| `Stitcher.StitchKeepsEarlyEnd` | whisper_online_server.py:163-167 | a hypothesis ending before the watermark gives a line whose end precedes its clamped begin |
| `Recognition.Recognizer.constructor` | whisper_online_server.py:72 | the adapter created at start-up has no audio and no calls logged; its answers are the given `respond` function |
| `Recognition.Recognizer.Init` | whisper_online_server.py:181 | `init` drops the session's audio and is logged |
| `Recognition.Recognizer.InsertAudioChunk` | whisper_online_server.py:186 | a chunk is appended to the session's audio and logged |
| `Recognition.Recognizer.ProcessIter` | whisper_online_server.py:187 | a poll returns the answer for the audio inserted so far and is logged |
| `Session.Report` | whisper_online_server.py:174-177 | a hypothesis without a begin sends nothing and changes nothing; otherwise the watermark advances and the stitched line goes through `send` |
| `Session.Step` | whisper_online_server.py:183-192 | a pass never lengthens the stream, and a pass that does not stop consumes at least one read |
| `Session.Loop` | whisper_online_server.py:182-192 | the loop never lengthens the stream |
| `Session.FreshConsistent` | whisper_online_server.py:100-132 | a fresh connection and processor satisfy the session invariant |
| `Session.ReportConsistent` | whisper_online_server.py:157-177 | `send_result` only appends to the wire, and never appends an immediate repeat or an overlapping line; it keeps the invariant unless the pipe broke |
| `Session.LoopWire` | whisper_online_server.py:179-192 | over a whole session the wire only grows and never has two equal lines in a row or two overlapping lines |
| `Session.LoopLog` | whisper_online_server.py:181-192 | the recogniser's audio only grows; its calls after `init` are exactly an insert followed by a poll for each received chunk |
| `Session.TraceAlternates` | whisper_online_server.py:181-187 | in that trace `init` does not recur, and chunk k is inserted once, right before the poll that sees chunks 0..k |
| `Session.LoopAudio` | whisper_online_server.py:183-186 | a session consumes a prefix of the stream, and the chunks it inserts, joined, are exactly the decoded audio of those reads |
| `Session.ReportDelivers` | whisper_online_server.py:174-177 | an accepted write never hits a broken pipe; a `send_result` without a broken pipe moves the first line of the expected delivery onto the wire, and one with a broken pipe leaves the wire as it was |
| `Session.LoopWirePrefix` | whisper_online_server.py:179-192 | whatever the writes' outcomes, the wire only grows, and the client gets a prefix of the deduplicated stitching of every hypothesis polled |
| `Session.LoopWithoutWriteFailure` | whisper_online_server.py:182-192 | with no refused write the session ends only by the client's close, and the wire gains the deduplicated stitching of every hypothesis polled |
| `Session.LoopDrains` | whisper_online_server.py:139-148 | with a positive threshold, non-empty payloads and no refused write, the whole stream is consumed |
| `Session.LoopDeliversAllAudio` | whisper_online_server.py:139-148 | under the same conditions all of the stream's audio is inserted in order, the partial last chunk included |
| `Session.LoopSilentClient` | whisper_online_server.py:183-185 | a client that closes before sending anything gets no line, and the recogniser is neither fed nor polled |
| `Session.RepeatedHypothesisSentTwice` | whisper_online_server.py:157-177 | a hypothesis (1.0, 2.0, hi) polled twice gives two lines, 1000-2000 and 2000-2000, both delivered; a third poll adds nothing |
| `Session.LoopBrokenPipe` | whisper_online_server.py:188-192 | a session ends on a broken pipe only if some write was refused |
| `Server.ServerProcessor.constructor` | whisper_online_server.py:127-132 | a new processor holds its connection, recogniser and `min_chunk`, with the watermark unset |
| `Server.ServerProcessor.ReceiveAudioChunk` | whisper_online_server.py:134-148 | the read loop leaves the connection and returns the chunk as `Receive` says; it touches nothing but the read position |
| `Server.ServerProcessor.FormatOutputTranscript` | whisper_online_server.py:150-172 | the returned line and the new watermark are those of `Stitch` |
| `Server.ServerProcessor.SendResult` | whisper_online_server.py:174-177 | the processor's and the connection's new state and the broken-pipe flag are those of `Report`; the connection's framer invariant is kept |
| `Server.ServerProcessor.Process` | whisper_online_server.py:179-192 | `init`, then the loop: the final state of connection, watermark and recogniser and the reason for ending are those of `Loop` from the state after `init`; the connection's framer invariant (remembered line is the last written, no immediate repeats) holds throughout |
| `Server.ServeConnection` | whisper_online_server.py:209-211 | a served client never gets repeated or overlapping lines; the recogniser log is `init` then insert/poll pairs; its audio is the decoded audio of a prefix of the stream; a broken pipe needs a refused write; the client gets a prefix of the deduplicated stitching of every hypothesis polled, and all of it with no refused write |

## Left out

- Argument parsing, logging set-up, model loading, VAD and tokenizer set-up and warm-up (whisper_online_server.py:1-87). These are configuration and calls into the recognition libraries.
- Socket creation, bind, listen, accept and close, and the endless accept loop (whisper_online_server.py:199-214). `ServeConnection` covers one pass of its body without `conn.close()`.
- A payload after an empty read. On a real socket the close is final and every later read returns no bytes. In the model a later element of the stream is still there, and the next `receive_audio_chunk` would read it. No proved property depends on streams of that shape.
- `setblocking` and the 65536-byte read size (whisper_online_server.py:96, 102). A read returns one payload of the modelled stream, and reads never wait.
- The `soundfile`/`librosa` PCM decoding and its floating-point normalisation (whisper_online_server.py:143-144). This is a foreign library; it becomes the `decode` parameter.
- The `line_packet` framing and `receive_lines` (whisper_online_server.py:108, 111-113). That module is not part of this model; a written line is one element of the wire.
- The internals of `OnlineASRProcessor` (`init`, `insert_audio_chunk`, `process_iter`). That module is not part of this model; the recogniser answers by the `respond` function.
- The `%1.0f` rendering of the line and the `print`/logging side effects (whisper_online_server.py:168-169, 191). A line is the tuple (begin, end, text).
- `Framer.Connection.Send`: compares tuples, not rendered strings, because rendering is not modelled. Two tuples that round to the same text are both sent in the model, while the source sends the second one no more.
- Python floats are modelled as exact reals, so rounding error in `o[0]*1000` and in the threshold is not captured.
- Exceptions other than the broken pipe (malformed audio, recogniser failures) are not modelled; in the source they end the session abnormally.
- The commented-out `finish()` flush (whisper_online_server.py:194-195) is not executed, so it is not behaviour.
