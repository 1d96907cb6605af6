/** The recognition adapter as the session sees it. Its incremental decoding
    is not modelled: it answers each poll by a given function of the audio
    chunks inserted since it was last initialised. */
module Recognition {
  import opened Protocol

  /** The calls the session makes on the adapter, in the order made. */
  datatype Event = Reset | Fed(samples: seq<int>) | Polled(segment: Segment)

  class Recognizer {
    /** The hypothesis reported after a given series of inserted chunks. */
    const respond: seq<seq<int>> -> Segment
    /** The chunks inserted since the last `init`. */
    var chunks: seq<seq<int>>
    /** Every call made on the adapter. */
    var log: seq<Event>

    constructor (respond: seq<seq<int>> -> Segment)
      ensures this.respond == respond && chunks == [] && log == []
    {
      this.respond := respond;
      chunks := [];
      log := [];
    }

    /** `init`: start a fresh session, with no audio from earlier ones. */
    method Init()
      modifies this
      ensures chunks == [] && log == old(log) + [Reset]
    {
      chunks := [];
      log := log + [Reset];
    }

    /** `insert_audio_chunk`: extend the session's audio. */
    method InsertAudioChunk(a: seq<int>)
      modifies this
      ensures chunks == old(chunks) + [a] && log == old(log) + [Fed(a)]
    {
      chunks := chunks + [a];
      log := log + [Fed(a)];
    }

    /** `process_iter`: the current best hypothesis. */
    method ProcessIter() returns (o: Segment)
      modifies this
      ensures o == respond(chunks) && chunks == old(chunks) && log == old(log) + [Polled(o)]
    {
      o := respond(chunks);
      log := log + [Polled(o)];
    }
  }
}
