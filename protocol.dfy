/** Values exchanged between the parts of one streaming session. */
module Protocol {
  import opened Wrappers

  /** One octet received from the client. */
  newtype Byte = x: int | 0 <= x < 256

  /** The payload of one socket read. */
  type Bytes = seq<Byte>

  /** A hypothesis of the recognizer, times in seconds; an absent begin means
      that no stable text is available yet. */
  datatype Segment = Segment(begin: Option<real>, end: real, text: string)

  /** A transcript line as the server sends it, times in milliseconds. */
  datatype Message = Message(begin: real, end: real, text: string)

  /** No two neighbouring elements are equal. */
  predicate NoAdjacentDup<T(==)>(s: seq<T>) {
    forall i :: 0 <= i < |s| - 1 ==> s[i] != s[i + 1]
  }

  /** Every message starts no earlier than the previous one ends. */
  predicate NonOverlapping(ms: seq<Message>) {
    forall i :: 0 <= i < |ms| - 1 ==> ms[i].end <= ms[i + 1].begin
  }

  /** The last element, if any. */
  function LastOf<T>(s: seq<T>): Option<T> {
    if s == [] then None else Some(s[|s| - 1])
  }
}
