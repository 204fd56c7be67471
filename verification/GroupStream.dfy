/** The history of an FEC encoder: payloads cut into groups of a fixed size, in arrival order. */
module GroupStream {
  import opened Bytes

  datatype Stream = Stream(done: seq<seq<bytes>>, current: seq<bytes>) {

    /** The history after one more payload. */
    function Feed(n: nat, payload: bytes): Stream {
      if |current| + 1 == n then Stream(done + [current + [payload]], [])
      else Stream(done, current + [payload])
    }

    /** The payloads numbered so far inside group gid. */
    function Group(gid: nat): seq<bytes> {
      if gid < |done| then done[gid] else if gid == |done| then current else []
    }

    ghost predicate Valid(n: nat) {
      && |current| < n
      && forall g :: g in done ==> |g| == n
    }

    /** Nothing numbered in this history is numbered differently in the later one. */
    ghost predicate ExtendedBy(later: Stream) {
      && done <= later.done
      && current <= later.Group(|done|)
    }
  }

  const EMPTY := Stream([], [])

  /** A recovery (index, bytes) of group gid is the packet it names, zero-padded to the longest of its group. */
  ghost predicate PaddedOriginal(st: Stream, gid: nat, r: (nat, bytes)) {
    && gid < |st.done| && r.0 < |st.done[gid]|
    && r.1 == PadTo(st.done[gid][r.0], MaxLen(st.done[gid]))
  }

  /** The payload is some input, padded with zeros. */
  ghost predicate PaddedInput(inputs: seq<bytes>, payload: bytes) {
    exists i, n: nat :: 0 <= i < |inputs| && payload == PadTo(inputs[i], n)
  }

  lemma FeedExtends(st: Stream, n: nat, p: bytes)
    requires st.Valid(n)
    ensures st.Feed(n, p).Valid(n)
    ensures st.ExtendedBy(st.Feed(n, p))
    ensures st.Feed(n, p).Group(|st.done|) == st.current + [p]
  {
  }
}
