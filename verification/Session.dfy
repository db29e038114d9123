/** What the analyzer and its readers share about one analysis: the event log and the status word. */
module Sessions {
  datatype Status = Running | Done | Error

  class Session<E> {
    var events: seq<E>
    var status: Status

    constructor ()
      ensures events == [] && status == Running
    {
      events, status := [], Running;
    }

    /** Under the exclusive lock: the batch goes to the end of the log. */
    method Flush(batch: seq<E>)
      modifies `events
      ensures events == old(events) + batch
    {
      for k := 0 to |batch|
        invariant events == old(events) + batch[..k]
      {
        assert batch[..k + 1] == batch[..k] + [batch[k]];
        events := events + [batch[k]];
      }
      assert batch[..|batch|] == batch;
    }
  }
}
