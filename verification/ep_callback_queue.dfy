/**
 * EventPipeProviderCallbackDataQueue (src/native/eventpipe/ep.c): the FIFO
 * in which enabling or disabling a session collects provider callbacks while
 * the configuration lock is held, to be invoked once it is released.
 */
module EpCallbackQueue {
  import opened EpTypes

  class ProviderCallbackDataQueue {
    /** The queued records, front first. */
    var contents: seq<ProviderCallbackData>

    /** ep_provider_callback_data_queue_init: a fresh, empty queue. */
    constructor ()
      ensures contents == []
    {
      contents := [];
    }

    /**
     * ep_provider_callback_data_queue_enqueue: moves `data` to the back of the
     * queue. The move leaves the caller's record zeroed, which is returned as
     * `source`.
     */
    method Enqueue(data: ProviderCallbackData) returns (ok: bool, source: ProviderCallbackData)
      modifies this
      ensures ok
      ensures contents == old(contents) + [data]
      ensures source == ZeroCallbackData
    {
      contents := contents + [data];
      source := ZeroCallbackData;
      ok := true;
    }

    /**
     * ep_provider_callback_data_queue_try_dequeue: removes and returns the
     * front record; reports false and changes nothing when the queue is empty.
     */
    method TryDequeue() returns (ok: bool, data: ProviderCallbackData)
      modifies this
      ensures ok <==> old(contents) != []
      ensures ok ==> data == old(contents)[0] && contents == old(contents)[1..]
      ensures !ok ==> contents == old(contents)
    {
      if contents == [] {
        return false, ZeroCallbackData;
      }
      data := contents[0];
      contents := contents[1..];
      ok := true;
    }
  }
}
