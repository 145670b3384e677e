/** Setting up and tearing down the HTTP adapters (stt_adapter.c, llm_adapter.c). What a request
    returns is the world's to say; what matters here is who owns a curl handle when. */
module Adapters {
  import opened Base
  import opened Resources

  class Curl {
    constructor () {
    }
  }

  class SttAdapter {
    var initialized: bool
    var curl: Curl?

    ghost predicate Valid()
      reads this
    {
      initialized <==> curl != null
    }

    constructor ()
      ensures Valid() && curl == null
    {
      initialized, curl := false, null;
    }

    /** Past its first check it forgets whatever handle it held, without giving it back. */
    method Init(heap: Heap, apiBaseUrl: string, granted: bool) returns (status: Status)
      requires Valid() && heap.Valid()
      modifies this, heap
      ensures Valid() && heap.Valid()
      ensures status == if apiBaseUrl == "" then ConfigError else if granted then Ok else IoError
      ensures status == Ok ==> curl != null && fresh(curl) && heap.live == old(heap.live) + {curl}
      ensures status != Ok ==>
                curl == (if apiBaseUrl == "" then old(curl) else null) && heap.live == old(heap.live)
    {
      if apiBaseUrl == "" {
        return ConfigError;
      }
      initialized, curl := false, null;
      if !granted {
        return IoError;
      }
      var handle := new Curl();
      heap.Acquire(handle);
      curl, initialized := handle, true;
      return Ok;
    }

    method Shutdown(heap: Heap)
      requires Valid() && heap.Valid() && (curl != null ==> curl in heap.live)
      modifies this, heap
      ensures Valid() && heap.Valid() && curl == null
      ensures var given := if old(curl) != null then {old(curl)} else {};
              heap.live == old(heap.live) - given && heap.released == old(heap.released) + given
    {
      if curl != null {
        heap.Release(curl);
      }
      initialized, curl := false, null;
    }
  }

  /** Reading the system prompt file. */
  datatype Prompt = Unreadable | Empty | Loaded

  class LlmAdapter {
    var initialized: bool
    var curl: Curl?

    ghost predicate Valid()
      reads this
    {
      initialized <==> curl != null
    }

    constructor ()
      ensures Valid() && curl == null
    {
      initialized, curl := false, null;
    }

    /** Forgets whatever handle it held before anything else, without giving it back. */
    method Init(heap: Heap, prompt: Prompt, granted: bool) returns (status: Status)
      requires Valid() && heap.Valid()
      modifies this, heap
      ensures Valid() && heap.Valid()
      ensures status == match prompt
                        case Unreadable => IoError
                        case Empty => ConfigError
                        case Loaded => if granted then Ok else IoError
      ensures status == Ok ==> curl != null && fresh(curl) && heap.live == old(heap.live) + {curl}
      ensures status != Ok ==> curl == null && heap.live == old(heap.live)
    {
      initialized, curl := false, null;
      match prompt
      case Unreadable =>
        return IoError;
      case Empty =>
        return ConfigError;
      case Loaded =>
        if !granted {
          return IoError;
        }
        var handle := new Curl();
        heap.Acquire(handle);
        curl, initialized := handle, true;
        return Ok;
    }

    method Shutdown(heap: Heap)
      requires Valid() && heap.Valid() && (curl != null ==> curl in heap.live)
      modifies this, heap
      ensures Valid() && heap.Valid() && curl == null
      ensures var given := if old(curl) != null then {old(curl)} else {};
              heap.live == old(heap.live) - given && heap.released == old(heap.released) + given
    {
      if curl != null {
        heap.Release(curl);
      }
      initialized, curl := false, null;
    }
  }
}
