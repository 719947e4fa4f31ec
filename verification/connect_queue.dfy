/**
 The thread-safe queue of src/change_lib/net/connect_queue.hpp, seen from one thread.

 Each operation runs under `m_queue_mutex`, so to its caller it is one step on the contents.  The
 interleaving of the locks themselves is the subject of module `QueueConcurrency`.
 */
module ConnectQueues {

  class ConnectQueue<T> {
    var queue: seq<T>

    constructor ()
      ensures queue == []
    {
      queue := [];
    }

    method PushBack(item: T)
      modifies this
      ensures queue == old(queue) + [item]
    {
      queue := queue + [item];
    }

    method PushFront(item: T)
      modifies this
      ensures queue == [item] + old(queue)
    {
      queue := [item] + queue;
    }

    method PopFront() returns (item: T)
      requires queue != []
      modifies this
      ensures old(queue) == [item] + queue
    {
      item := queue[0];
      queue := queue[1..];
    }

    method PopBack() returns (item: T)
      requires queue != []
      modifies this
      ensures old(queue) == queue + [item]
    {
      item := queue[|queue| - 1];
      queue := queue[..|queue| - 1];
    }

    method Empty() returns (empty: bool)
      ensures empty <==> queue == []
    {
      empty := |queue| == 0;
    }

    method Clear()
      modifies this
      ensures queue == []
    {
      queue := [];
    }
  }
}
