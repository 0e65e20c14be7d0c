/** `sysapi::function_queue`: a deque of functions and an eventfd that announces them.

    Each push adds one to the eventfd counter. When the descriptor becomes readable, the read
    resets the counter to zero and one function is popped: several pushes may be answered by
    a single wake-up, and then functions stay behind in the deque. */
module FunctionQueues {

  class FunctionQueue<F> {
    var queue: seq<F>
    var counter: nat

    /** A readable descriptor always finds a function. */
    ghost predicate Valid()
      reads this
    {
      counter <= |queue|
    }

    constructor ()
      ensures Valid() && queue == [] && counter == 0
    {
      queue, counter := [], 0;
    }

    method Push(f: F)
      requires Valid()
      modifies this
      ensures Valid()
      ensures queue == old(queue) + [f] && counter == old(counter) + 1
    {
      queue := queue + [f];
      counter := counter + 1;
    }

    method OnReadable() returns (f: F)
      requires Valid() && counter > 0
      modifies this
      ensures Valid()
      ensures old(queue) == [f] + queue && counter == 0
    {
      counter := 0;
      f := queue[0];
      queue := queue[1..];
    }
  }
}
