/** The token cursor the parser consumes, and the bulk pop used for option parameters. */
module RewindableQueues {

  /**
   * A cursor over an array of items, starting at a given offset. Each item keeps its
   * original index in the array, which is what diagnostics report.
   */
  class RewindableQueue<T> {
    const items: array<T>
    const start: nat
    var cursor: nat

    ghost predicate Valid()
      reads this
    {
      start <= cursor <= items.Length
    }

    constructor (items: array<T>, offset: nat)
      requires offset <= items.Length
      ensures Valid()
      ensures this.items == items && start == offset && cursor == offset
    {
      this.items := items;
      start := offset;
      cursor := offset;
    }

    /** No item is left to pop. */
    predicate Empty(): (r: bool)
      reads this
      requires Valid()
      ensures r <==> Remaining() == 0
    {
      cursor == items.Length
    }

    /** The number of items not yet popped: with those popped since the start, all items from the offset on. */
    function Remaining(): (r: nat)
      reads this
      requires Valid()
      ensures (cursor - start) + r == items.Length - start
    {
      items.Length - cursor
    }

    /** Pops the front item and returns it with its original index. */
    method PopFront() returns (item: T, index: nat)
      requires Valid() && !Empty()
      modifies this
      ensures Valid()
      ensures index == old(cursor) && item == items[index]
      ensures cursor == old(cursor) + 1
    {
      item := items[cursor];
      index := cursor;
      cursor := cursor + 1;
    }
  }

  /**
   * Pops exactly `n` items and returns them front to back; the original indices are
   * dropped. The caller checks `n <= Remaining()` first, as popping an empty queue fails.
   */
  method PopN(queue: RewindableQueue<string>, n: nat) returns (result: seq<string>)
    requires queue.Valid() && n <= queue.Remaining()
    modifies queue
    ensures queue.Valid()
    ensures queue.cursor == old(queue.cursor) + n
    ensures |result| == n
    ensures result == queue.items[old(queue.cursor)..queue.cursor]
  {
    result := [];
    for i := 0 to n
      invariant queue.Valid()
      invariant queue.cursor == old(queue.cursor) + i
      invariant result == queue.items[old(queue.cursor)..queue.cursor]
    {
      var item, _ := queue.PopFront();
      result := result + [item];
    }
  }
}
