/** The growable stack that the graph algorithms keep their worklists on. It grows as soon as it
  * is full, so that there is always room for one more. */
module WorkStack {
  class Stack<T(0)> {
    var head: nat
    var capacity: nat
    var values: array<T>
    ghost var Repr: set<object>

    ghost predicate Valid()
      reads this, Repr
    {
      this in Repr && values in Repr && head < capacity == values.Length
    }

    /** The values from the bottom up. */
    ghost function Contents(): seq<T>
      requires Valid()
      reads this, Repr
    {
      values[..head]
    }

    constructor (capacity: nat)
      requires capacity > 0
      ensures Valid() && fresh(Repr) && Contents() == []
    {
      head := 0;
      this.capacity := capacity;
      values := new T[capacity];
      new;
      Repr := {this, values};
    }

    /** Moves everything to twice the room. */
    method Grow()
      requires this in Repr && values in Repr && head == capacity == values.Length && capacity > 0
      modifies Repr
      ensures Valid() && fresh(Repr - old(Repr)) && Contents() == old(values[..head])
    {
      var newCapacity := capacity * 2;
      var newValues := new T[newCapacity];
      var newHead := 0;
      while newHead < capacity
        invariant 0 <= newHead <= capacity && head == capacity == values.Length
        invariant this in Repr && values in Repr && Repr == old(Repr)
        invariant values == old(values) && values[..] == old(values[..]) && fresh(newValues)
        invariant newValues[..newHead] == values[..newHead]
      {
        newValues[newHead] := values[newHead];
        newHead := newHead + 1;
      }
      head := newHead;
      capacity := newCapacity;
      values := newValues;
      Repr := Repr + {newValues};
    }

    method Push(x: T)
      requires Valid()
      modifies Repr
      ensures Valid() && fresh(Repr - old(Repr)) && Contents() == old(Contents()) + [x]
    {
      values[head] := x;
      head := head + 1;
      if head >= capacity {
        Grow();
      }
    }

    method Pop() returns (x: T)
      requires Valid() && head > 0
      modifies Repr
      ensures Valid() && fresh(Repr - old(Repr)) && old(Contents()) == Contents() + [x]
    {
      head := head - 1;
      return values[head];
    }
  }
}
