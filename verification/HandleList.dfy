/**
 The array of wait handles that the reaper reuses between its iterations
 (usbyi_reserve_handle_list, src/os/libusb0_win32.c:539-558).
 */
module HandleList {
  import opened TransferProtocol

  /** The least size ever reserved. */
  const MIN_CAPACITY: nat := 4

  function Request(n: int): nat {
    if n < MIN_CAPACITY then MIN_CAPACITY else n
  }

  /** The capacity after a successful reservation of n slots. */
  function NextCapacity(capacity: nat, n: int): nat {
    if capacity / 4 > Request(n) || capacity < Request(n) then Request(n) * 3 / 2 else capacity
  }

  /** The slots a successful reservation of n slots reallocates. */
  function ReserveCost(capacity: nat, n: int): nat {
    if NextCapacity(capacity, n) == capacity then 0 else NextCapacity(capacity, n)
  }

  /** The capacity stays exactly from the request up to about four times that, and else becomes half as much again. */
  lemma KeptExactly(capacity: nat, n: int)
    ensures var r := if n < 4 then 4 else n;
            if r <= capacity < 4 * r + 4 then NextCapacity(capacity, n) == capacity
            else 3 * r - 1 <= 2 * NextCapacity(capacity, n) <= 3 * r
  {
  }

  class Handles {
    var capacity: nat
    var slots: array<Handle>

    ghost predicate Valid()
      reads this
    {
      slots.Length == capacity
    }

    constructor ()
      ensures Valid() && capacity == 0 && fresh(slots)
    {
      capacity := 0;
      slots := new Handle[0];
    }

    /**
     `granted` is the answer of realloc. On success the array has room for n handles and is not
     more than about four times too large; the handles that fit are kept. On failure nothing changes.
     */
    method Reserve(n: int, granted: bool) returns (ok: bool)
      requires Valid()
      modifies this
      ensures Valid() && (slots == old(slots) || fresh(slots))
      ensures ok == (granted || NextCapacity(old(capacity), n) == old(capacity))
      ensures capacity == if ok then NextCapacity(old(capacity), n) else old(capacity)
      ensures ok ==> n <= capacity && capacity / 4 <= Request(n)
      ensures ok ==> ReserveCost(old(capacity), n) == if slots == old(slots) then 0 else slots.Length
      ensures forall k :: 0 <= k < capacity && k < old(capacity) ==> slots[k] == old(slots[k])
      ensures !ok ==> slots == old(slots)
    {
      var newCapacity := if n < MIN_CAPACITY then MIN_CAPACITY else n;
      if capacity / 4 > newCapacity || capacity < newCapacity {
        newCapacity := newCapacity * 3 / 2;
        if !granted {
          return false;
        }
        var newSlots := new Handle[newCapacity](_ => ListUpdated);
        var k := 0;
        while k < newCapacity && k < capacity
          invariant 0 <= k <= newCapacity && k <= capacity
          invariant slots == old(slots) && capacity == old(capacity)
          invariant forall j :: 0 <= j < k ==> newSlots[j] == slots[j]
        {
          newSlots[k] := slots[k];
          k := k + 1;
        }
        capacity := newCapacity;
        slots := newSlots;
      }
      return true;
    }
  }

  /** Between two iterations of the reaper, transfers are submitted and reaped. */
  datatype Event = Submitted | Reaped | Iteration

  /** The transfers in flight and the capacity of the handle array after the events. */
  function After(events: seq<Event>): (r: (int, nat)) {
    if events == [] then (0, 0)
    else
      var (count, capacity) := After(events[..|events| - 1]);
      match events[|events| - 1]
      case Submitted => (count + 1, capacity)
      case Reaped => (count - 1, capacity)
      case Iteration => (count, NextCapacity(capacity, 2 + count))
  }

  /** The slots reallocated by all iterations together. */
  function TotalCost(events: seq<Event>): nat {
    if events == [] then 0
    else
      var (count, capacity) := After(events[..|events| - 1]);
      TotalCost(events[..|events| - 1])
      + if events[|events| - 1].Iteration? then ReserveCost(capacity, 2 + count) else 0
  }

  function Changes(events: seq<Event>): nat {
    if events == [] then 0
    else Changes(events[..|events| - 1]) + if events[|events| - 1].Iteration? then 0 else 1
  }

  function Abs(x: int): nat {
    if x < 0 then -x else x
  }

  /** What is saved up for the next reallocation: how far the capacity is from 3/2 of the request. */
  function Savings(count: int, capacity: nat): nat {
    2 * Abs(3 * Request(2 + count) - 2 * capacity)
  }

  lemma ReservationIsPaid(count: int, capacity: nat)
    ensures ReserveCost(capacity, 2 + count) + Savings(count, NextCapacity(capacity, 2 + count)) <=
            Savings(count, capacity)
  {
    var r := Request(2 + count);
    if capacity / 4 > r {
      assert 4 * r + 4 <= capacity;
    }
  }

  lemma {:induction false} CostWithSavings(events: seq<Event>)
    ensures TotalCost(events) + Savings(After(events).0, After(events).1) <= 24 + 6 * Changes(events)
  {
    if events != [] {
      var before := events[..|events| - 1];
      CostWithSavings(before);
      if events[|events| - 1].Iteration? {
        ReservationIsPaid(After(before).0, After(before).1);
      }
    }
  }

  /** However the events interleave, the slots reallocated are linear in submissions and reaps. */
  lemma ReallocationIsLinear(events: seq<Event>)
    ensures TotalCost(events) <= 24 + 6 * Changes(events)
  {
    CostWithSavings(events);
  }
}
