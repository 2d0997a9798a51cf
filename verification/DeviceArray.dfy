/** The growing, NULL-terminated array of devices (src/libusby.c:30-51, 191-201). */
module DeviceArray {
  import opened Options

  // ---------------------------------------------------------------- capacities

  function Pow2(k: nat): nat {
    if k == 0 then 1 else 2 * Pow2(k - 1)
  }

  /** The capacity with which n devices are held. */
  function Room(n: nat): nat {
    if n == 0 then 1 else 2 * Room(n / 2)
  }

  /** Room(n) is the least power of two above n, and at most twice n. */
  lemma {:induction false} RoomIsLeastPower(n: nat)
    ensures n < Room(n) && (n > 0 ==> Room(n) <= 2 * n)
    ensures exists k: nat :: Room(n) == Pow2(k)
    ensures forall k: nat :: Pow2(k) > n ==> Pow2(k) >= Room(n)
  {
    if n == 0 {
      assert Room(n) == Pow2(0);
      forall k: nat ensures Pow2(k) >= 1 {
        PowPositive(k);
      }
    } else {
      RoomIsLeastPower(n / 2);
      var k: nat :| Room(n / 2) == Pow2(k);
      assert Room(n) == Pow2(k + 1);
      forall k: nat | Pow2(k) > n ensures Pow2(k) >= Room(n) {
        assert k > 0;
        assert Pow2(k - 1) > n / 2;
      }
    }
  }

  lemma {:induction false} PowPositive(k: nat)
    ensures Pow2(k) >= 1
  {
    if k > 0 {
      PowPositive(k - 1);
    }
  }

  /** One more device: the capacity doubles exactly when the terminator would not fit any more. */
  lemma {:induction false} RoomStep(n: nat)
    ensures n > 0 && n + 1 == Room(n) ==> Room(n + 1) == 2 * (n + 1)
    ensures n > 0 && n + 1 != Room(n) ==> Room(n + 1) == Room(n)
  {
    RoomIsLeastPower(n);
    if n > 0 && n % 2 == 1 {
      assert (n + 1) / 2 == n / 2 + 1;
      RoomStep(n / 2);
      RoomIsLeastPower(n / 2);
    } else if n > 0 {
      assert (n + 1) / 2 == n / 2;
    }
  }

  /** One more device makes the array larger. */
  predicate Grows(count: nat) {
    count == 0 || count + 1 == Room(count)
  }

  // ---------------------------------------------------------------- the array

  class DeviceList<T> {
    var count: nat
    var capacity: nat
    var list: array<Option<T>>
    ghost var copied: nat // what the reallocations have copied at most: each the whole array before it

    ghost predicate Valid()
      reads this, list
    {
      && list.Length == capacity
      && (capacity == 0 ==> count == 0 && copied == 0)
      && (capacity > 0 ==>
            && count > 0 && capacity == Room(count) && copied == capacity - 2
            && count < capacity && list[count] == None
            && forall k :: 0 <= k < count ==> list[k].Some?)
    }

    /** The devices up to the terminator. */
    ghost function Contents(): (r: seq<T>)
      reads this, list
      requires Valid()
      ensures |r| == count
    {
      seq(count, k requires 0 <= k < count reads this, list requires Valid() => list[k].value)
    }

    constructor ()
      ensures Valid() && Contents() == [] && fresh(list)
    {
      count, capacity, copied := 0, 0, 0;
      list := new Option<T>[0];
    }

    /** A larger array with the old one at its beginning. */
    method Reallocate(newCapacity: nat)
      requires list.Length == capacity <= newCapacity
      modifies this`list, this`capacity, this`copied
      ensures fresh(list) && list.Length == capacity == newCapacity && copied == old(copied) + old(capacity)
      ensures list[..old(capacity)] == old(list[..])
    {
      var grown := new Option<T>[newCapacity];
      forall k | 0 <= k < capacity {
        grown[k] := list[k];
      }
      copied := copied + capacity;
      capacity, list := newCapacity, grown;
    }

    /** usbyi_append_device_list; `granted` is the allocator's answer, should it be asked. */
    method Append(dev: T, granted: bool) returns (ok: bool)
      requires Valid()
      modifies this, list
      ensures Valid() && (list == old(list) || fresh(list))
      ensures ok <==> granted || !Grows(|old(Contents())|)
      ensures Contents() == if ok then old(Contents()) + [dev] else old(Contents())
    {
      RoomStep(count);
      if count == 0 || count + 1 == capacity {
        if !granted {
          return false;
        }
        Reallocate((count + 1) * 2);
      }
      list[count] := Some(dev);
      list[count + 1] := None;
      count := count + 1;
      return true;
    }

    /** Reading up to the first NULL, as libusby_free_device_list does, meets exactly the devices appended. */
    method Walk() returns (visited: seq<T>)
      requires Valid() && capacity > 0
      ensures visited == Contents()
    {
      var cur := 0;
      visited := [];
      while list[cur].Some?
        invariant cur <= count && visited == Contents()[..cur]
        decreases count - cur
      {
        visited := visited + [list[cur].value];
        cur := cur + 1;
      }
    }

    /** All the copying for n devices is at most 2n elements. */
    lemma CopyingIsLinear()
      requires Valid()
      ensures copied <= 2 * count
    {
      RoomIsLeastPower(count);
    }
  }
}
