/** The C allocator as the library sees it: every call may be denied, and only live blocks may be freed. */
module CHeap {
  import opened Options

  type Ptr = nat

  class Heap {
    const grant: nat -> bool // the allocator's answer to each call
    var calls: nat
    var denied: nat
    var top: Ptr
    var live: multiset<Ptr>

    ghost predicate Valid()
      reads this
    {
      forall p :: p in live ==> live[p] == 1 && p < top
    }

    constructor (grant: nat -> bool)
      ensures Valid() && live == multiset{} && denied == 0
    {
      this.grant := grant;
      calls, denied, top, live := 0, 0, 0, multiset{};
    }

    method Malloc() returns (p: Option<Ptr>)
      requires Valid()
      modifies this
      ensures Valid()
      ensures p.Some? ==> p.value !in old(live) && live == old(live) + multiset{p.value} && denied == old(denied)
      ensures p.None? ==> live == old(live) && denied == old(denied) + 1
    {
      calls := calls + 1;
      if !grant(calls - 1) {
        denied := denied + 1;
        return None;
      }
      p := Some(top);
      live := live + multiset{top};
      top := top + 1;
    }

    /** A successful reallocation gives up the old block; a denied one keeps it. */
    method Realloc(p: Option<Ptr>) returns (q: Option<Ptr>)
      requires Valid() && (p.Some? ==> p.value in live)
      modifies this
      ensures Valid()
      ensures q.Some? ==> live == old(live) - (if p.Some? then multiset{p.value} else multiset{}) + multiset{q.value}
                          && denied == old(denied)
      ensures q.None? ==> live == old(live) && denied == old(denied) + 1
    {
      q := Malloc();
      if q.Some? && p.Some? {
        Free(p.value);
      }
    }

    method Free(p: Ptr)
      requires Valid() && p in live
      modifies this`live
      ensures Valid() && live == old(live) - multiset{p}
    {
      live := live - multiset{p};
    }
  }
}
