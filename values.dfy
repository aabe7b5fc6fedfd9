/** `ValueManager`: the table of host values the guest refers to by integer handle. `add`
    stores a value under a fresh handle taken from a counter, `get` looks a handle up and
    `destroy` removes it. The values themselves are opaque to the table. */
module ValueTables {
  import opened Traps

  const INT_MAX: int := 0x7FFF_FFFF

  /** Handles are Kotlin `Int`s. */
  predicate IsInt(i: int)
  {
    -0x8000_0000 <= i <= INT_MAX
  }

  /** `incrementAndGet` on an `AtomicInteger`: the next `Int`, wrapping at the top. */
  function Increment(i: int): (r: int)
    requires IsInt(i)
    ensures IsInt(r)
    ensures i < INT_MAX ==> r == i + 1
    ensures i == INT_MAX ==> r == -0x8000_0000
  {
    if i == INT_MAX then -0x8000_0000 else i + 1
  }

  class ValueTable<V(==)> {
    /** The last handle issued (`currentID`, starting at 0). */
    var currentID: int
    var values: map<int, V>
    /** The value-to-handle map `add` consults; nothing ever stores into it. */
    var reverseMap: map<V, int>

    /** Every stored handle was issued: it lies in `1..currentID`. While the counter has not
        wrapped this makes each new handle fresh. */
    ghost predicate Valid()
      reads this
    {
      0 <= currentID <= INT_MAX && (forall id :: id in values ==> 0 < id <= currentID) && reverseMap == map[]
    }

    constructor ()
      ensures currentID == 0 && values == map[] && reverseMap == map[]
      ensures Valid()
    {
      currentID := 0;
      values := map[];
      reverseMap := map[];
    }

    /** `get(id)`: the value stored under `id`, or nothing. */
    function Get(id: int): (r: Option<V>)
      reads this
      ensures r.Some? <==> id in values
      ensures r.Some? ==> r.value == values[id]
    {
      if id in values then Some(values[id]) else None
    }

    /** `add(value)`: the handle `reverseMap` holds for the value, or else the next counter
        value (`incrementAndGet`, wrapping like an `Int`), with the value stored under it. */
    method Add(value: V) returns (id: int)
      requires IsInt(currentID)
      modifies this
      ensures value in old(reverseMap) ==>
                id == old(reverseMap)[value] && values == old(values) && currentID == old(currentID)
      ensures value !in old(reverseMap) ==>
                id == Increment(old(currentID)) && currentID == id && values == old(values)[id := value]
      ensures reverseMap == old(reverseMap)
      ensures IsInt(currentID)
      ensures old(Valid()) && old(currentID) < INT_MAX ==>
                Valid() && id == old(currentID) + 1 && id !in old(values) && Get(id) == Some(value)
    {
      if value in reverseMap {
        id := reverseMap[value];
      } else {
        ghost var before, last := values, currentID;
        ghost var issued := forall k :: k in before ==> 0 < k <= last;
        currentID := Increment(currentID);
        id := currentID;
        values := values[id := value];
        if issued && 0 <= last < INT_MAX {
          forall k | k in values
            ensures 0 < k <= currentID
          {
            if k != id {
              assert k in before;
            }
          }
        }
      }
    }

    /** `destroy(id)`: the entry under `id` is removed, and its value from `reverseMap`;
        an unknown handle changes nothing. */
    method Destroy(id: int)
      modifies this
      ensures values == old(values) - {id}
      ensures id in old(values) ==> reverseMap == old(reverseMap) - {old(values)[id]}
      ensures id !in old(values) ==> values == old(values) && reverseMap == old(reverseMap)
      ensures currentID == old(currentID)
      ensures old(Valid()) ==> Valid()
      ensures Get(id) == None
      ensures forall other :: other != id ==> Get(other) == old(Get(other))
    {
      if id in values {
        var value := values[id];
        values := values - {id};
        reverseMap := reverseMap - {value};
        assert old(reverseMap) == map[] ==> reverseMap == map[];
        assert forall other :: other in values ==> other in old(values);
      }
    }
  }

  /** Adding the same value twice to a table gives two different handles, both holding it:
      the existing-handle branch of `add` is never taken. */
  method AddTwice<V(==)>(t: ValueTable<V>, value: V) returns (first: int, second: int)
    requires t.Valid() && t.currentID < INT_MAX - 1
    modifies t
    ensures first != second && second == first + 1
    ensures t.Get(first) == Some(value) && t.Get(second) == Some(value)
    ensures t.Valid()
  {
    first := t.Add(value);
    second := t.Add(value);
  }

  /** A handle stays valid until it is destroyed: adding other values does not disturb it,
      destroying another handle does not either, and destroying it removes it. */
  method HandleLifetime<V(==)>(t: ValueTable<V>, a: V, b: V) returns (ia: int, ib: int)
    requires t.Valid() && t.currentID < INT_MAX - 1
    modifies t
    ensures ia != ib
    ensures t.Get(ia) == None
    ensures t.Get(ib) == Some(b)
  {
    ia := t.Add(a);
    ib := t.Add(b);
    assert ia in t.values;
    t.Destroy(ia);
  }
}
