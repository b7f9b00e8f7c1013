/** The fixed-capacity integer list of the simulator (`IntList`): a buffer of `MaxListLen`
    entries of which the first `size` are the list. */
module IntLists {

  /** `MAX_LISTLEN`, the capacity of every list. */
  const MaxListLen := 1024

  class IntList {
    const list: array<int>
    var size: nat

    ghost predicate Valid()
      reads this
    {
      list.Length == MaxListLen && size <= MaxListLen
    }

    /** The values held: the first `size` entries of the buffer. */
    function Contents(): seq<int>
      reads this, list
      requires Valid()
    {
      list[..size]
    }

    /** An empty list over a zeroed buffer. */
    constructor ()
      ensures Valid() && fresh(list) && size == 0 && Contents() == []
      ensures forall i :: 0 <= i < list.Length ==> list[i] == 0
    {
      list := new int[MaxListLen](_ => 0);
      size := 0;
    }

    /** `addNumToList`: writes `num` at index `size` and counts it, so the list grows by
        `num` at its end. The source does not check the capacity, so the caller must. */
    method AddNum(num: int)
      requires Valid() && size < MaxListLen
      modifies this, list
      ensures Valid() && size == old(size) + 1
      ensures Contents() == old(Contents()) + [num]
      ensures list[..] == old(list[..])[old(size) := num]
    {
      list[size] := num;
      size := size + 1;
    }

    /** `emptyList`: zeroes the entries in use and resets the size; the entries past the old
        size are left as they were. */
    method Empty()
      requires Valid()
      modifies this, list
      ensures Valid() && size == 0 && Contents() == []
      ensures forall i :: 0 <= i < old(size) ==> list[i] == 0
      ensures list[old(size)..] == old(list[size..])
    {
      var i := 0;
      while i < size
        invariant Valid() && size == old(size) && 0 <= i <= size
        invariant forall j :: 0 <= j < i ==> list[j] == 0
        invariant list[i..] == old(list[i..])
      {
        list[i] := 0;
        i := i + 1;
      }
      assert list[i..] == list[i..i] + list[old(size)..];
      size := 0;
    }
  }
}
