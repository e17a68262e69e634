/** The growing array behind a JSON array (arraylist.c). A slot holds a pointer or NULL. */
module ArrayList {
  import opened OrderedMap

  /** The elements that are not NULL. */
  function Elements<T>(s: seq<Option<T>>): multiset<T> {
    if s == [] then multiset{}
    else Elements(s[..|s| - 1]) + (if s[|s| - 1].Some? then multiset{s[|s| - 1].value} else multiset{})
  }

  /** The list of values: what `idx` is set to, with NULL in the slots that were skipped. */
  function Padded<T>(s: seq<Option<T>>, idx: nat, x: Option<T>): (r: seq<Option<T>>)
    ensures |r| == if idx < |s| then |s| else idx + 1
    ensures r[idx] == x
  {
    if idx < |s| then s[idx := x] else s + seq(idx - |s|, _ => None) + [x]
  }

  function AsSet<T>(x: Option<T>): multiset<T> {
    if x.Some? then multiset{x.value} else multiset{}
  }

  function At<T>(s: seq<Option<T>>, i: nat): Option<T> {
    if i < |s| then s[i] else None
  }

  /** No other slot changes, and the slots that are skipped are NULL. */
  lemma PaddedElsewhere<T>(s: seq<Option<T>>, idx: nat, x: Option<T>, k: nat)
    requires k != idx
    ensures At(Padded(s, idx, x), k) == At(s, k)
  {}

  /** The number of slots after a request for slot `max`. */
  function Room(size: nat, max: nat): nat {
    if max < size then size else if 2 * size < max then max else 2 * size
  }

  /** The least number that is at least twice as big and big enough; no change when there is room. */
  lemma RoomIsLeast(size: nat, max: nat, n: nat)
    ensures max < size ==> Room(size, max) == size
    ensures max >= size ==> (n >= Room(size, max) <==> n >= 2 * size && n >= max)
  {}

  predicate AllNull<T>(slots: seq<Option<T>>, n: nat) {
    forall k | n <= k < |slots| :: slots[k].None?
  }

  /** Setting a slot of the block sets it in the list, which reaches up to it then. */
  lemma SlotsPadded<T>(slots: seq<Option<T>>, n: nat, idx: nat, x: Option<T>)
    requires n <= |slots| && idx < |slots| && AllNull(slots, n)
    ensures var m := if n <= idx then idx + 1 else n;
      slots[idx := x][..m] == Padded(slots[..n], idx, x) && AllNull(slots[idx := x], m)
    ensures slots[idx] == At(slots[..n], idx)
  {}

  lemma NullIsNothing<T>()
    ensures AsSet<T>(None) == multiset{}
  {}

  lemma {:induction false} ElementsAppend<T>(a: seq<Option<T>>, b: seq<Option<T>>)
    ensures Elements(a + b) == Elements(a) + Elements(b)
  {
    if b == [] {
      assert a + b == a;
    } else {
      ElementsAppend(a, b[..|b| - 1]);
      assert (a + b)[..|a + b| - 1] == a + b[..|b| - 1];
    }
  }

  lemma {:induction false} ElementsOfNulls<T>(s: seq<Option<T>>)
    requires forall i | 0 <= i < |s| :: s[i].None?
    ensures Elements(s) == multiset{}
  {
    if s != [] { ElementsOfNulls(s[..|s| - 1]); }
  }

  lemma ElementsOfOne<T>(x: Option<T>)
    ensures Elements([x]) == AsSet(x)
  {
    assert [x][..0] == [];
  }

  /** Setting a slot brings the new element in and takes the old one out. */
  lemma ElementsOfPadded<T>(s: seq<Option<T>>, idx: nat, x: Option<T>)
    ensures Elements(Padded(s, idx, x)) + AsSet(At(s, idx)) == Elements(s) + AsSet(x)
  {
    hide Elements, AsSet;
    NullIsNothing<T>();
    ElementsOfOne(x);
    if idx < |s| {
      var front, back := s[..idx], s[idx + 1..];
      ElementsOfOne(s[idx]);
      assert s == front + [s[idx]] + back && s[idx := x] == front + [x] + back;
      ElementsAppend(front + [s[idx]], back);
      ElementsAppend(front, [s[idx]]);
      ElementsAppend(front + [x], back);
      ElementsAppend(front, [x]);
    } else {
      var gap := seq(idx - |s|, _ => None);
      ElementsOfNulls(gap);
      ElementsAppend(s + gap, [x]);
      ElementsAppend(s, gap);
    }
  }

  /** What comes in is stored, what goes out is freed. */
  lemma Moved<T>(stored: multiset<T>, freed: multiset<T>, was: multiset<T>, gone: multiset<T>, data: multiset<T>,
                 now: multiset<T>)
    requires stored == freed + was && now + gone == was + data
    ensures stored + data == freed + gone + now
  {
    assert stored + data == freed + (was + data);
    assert freed + (now + gone) == freed + gone + now;
  }

  lemma Balanced<T>(stored: multiset<T>, freed: multiset<T>, s: seq<Option<T>>, idx: nat, x: Option<T>)
    requires stored == freed + Elements(s)
    ensures stored + AsSet(x) == freed + AsSet(At(s, idx)) + Elements(Padded(s, idx, x))
  {
    hide Elements, AsSet, At, Padded;
    ElementsOfPadded(s, idx, x);
    Moved(stored, freed, Elements(s), AsSet(At(s, idx)), AsSet(x), Elements(Padded(s, idx, x)));
  }

  class ArrayList<T(==)> {
    var slots: array<Option<T>>
    var length: nat
    /** Every element that was ever stored, and every element that `free_fn` was called on. */
    ghost var stored: multiset<T>
    ghost var freed: multiset<T>

    ghost predicate Valid()
      reads this, slots
    {
      length <= slots.Length && AllNull(slots[..], length) &&
      stored == freed + Elements(slots[..length])
    }

    ghost function Contents(): seq<Option<T>>
      reads this, slots
      requires length <= slots.Length
    {
      slots[..length]
    }

    constructor ()
      ensures Valid() && fresh(slots) && Contents() == [] && stored == freed == multiset{}
    {
      slots := new Option<T>[32](_ => None);
      length, stored, freed := 0, multiset{}, multiset{};
      new;
      assert slots[..0] == [];
    }

    /** `array_list_get_idx` */
    method GetIdx(i: nat) returns (x: Option<T>)
      requires Valid()
      ensures x == At(Contents(), i)
    {
      if i >= length { return None; }
      return slots[i];
    }

    /** `array_list_expand_internal`: as many slots as before, twice as many, or `max`. */
    method Expand(max: nat)
      requires Valid()
      modifies `slots
      ensures Valid() && Contents() == old(Contents()) && slots.Length >= max && slots.Length >= old(slots.Length)
      ensures slots.Length == Room(old(slots.Length), max)
      ensures slots == old(slots) || fresh(slots)
    {
      if max < slots.Length { return; }
      var size := slots.Length * 2;
      if size < max { size := max; }
      var t := new Option<T>[size](_ => None);
      for i := 0 to slots.Length
        invariant forall k | 0 <= k < t.Length :: t[k] == if k < i then slots[k] else None
        modifies t
      {
        t[i] := slots[i];
      }
      assert t[..length] == slots[..length];
      slots := t;
    }

    /** Overwrites a slot of the block; the list reaches up to it then. */
    method SetSlot(idx: nat, data: Option<T>) returns (gone: Option<T>)
      requires length <= slots.Length && idx < slots.Length && AllNull(slots[..], length)
      modifies `length, slots
      ensures length <= slots.Length && AllNull(slots[..], length)
      ensures Contents() == Padded(old(Contents()), idx, data) && gone == At(old(Contents()), idx)
    {
      hide Padded, AllNull, At;
      ghost var whole := slots[..];
      assert slots[..length] == whole[..length];
      SlotsPadded(whole, length, idx, data);
      gone := slots[idx];
      slots[idx] := data;
      assert slots[..] == whole[idx := data];
      if length <= idx { length := idx + 1; }
      assert slots[..length] == slots[..][..length];
    }

    /** `array_list_put_idx`: the element that is overwritten is freed. */
    method PutIdx(idx: nat, data: Option<T>)
      requires Valid()
      modifies this, slots
      ensures Valid() && Contents() == Padded(old(Contents()), idx, data) && (slots == old(slots) || fresh(slots))
      ensures stored == old(stored) + AsSet(data)
      ensures freed == old(freed) + AsSet(At(old(Contents()), idx))
    {
      hide Elements, AsSet, Padded, AllNull, At, Room;
      Expand(idx + 1);
      Balanced(stored, freed, Contents(), idx, data);
      var gone := SetSlot(idx, data);
      freed := freed + AsSet(gone);
      stored := stored + AsSet(data);
    }

    /** `array_list_add` */
    method Add(data: Option<T>)
      requires Valid()
      modifies this, slots
      ensures Valid() && Contents() == old(Contents()) + [data] && (slots == old(slots) || fresh(slots))
      ensures stored == old(stored) + AsSet(data) && freed == old(freed)
    {
      PutIdx(length, data);
    }

    /** `array_list_free`: every element that was stored has now been freed, once. */
    method Free()
      requires Valid()
      modifies `freed
      ensures freed == stored
    {
      for i := 0 to length
        invariant freed == old(freed) + Elements(slots[..i])
        modifies `freed
      {
        assert slots[..i + 1][..i] == slots[..i];
        if slots[i].Some? { freed := freed + multiset{slots[i].value}; }
      }
    }
  }
}
