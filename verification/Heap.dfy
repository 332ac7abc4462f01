/**
 malloc, realloc and free, seen through the blocks that are live. Any request may
 be refused, as the schedule says; freeing or resizing a block that is not live is
 a contract violation, so the callers are free of double frees.
 */
module Heap {
  import opened ByteStrings
  import opened BencodeGrammar
  import opened BencodeObject
  import opened Faults

  // sizeof(bencode_object_t) and sizeof(bencode_dictionary_entry_t) on a 64-bit platform.
  const OBJECT_SIZE: nat := 48
  const FIELD_SIZE: nat := 64

  lemma {:induction false} MinusTwice(live: multiset<Block>, a: multiset<Block>, b: multiset<Block>)
    requires a + b <= live
    ensures b <= live && a <= live - b && live - b - a == live - (a + b)
  {
    assert forall x :: a[x] <= (a + b)[x] && b[x] <= (a + b)[x] <= live[x];
  }

  /** An array a is replaced by a2 while its elements b and a new element c stay live. */
  lemma {:induction false} Replaced(base: multiset<Block>, a: multiset<Block>, b: multiset<Block>,
      c: multiset<Block>, a2: multiset<Block>)
    ensures a <= base + (a + b) + c
    ensures base + (a + b) + c - a + a2 == base + (a2 + (b + c))
  {
  }

  /** Doubled, an array of this capacity has a size in bytes beyond size_t. */
  predicate TooMany(capacity: nat, elementSize: nat)
    requires elementSize > 0
  {
    2 * capacity > SIZE_MAX / elementSize
  }

  lemma {:induction false} OneIsPower()
    ensures IsPowerOfTwo(1)
  {
  }

  lemma {:induction false} MaximaArePowers()
    ensures IsPowerOfTwo(MAX_ITEMS) && IsPowerOfTwo(MAX_ENTRIES)
  {
    hide IsPowerOfTwo;
    OneIsPower();
    EightDoublings(1);
    EightDoublings(0x100);
    EightDoublings(0x1_0000);
    EightDoublings(0x100_0000);
    EightDoublings(0x1_0000_0000);
    EightDoublings(0x100_0000_0000);
    EightDoublings(0x1_0000_0000_0000);
    EightDoublings(0x100_0000_0000_0000);
  }

  /** A doubled array is too large exactly from the limits of the grammar on. */
  lemma {:induction false} LimitsAreExact(capacity: nat)
    requires IsPowerOfTwo(capacity)
    ensures TooMany(capacity, OBJECT_SIZE) <==> capacity >= MAX_ITEMS
    ensures TooMany(capacity, FIELD_SIZE) <==> capacity >= MAX_ENTRIES
    ensures capacity < MAX_ITEMS ==> 2 * capacity <= MAX_ITEMS
    ensures capacity < MAX_ENTRIES ==> 2 * capacity <= MAX_ENTRIES
  {
    MaximaArePowers();
    if capacity < MAX_ITEMS {
      HalfOrLess(capacity, MAX_ITEMS);
    }
    if capacity < MAX_ENTRIES {
      HalfOrLess(capacity, MAX_ENTRIES);
    }
  }

  class Allocator {
    ghost var live: multiset<Block>
    var nextBlock: Block
    var schedule: seq<Outcome>  // what becomes of the next requests

    ghost predicate Valid()
      reads this
    {
      forall b :: live[b] <= 1 && (b in live ==> b < nextBlock)
    }

    /** How many requests are still going to be refused. */
    ghost function Refusals(): nat
      reads this
    {
      FaultsIn(schedule)
    }

    constructor (schedule: seq<Outcome>)
      ensures Valid() && live == multiset{} && this.schedule == schedule
    {
      live, nextBlock, this.schedule := multiset{}, 0, schedule;
    }

    /** A block of the requested size in place of the given one, which stays as it is when the request is refused. */
    method Realloc(block: Option<Block>, size: nat) returns (r: Option<Block>)
      requires Valid() && Own(block) <= live
      modifies this
      ensures Valid()
      ensures r.None? ==> live == old(live) && Refusals() < old(Refusals())
      ensures r.Some? ==> live == old(live) - Own(block) + Own(r) && Refusals() == old(Refusals())
    {
      OneOutcome(schedule);
      var outcome := First(schedule);
      schedule := Later(schedule);
      if !outcome.Granted? {
        return None;
      }
      r := Some(nextBlock);
      live := live - Own(block) + Own(r);
      nextBlock := nextBlock + 1;
    }

    method Free(block: Option<Block>)
      requires Valid() && Own(block) <= live
      modifies this`live
      ensures Valid() && live == old(live) - Own(block)
    {
      live := live - Own(block);
    }

    /** free_bencode_object: everything below o is released once, and o becomes invalid. */
    method FreeObject(o: Object) returns (r: Object)
      requires Valid() && Blocks(o) <= live
      modifies this`live
      ensures Valid() && live == old(live) - Blocks(o)
      ensures r == o.(payload := Invalid)
      decreases o
    {
      hide Own, ItemBlocks, FieldBlocks, Valid;
      match o.payload {
        case ObjectList(items, capacity, block) =>
          MinusTwice(live, Own(block), ItemBlocks(items));
          FreeItems(items);
          Free(block);
        case Dictionary(fields, capacity, block) =>
          MinusTwice(live, Own(block), FieldBlocks(fields));
          FreeFields(fields);
          Free(block);
        case _ =>
      }
      r := o.(payload := Invalid);
    }

    method FreeItems(items: seq<Object>)
      requires Valid() && ItemBlocks(items) <= live
      modifies this`live
      ensures Valid() && live == old(live) - ItemBlocks(items)
      decreases items
    {
      var i := 0;
      while i < |items|
        invariant 0 <= i <= |items|
        invariant Valid()
        invariant live == old(live) - ItemBlocks(items) + ItemBlocks(items[i..])
      {
        assert items[i..][0] == items[i] && items[i..][1..] == items[i + 1..];
        var _ := FreeObject(items[i]);
        i := i + 1;
      }
    }

    method FreeFields(fields: seq<Field>)
      requires Valid() && FieldBlocks(fields) <= live
      modifies this`live
      ensures Valid() && live == old(live) - FieldBlocks(fields)
      decreases fields
    {
      var i := 0;
      while i < |fields|
        invariant 0 <= i <= |fields|
        invariant Valid()
        invariant live == old(live) - FieldBlocks(fields) + FieldBlocks(fields[i..])
      {
        assert fields[i..][0] == fields[i] && fields[i..][1..] == fields[i + 1..];
        FreeField(fields[i]);
        i := i + 1;
      }
    }

    method FreeField(f: Field)
      requires Valid() && FieldBlock(f) <= live
      modifies this`live
      ensures Valid() && live == old(live) - FieldBlock(f)
      decreases f
    {
      var _ := FreeObject(f.value);
    }

    /** Doubles a full array, behind the guards that keep the new capacity and its size in bytes within size_t. */
    method Grow(capacity: nat, block: Option<Block>, elementSize: nat)
      returns (ok: bool, newCapacity: nat, newBlock: Option<Block>)
      requires Valid() && Own(block) <= live
      requires 0 < elementSize <= FIELD_SIZE
      modifies this
      ensures Valid()
      ensures ok ==> newCapacity == (if capacity == 0 then 1 else 2 * capacity) && newBlock.Some?
      ensures ok ==> live == old(live) - Own(block) + Own(newBlock) && Refusals() == old(Refusals())
      ensures !ok ==> newCapacity == capacity && newBlock == block && live == old(live)
      ensures !ok ==> Refusals() < old(Refusals()) || TooMany(capacity, elementSize)
      ensures ok ==> !TooMany(capacity, elementSize)
      ensures Refusals() <= old(Refusals())
    {
      newCapacity, newBlock := capacity, block;
      if capacity > SIZE_MAX / 2 {
        return false, capacity, block;
      }
      var doubled := if capacity == 0 then 1 else capacity * 2;
      if doubled <= SIZE_MAX / elementSize {
        var r := Realloc(block, doubled * elementSize);
        if r.None? {
          return false, capacity, block;
        }
        return true, doubled, r;
      } else {
        return false, capacity, block;
      }
    }
  }
}
