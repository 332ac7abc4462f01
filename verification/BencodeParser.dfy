/**
 The recursive-descent bencode parser over a mutable cursor. Each method either
 succeeds, with the unique term that starts at the cursor, or restores the
 cursor and the heap; without a refused allocation it fails only when no term
 of the grammar starts there.
 */
module BencodeParser {
  import opened ByteStrings
  import opened BencodeGrammar
  import opened BencodeObject
  import opened BencodeScan
  import opened Faults
  import opened Heap

  newtype Uint64 = x: int | 0 <= x <= 0xFFFF_FFFF_FFFF_FFFF
  newtype Int64 = x: int | -0x8000_0000_0000_0000 <= x <= 0x7FFF_FFFF_FFFF_FFFF

  function DetermineKind(b: Byte): Kind {
    if ZERO <= b <= NINE then StringKind
    else if b == LETTER_I then IntegerKind
    else if b == LETTER_L then ListKind
    else if b == LETTER_D then DictionaryKind
    else InvalidKind
  }

  function Memcmp(a: Bytes, b: Bytes, n: nat): int
    requires n <= |a| && n <= |b|
  {
    if n == 0 then 0
    else if a[0] != b[0] then a[0] - b[0]
    else Memcmp(a[1..], b[1..], n - 1)
  }

  /** The parser's test for "the key follows its predecessor". */
  predicate InOrder(previous: Bytes, current: Bytes) {
    var compared := Memcmp(previous, current, if |previous| < |current| then |previous| else |current|);
    !(compared > 0) && !(compared == 0 && |previous| >= |current|)
  }

  lemma {:induction false} InOrderIsLess(previous: Bytes, current: Bytes)
    ensures InOrder(previous, current) <==> Less(previous, current)
  {
    if previous != [] && current != [] && previous[0] == current[0] {
      InOrderIsLess(previous[1..], current[1..]);
    }
  }

  /** The overflow guards of the scanning loops are exact. */
  lemma {:induction false} GuardIsExact(limit: int, magnitude: int, digit: int)
    requires 0 <= digit <= 9 <= limit && 0 <= magnitude
    ensures magnitude > (limit - digit) / 10 <==> magnitude * 10 + digit > limit
  {
  }

  class Parser {
    const data: Bytes
    var position: nat

    ghost predicate Valid()
      reads this
    {
      position <= |data| <= SIZE_MAX
    }

    constructor (data: Bytes)
      requires |data| <= SIZE_MAX
      ensures Valid() && this.data == data && position == 0
    {
      this.data, position := data, 0;
    }

    function Peek(): Option<Byte>
      reads this
    {
      if position < |data| then Some(data[position]) else None
    }

    method Consume() returns (r: Option<Byte>)
      requires Valid()
      modifies this
      ensures Valid() && r == old(Peek())
      ensures position == old(position) + if r.Some? then 1 else 0
    {
      r := Peek();
      if r.Some? {
        position := position + 1;
      }
    }

    /** The digits of a string length up to and including the colon. */
    method DetermineStringLength() returns (r: Option<Uint64>, ghost digits: Bytes)
      requires Valid()
      modifies this
      ensures Valid()
      ensures r.Some? ==>
                && digits != [] && AllDigits(digits) && Numeral(digits) == r.value as int
                && Has(data, old(position), digits)
                && old(position) + |digits| < |data| && data[old(position) + |digits|] == COLON
                && position == old(position) + |digits| + 1
      ensures r.None? ==> position == old(position) && NoStr(data, position)
    {
      hide Has;
      digits := [];
      var start := position;
      HasNothing(data, start);
      var length: Uint64 := 0;
      var consumed := Consume();
      if consumed.None? {
        NoStrByRun(data, start, []);
        position := start;
        return None, [];
      }
      var current := consumed.value;
      if !IsDigit(current) {
        NoStrByRun(data, start, []);
        position := start;
        return None, [];
      }
      while IsDigit(current)
        invariant Valid() && start < position && current == data[position - 1]
        invariant digits != [] || IsDigit(current)
        invariant position == start + |digits| + 1
        invariant AllDigits(digits) && Has(data, start, digits) && Numeral(digits) == length as int
        decreases |data| - position
      {
        var digit: Uint64 := (current - ZERO) as Uint64;
        HasSnoc(data, start, digits);
        NumeralSnoc(digits, current);
        if length > (0xFFFF_FFFF_FFFF_FFFF - digit) / 10 {
          NoStrByRun(data, start, digits + [current]);
          position := start;
          return None, [];
        }
        digits := digits + [current];
        length := length * 10 + digit;
        consumed := Consume();
        if consumed.None? {
          NoStrByRun(data, start, digits);
          position := start;
          return None, [];
        }
        current := consumed.value;
      }
      if current == COLON {
        return Some(length), digits;
      }
      NoStrByRun(data, start, digits);
      position := start;
      return None, [];
    }

    method ParseString() returns (r: Option<Segment>, ghost digits: Bytes, ghost content: Bytes)
      requires Valid()
      modifies this
      ensures Valid()
      ensures r.Some? ==>
                && WellFormedStr(digits, content)
                && Has(data, old(position), PrintStr(digits, content))
                && position == old(position) + |PrintStr(digits, content)|
                && r.value == Segment(old(position) + |digits| + 1, |content|)
                && r.value.offset + r.value.length <= |data| && SegmentBytes(data, r.value) == content
      ensures r.None? ==> position == old(position) && NoStr(data, position)
    {
      hide Has, Numeral;
      content := [];
      var start := position;
      var length;
      length, digits := DetermineStringLength();
      if length.None? {
        position := start;
        return None, [], [];
      }
      var available := |data| - position;
      if !(length.value as int <= available) {
        NoStrByRun(data, start, digits);
        position := start;
        return None, [], [];
      }
      var segment := Segment(position, length.value as int);
      content := SegmentBytes(data, segment);
      HasSlice(data, position, length.value as int);
      HasStr(data, start, digits, content);
      position := position + length.value as int;
      return Some(segment), digits, content;
    }

    /** The loop over the digits of an integer, of which first is the one consumed last. */
    method ReadMagnitude(ghost start: nat, negative: bool, first: Byte)
      returns (r: Option<Uint64>, current: Byte, ghost run: Bytes)
      requires Valid() && start + 1 < |data|
      requires negative <==> Negative(data, start)
      requires position == DigitsFrom(data, start) + 1 && first == data[position - 1]
      requires first != LETTER_E && !(negative && first == ZERO)
      modifies this
      ensures Valid()
      ensures r.Some? ==>
                && position == DigitsFrom(data, start) + |run| + 1 && current == data[position - 1]
                && AllDigits(run) && Has(data, DigitsFrom(data, start), run) && Numeral(run) == r.value as int
                && r.value as int <= MagnitudeLimit(negative)
                && !IsDigit(current)
                && (run == [] ==> current != LETTER_E)
                && (run != [] ==> IsCanonical(run))
                && (run == [ZERO] ==> !negative)
      ensures r.None? ==> NoInt(data, start)
    {
      hide Has, IsCanonical, NoInt, PrintInt, Decimal, Numeral;
      ghost var from, limit: int := DigitsFrom(data, start), MagnitudeLimit(negative);
      HasNothing(data, from);
      NumeralNothing();
      var magnitude: Uint64 := 0;
      current, run := first, [];
      while IsDigit(current)
        invariant Valid() && position == from + |run| + 1 && current == data[position - 1]
        invariant AllDigits(run) && Has(data, from, run) && Numeral(run) == magnitude as int
        invariant magnitude as int <= limit
        invariant run == [] ==> current != LETTER_E && !(negative && current == ZERO)
        invariant run != [] ==> IsCanonical(run)
        invariant run == [ZERO] ==> !negative && !IsDigit(current)
        decreases |data| - position
      {
        var digit: Uint64 := (current - ZERO) as Uint64;
        HasSnoc(data, from, run);
        NumeralSnoc(run, current);
        GuardIsExact(limit, magnitude as int, digit as int);
        if !negative && magnitude > (0x7FFF_FFFF_FFFF_FFFF - digit) / 10 {
          NoIntByRun(data, start, run + [current]);
          return None, current, [];
        }
        if negative && magnitude > (0x7FFF_FFFF_FFFF_FFFF + 1 - digit) / 10 {
          NoIntByRun(data, start, run + [current]);
          return None, current, [];
        }
        CanonicalSnoc(run, current);
        magnitude := magnitude * 10 + digit;
        run := run + [current];
        var consumed := Consume();
        if consumed.None? {
          NoIntByRun(data, start, run);
          return None, current, [];
        }
        current := consumed.value;
        NumeralZero(run);
        if magnitude == 0 && IsDigit(current) {
          NoIntByRun(data, start, run);
          return None, current, [];
        }
      }
      return Some(magnitude), current, run;
    }

    method ParseInteger() returns (r: Option<Int64>)
      requires Valid()
      modifies this
      ensures Valid()
      ensures r.Some? ==>
                && Has(data, old(position), PrintInt(r.value as int))
                && position == old(position) + |PrintInt(r.value as int)|
      ensures r.None? ==> position == old(position) && NoInt(data, position)
    {
      hide Has, PrintInt, Decimal, NoInt;
      var start := position;
      var consumed := Consume();
      if consumed.None? || consumed.value != LETTER_I {
        NoIntWithoutLetter(data, start);
        position := start;
        return None;
      }
      HasNothing(data, DigitsFrom(data, start));
      consumed := Consume();
      if consumed.None? {
        NoIntByRun(data, start, []);
        position := start;
        return None;
      }
      var current := consumed.value;
      var negative := false;
      if current == MINUS {
        negative := true;
        consumed := Consume();
        if consumed.None? {
          NoIntByRun(data, start, []);
          position := start;
          return None;
        }
        current := consumed.value;
      }
      if current == LETTER_E {
        NoIntByRun(data, start, []);
        position := start;
        return None;
      }
      if negative && current == ZERO {
        NoIntByRun(data, start, []);
        position := start;
        return None;
      }
      var read;
      ghost var run;
      read, current, run := ReadMagnitude(start, negative, current);
      if read.None? {
        position := start;
        return None;
      }
      var magnitude := read.value;
      if current == LETTER_E {
        var value: Int64 := 0;
        if negative {
          if magnitude == 0x7FFF_FFFF_FFFF_FFFF + 1 {
            value := -0x8000_0000_0000_0000;
          } else {
            value := magnitude as Int64;
            value := value * (-1);
          }
        } else {
          value := magnitude as Int64;
        }
        NumeralZero(run);
        CanonicalIsDecimal(run);
        IsPrintedInt(data, start, run, value as int);
        return Some(value);
      }
      NoIntByRun(data, start, run);
      position := start;
      return None;
    }

    /** The list or dictionary under construction is given up: its elements, then its array. */
    method Discard(heap: Allocator, p: Payload, ghost base: multiset<Block>)
      requires heap.Valid() && heap.live == base + PayloadBlocks(p)
      modifies heap`live
      ensures heap.Valid() && heap.live == base
    {
      hide ItemBlocks, FieldBlocks, Own, Allocator.Valid;
      match p {
        case ObjectList(items, capacity, block) =>
          heap.FreeItems(items);
          heap.Free(block);
        case Dictionary(fields, capacity, block) =>
          heap.FreeFields(fields);
          heap.Free(block);
        case _ =>
      }
    }

    /** A list whose array has the right capacity, within the limit. */
    ghost predicate ItemsFit(list: Payload) {
      list.ObjectList? && Fits(list.capacity, |list.items|, list.block) && list.capacity <= MAX_ITEMS
    }

    ghost predicate FieldsFit(dict: Payload) {
      dict.Dictionary? && Fits(dict.capacity, |dict.fields|, dict.block) && dict.capacity <= MAX_ENTRIES
    }

    /** There is room for one more, or there is after doubling, or the limit of the grammar has been reached. */
    lemma {:induction false} OneMoreItem(list: Payload, o: Object)
      requires ItemsFit(list)
      ensures |list.items| != list.capacity ==> ItemsFit(list.(items := list.items + [o]))
      ensures |list.items| == list.capacity && !TooMany(list.capacity, OBJECT_SIZE) ==>
                forall b: Block ::
                  ItemsFit(ObjectList(list.items + [o], if list.capacity == 0 then 1 else 2 * list.capacity, Some(b)))
      ensures |list.items| == list.capacity && TooMany(list.capacity, OBJECT_SIZE) ==> |list.items| >= MAX_ITEMS
    {
      FitsOneMore(list.capacity, |list.items|, list.block);
      if list.items != [] {
        LimitsAreExact(list.capacity);
      }
    }

    lemma {:induction false} OneMoreField(dict: Payload, f: Field)
      requires FieldsFit(dict)
      ensures |dict.fields| != dict.capacity ==> FieldsFit(dict.(fields := dict.fields + [f]))
      ensures |dict.fields| == dict.capacity && !TooMany(dict.capacity, FIELD_SIZE) ==>
                forall b: Block ::
                  FieldsFit(Dictionary(dict.fields + [f], if dict.capacity == 0 then 1 else 2 * dict.capacity, Some(b)))
      ensures |dict.fields| == dict.capacity && TooMany(dict.capacity, FIELD_SIZE) ==> |dict.fields| >= MAX_ENTRIES
    {
      FitsOneMore(dict.capacity, |dict.fields|, dict.block);
      if dict.fields != [] {
        LimitsAreExact(dict.capacity);
      }
    }

    /** Stores a parsed item in the array, doubling it first if it is full; on refusal everything is released. */
    method AddItem(heap: Allocator, list: Payload, o: Object, ghost base: multiset<Block>) returns (r: Option<Payload>)
      requires list.ObjectList? && ItemsFit(list)
      requires heap.Valid() && heap.live == base + PayloadBlocks(list) + Blocks(o)
      modifies heap
      ensures heap.Valid() && heap.Refusals() <= old(heap.Refusals())
      ensures r.Some? ==>
                && r.value.ObjectList? && r.value.items == list.items + [o] && ItemsFit(r.value)
                && heap.live == base + PayloadBlocks(r.value)
      ensures r.None? ==> heap.live == base
      ensures r.None? ==> heap.Refusals() < old(heap.Refusals()) || |list.items| >= MAX_ITEMS
    {
      hide Blocks, PayloadBlocks, ItemBlocks, Own, ItemsFit, FieldsFit, TooMany, FaultsIn, Allocator.Valid;
      var grown := list;
      OneMoreItem(list, o);
      ItemBlocksAppend(list.items, o);
      ListOwns(list.items, list.capacity, list.block);
      if |list.items| == list.capacity {
        Replaced(base, Own(list.block), ItemBlocks(list.items), Blocks(o), Own(list.block));
        var ok, newCapacity, newBlock := heap.Grow(list.capacity, list.block, OBJECT_SIZE);
        Replaced(base, Own(list.block), ItemBlocks(list.items), Blocks(o), Own(newBlock));
        if !ok {
          var _ := heap.FreeObject(o);
          Discard(heap, list, base);
          return None;
        }
        grown := ObjectList(list.items, newCapacity, newBlock);
      }
      ListOwns(grown.items + [o], grown.capacity, grown.block);
      return Some(ObjectList(grown.items + [o], grown.capacity, grown.block));
    }

    /** The items ts have been read from the list at start and are stored in the list under construction. */
    ghost predicate ListSoFar(list: Payload, ts: seq<Term>, start: nat, next: nat) {
      && list.ObjectList? && WellFormedItems(ts)
      && start < |data| && data[start] == LETTER_L
      && Has(data, start + 1, PrintItems(ts))
      && RepresentsItems(list.items, ts, start + 1)
      && ItemsFit(list)
      && next == start + 1 + |PrintItems(ts)| <= |data|
    }

    lemma {:induction false} ListEmpty(start: nat)
      requires start < |data| && data[start] == LETTER_L
      ensures ListSoFar(ObjectList([], 0, None), [], start, start + 1)
      ensures PayloadBlocks(ObjectList([], 0, None)) == multiset{}
    {
      HasNothing(data, start + 1);
    }

    lemma {:induction false} ListGrown(list: Payload, grown: Payload, ts: seq<Term>, start: nat, at: nat,
        o: Object, t: Term)
      requires ListSoFar(list, ts, start, at)
      requires WellFormed(t) && Has(data, at, Print(t)) && Represents(o, t, at)
      requires grown.ObjectList? && grown.items == list.items + [o]
      requires ItemsFit(grown)
      ensures ListSoFar(grown, ts + [t], start, at + |Print(t)|)
    {
      hide Has, Represents, Print, PrintItems, WellFormed, ItemsFit;
      PrintItemsAppend(ts, t);
      HasConcat(data, start + 1, PrintItems(ts), Print(t));
      HasBound(data, at, Print(t));
      ItemsAppend(list.items, ts, start + 1, o, t);
    }

    lemma {:induction false} ListDone(list: Payload, ts: seq<Term>, start: nat, next: nat)
      requires ListSoFar(list, ts, start, next) && next < |data| && data[next] == LETTER_E
      ensures WellFormed(List(ts)) && Has(data, start, Print(List(ts)))
      ensures |Print(List(ts))| == next + 1 - start
      ensures Represents(Object(list, start, next + 1 - start), List(ts), start)
    {
      hide Has, Represents, PrintItems;
      HasBody(data, start, LETTER_L, PrintItems(ts));
      RepresentsList(Object(list, start, next + 1 - start), ts, start);
    }

    lemma {:induction false} ListStuck(list: Payload, ts: seq<Term>, start: nat, next: nat)
      requires ListSoFar(list, ts, start, next) && NoTerm(data, next)
      requires next < |data| ==> data[next] != LETTER_E
      ensures NoList(data, start)
    {
      hide Has, Represents, Print, PrintItems, WellFormed, ItemsFit, NoTerm, NoList;
      NoListByItems(data, start, ts);
    }

    lemma {:induction false} ListTooLong(list: Payload, ts: seq<Term>, start: nat, next: nat)
      requires ListSoFar(list, ts, start, next) && |list.items| >= MAX_ITEMS
      requires next < |data| && data[next] != LETTER_E
      ensures NoList(data, start)
    {
      hide Has, Represents, PrintItems, WellFormed, Fits, NoList;
      NoListByCount(data, start, ts);
    }

    method ParseList(heap: Allocator) returns (r: Option<Payload>, ghost ts: seq<Term>)
      requires Valid() && heap.Valid()
      modifies this, heap
      ensures Valid() && heap.Valid() && heap.Refusals() <= old(heap.Refusals())
      ensures r.Some? ==>
                && WellFormed(List(ts)) && Has(data, old(position), Print(List(ts)))
                && position == old(position) + |Print(List(ts))|
                && Represents(Object(r.value, old(position), |Print(List(ts))|), List(ts), old(position))
                && heap.live == old(heap.live) + PayloadBlocks(r.value)
      ensures r.None? ==> position == old(position) && heap.live == old(heap.live)
      ensures r.None? ==>
                heap.Refusals() < old(heap.Refusals()) || NoList(data, position)
      decreases |data| - position, 0
    {
      hide Has, Represents, Print, PrintItems, WellFormed, ItemsFit, NoTerm, NoList, Own, FaultsIn, Allocator.Valid;
      ts := [];
      var start := position;
      ghost var base := heap.live;
      var consumed := Consume();
      if consumed.None? || consumed.value != LETTER_L {
        NoBodyByLetter(data, start);
        position := start;
        return None, [];
      }
      var list := ObjectList([], 0, None);
      ListEmpty(start);
      var peeked := Peek();
      if peeked.None? {
        NothingAtEnd(data);
        ListStuck(list, [], start, position);
        position := start;
        return None, [];
      }
      var current := peeked.value;
      while current != LETTER_E
        invariant Valid() && heap.Valid() && heap.Refusals() <= old(heap.Refusals())
        invariant start < position < |data| && current == data[position]
        invariant ListSoFar(list, ts, start, position)
        invariant heap.live == base + PayloadBlocks(list)
        decreases |data| - position
      {
        var grown;
        ghost var t;
        grown, t := ParseItem(heap, list, ts, start, base);
        if grown.None? {
          position := start;
          return None, [];
        }
        list, ts := grown.value, ts + [t];
        peeked := Peek();
        if peeked.None? {
          NothingAtEnd(data);
          ListStuck(list, ts, start, position);
          Discard(heap, list, base);
          position := start;
          return None, [];
        }
        current := peeked.value;
      }
      ListDone(list, ts, start, position);
      consumed := Consume();
      return Some(list), ts;
    }

    /** One round of the list loop: an item, and the store. */
    method ParseItem(heap: Allocator, list: Payload, ghost ts: seq<Term>, ghost start: nat,
        ghost base: multiset<Block>)
      returns (r: Option<Payload>, ghost t: Term)
      requires Valid() && heap.Valid() && position < |data| && data[position] != LETTER_E
      requires ListSoFar(list, ts, start, position) && heap.live == base + PayloadBlocks(list)
      modifies this, heap
      ensures Valid() && heap.Valid() && heap.Refusals() <= old(heap.Refusals())
      ensures r.Some? ==>
                && old(position) < position
                && ListSoFar(r.value, ts + [t], start, position) && heap.live == base + PayloadBlocks(r.value)
      ensures r.None? ==> heap.live == base
      ensures r.None? ==> heap.Refusals() < old(heap.Refusals()) || NoList(data, start)
      decreases |data| - position, 3
    {
      hide Has, Represents, Print, PrintItems, WellFormed, ItemsFit, NoTerm, NoList, Own, FaultsIn, Allocator.Valid;
      ghost var at := position;
      var item;
      item, t := ParseBuffer(heap);
      if item.None? {
        if NoTerm(data, position) {
          ListStuck(list, ts, start, position);
        }
        Discard(heap, list, base);
        return None, t;
      }
      r := AddItem(heap, list, item.value, base);
      if r.Some? {
        ListGrown(list, r.value, ts, start, at, item.value, t);
      } else if heap.Refusals() == old(heap.Refusals()) {
        ListTooLong(list, ts, start, at);
      }
    }

    // ----- dictionaries -----

    method AddField(heap: Allocator, dict: Payload, f: Field, ghost base: multiset<Block>) returns (r: Option<Payload>)
      requires dict.Dictionary? && FieldsFit(dict)
      requires heap.Valid() && heap.live == base + PayloadBlocks(dict) + Blocks(f.value)
      modifies heap
      ensures heap.Valid() && heap.Refusals() <= old(heap.Refusals())
      ensures r.Some? ==>
                && r.value.Dictionary? && r.value.fields == dict.fields + [f] && FieldsFit(r.value)
                && heap.live == base + PayloadBlocks(r.value)
      ensures r.None? ==> heap.live == base
      ensures r.None? ==> heap.Refusals() < old(heap.Refusals()) || |dict.fields| >= MAX_ENTRIES
    {
      hide Blocks, PayloadBlocks, FieldBlocks, Own, ItemsFit, FieldsFit, TooMany, FaultsIn, Allocator.Valid;
      var grown := dict;
      OneMoreField(dict, f);
      FieldBlocksAppend(dict.fields, f);
      DictionaryOwns(dict.fields, dict.capacity, dict.block);
      if |dict.fields| == dict.capacity {
        Replaced(base, Own(dict.block), FieldBlocks(dict.fields), Blocks(f.value), Own(dict.block));
        var ok, newCapacity, newBlock := heap.Grow(dict.capacity, dict.block, FIELD_SIZE);
        Replaced(base, Own(dict.block), FieldBlocks(dict.fields), Blocks(f.value), Own(newBlock));
        if !ok {
          var _ := heap.FreeObject(f.value);
          Discard(heap, dict, base);
          return None;
        }
        grown := Dictionary(dict.fields, newCapacity, newBlock);
      }
      DictionaryOwns(grown.fields + [f], grown.capacity, grown.block);
      return Some(Dictionary(grown.fields + [f], grown.capacity, grown.block));
    }

    /** The entries es have been read from the dictionary at start and are stored in the one under construction. */
    ghost predicate DictSoFar(dict: Payload, es: seq<Entry>, start: nat, next: nat) {
      && dict.Dictionary? && WellFormedEntries(es) && Ascending(es)
      && start < |data| && data[start] == LETTER_D
      && Has(data, start + 1, PrintEntries(es))
      && RepresentsFields(dict.fields, es, start + 1)
      && FieldsFit(dict)
      && next == start + 1 + |PrintEntries(es)| <= |data|
    }

    lemma {:induction false} DictEmpty(start: nat)
      requires start < |data| && data[start] == LETTER_D
      ensures DictSoFar(Dictionary([], 0, None), [], start, start + 1)
      ensures PayloadBlocks(Dictionary([], 0, None)) == multiset{}
    {
      HasNothing(data, start + 1);
    }

    lemma {:induction false} DictGrown(dict: Payload, grown: Payload, es: seq<Entry>, start: nat, at: nat,
        f: Field, e: Entry)
      requires DictSoFar(dict, es, start, at)
      requires WellFormedEntry(e) && Follows(es, e.key)
      requires Has(data, at, PrintEntry(e)) && RepresentsField(f, e, at)
      requires grown.Dictionary? && grown.fields == dict.fields + [f]
      requires FieldsFit(grown)
      ensures DictSoFar(grown, es + [e], start, at + |PrintEntry(e)|)
    {
      hide Has, RepresentsField, PrintEntry, PrintEntries, WellFormedEntry, FieldsFit, Less;
      PrintEntriesAppend(es, e);
      HasConcat(data, start + 1, PrintEntries(es), PrintEntry(e));
      HasBound(data, at, PrintEntry(e));
      FieldsAppend(dict.fields, es, start + 1, f, e);
    }

    /** A key and the value after it make an entry. */
    lemma {:induction false} EntryRead(at: nat, key: Segment, digits: Bytes, content: Bytes, o: Object, t: Term)
      requires WellFormedStr(digits, content) && Has(data, at, PrintStr(digits, content))
      requires key == Segment(at + |digits| + 1, |content|)
      requires WellFormed(t) && Has(data, at + |PrintStr(digits, content)|, Print(t))
      requires Represents(o, t, at + |PrintStr(digits, content)|)
      ensures var e := Entry(digits, content, t);
              && WellFormedEntry(e) && Has(data, at, PrintEntry(e))
              && RepresentsField(Field(key, o), e, at)
              && |PrintEntry(e)| == |PrintStr(digits, content)| + |Print(t)|
    {
      hide Has, PrintStr, Print;
      HasConcat(data, at, PrintStr(digits, content), Print(t));
    }

    lemma {:induction false} DictDone(dict: Payload, es: seq<Entry>, start: nat, next: nat)
      requires DictSoFar(dict, es, start, next) && next < |data| && data[next] == LETTER_E
      ensures WellFormed(Dict(es)) && Has(data, start, Print(Dict(es)))
      ensures |Print(Dict(es))| == next + 1 - start
      ensures Represents(Object(dict, start, next + 1 - start), Dict(es), start)
    {
      hide Has, Represents, PrintEntries, IsPowerOfTwo, Less;
      HasBody(data, start, LETTER_D, PrintEntries(es));
      RepresentsDict(Object(dict, start, next + 1 - start), es, start);
    }

    lemma {:induction false} DictStuck(dict: Payload, es: seq<Entry>, start: nat, next: nat)
      requires DictSoFar(dict, es, start, next) && (NoStr(data, next) || NoEntryAfter(data, next, es))
      requires next < |data| ==> data[next] != LETTER_E
      ensures NoDict(data, start)
    {
      hide Has, RepresentsFields, PrintEntries, WellFormedEntries, FieldsFit, NoEntryAfter, NoDict, NoStr, Ascending;
      if NoStr(data, next) {
        NoEntryByKey(data, next, es);
      }
      NoDictByEntries(data, start, es);
    }

    lemma {:induction false} DictTooLong(dict: Payload, es: seq<Entry>, start: nat, next: nat)
      requires DictSoFar(dict, es, start, next) && |dict.fields| >= MAX_ENTRIES
      requires next < |data| && data[next] != LETTER_E
      ensures NoDict(data, start)
    {
      hide Has, RepresentsField, PrintEntries, WellFormedEntry, Fits, Less, NoDict;
      NoDictByCount(data, start, es);
    }

    /** The check of a key against its predecessor, on the recorded segments. */
    method KeyInOrder(dict: Payload, key: Segment, ghost es: seq<Entry>, ghost start: nat, ghost next: nat,
      ghost content: Bytes)
      returns (r: bool)
      requires DictSoFar(dict, es, start, next)
      requires key.offset + key.length <= |data| && SegmentBytes(data, key) == content
      ensures r <==> Follows(es, content)
    {
      hide Has, RepresentsField, PrintEntries, Less, InOrder;
      if |dict.fields| > 0 {
        KeyBytes(data, dict.fields, es, start + 1, |es| - 1);
        var previous := dict.fields[|dict.fields| - 1].key;
        InOrderIsLess(SegmentBytes(data, previous), content);
        return InOrder(SegmentBytes(data, previous), SegmentBytes(data, key));
      }
      return true;
    }

    method ParseDict(heap: Allocator) returns (r: Option<Payload>, ghost es: seq<Entry>)
      requires Valid() && heap.Valid()
      modifies this, heap
      ensures Valid() && heap.Valid() && heap.Refusals() <= old(heap.Refusals())
      ensures r.Some? ==>
                && WellFormed(Dict(es)) && Has(data, old(position), Print(Dict(es)))
                && position == old(position) + |Print(Dict(es))|
                && Represents(Object(r.value, old(position), |Print(Dict(es))|), Dict(es), old(position))
                && heap.live == old(heap.live) + PayloadBlocks(r.value)
      ensures r.None? ==> position == old(position) && heap.live == old(heap.live)
      ensures r.None? ==>
                heap.Refusals() < old(heap.Refusals()) || NoDict(data, position)
      decreases |data| - position, 0
    {
      hide Has, Represents, RepresentsField, Print, PrintEntries, PrintEntry, PrintStr, WellFormed, WellFormedEntry,
        FieldsFit, NoTerm, NoStr, NoDict, NoEntryAfter, Own, WellFormedStr, Follows, FaultsIn;
      es := [];
      var start := position;
      ghost var base := heap.live;
      var consumed := Consume();
      if consumed.None? || consumed.value != LETTER_D {
        NoBodyByLetter(data, start);
        position := start;
        return None, [];
      }
      var dict := Dictionary([], 0, None);
      DictEmpty(start);
      var peeked := Peek();
      if peeked.None? {
        NothingAtEnd(data);
        DictStuck(dict, [], start, position);
        position := start;
        return None, [];
      }
      var current := peeked.value;
      while current != LETTER_E
        invariant Valid() && heap.Valid() && heap.Refusals() <= old(heap.Refusals())
        invariant start < position < |data| && current == data[position]
        invariant DictSoFar(dict, es, start, position)
        invariant heap.live == base + PayloadBlocks(dict)
        decreases |data| - position
      {
        var grown;
        ghost var e;
        grown, e := ParseField(heap, dict, es, start, base);
        if grown.None? {
          position := start;
          return None, [];
        }
        dict, es := grown.value, es + [e];
        peeked := Peek();
        if peeked.None? {
          NothingAtEnd(data);
          DictStuck(dict, es, start, position);
          Discard(heap, dict, base);
          position := start;
          return None, [];
        }
        current := peeked.value;
      }
      DictDone(dict, es, start, position);
      consumed := Consume();
      return Some(dict), es;
    }

    /** One round of the dictionary loop: a key, the order check, a value, and the store. */
    method ParseField(heap: Allocator, dict: Payload, ghost es: seq<Entry>, ghost start: nat,
        ghost base: multiset<Block>)
      returns (r: Option<Payload>, ghost e: Entry)
      requires Valid() && heap.Valid() && position < |data| && data[position] != LETTER_E
      requires DictSoFar(dict, es, start, position) && heap.live == base + PayloadBlocks(dict)
      modifies this, heap
      ensures Valid() && heap.Valid() && heap.Refusals() <= old(heap.Refusals())
      ensures r.Some? ==>
                && old(position) < position
                && DictSoFar(r.value, es + [e], start, position) && heap.live == base + PayloadBlocks(r.value)
      ensures r.None? ==> heap.live == base
      ensures r.None? ==> heap.Refusals() < old(heap.Refusals()) || NoDict(data, start)
      decreases |data| - position, 3
    {
      hide Has, Represents, RepresentsField, Print, PrintEntries, PrintEntry, PrintStr, WellFormed, WellFormedEntry,
        FieldsFit, NoTerm, NoStr, NoDict, NoEntryAfter, Own, WellFormedStr, Follows, Ascending;
      e := Entry([], [], Int(0));
      ghost var at := position;
      var key;
      ghost var digits, content;
      key, digits, content := ParseString();
      if key.None? {
        DictStuck(dict, es, start, at);
        Discard(heap, dict, base);
        return None, e;
      }
      var inOrder := KeyInOrder(dict, key.value, es, start, at, content);
      if !inOrder {
        NoEntryByOrderOrValue(data, at, es, digits, content);
        DictStuck(dict, es, start, at);
        Discard(heap, dict, base);
        return None, e;
      }
      var value;
      ghost var t;
      value, t := ParseBuffer(heap);
      if value.None? {
        if NoTerm(data, position) {
          NoEntryByOrderOrValue(data, at, es, digits, content);
          DictStuck(dict, es, start, at);
        }
        Discard(heap, dict, base);
        return None, e;
      }
      var field := Field(key.value, value.value);
      r := AddField(heap, dict, field, base);
      if r.Some? {
        e := Entry(digits, content, t);
        EntryRead(at, key.value, digits, content, value.value, t);
        DictGrown(dict, r.value, es, start, at, field, e);
      } else if heap.Refusals() == old(heap.Refusals()) {
        DictTooLong(dict, es, start, at);
      }
    }

    method ParseBuffer(heap: Allocator) returns (r: Option<Object>, ghost t: Term)
      requires Valid() && heap.Valid()
      modifies this, heap
      ensures Valid() && heap.Valid() && heap.Refusals() <= old(heap.Refusals())
      ensures r.Some? ==>
                && WellFormed(t) && Has(data, old(position), Print(t))
                && position == old(position) + |Print(t)| >= old(position) + 2
                && Represents(r.value, t, old(position))
                && heap.live == old(heap.live) + Blocks(r.value)
      ensures r.None? ==> position == old(position) && heap.live == old(heap.live)
      ensures r.None? ==>
                heap.Refusals() < old(heap.Refusals()) || NoTerm(data, position)
      decreases |data| - position, 1
    {
      hide Has, Print, PrintInt, PrintStr, WellFormed, Fits, NoTerm, NoStr, NoInt, NoList, NoDict, WellFormedStr;
      t := Int(0);
      var start := position;
      var peeked := Peek();
      if peeked.None? {
        NothingAtEnd(data);
        return None, t;
      }
      var kind := DetermineKind(peeked.value);
      var payload: Option<Payload> := None;
      match kind {
        case InvalidKind =>
          NoTermByKind(data, start);
          return None, t;
        case StringKind =>
          var segment;
          ghost var digits, content;
          segment, digits, content := ParseString();
          if segment.Some? {
            RepresentsStr(start, digits, content);
            payload, t := Some(ByteString(segment.value)), Str(digits, content);
          }
        case IntegerKind =>
          var n := ParseInteger();
          if n.Some? {
            RepresentsInt(start, n.value as int);
            payload, t := Some(Integer(n.value as int)), Int(n.value as int);
          }
        case ListKind =>
          ghost var ts;
          payload, ts := ParseList(heap);
          t := List(ts);
        case DictionaryKind =>
          ghost var es;
          payload, es := ParseDict(heap);
          t := Dict(es);
      }
      if payload.None? {
        position := start;
        if heap.Refusals() == old(heap.Refusals()) {
          NoTermByKind(data, start);
        }
        return None, t;
      }
      PrintStart(t);
      r := Some(Object(payload.value, start, position - start));
    }
  }
}
