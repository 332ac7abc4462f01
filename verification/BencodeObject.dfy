/**
 The object tree the parser builds: bencode_object_t with its segments, growing
 arrays and byte spans. Represents ties a tree to the term it was read from,
 without mentioning how it was read; the lemmas say what follows for spans,
 sizes and owned memory.
 */
module BencodeObject {
  import opened ByteStrings
  import opened BencodeGrammar

  type Block = nat

  // A pointer into the input with a length, as an offset.
  datatype Segment = Segment(offset: nat, length: nat)

  datatype Payload =
    | Invalid
    | Integer(n: int)
    | ByteString(segment: Segment)
    | ObjectList(items: seq<Object>, capacity: nat, block: Option<Block>)
    | Dictionary(fields: seq<Field>, capacity: nat, block: Option<Block>)

  datatype Object = Object(payload: Payload, startOffset: nat, encodedLength: nat)

  // bencode_data_type_t
  datatype Kind = StringKind | IntegerKind | ListKind | DictionaryKind | InvalidKind

  function KindOf(p: Payload): Kind {
    match p
    case Invalid => InvalidKind
    case Integer(_) => IntegerKind
    case ByteString(_) => StringKind
    case ObjectList(_, _, _) => ListKind
    case Dictionary(_, _, _) => DictionaryKind
  }

  datatype Field = Field(key: Segment, value: Object)

  predicate IsPowerOfTwo(c: nat) {
    c == 1 || (c >= 2 && c % 2 == 0 && IsPowerOfTwo(c / 2))
  }

  /** The array of count elements has the capacity that doubling from one arrives at. */
  predicate Fits(capacity: nat, count: nat, block: Option<Block>) {
    if count == 0 then capacity == 0 && block.None?
    else IsPowerOfTwo(capacity) && count <= capacity < 2 * count && block.Some?
  }

  /** Doubling a full array, or none, keeps the capacity right for one element more. */
  lemma {:induction false} FitsOneMore(capacity: nat, count: nat, block: Option<Block>)
    requires Fits(capacity, count, block)
    ensures count < capacity ==> Fits(capacity, count + 1, block)
    ensures count == capacity ==>
              forall b: Block :: Fits(if capacity == 0 then 1 else 2 * capacity, count + 1, Some(b))
    ensures count <= capacity
  {
  }

  lemma {:induction false} HalfOrLess(a: nat, b: nat)
    requires IsPowerOfTwo(a) && IsPowerOfTwo(b) && a < b
    ensures 2 * a <= b
  {
    if a > 1 {
      HalfOrLess(a / 2, b / 2);
    }
  }

  lemma {:induction false} Doubling(c: nat)
    requires IsPowerOfTwo(c)
    ensures IsPowerOfTwo(2 * c)
  {
  }

  lemma {:induction false} EightDoublings(c: nat)
    requires IsPowerOfTwo(c)
    ensures IsPowerOfTwo(2 * c) && IsPowerOfTwo(4 * c) && IsPowerOfTwo(0x100 * c)
  {
    hide IsPowerOfTwo;
    Doubling(c);
    Doubling(2 * c);
    Doubling(4 * c);
    Doubling(8 * c);
    Doubling(0x10 * c);
    Doubling(0x20 * c);
    Doubling(0x40 * c);
    Doubling(0x80 * c);
  }

  /** The object describes term t printed at position at of the input. */
  ghost predicate Represents(o: Object, t: Term, at: nat)
    decreases t
  {
    && o.startOffset == at
    && o.encodedLength == |Print(t)|
    && match t
       case Int(n) => o.payload == Integer(n)
       case Str(digits, content) => o.payload == ByteString(Segment(at + |digits| + 1, |content|))
       case List(items) =>
         && o.payload.ObjectList?
         && Fits(o.payload.capacity, |items|, o.payload.block)
         && |o.payload.items| == |items|
         && forall i | 0 <= i < |items| ::
              Represents(o.payload.items[i], items[i], at + 1 + |PrintItems(items[..i])|)
       case Dict(entries) =>
         && o.payload.Dictionary?
         && Fits(o.payload.capacity, |entries|, o.payload.block)
         && |o.payload.fields| == |entries|
         && forall i | 0 <= i < |entries| ::
              RepresentsField(o.payload.fields[i], entries[i], at + 1 + |PrintEntries(entries[..i])|)
  }

  ghost predicate RepresentsField(f: Field, e: Entry, at: nat)
    decreases e
  {
    && f.key == Segment(at + |e.digits| + 1, |e.key|)
    && Represents(f.value, e.value, at + |PrintStr(e.digits, e.key)|)
  }

  /** The items built so far describe the terms ts printed one after the other from position at. */
  ghost predicate RepresentsItems(items: seq<Object>, ts: seq<Term>, at: nat) {
    && |items| == |ts|
    && forall i | 0 <= i < |ts| :: Represents(items[i], ts[i], at + |PrintItems(ts[..i])|)
  }

  ghost predicate RepresentsFields(fields: seq<Field>, es: seq<Entry>, at: nat) {
    && |fields| == |es|
    && forall i | 0 <= i < |es| :: RepresentsField(fields[i], es[i], at + |PrintEntries(es[..i])|)
  }

  lemma {:induction false} RepresentsInt(at: nat, n: int)
    ensures Represents(Object(Integer(n), at, |PrintInt(n)|), Int(n), at)
    ensures WellFormed(Int(n)) <==> IsInt64(n)
    ensures Print(Int(n)) == PrintInt(n) && PayloadBlocks(Integer(n)) == multiset{}
  {
  }

  lemma {:induction false} RepresentsStr(at: nat, digits: Bytes, content: Bytes)
    ensures var segment := Segment(at + |digits| + 1, |content|);
            && Represents(Object(ByteString(segment), at, |PrintStr(digits, content)|), Str(digits, content), at)
            && PayloadBlocks(ByteString(segment)) == multiset{}
    ensures WellFormed(Str(digits, content)) <==> WellFormedStr(digits, content)
    ensures Print(Str(digits, content)) == PrintStr(digits, content)
  {
  }

  /** Representation of a list or dictionary, in terms of its elements. */
  lemma {:induction false} RepresentsList(o: Object, ts: seq<Term>, at: nat)
    ensures Represents(o, List(ts), at) <==>
            && o.startOffset == at
            && o.encodedLength == |PrintItems(ts)| + 2
            && o.payload.ObjectList?
            && Fits(o.payload.capacity, |ts|, o.payload.block)
            && RepresentsItems(o.payload.items, ts, at + 1)
  {
    hide Fits, PrintItems;
  }

  lemma {:induction false} RepresentsDict(o: Object, es: seq<Entry>, at: nat)
    ensures Represents(o, Dict(es), at) <==>
            && o.startOffset == at
            && o.encodedLength == |PrintEntries(es)| + 2
            && o.payload.Dictionary?
            && Fits(o.payload.capacity, |es|, o.payload.block)
            && RepresentsFields(o.payload.fields, es, at + 1)
  {
    hide Fits, PrintEntries;
  }

  lemma {:induction false} ItemsAppend(items: seq<Object>, ts: seq<Term>, at: nat, o: Object, t: Term)
    requires RepresentsItems(items, ts, at) && Represents(o, t, at + |PrintItems(ts)|)
    ensures RepresentsItems(items + [o], ts + [t], at)
  {
    hide Represents, Print, PrintItems;
    forall i | 0 <= i < |ts + [t]|
      ensures Represents((items + [o])[i], (ts + [t])[i], at + |PrintItems((ts + [t])[..i])|)
    {
      assert (ts + [t])[..i] == ts[..i];
      if i == |ts| {
        assert ts[..i] == ts;
      }
    }
  }

  lemma {:induction false} FieldsAppend(fields: seq<Field>, es: seq<Entry>, at: nat, f: Field, e: Entry)
    requires RepresentsFields(fields, es, at) && RepresentsField(f, e, at + |PrintEntries(es)|)
    ensures RepresentsFields(fields + [f], es + [e], at)
  {
    hide RepresentsField, PrintEntry, PrintEntries;
    forall i | 0 <= i < |es + [e]|
      ensures RepresentsField((fields + [f])[i], (es + [e])[i], at + |PrintEntries((es + [e])[..i])|)
    {
      assert (es + [e])[..i] == es[..i];
      if i == |es| {
        assert es[..i] == es;
      }
    }
  }

  // ----- owned memory -----

  function Own(block: Option<Block>): multiset<Block> {
    if block.Some? then multiset{block.value} else multiset{}
  }

  /** The heap blocks reachable from o, each as often as it is reachable. */
  function Blocks(o: Object): multiset<Block>
    decreases o
  {
    PayloadBlocks(o.payload)
  }

  function PayloadBlocks(p: Payload): multiset<Block>
    decreases p
  {
    match p
    case ObjectList(items, _, block) => Own(block) + ItemBlocks(items)
    case Dictionary(fields, _, block) => Own(block) + FieldBlocks(fields)
    case _ => multiset{}
  }

  function ItemBlocks(items: seq<Object>): multiset<Block>
    decreases items
  {
    if items == [] then multiset{} else Blocks(items[0]) + ItemBlocks(items[1..])
  }

  function FieldBlock(f: Field): multiset<Block>
    decreases f
  {
    Blocks(f.value)
  }

  function FieldBlocks(fields: seq<Field>): multiset<Block>
    decreases fields
  {
    if fields == [] then multiset{} else FieldBlock(fields[0]) + FieldBlocks(fields[1..])
  }

  lemma {:induction false} ItemBlocksAppend(items: seq<Object>, o: Object)
    ensures ItemBlocks(items + [o]) == ItemBlocks(items) + Blocks(o)
  {
    if items == [] {
      assert items + [o] == [o] && [o][1..] == [];
    } else {
      ItemBlocksAppend(items[1..], o);
      assert (items + [o])[1..] == items[1..] + [o];
    }
  }

  lemma {:induction false} FieldBlocksAppend(fields: seq<Field>, f: Field)
    ensures FieldBlocks(fields + [f]) == FieldBlocks(fields) + Blocks(f.value)
  {
    if fields == [] {
      assert fields + [f] == [f] && [f][1..] == [];
    } else {
      FieldBlocksAppend(fields[1..], f);
      assert (fields + [f])[1..] == fields[1..] + [f];
    }
  }

  lemma {:induction false} ListOwns(items: seq<Object>, capacity: nat, block: Option<Block>)
    ensures PayloadBlocks(ObjectList(items, capacity, block)) == Own(block) + ItemBlocks(items)
  {
  }

  lemma {:induction false} DictionaryOwns(fields: seq<Field>, capacity: nat, block: Option<Block>)
    ensures PayloadBlocks(Dictionary(fields, capacity, block)) == Own(block) + FieldBlocks(fields)
  {
  }

  // ----- spans -----

  ghost function TermChild(t: Term, i: nat): Option<Term> {
    match t
    case List(items) => if i < |items| then Some(items[i]) else None
    case Dict(entries) => if i < |entries| then Some(entries[i].value) else None
    case _ => None
  }

  function Child(o: Object, i: nat): Option<Object> {
    match o.payload
    case ObjectList(items, _, _) => if i < |items| then Some(items[i]) else None
    case Dictionary(fields, _, _) => if i < |fields| then Some(fields[i].value) else None
    case _ => None
  }

  /** The node reached from t by a path of child numbers; a dictionary's children are its values. */
  ghost function TermAt(t: Term, path: seq<nat>): Option<Term>
    decreases |path|
  {
    if path == [] then Some(t)
    else var child := TermChild(t, path[0]);
         if child.None? then None else TermAt(child.value, path[1..])
  }

  function ObjectAt(o: Object, path: seq<nat>): Option<Object>
    decreases |path|
  {
    if path == [] then Some(o)
    else var child := Child(o, path[0]);
         if child.None? then None else ObjectAt(child.value, path[1..])
  }

  lemma {:induction false} ItemPlace(data: Bytes, pos: nat, ts: seq<Term>, i: nat)
    requires Has(data, pos, PrintItems(ts)) && i < |ts|
    ensures Has(data, pos + |PrintItems(ts[..i])|, Print(ts[i]))
    ensures |PrintItems(ts[..i])| + |Print(ts[i])| + |PrintItems(ts[i + 1..])| == |PrintItems(ts)|
    decreases i
  {
    hide Has;
    HasConcat(data, pos, Print(ts[0]), PrintItems(ts[1..]));
    if i > 0 {
      ItemPlace(data, pos + |Print(ts[0])|, ts[1..], i - 1);
      assert ts[..i][0] == ts[0] && ts[..i][1..] == ts[1..][..i - 1];
      assert ts[1..][i..] == ts[i + 1..];
    }
  }

  lemma {:induction false} EntryPlace(data: Bytes, pos: nat, es: seq<Entry>, i: nat)
    requires Has(data, pos, PrintEntries(es)) && i < |es|
    ensures Has(data, pos + |PrintEntries(es[..i])|, PrintEntry(es[i]))
    ensures |PrintEntries(es[..i])| + |PrintEntry(es[i])| + |PrintEntries(es[i + 1..])| == |PrintEntries(es)|
    decreases i
  {
    hide Has;
    HasConcat(data, pos, PrintEntry(es[0]), PrintEntries(es[1..]));
    if i > 0 {
      EntryPlace(data, pos + |PrintEntry(es[0])|, es[1..], i - 1);
      assert es[..i][0] == es[0] && es[..i][1..] == es[1..][..i - 1];
      assert es[1..][i..] == es[i + 1..];
    }
  }

  lemma {:induction false} RepresentsSpan(o: Object, t: Term, at: nat)
    requires Represents(o, t, at)
    ensures o.startOffset == at && o.encodedLength == |Print(t)|
  {
  }

  /** sub describes u, and its recorded span lies strictly inside the span [from, to) and holds the encoding of u. */
  ghost predicate Placed(data: Bytes, sub: Object, u: Term, from: nat, to: nat) {
    && WellFormed(u)
    && Represents(sub, u, sub.startOffset)
    && Has(data, sub.startOffset, Print(u))
    && from < sub.startOffset && sub.startOffset + sub.encodedLength < to
  }

  lemma {:induction false} ItemPlaced(data: Bytes, items: seq<Object>, ts: seq<Term>, at: nat, i: nat)
    requires WellFormedItems(ts) && Has(data, at + 1, PrintItems(ts)) && RepresentsItems(items, ts, at + 1)
    requires i < |ts|
    ensures Placed(data, items[i], ts[i], at, at + |PrintItems(ts)| + 2)
  {
    hide Has, Represents, Print, PrintItems, WellFormed;
    ItemPlace(data, at + 1, ts, i);
    RepresentsSpan(items[i], ts[i], at + 1 + |PrintItems(ts[..i])|);
  }

  lemma {:induction false} FieldPlaced(data: Bytes, fields: seq<Field>, es: seq<Entry>, at: nat, i: nat)
    requires WellFormedEntries(es) && Has(data, at + 1, PrintEntries(es)) && RepresentsFields(fields, es, at + 1)
    requires i < |es|
    ensures Placed(data, fields[i].value, es[i].value, at, at + |PrintEntries(es)| + 2)
  {
    hide Has, Represents, Print, PrintEntries, PrintStr, WellFormed;
    EntryPlace(data, at + 1, es, i);
    var place := at + 1 + |PrintEntries(es[..i])|;
    var e := es[i];
    assert WellFormedEntry(e) && RepresentsField(fields[i], e, place);
    HasConcat(data, place, PrintStr(e.digits, e.key), Print(e.value));
    RepresentsSpan(fields[i].value, e.value, place + |PrintStr(e.digits, e.key)|);
  }

  lemma {:induction false} LeafHasNoChild(o: Object, t: Term, at: nat, i: nat)
    requires Represents(o, t, at) && (t.Int? || t.Str?)
    ensures Child(o, i).None?
  {
  }

  /** One step of span locality: a child's span lies inside its parent's and holds the child's encoding. */
  lemma {:induction false} ChildPlaced(data: Bytes, o: Object, t: Term, at: nat, i: nat)
    requires WellFormed(t) && Has(data, at, Print(t)) && Represents(o, t, at)
    requires Child(o, i).Some?
    ensures TermChild(t, i).Some?
    ensures Placed(data, Child(o, i).value, TermChild(t, i).value, at, at + o.encodedLength)
  {
    hide Has, Placed, Represents, PrintItems, PrintEntries;
    match t {
      case List(items) =>
        RepresentsList(o, items, at);
        HasBody(data, at, LETTER_L, PrintItems(items));
        ItemPlaced(data, o.payload.items, items, at, i);
      case Dict(entries) =>
        RepresentsDict(o, entries, at);
        HasBody(data, at, LETTER_D, PrintEntries(entries));
        FieldPlaced(data, o.payload.fields, entries, at, i);
      case _ =>
        LeafHasNoChild(o, t, at, i);
    }
  }

  /**
   Span locality: the span recorded on any node, however deep, lies inside its
   ancestors' span and holds exactly the encoding of the subterm the node describes.
   */
  lemma {:induction false} SpanLocality(data: Bytes, o: Object, t: Term, at: nat, path: seq<nat>)
    requires WellFormed(t) && Has(data, at, Print(t)) && Represents(o, t, at)
    requires ObjectAt(o, path).Some?
    ensures TermAt(t, path).Some? && WellFormed(TermAt(t, path).value)
    ensures var sub, u := ObjectAt(o, path).value, TermAt(t, path).value;
            && Represents(sub, u, sub.startOffset)
            && Has(data, sub.startOffset, Print(u))
            && at <= sub.startOffset && sub.startOffset + sub.encodedLength <= at + o.encodedLength
    decreases |path|
  {
    if path != [] {
      var i := path[0];
      ChildPlaced(data, o, t, at, i);
      var sub := Child(o, i).value;
      SpanLocality(data, sub, TermChild(t, i).value, sub.startOffset, path[1..]);
    }
  }

  // ----- keys -----

  function SegmentBytes(data: Bytes, s: Segment): Bytes
    requires s.offset + s.length <= |data|
  {
    data[s.offset..s.offset + s.length]
  }

  /** The segment recorded for a key holds the bytes of that key. */
  lemma {:induction false} KeyBytes(data: Bytes, fields: seq<Field>, es: seq<Entry>, at: nat, i: nat)
    requires Has(data, at, PrintEntries(es)) && RepresentsFields(fields, es, at) && i < |es|
    ensures fields[i].key.offset + fields[i].key.length <= |data|
    ensures SegmentBytes(data, fields[i].key) == es[i].key
  {
    hide Represents, PrintEntries, PrintStr, Print;
    EntryPlace(data, at, es, i);
    var place, e := at + |PrintEntries(es[..i])|, es[i];
    assert RepresentsField(fields[i], e, place);
    HasConcat(data, place, PrintStr(e.digits, e.key), Print(e.value));
    HasStr(data, place, e.digits, e.key);
  }
}
