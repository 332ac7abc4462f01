/**
 What exact recognition gives a caller of the parser: a unique result, round
 trips in both directions, spans that can be parsed again on their own, and
 bounds on the memory a parsed input can occupy.
 */
module BencodeProperties {
  import opened ByteStrings
  import opened BencodeGrammar
  import opened BencodeObject
  import opened BencodeParser
  import opened Heap

  // ----- recognition as a function of the input -----

  /** The term that starts at pos, if there is one: a definition that does not parse. */
  ghost function Recognised(data: Bytes, pos: nat): Option<Term> {
    if t: Term :| WellFormed(t) && Has(data, pos, Print(t)) then Some(t) else None
  }

  /** Recognition is unambiguous, and looks at nothing beyond the term it finds. */
  lemma {:induction false} RecognisedExactly(data: Bytes, rest: Bytes, pos: nat, t: Term)
    requires WellFormed(t) && Has(data, pos, Print(t))
    requires |rest| >= pos + |Print(t)| && rest[pos..pos + |Print(t)|] == data[pos..pos + |Print(t)|]
    ensures Recognised(data, pos) == Some(t) == Recognised(rest, pos)
  {
    forall data', u | Has(data', pos, Print(t)) && WellFormed(u) && Has(data', pos, Print(u))
      ensures u == t
    {
      PrefixFree(data', pos, t, u);
    }
    assert Has(rest, pos, Print(t));
  }

  /** Parse after print: the parser returns the term it is shown and leaves exactly what follows it. */
  method ParseAfterPrint(t: Term, suffix: Bytes, heap: Allocator) returns (r: Option<Object>, rest: Bytes)
    requires WellFormed(t) && heap.Valid() && |Print(t) + suffix| <= SIZE_MAX
    modifies heap
    ensures r.Some? ==> Represents(r.value, t, 0) && rest == suffix
    ensures r.None? ==> heap.Refusals() < old(heap.Refusals()) && heap.live == old(heap.live)
  {
    hide Print, WellFormed, Represents;
    var data := Print(t) + suffix;
    HasStart(Print(t), suffix);
    var parser := new Parser(data);
    ghost var u;
    r, u := parser.ParseBuffer(heap);
    if r.Some? {
      PrefixFree(data, 0, t, u);
    }
    rest := data[parser.position..];
  }

  lemma {:induction false} HasStart(w: Bytes, suffix: Bytes)
    ensures Has(w + suffix, 0, w)
  {
  }

  /** Whatever the input and whichever allocations are refused, parsing and then freeing leaves the heap as it was. */
  method ParseThenFree(data: Bytes, heap: Allocator)
    requires |data| <= SIZE_MAX && heap.Valid()
    modifies heap
    ensures heap.Valid() && heap.live == old(heap.live)
  {
    hide Represents, Blocks;
    var parser := new Parser(data);
    var r;
    ghost var t;
    r, t := parser.ParseBuffer(heap);
    if r.Some? {
      var _ := heap.FreeObject(r.value);
    }
  }

  /** Parsing a recorded span on its own yields the same subtree and uses up the whole slice. */
  method ReparseSpan(data: Bytes, o: Object, ghost t: Term, ghost at: nat, ghost path: seq<nat>, heap: Allocator)
    returns (r: Option<Object>, position: nat)
    requires |data| <= SIZE_MAX && heap.Valid()
    requires exists root :: RootOf(data, root, o, t, at, path)
    modifies heap
    ensures r.Some? ==> TermAt(t, path).Some? && Represents(r.value, TermAt(t, path).value, 0)
    ensures r.Some? ==> position == r.value.encodedLength == o.encodedLength
    ensures r.None? ==> heap.Refusals() < old(heap.Refusals())
  {
    hide Print, WellFormed, Represents, Has, TermAt, ObjectAt;
    ghost var root :| RootOf(data, root, o, t, at, path);
    SpanLocality(data, root, t, at, path);
    ghost var u := TermAt(t, path).value;
    RepresentsSpan(o, u, o.startOffset);
    HasBound(data, o.startOffset, Print(u));
    var slice := data[o.startOffset..o.startOffset + o.encodedLength];
    HasWhole(data, o.startOffset, Print(u), slice);
    var parser := new Parser(slice);
    ghost var v;
    r, v := parser.ParseBuffer(heap);
    if r.Some? {
      PrefixFree(slice, 0, u, v);
      RepresentsSpan(r.value, u, 0);
    }
    position := parser.position;
  }

  /** o is the node at path of the tree that was parsed as t at position at. */
  ghost predicate RootOf(data: Bytes, root: Object, o: Object, t: Term, at: nat, path: seq<nat>) {
    && WellFormed(t) && Has(data, at, Print(t)) && Represents(root, t, at)
    && ObjectAt(root, path) == Some(o)
  }

  lemma {:induction false} HasWhole(data: Bytes, pos: nat, w: Bytes, slice: Bytes)
    requires Has(data, pos, w) && slice == data[pos..pos + |w|]
    ensures Has(slice, 0, w)
  {
    assert slice[0..|w|] == slice;
  }

  // ----- print after parse -----

  /** The term with every string length spelled as BEP 3 spells it: the value a term denotes. */
  function Canonical(t: Term): Term
    decreases t
  {
    match t
    case Int(_) => t
    case Str(_, content) => Str(Decimal(|content|), content)
    case List(items) => List(CanonicalItems(items))
    case Dict(entries) => Dict(CanonicalEntries(entries))
  }

  function CanonicalItems(ts: seq<Term>): (r: seq<Term>)
    ensures |r| == |ts|
    decreases ts
  {
    if ts == [] then [] else [Canonical(ts[0])] + CanonicalItems(ts[1..])
  }

  function CanonicalEntry(e: Entry): (r: Entry)
    ensures r.key == e.key
    decreases e
  {
    Entry(Decimal(|e.key|), e.key, Canonical(e.value))
  }

  function CanonicalEntries(es: seq<Entry>): (r: seq<Entry>)
    ensures |r| == |es| && forall i | 0 <= i < |es| :: r[i].key == es[i].key
    decreases es
  {
    if es == [] then [] else [CanonicalEntry(es[0])] + CanonicalEntries(es[1..])
  }

  /** No string length anywhere in t has a leading zero. */
  ghost predicate NoLeadingZeros(t: Term)
    decreases t
  {
    match t
    case Int(_) => true
    case Str(digits, _) => IsCanonical(digits)
    case List(items) => forall i | 0 <= i < |items| :: NoLeadingZeros(items[i])
    case Dict(entries) => forall i | 0 <= i < |entries| :: NoLeadingZerosEntry(entries[i])
  }

  ghost predicate NoLeadingZerosEntry(e: Entry)
    decreases e
  {
    IsCanonical(e.digits) && NoLeadingZeros(e.value)
  }

  /**
   Print after parse: encoding the value of a parsed term again never takes more
   bytes than were consumed, and reproduces them exactly when no length had a leading zero.
   */
  lemma {:induction false} PrintAfterParse(t: Term)
    requires WellFormed(t)
    ensures WellFormed(Canonical(t))
    ensures |Print(Canonical(t))| <= |Print(t)|
    ensures NoLeadingZeros(t) <==> Canonical(t) == t
    ensures |Print(Canonical(t))| == |Print(t)| <==> NoLeadingZeros(t)
    decreases t
  {
    match t {
      case Int(_) =>
      case Str(digits, content) =>
        NumeralLength(digits);
      case List(items) =>
        PrintItemsAfterParse(items);
      case Dict(entries) =>
        PrintEntriesAfterParse(entries);
        SameKeys(entries);
    }
  }

  lemma {:induction false} SameKeys(es: seq<Entry>)
    requires Ascending(es)
    ensures Ascending(CanonicalEntries(es))
  {
    hide Less, CanonicalEntries;
    var cs := CanonicalEntries(es);
    forall i | 0 < i < |cs|
      ensures Less(cs[i - 1].key, cs[i].key)
    {
      assert Less(es[i - 1].key, es[i].key);
    }
  }

  lemma {:induction false} PrintItemsAfterParse(ts: seq<Term>)
    requires WellFormedItems(ts)
    ensures WellFormedItems(CanonicalItems(ts))
    ensures |PrintItems(CanonicalItems(ts))| <= |PrintItems(ts)|
    ensures (forall i | 0 <= i < |ts| :: NoLeadingZeros(ts[i])) <==> CanonicalItems(ts) == ts
    ensures |PrintItems(CanonicalItems(ts))| == |PrintItems(ts)| <==> CanonicalItems(ts) == ts
    decreases ts
  {
    if ts != [] {
      PrintAfterParse(ts[0]);
      PrintItemsAfterParse(ts[1..]);
      assert ts == [ts[0]] + ts[1..];
      assert CanonicalItems(ts)[1..] == CanonicalItems(ts[1..]);
    }
  }

  lemma {:induction false} PrintEntriesAfterParse(es: seq<Entry>)
    requires WellFormedEntries(es)
    ensures WellFormedEntries(CanonicalEntries(es))
    ensures |PrintEntries(CanonicalEntries(es))| <= |PrintEntries(es)|
    ensures (forall i | 0 <= i < |es| :: NoLeadingZerosEntry(es[i])) <==> CanonicalEntries(es) == es
    ensures |PrintEntries(CanonicalEntries(es))| == |PrintEntries(es)| <==> CanonicalEntries(es) == es
    decreases es
  {
    hide PrintEntry, CanonicalEntry, NoLeadingZerosEntry, WellFormedEntry;
    if es != [] {
      PrintEntryAfterParse(es[0]);
      PrintEntriesAfterParse(es[1..]);
      assert es == [es[0]] + es[1..];
      assert CanonicalEntries(es)[1..] == CanonicalEntries(es[1..]);
    }
  }

  lemma {:induction false} PrintEntryAfterParse(e: Entry)
    requires WellFormedEntry(e)
    ensures WellFormedEntry(CanonicalEntry(e))
    ensures |PrintEntry(CanonicalEntry(e))| <= |PrintEntry(e)|
    ensures NoLeadingZerosEntry(e) <==> CanonicalEntry(e) == e
    ensures |PrintEntry(CanonicalEntry(e))| == |PrintEntry(e)| <==> CanonicalEntry(e) == e
    decreases e
  {
    NumeralLength(e.digits);
    PrintAfterParse(e.value);
  }

  // ----- encoding a parsed object again -----

  /** The bytes a segment points to; none if it does not lie within the input. */
  function Pointed(data: Bytes, s: Segment): Bytes {
    if s.offset + s.length <= |data| then SegmentBytes(data, s) else []
  }

  /** The value an object holds, read off its payloads and segments; an object without one counts as 0. */
  function ValueOf(data: Bytes, o: Object): Term
    decreases o
  {
    match o.payload
    case Invalid => Int(0)
    case Integer(n) => Int(n)
    case ByteString(segment) => Str(Decimal(segment.length), Pointed(data, segment))
    case ObjectList(items, _, _) => List(ItemValues(data, items))
    case Dictionary(fields, _, _) => Dict(FieldValues(data, fields))
  }

  function ItemValues(data: Bytes, items: seq<Object>): seq<Term>
    decreases items
  {
    if items == [] then [] else [ValueOf(data, items[0])] + ItemValues(data, items[1..])
  }

  function FieldValue(data: Bytes, f: Field): Entry
    decreases f
  {
    Entry(Decimal(f.key.length), Pointed(data, f.key), ValueOf(data, f.value))
  }

  function FieldValues(data: Bytes, fields: seq<Field>): seq<Entry>
    decreases fields
  {
    if fields == [] then [] else [FieldValue(data, fields[0])] + FieldValues(data, fields[1..])
  }

  lemma {:induction false} PointedIs(data: Bytes, pos: nat, content: Bytes)
    requires Has(data, pos, content)
    ensures Pointed(data, Segment(pos, |content|)) == content
  {
  }

  /** What the parser's objects hold is the value of the term they were read from. */
  lemma {:induction false} ValueOfParsed(data: Bytes, o: Object, t: Term, at: nat)
    requires Has(data, at, Print(t)) && Represents(o, t, at)
    ensures ValueOf(data, o) == Canonical(t)
    decreases t
  {
    hide PrintItems, PrintEntries, Decimal, Has, Pointed;
    match t {
      case Int(_) =>
      case Str(digits, content) =>
        HasStr(data, at, digits, content);
        PointedIs(data, at + |digits| + 1, content);
      case List(items) =>
        RepresentsList(o, items, at);
        HasBody(data, at, LETTER_L, PrintItems(items));
        ItemValuesOfParsed(data, o.payload.items, items, at + 1);
      case Dict(entries) =>
        RepresentsDict(o, entries, at);
        HasBody(data, at, LETTER_D, PrintEntries(entries));
        FieldValuesOfParsed(data, o.payload.fields, entries, at + 1);
    }
  }

  lemma {:induction false} ItemValuesOfParsed(data: Bytes, items: seq<Object>, ts: seq<Term>, at: nat)
    requires Has(data, at, PrintItems(ts)) && RepresentsItems(items, ts, at)
    ensures ItemValues(data, items) == CanonicalItems(ts)
    decreases ts
  {
    hide Has, Represents, Print;
    if ts != [] {
      ItemsTail(items, ts, at);
      HasConcat(data, at, Print(ts[0]), PrintItems(ts[1..]));
      ValueOfParsed(data, items[0], ts[0], at);
      ItemValuesOfParsed(data, items[1..], ts[1..], at + |Print(ts[0])|);
    }
  }

  lemma {:induction false} FieldValuesOfParsed(data: Bytes, fields: seq<Field>, es: seq<Entry>, at: nat)
    requires Has(data, at, PrintEntries(es)) && RepresentsFields(fields, es, at)
    ensures FieldValues(data, fields) == CanonicalEntries(es)
    decreases es
  {
    hide Has, RepresentsField, PrintEntry;
    if es != [] {
      FieldsTail(fields, es, at);
      HasConcat(data, at, PrintEntry(es[0]), PrintEntries(es[1..]));
      FieldValueOfParsed(data, fields[0], es[0], at);
      FieldValuesOfParsed(data, fields[1..], es[1..], at + |PrintEntry(es[0])|);
    }
  }

  lemma {:induction false} FieldValueOfParsed(data: Bytes, f: Field, e: Entry, at: nat)
    requires Has(data, at, PrintEntry(e)) && RepresentsField(f, e, at)
    ensures FieldValue(data, f) == CanonicalEntry(e)
    decreases e
  {
    hide Has, Print, PrintStr, Decimal, Pointed, Represents;
    HasConcat(data, at, PrintStr(e.digits, e.key), Print(e.value));
    HasStr(data, at, e.digits, e.key);
    PointedIs(data, at + |e.digits| + 1, e.key);
    ValueOfParsed(data, f.value, e.value, at + |PrintStr(e.digits, e.key)|);
  }

  /**
   Encoding a parsed object again, from its own segments: never more bytes than were
   consumed, and the very bytes consumed exactly when no length had a leading zero.
   */
  lemma {:induction false} ReencodeParsed(data: Bytes, o: Object, t: Term, at: nat)
    requires WellFormed(t) && Has(data, at, Print(t)) && Represents(o, t, at)
    ensures at + o.encodedLength <= |data| && WellFormed(ValueOf(data, o))
    ensures |Print(ValueOf(data, o))| <= o.encodedLength
    ensures Print(ValueOf(data, o)) == data[at..at + o.encodedLength] <==> NoLeadingZeros(t)
  {
    hide Print, NoLeadingZeros, Canonical, WellFormed, ValueOf;
    RepresentsSpan(o, t, at);
    ValueOfParsed(data, o, t, at);
    PrintAfterParse(t);
  }

  /** An input that is accepted although it is not the encoding of its value: a length of four spelled 04. */
  lemma {:induction false} LeadingZeroIsAccepted()
    ensures var data: Bytes, t := [48, 52, COLON, 115, 112, 97, 109], Str([48, 52], [115, 112, 97, 109]);
            && Recognised(data, 0) == Some(t) && Print(t) == data
            && !NoLeadingZeros(t) && |Print(Canonical(t))| < |data|
  {
    var data: Bytes, t := [48, 52, COLON, 115, 112, 97, 109], Str([48, 52], [115, 112, 97, 109]);
    NumeralSnoc([], 48);
    NumeralSnoc([48], 52);
    assert Numeral([48, 52]) == 4 by {
      assert [] + [48] == [48] && [48] + [52] == [48, 52];
    }
    HasStart(Print(t), []);
    assert Print(t) + [] == data;
    RecognisedExactly(data, data, 0, t);
    PrintAfterParse(t);
  }

  // ----- how large a parsed tree can be -----

  function Nodes(o: Object): nat
    decreases o
  {
    1 + match o.payload
        case ObjectList(items, _, _) => ItemNodes(items)
        case Dictionary(fields, _, _) => FieldNodes(fields)
        case _ => 0
  }

  function ItemNodes(items: seq<Object>): nat
    decreases items
  {
    if items == [] then 0 else Nodes(items[0]) + ItemNodes(items[1..])
  }

  function OneFieldNodes(f: Field): nat
    decreases f
  {
    Nodes(f.value)
  }

  function FieldNodes(fields: seq<Field>): nat
    decreases fields
  {
    if fields == [] then 0 else OneFieldNodes(fields[0]) + FieldNodes(fields[1..])
  }

  /** Array slots allocated anywhere in the tree. */
  function Slots(o: Object): nat
    decreases o
  {
    match o.payload
    case ObjectList(items, capacity, _) => capacity + ItemSlots(items)
    case Dictionary(fields, capacity, _) => capacity + FieldSlots(fields)
    case _ => 0
  }

  function ItemSlots(items: seq<Object>): nat
    decreases items
  {
    if items == [] then 0 else Slots(items[0]) + ItemSlots(items[1..])
  }

  function OneFieldSlots(f: Field): nat
    decreases f
  {
    Slots(f.value)
  }

  function FieldSlots(fields: seq<Field>): nat
    decreases fields
  {
    if fields == [] then 0 else OneFieldSlots(fields[0]) + FieldSlots(fields[1..])
  }

  lemma {:induction false} ItemsTail(items: seq<Object>, ts: seq<Term>, at: nat)
    requires RepresentsItems(items, ts, at) && ts != []
    ensures Represents(items[0], ts[0], at)
    ensures RepresentsItems(items[1..], ts[1..], at + |Print(ts[0])|)
  {
    hide Represents, Print;
    assert ts[..0] == [];
    forall i | 0 <= i < |ts[1..]|
      ensures Represents(items[1..][i], ts[1..][i], at + |Print(ts[0])| + |PrintItems(ts[1..][..i])|)
    {
      assert ts[..i + 1][0] == ts[0] && ts[..i + 1][1..] == ts[1..][..i];
      assert Represents(items[i + 1], ts[i + 1], at + |PrintItems(ts[..i + 1])|);
    }
  }

  lemma {:induction false} FieldsTail(fields: seq<Field>, es: seq<Entry>, at: nat)
    requires RepresentsFields(fields, es, at) && es != []
    ensures RepresentsField(fields[0], es[0], at)
    ensures RepresentsFields(fields[1..], es[1..], at + |PrintEntry(es[0])|)
  {
    hide RepresentsField, PrintEntry;
    assert es[..0] == [];
    forall i | 0 <= i < |es[1..]|
      ensures RepresentsField(fields[1..][i], es[1..][i], at + |PrintEntry(es[0])| + |PrintEntries(es[1..][..i])|)
    {
      assert es[..i + 1][0] == es[0] && es[..i + 1][1..] == es[1..][..i];
      assert RepresentsField(fields[i + 1], es[i + 1], at + |PrintEntries(es[..i + 1])|);
    }
  }

  /** The items of a list follow one another without a gap, after its l and up to its e. */
  lemma {:induction false} ItemSpansTile(o: Object, ts: seq<Term>, at: nat, i: nat)
    requires Represents(o, List(ts), at) && i < |ts|
    ensures var items := o.payload.items;
            var end := items[i].startOffset + items[i].encodedLength;
            && (i == 0 ==> items[i].startOffset == o.startOffset + 1)
            && end == if i + 1 < |ts| then items[i + 1].startOffset else o.startOffset + o.encodedLength - 1
  {
    hide Represents, Print;
    RepresentsList(o, ts, at);
    var items := o.payload.items;
    RepresentsSpan(items[i], ts[i], at + 1 + |PrintItems(ts[..i])|);
    PrintItemsAppend(ts[..i], ts[i]);
    assert ts[..i] + [ts[i]] == ts[..i + 1];
    if i + 1 < |ts| {
      RepresentsSpan(items[i + 1], ts[i + 1], at + 1 + |PrintItems(ts[..i + 1])|);
    } else {
      assert ts[..i + 1] == ts;
    }
  }

  /** A dictionary is tiled by its entries, each a key with its length followed at once by its value. */
  lemma {:induction false} FieldSpansTile(o: Object, es: seq<Entry>, at: nat, i: nat)
    requires Represents(o, Dict(es), at) && i < |es|
    ensures var fields := o.payload.fields;
            var end := fields[i].value.startOffset + fields[i].value.encodedLength;
            && fields[i].key.offset + fields[i].key.length == fields[i].value.startOffset
            && (i == 0 ==> o.startOffset + 1 + |es[i].digits| + 1 == fields[i].key.offset)
            && (if i + 1 < |es| then end + |es[i + 1].digits| + 1 == fields[i + 1].key.offset
                else end == o.startOffset + o.encodedLength - 1)
  {
    hide Represents, Print;
    RepresentsDict(o, es, at);
    var fields := o.payload.fields;
    var place := at + 1 + |PrintEntries(es[..i])|;
    assert RepresentsField(fields[i], es[i], place);
    RepresentsSpan(fields[i].value, es[i].value, place + |PrintStr(es[i].digits, es[i].key)|);
    PrintEntriesAppend(es[..i], es[i]);
    assert es[..i] + [es[i]] == es[..i + 1];
    if i + 1 < |es| {
      assert RepresentsField(fields[i + 1], es[i + 1], at + 1 + |PrintEntries(es[..i + 1])|);
    } else {
      assert es[..i + 1] == es;
    }
  }

  function Max(a: nat, b: nat): nat {
    if a < b then b else a
  }

  /** How deep the tree is nested, and so how deep the parser and free recursed. */
  function Depth(o: Object): nat
    decreases o
  {
    1 + match o.payload
        case ObjectList(items, _, _) => ItemDepth(items)
        case Dictionary(fields, _, _) => FieldDepth(fields)
        case _ => 0
  }

  function ItemDepth(items: seq<Object>): nat
    decreases items
  {
    if items == [] then 0 else Max(Depth(items[0]), ItemDepth(items[1..]))
  }

  function OneFieldDepth(f: Field): nat
    decreases f
  {
    Depth(f.value)
  }

  function FieldDepth(fields: seq<Field>): nat
    decreases fields
  {
    if fields == [] then 0 else Max(OneFieldDepth(fields[0]), FieldDepth(fields[1..]))
  }

  lemma {:induction false} DepthAtMostNodes(o: Object)
    ensures Depth(o) <= Nodes(o)
    decreases o
  {
    match o.payload {
      case ObjectList(items, _, _) => ItemDepthAtMostNodes(items);
      case Dictionary(fields, _, _) => FieldDepthAtMostNodes(fields);
      case _ =>
    }
  }

  lemma {:induction false} ItemDepthAtMostNodes(items: seq<Object>)
    ensures ItemDepth(items) <= ItemNodes(items)
    decreases items
  {
    if items != [] {
      DepthAtMostNodes(items[0]);
      ItemDepthAtMostNodes(items[1..]);
    }
  }

  lemma {:induction false} OneFieldDepthAtMostNodes(f: Field)
    ensures OneFieldDepth(f) <= OneFieldNodes(f)
    decreases f
  {
    DepthAtMostNodes(f.value);
  }

  lemma {:induction false} FieldDepthAtMostNodes(fields: seq<Field>)
    ensures FieldDepth(fields) <= FieldNodes(fields)
    decreases fields
  {
    if fields != [] {
      OneFieldDepthAtMostNodes(fields[0]);
      FieldDepthAtMostNodes(fields[1..]);
    }
  }

  /** At most one node and one level of nesting for every two bytes, and fewer array slots than bytes. */
  lemma {:induction false} TreeIsSmall(o: Object, t: Term, at: nat)
    requires WellFormed(t) && Represents(o, t, at)
    ensures 2 * Depth(o) <= 2 * Nodes(o) <= o.encodedLength
    ensures Slots(o) + 2 <= o.encodedLength
    decreases t
  {
    hide Print, PrintItems, PrintEntries, Depth;
    PrintStart(t);
    DepthAtMostNodes(o);
    match t {
      case List(items) =>
        RepresentsList(o, items, at);
        ItemsAreSmall(o.payload.items, items, at + 1);
      case Dict(entries) =>
        RepresentsDict(o, entries, at);
        FieldsAreSmall(o.payload.fields, entries, at + 1);
      case _ =>
    }
  }

  lemma {:induction false} ItemsAreSmall(items: seq<Object>, ts: seq<Term>, at: nat)
    requires WellFormedItems(ts) && RepresentsItems(items, ts, at)
    ensures 2 * ItemNodes(items) <= |PrintItems(ts)|
    ensures ItemSlots(items) + 2 * |items| <= |PrintItems(ts)|
    decreases ts
  {
    hide Represents, Print;
    if ts != [] {
      ItemsTail(items, ts, at);
      RepresentsSpan(items[0], ts[0], at);
      TreeIsSmall(items[0], ts[0], at);
      ItemsAreSmall(items[1..], ts[1..], at + |Print(ts[0])|);
    }
  }

  lemma {:induction false} FieldsAreSmall(fields: seq<Field>, es: seq<Entry>, at: nat)
    requires WellFormedEntries(es) && RepresentsFields(fields, es, at)
    ensures 2 * FieldNodes(fields) <= |PrintEntries(es)|
    ensures FieldSlots(fields) + 2 * |fields| <= |PrintEntries(es)|
    decreases es
  {
    hide RepresentsField, PrintEntry;
    if es != [] {
      FieldsTail(fields, es, at);
      FieldIsSmall(fields[0], es[0], at);
      FieldsAreSmall(fields[1..], es[1..], at + |PrintEntry(es[0])|);
    }
  }

  lemma {:induction false} FieldIsSmall(f: Field, e: Entry, at: nat)
    requires WellFormedEntry(e) && RepresentsField(f, e, at)
    ensures 2 * OneFieldNodes(f) <= |PrintEntry(e)| && OneFieldSlots(f) + 2 <= |PrintEntry(e)|
    decreases e
  {
    hide Print;
    RepresentsSpan(f.value, e.value, at + |PrintStr(e.digits, e.key)|);
    TreeIsSmall(f.value, e.value, at + |PrintStr(e.digits, e.key)|);
  }

  /** No smaller power of two would hold the elements. */
  lemma {:induction false} CapacityIsLeast(capacity: nat, count: nat, block: Option<Block>, other: nat)
    requires Fits(capacity, count, block) && count > 0
    requires IsPowerOfTwo(other) && count <= other
    ensures capacity <= other
  {
    if other < capacity {
      HalfOrLess(other, capacity);
    }
  }
}
