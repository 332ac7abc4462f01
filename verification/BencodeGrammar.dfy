/**
 The bencode language of BEP 3, section "bencoding", as a set of derivation
 trees. A Term is one derivation: besides the value it keeps the digits with
 which every string length is spelled, because the parser accepts leading zeros
 there. Print gives the bytes derived, so "w is bencode" is "w is the Print of
 some well-formed term". Nothing here parses.
 */
module BencodeGrammar {
  import opened ByteStrings

  const LETTER_I: Byte := 105
  const LETTER_L: Byte := 108
  const LETTER_D: Byte := 100
  const LETTER_E: Byte := 101
  const MINUS: Byte := 45
  const COLON: Byte := 58

  datatype Term =
    | Int(n: int)
    | Str(digits: Bytes, content: Bytes)
    | List(items: seq<Term>)
    | Dict(entries: seq<Entry>)

  datatype Entry = Entry(digits: Bytes, key: Bytes, value: Term)

  function Abs(n: int): nat {
    if n < 0 then -n else n
  }

  function PrintInt(n: int): Bytes {
    var body := Decimal(Abs(n)) + [LETTER_E];
    [LETTER_I] + if n < 0 then [MINUS] + body else body
  }

  function PrintStr(digits: Bytes, content: Bytes): Bytes {
    digits + ([COLON] + content)
  }

  function Print(t: Term): Bytes
    decreases t
  {
    match t
    case Int(n) => PrintInt(n)
    case Str(digits, content) => PrintStr(digits, content)
    case List(items) => [LETTER_L] + (PrintItems(items) + [LETTER_E])
    case Dict(entries) => [LETTER_D] + (PrintEntries(entries) + [LETTER_E])
  }

  function PrintItems(ts: seq<Term>): Bytes
    decreases ts
  {
    if ts == [] then [] else Print(ts[0]) + PrintItems(ts[1..])
  }

  function PrintEntry(e: Entry): Bytes
    decreases e
  {
    PrintStr(e.digits, e.key) + Print(e.value)
  }

  function PrintEntries(es: seq<Entry>): Bytes
    decreases es
  {
    if es == [] then [] else PrintEntry(es[0]) + PrintEntries(es[1..])
  }

  /** Raw byte strings in lexicographic order, a proper prefix first. */
  predicate Less(a: Bytes, b: Bytes) {
    if b == [] then false
    else if a == [] then true
    else a[0] < b[0] || (a[0] == b[0] && Less(a[1..], b[1..]))
  }

  /** The digits may have leading zeros; they only have to name the right length. */
  predicate WellFormedStr(digits: Bytes, content: Bytes) {
    digits != [] && AllDigits(digits) && Numeral(digits) == |content|
  }

  predicate IsInt64(n: int) {
    -INT64_MAX - 1 <= n <= INT64_MAX
  }

  // The most elements that a doubled array of objects, or of dictionary entries, can hold within size_t bytes.
  const MAX_ITEMS: int := 0x400_0000_0000_0000
  const MAX_ENTRIES: int := 0x200_0000_0000_0000

  /** Bencode within the limits of the parser: integers of 64 bits, and arrays that fit size_t. */
  ghost predicate WellFormed(t: Term)
    decreases t
  {
    match t
    case Int(n) => IsInt64(n)
    case Str(digits, content) => WellFormedStr(digits, content)
    case List(items) =>
      && |items| <= MAX_ITEMS
      && forall i | 0 <= i < |items| :: WellFormed(items[i])
    case Dict(entries) =>
      && |entries| <= MAX_ENTRIES
      && (forall i | 0 <= i < |entries| :: WellFormedEntry(entries[i]))
      && Ascending(entries)
  }

  ghost predicate WellFormedEntry(e: Entry)
    decreases e
  {
    WellFormedStr(e.digits, e.key) && WellFormed(e.value)
  }

  /** Each key is greater than the one before it. */
  ghost predicate Ascending(es: seq<Entry>) {
    forall i | 0 < i < |es| :: Less(es[i - 1].key, es[i].key)
  }

  ghost predicate WellFormedItems(ts: seq<Term>) {
    forall i | 0 <= i < |ts| :: WellFormed(ts[i])
  }

  ghost predicate WellFormedEntries(es: seq<Entry>) {
    forall i | 0 <= i < |es| :: WellFormedEntry(es[i])
  }

  // ----- the order on keys -----

  lemma {:induction false} LessTransitive(a: Bytes, b: Bytes, c: Bytes)
    requires Less(a, b) && Less(b, c)
    ensures Less(a, c)
  {
    if a != [] && a[0] == b[0] == c[0] {
      LessTransitive(a[1..], b[1..], c[1..]);
    }
  }

  lemma {:induction false} LessIrreflexive(a: Bytes)
    ensures !Less(a, a)
  {
    if a != [] {
      LessIrreflexive(a[1..]);
    }
  }

  /** The first byte in which two strings differ decides, and a proper prefix comes before the longer string. */
  lemma {:induction false} LessIsLexicographic(a: Bytes, b: Bytes)
    ensures Less(a, b) <==> a < b || exists k: nat | k < |a| && k < |b| :: a[..k] == b[..k] && a[k] < b[k]
  {
    if a != [] && b != [] && a[0] == b[0] {
      LessIsLexicographic(a[1..], b[1..]);
      assert a < b <==> a[1..] < b[1..] by {
        assert a == [a[0]] + a[1..] && b == [b[0]] + b[1..];
      }
      forall k: nat | k < |a| && k < |b| && a[..k] == b[..k] && a[k] < b[k]
        ensures Less(a, b)
      {
        assert a[1..][..k - 1] == a[..k][1..] == b[..k][1..] == b[1..][..k - 1];
        assert a[1..][k - 1] < b[1..][k - 1];
      }
      forall k: nat | k < |a[1..]| && k < |b[1..]| && a[1..][..k] == b[1..][..k] && a[1..][k] < b[1..][k]
        ensures a[..k + 1] == b[..k + 1] && a[k + 1] < b[k + 1]
      {
        assert a[..k + 1] == [a[0]] + a[1..][..k] && b[..k + 1] == [b[0]] + b[1..][..k];
      }
    } else if a != [] && b != [] && a[0] < b[0] {
      assert a[..0] == b[..0];
    } else if a != [] && b != [] {
      forall k: nat | k < |a| && k < |b| && a[..k] == b[..k]
        ensures k == 0
      {
      }
    }
  }

  /** Comparing neighbours only is enough: keys are globally ordered, hence pairwise distinct. */
  lemma {:induction false} AscendingIsGlobal(es: seq<Entry>, i: nat, j: nat)
    requires Ascending(es) && i < j < |es|
    ensures Less(es[i].key, es[j].key)
    ensures es[i].key != es[j].key
    decreases j - i
  {
    if i + 1 < j {
      AscendingIsGlobal(es, i, j - 1);
      LessTransitive(es[i].key, es[j - 1].key, es[j].key);
    }
    LessIrreflexive(es[i].key);
  }

  // ----- lengths and first bytes -----

  lemma {:induction false} PrintStart(t: Term)
    requires WellFormed(t)
    ensures |Print(t)| >= 2
    ensures Print(t)[0] == match t
                           case Int(_) => LETTER_I
                           case Str(digits, _) => digits[0]
                           case List(_) => LETTER_L
                           case Dict(_) => LETTER_D
  {
  }

  lemma {:induction false} PrintEntryStart(e: Entry)
    requires WellFormedEntry(e)
    ensures |PrintEntry(e)| >= 4
    ensures PrintEntry(e)[0] == e.digits[0]
  {
    PrintStart(e.value);
  }

  lemma {:induction false} PrintItemsAppend(ts: seq<Term>, t: Term)
    ensures PrintItems(ts + [t]) == PrintItems(ts) + Print(t)
  {
    hide Print;
    if ts == [] {
      assert ts + [t] == [t] && [t][1..] == [];
    } else {
      var all := ts + [t];
      assert all[0] == ts[0] && all[1..] == ts[1..] + [t];
      PrintItemsAppend(ts[1..], t);
      assert PrintItems(all) == Print(all[0]) + PrintItems(all[1..]);
    }
  }

  lemma {:induction false} PrintEntriesAppend(es: seq<Entry>, e: Entry)
    ensures PrintEntries(es + [e]) == PrintEntries(es) + PrintEntry(e)
  {
    hide PrintEntry;
    if es == [] {
      assert es + [e] == [e] && [e][1..] == [];
    } else {
      var all := es + [e];
      assert all[0] == es[0] && all[1..] == es[1..] + [e];
      PrintEntriesAppend(es[1..], e);
      assert PrintEntries(all) == PrintEntry(all[0]) + PrintEntries(all[1..]);
    }
  }

  /** Every item costs at least two bytes. */

  // ----- at most one term starts at a given place -----

  lemma {:induction false} HasInt(data: Bytes, pos: nat, n: int)
    requires Has(data, pos, PrintInt(n))
    ensures pos + 1 < |data| && data[pos] == LETTER_I
    ensures data[pos + 1] == MINUS <==> n < 0
    ensures var from, ds := pos + (if n < 0 then 2 else 1), Decimal(Abs(n));
            && Has(data, from, ds)
            && from + |ds| < |data| && data[from + |ds|] == LETTER_E
  {
    hide Has, Decimal, Numeral;
    var ds := Decimal(Abs(n));
    HasByte(data, pos, LETTER_I);
    if n < 0 {
      HasConcat(data, pos, [LETTER_I], [MINUS] + (ds + [LETTER_E]));
      HasConcat(data, pos + 1, [MINUS], ds + [LETTER_E]);
      HasByte(data, pos + 1, MINUS);
      HasConcat(data, pos + 2, ds, [LETTER_E]);
      HasByte(data, pos + 2 + |ds|, LETTER_E);
    } else {
      HasConcat(data, pos, [LETTER_I], ds + [LETTER_E]);
      HasConcat(data, pos + 1, ds, [LETTER_E]);
      HasByte(data, pos + 1 + |ds|, LETTER_E);
      HasAt(data, pos + 1, ds, 0);
    }
  }

  lemma {:induction false} HasStr(data: Bytes, pos: nat, digits: Bytes, content: Bytes)
    ensures Has(data, pos, PrintStr(digits, content)) <==>
            && Has(data, pos, digits)
            && pos + |digits| < |data| && data[pos + |digits|] == COLON
            && Has(data, pos + |digits| + 1, content)
  {
    hide Has;
    HasConcat(data, pos, digits, [COLON] + content);
    HasConcat(data, pos + |digits|, [COLON], content);
    HasByte(data, pos + |digits|, COLON);
  }

  lemma {:induction false} IntUnique(data: Bytes, pos: nat, n: int, m: int)
    requires Has(data, pos, PrintInt(n)) && Has(data, pos, PrintInt(m))
    ensures n == m
  {
    hide Has, Decimal, Numeral;
    HasInt(data, pos, n);
    HasInt(data, pos, m);
    SameRun(data, pos + if n < 0 then 2 else 1, Decimal(Abs(n)), Decimal(Abs(m)));
    DecimalInjective(Abs(n), Abs(m));
  }

  lemma {:induction false} StrUnique(data: Bytes, pos: nat, ds: Bytes, s: Bytes, es: Bytes, r: Bytes)
    requires WellFormedStr(ds, s) && Has(data, pos, PrintStr(ds, s))
    requires WellFormedStr(es, r) && Has(data, pos, PrintStr(es, r))
    ensures ds == es && s == r
  {
    HasStr(data, pos, ds, s);
    HasStr(data, pos, es, r);
    SameRun(data, pos, ds, es);
  }

  /** Prefix-freeness: two terms printed at the same place are the same term. */
  lemma {:induction false} PrefixFree(data: Bytes, pos: nat, t: Term, u: Term)
    requires WellFormed(t) && Has(data, pos, Print(t))
    requires WellFormed(u) && Has(data, pos, Print(u))
    ensures t == u
    decreases |data| - pos, 0
  {
    hide Has, Decimal, Numeral;
    PrintStart(t);
    PrintStart(u);
    HasAt(data, pos, Print(t), 0);
    HasAt(data, pos, Print(u), 0);
    match t {
      case Int(n) =>
        IntUnique(data, pos, n, u.n);
      case Str(digits, content) =>
        StrUnique(data, pos, digits, content, u.digits, u.content);
      case List(items) =>
        HasBody(data, pos, LETTER_L, PrintItems(items));
        HasBody(data, pos, LETTER_L, PrintItems(u.items));
        ItemsPrefix(data, pos + 1, items, u.items);
        ItemsPrefix(data, pos + 1, u.items, items);
      case Dict(entries) =>
        HasBody(data, pos, LETTER_D, PrintEntries(entries));
        HasBody(data, pos, LETTER_D, PrintEntries(u.entries));
        EntriesPrefix(data, pos + 1, entries, u.entries);
        EntriesPrefix(data, pos + 1, u.entries, entries);
    }
  }

  /** A list or dictionary is its letter, its body and an e. */
  lemma {:induction false} HasBody(data: Bytes, pos: nat, letter: Byte, body: Bytes)
    ensures Has(data, pos, [letter] + (body + [LETTER_E])) <==>
            && pos < |data| && data[pos] == letter
            && Has(data, pos + 1, body)
            && pos + 1 + |body| < |data| && data[pos + 1 + |body|] == LETTER_E
  {
    hide Has;
    HasConcat(data, pos, [letter], body + [LETTER_E]);
    HasConcat(data, pos + 1, body, [LETTER_E]);
    HasByte(data, pos, letter);
    HasByte(data, pos + 1 + |body|, LETTER_E);
  }

  /** Items already read are a prefix of the items of any list that is printed there in full. */
  lemma {:induction false} ItemsPrefix(data: Bytes, pos: nat, ts: seq<Term>, us: seq<Term>)
    requires WellFormedItems(ts) && Has(data, pos, PrintItems(ts))
    requires WellFormedItems(us) && Has(data, pos, PrintItems(us))
    requires pos + |PrintItems(us)| < |data| && data[pos + |PrintItems(us)|] == LETTER_E
    ensures ts <= us
    decreases |data| - pos, 1
  {
    hide Has, Decimal, Numeral;
    if ts != [] {
      PrintStart(ts[0]);
      HasConcat(data, pos, Print(ts[0]), PrintItems(ts[1..]));
      HasAt(data, pos, Print(ts[0]), 0);
      if us != [] {
        HasConcat(data, pos, Print(us[0]), PrintItems(us[1..]));
        PrefixFree(data, pos, ts[0], us[0]);
        ItemsPrefix(data, pos + |Print(ts[0])|, ts[1..], us[1..]);
        assert ts == [ts[0]] + ts[1..] && us == [us[0]] + us[1..];
      }
    }
  }

  lemma {:induction false} EntriesPrefix(data: Bytes, pos: nat, es: seq<Entry>, fs: seq<Entry>)
    requires WellFormedEntries(es) && Has(data, pos, PrintEntries(es))
    requires WellFormedEntries(fs) && Has(data, pos, PrintEntries(fs))
    requires pos + |PrintEntries(fs)| < |data| && data[pos + |PrintEntries(fs)|] == LETTER_E
    ensures es <= fs
    decreases |data| - pos, 1
  {
    hide Has, Decimal, Numeral;
    if es != [] {
      PrintEntryStart(es[0]);
      HasConcat(data, pos, PrintEntry(es[0]), PrintEntries(es[1..]));
      HasAt(data, pos, PrintEntry(es[0]), 0);
      if fs != [] {
        HasConcat(data, pos, PrintEntry(fs[0]), PrintEntries(fs[1..]));
        EntryUnique(data, pos, es[0], fs[0]);
        EntriesPrefix(data, pos + |PrintEntry(es[0])|, es[1..], fs[1..]);
        assert es == [es[0]] + es[1..] && fs == [fs[0]] + fs[1..];
      }
    }
  }

  lemma {:induction false} EntryUnique(data: Bytes, pos: nat, e: Entry, f: Entry)
    requires WellFormedEntry(e) && Has(data, pos, PrintEntry(e))
    requires WellFormedEntry(f) && Has(data, pos, PrintEntry(f))
    ensures e == f
    decreases |data| - pos, 0
  {
    hide Has, Decimal, Numeral;
    HasConcat(data, pos, PrintStr(e.digits, e.key), Print(e.value));
    HasConcat(data, pos, PrintStr(f.digits, f.key), Print(f.value));
    StrUnique(data, pos, e.digits, e.key, f.digits, f.key);
    HasBound(data, pos, PrintStr(e.digits, e.key));
    PrefixFree(data, pos + |PrintStr(e.digits, e.key)|, e.value, f.value);
  }
}
