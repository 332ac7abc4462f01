/**
 What a failed or unfinished scan rules out: from the bytes consumed so far the
 parser may conclude that no term of the grammar starts at a position.
 */
module BencodeScan {
  import opened ByteStrings
  import opened BencodeGrammar

  ghost predicate NoTerm(data: Bytes, pos: nat) {
    forall t :: WellFormed(t) ==> !Has(data, pos, Print(t))
  }

  ghost predicate NoStr(data: Bytes, pos: nat) {
    forall ds, content :: WellFormedStr(ds, content) ==> !Has(data, pos, PrintStr(ds, content))
  }

  ghost predicate NoInt(data: Bytes, pos: nat) {
    forall n :: IsInt64(n) ==> !Has(data, pos, PrintInt(n))
  }

  ghost predicate NoList(data: Bytes, pos: nat) {
    forall ts :: WellFormed(List(ts)) ==> !Has(data, pos, Print(List(ts)))
  }

  ghost predicate NoDict(data: Bytes, pos: nat) {
    forall es :: WellFormed(Dict(es)) ==> !Has(data, pos, Print(Dict(es)))
  }

  /** No entry at pos may follow the entries es. */
  ghost predicate NoEntryAfter(data: Bytes, pos: nat, es: seq<Entry>) {
    forall e :: WellFormedEntry(e) && Follows(es, e.key) ==> !Has(data, pos, PrintEntry(e))
  }

  ghost predicate Follows(es: seq<Entry>, key: Bytes) {
    es == [] || Less(es[|es| - 1].key, key)
  }

  /** The first byte decides which production can apply. */
  lemma {:induction false} NoTermByKind(data: Bytes, pos: nat)
    requires pos < |data| && IsDigit(data[pos]) ==> NoStr(data, pos)
    requires pos < |data| && data[pos] == LETTER_I ==> NoInt(data, pos)
    requires pos < |data| && data[pos] == LETTER_L ==> NoList(data, pos)
    requires pos < |data| && data[pos] == LETTER_D ==> NoDict(data, pos)
    ensures NoTerm(data, pos)
  {
    forall t | WellFormed(t)
      ensures !Has(data, pos, Print(t))
    {
      PrintStart(t);
      if Has(data, pos, Print(t)) {
        HasAt(data, pos, Print(t), 0);
        match t
        case Int(n) =>
        case Str(digits, content) =>
        case List(items) =>
        case Dict(entries) =>
      }
    }
  }

  lemma {:induction false} NothingAtEnd(data: Bytes)
    ensures NoTerm(data, |data|) && NoStr(data, |data|)
  {
    NoTermByKind(data, |data|);
    HasNothing(data, |data|);
    NoStrByRun(data, |data|, []);
  }

  /** What a digit run already read says about any string printed at the same place. */
  lemma {:induction false} StrShape(data: Bytes, pos: nat, run: Bytes, ds: Bytes, content: Bytes)
    requires WellFormedStr(ds, content) && Has(data, pos, PrintStr(ds, content))
    requires AllDigits(run) && Has(data, pos, run)
    ensures run <= ds && Numeral(run) <= |content|
    ensures pos + |run| < |data|
    ensures data[pos + |run|] == COLON ==> run == ds
    ensures IsDigit(data[pos + |run|]) || data[pos + |run|] == COLON
    ensures pos < |data| && IsDigit(data[pos])
    ensures pos + |ds| + 1 + |content| <= |data|
  {
    hide Has, Decimal;
    HasStr(data, pos, ds, content);
    HasBound(data, pos, run);
    HasBound(data, pos + |ds| + 1, content);
    RunIsPrefix(data, pos, run, ds);
    NumeralGrows(run, ds);
    HasAt(data, pos, ds, 0);
    if |run| < |ds| {
      HasAt(data, pos, ds, |run|);
    }
  }

  lemma {:induction false} NoStrByRun(data: Bytes, pos: nat, run: Bytes)
    requires AllDigits(run) && Has(data, pos, run)
    requires || pos + |run| == |data|
             || !(IsDigit(data[pos + |run|]) || data[pos + |run|] == COLON)
             || !IsDigit(data[pos])
             || Numeral(run) > |data|
             || (data[pos + |run|] == COLON && pos + |run| + 1 + Numeral(run) > |data|)
    ensures NoStr(data, pos)
  {
    forall ds, content | WellFormedStr(ds, content)
      ensures !Has(data, pos, PrintStr(ds, content))
    {
      if Has(data, pos, PrintStr(ds, content)) {
        StrShape(data, pos, run, ds, content);
      }
    }
  }

  predicate Negative(data: Bytes, pos: nat) {
    pos + 1 < |data| && data[pos + 1] == MINUS
  }

  /** Where the digits of an integer at pos begin. */
  function DigitsFrom(data: Bytes, pos: nat): nat {
    if Negative(data, pos) then pos + 2 else pos + 1
  }

  /** The largest magnitude an int64_t of this sign can have. */
  function MagnitudeLimit(negative: bool): nat {
    if negative then INT64_MAX + 1 else INT64_MAX
  }

  lemma {:induction false} IntShape(data: Bytes, pos: nat, run: Bytes, n: int)
    requires IsInt64(n) && Has(data, pos, PrintInt(n))
    requires AllDigits(run) && Has(data, DigitsFrom(data, pos), run)
    ensures pos + 1 < |data| && data[pos] == LETTER_I
    ensures var from, ds := DigitsFrom(data, pos), Decimal(Abs(n));
            && from + |run| < |data|
            && run <= ds
            && Numeral(run) <= MagnitudeLimit(Negative(data, pos))
            && (IsDigit(data[from + |run|]) || data[from + |run|] == LETTER_E)
            && (run == [] ==> IsDigit(data[from]))
            && (run == [] && Negative(data, pos) ==> data[from] != ZERO)
            && (run == [ZERO] ==> !IsDigit(data[from + 1]))
  {
    hide Has, Decimal;
    HasInt(data, pos, n);
    var from, ds := DigitsFrom(data, pos), Decimal(Abs(n));
    RunIsPrefix(data, from, run, ds);
    NumeralGrows(run, ds);
    HasAt(data, from, ds, 0);
    if |run| < |ds| {
      HasAt(data, from, ds, |run|);
    }
  }

  lemma {:induction false} NoIntByRun(data: Bytes, pos: nat, run: Bytes)
    requires AllDigits(run) && Has(data, DigitsFrom(data, pos), run)
    requires var from := DigitsFrom(data, pos);
             || pos + 1 >= |data| || data[pos] != LETTER_I
             || from + |run| == |data|
             || Numeral(run) > MagnitudeLimit(Negative(data, pos))
             || !(IsDigit(data[from + |run|]) || data[from + |run|] == LETTER_E)
             || (run == [] && !IsDigit(data[from]))
             || (run == [] && Negative(data, pos) && data[from] == ZERO)
             || (run == [ZERO] && IsDigit(data[from + 1]))
    ensures NoInt(data, pos)
  {
    forall n | IsInt64(n)
      ensures !Has(data, pos, PrintInt(n))
    {
      if Has(data, pos, PrintInt(n)) {
        IntShape(data, pos, run, n);
      }
    }
  }

  lemma {:induction false} NoIntWithoutLetter(data: Bytes, pos: nat)
    requires pos >= |data| || data[pos] != LETTER_I
    ensures NoInt(data, pos)
  {
    forall n | IsInt64(n)
      ensures !Has(data, pos, PrintInt(n))
    {
      if Has(data, pos, PrintInt(n)) {
        HasInt(data, pos, n);
      }
    }
  }

  /** A canonical run of digits between i (with its sign) and e is the print of an integer. */
  lemma {:induction false} IsPrintedInt(data: Bytes, pos: nat, run: Bytes, n: int)
    requires pos < |data| && data[pos] == LETTER_I
    requires Negative(data, pos) <==> n < 0
    requires run == Decimal(Abs(n)) && Has(data, DigitsFrom(data, pos), run)
    requires DigitsFrom(data, pos) + |run| < |data| && data[DigitsFrom(data, pos) + |run|] == LETTER_E
    ensures Has(data, pos, PrintInt(n))
    ensures |PrintInt(n)| == DigitsFrom(data, pos) + |run| + 1 - pos
  {
    hide Has, Decimal;
    var from := DigitsFrom(data, pos);
    HasByte(data, pos, LETTER_I);
    HasByte(data, from + |run|, LETTER_E);
    HasConcat(data, from, run, [LETTER_E]);
    if n < 0 {
      HasByte(data, pos + 1, MINUS);
      HasConcat(data, pos + 1, [MINUS], run + [LETTER_E]);
      HasConcat(data, pos, [LETTER_I], [MINUS] + (run + [LETTER_E]));
    } else {
      HasConcat(data, pos, [LETTER_I], run + [LETTER_E]);
    }
  }

  /** After the items ts, a list that is printed here in full goes on with e or with another term. */
  lemma {:induction false} ListGoesOn(data: Bytes, pos: nat, ts: seq<Term>, us: seq<Term>)
    requires WellFormedItems(us) && Has(data, pos, Print(List(us)))
    requires WellFormedItems(ts) && Has(data, pos + 1, PrintItems(ts))
    ensures pos < |data| && data[pos] == LETTER_L
    ensures var next := pos + 1 + |PrintItems(ts)|;
            next < |data| && (data[next] == LETTER_E || (!NoTerm(data, next) && |ts| < |us|))
  {
    hide Has, Decimal;
    HasBody(data, pos, LETTER_L, PrintItems(us));
    ItemsPrefix(data, pos + 1, ts, us);
    HasBound(data, pos + 1, PrintItems(ts));
    if ts != us {
      NextItem(data, pos + 1, ts, us);
      PrintStart(us[|ts|]);
      HasBound(data, pos + 1 + |PrintItems(ts)|, Print(us[|ts|]));
    }
  }

  lemma {:induction false} NextItem(data: Bytes, pos: nat, ts: seq<Term>, us: seq<Term>)
    requires ts < us && Has(data, pos, PrintItems(us))
    ensures Has(data, pos + |PrintItems(ts)|, Print(us[|ts|]))
    decreases |ts|
  {
    hide Has, Decimal;
    HasConcat(data, pos, Print(us[0]), PrintItems(us[1..]));
    if ts != [] {
      assert ts[0] == us[0] && us[|ts|] == us[1..][|ts| - 1];
      NextItem(data, pos + |Print(us[0])|, ts[1..], us[1..]);
    }
  }

  lemma {:induction false} NoListByItems(data: Bytes, pos: nat, ts: seq<Term>)
    requires WellFormedItems(ts) && Has(data, pos + 1, PrintItems(ts))
    requires var next := pos + 1 + |PrintItems(ts)|;
             next == |data| || (data[next] != LETTER_E && NoTerm(data, next))
    ensures NoList(data, pos)
  {
    forall us: seq<Term> | WellFormed(List(us))
      ensures !Has(data, pos, Print(List(us)))
    {
      if Has(data, pos, Print(List(us))) {
        ListGoesOn(data, pos, ts, us);
      }
    }
  }

  /** A list that goes on after the largest number of items is none of the grammar. */
  lemma {:induction false} NoListByCount(data: Bytes, pos: nat, ts: seq<Term>)
    requires WellFormedItems(ts) && Has(data, pos + 1, PrintItems(ts)) && |ts| >= MAX_ITEMS
    requires var next := pos + 1 + |PrintItems(ts)|; next < |data| && data[next] != LETTER_E
    ensures NoList(data, pos)
  {
    forall us: seq<Term> | WellFormed(List(us))
      ensures !Has(data, pos, Print(List(us)))
    {
      if Has(data, pos, Print(List(us))) {
        ListGoesOn(data, pos, ts, us);
      }
    }
  }

  /** After the entries es, a dictionary that is printed here in full goes on with e or with a further entry. */
  lemma {:induction false} DictGoesOn(data: Bytes, pos: nat, es: seq<Entry>, fs: seq<Entry>)
    requires WellFormedEntries(fs) && Ascending(fs) && Has(data, pos, Print(Dict(fs)))
    requires WellFormedEntries(es) && Has(data, pos + 1, PrintEntries(es))
    ensures pos < |data| && data[pos] == LETTER_D
    ensures var next := pos + 1 + |PrintEntries(es)|;
            next < |data| && (data[next] == LETTER_E || (!NoEntryAfter(data, next, es) && |es| < |fs|))
  {
    hide Has, Decimal;
    HasBody(data, pos, LETTER_D, PrintEntries(fs));
    EntriesPrefix(data, pos + 1, es, fs);
    if es != fs {
      NextEntry(data, pos + 1, es, fs);
      assert WellFormedEntry(fs[|es|]);
      PrintEntryStart(fs[|es|]);
      HasBound(data, pos + 1 + |PrintEntries(es)|, PrintEntry(fs[|es|]));
      assert Follows(es, fs[|es|].key);
    }
  }

  lemma {:induction false} NextEntry(data: Bytes, pos: nat, es: seq<Entry>, fs: seq<Entry>)
    requires es < fs && Has(data, pos, PrintEntries(fs))
    ensures Has(data, pos + |PrintEntries(es)|, PrintEntry(fs[|es|]))
    decreases |es|
  {
    hide Has, Decimal;
    HasConcat(data, pos, PrintEntry(fs[0]), PrintEntries(fs[1..]));
    if es != [] {
      assert es[0] == fs[0] && fs[|es|] == fs[1..][|es| - 1];
      NextEntry(data, pos + |PrintEntry(fs[0])|, es[1..], fs[1..]);
    }
  }

  lemma {:induction false} NoDictByEntries(data: Bytes, pos: nat, es: seq<Entry>)
    requires WellFormedEntries(es) && Has(data, pos + 1, PrintEntries(es))
    requires var next := pos + 1 + |PrintEntries(es)|;
             next == |data| || (data[next] != LETTER_E && NoEntryAfter(data, next, es))
    ensures NoDict(data, pos)
  {
    forall fs: seq<Entry> | WellFormed(Dict(fs))
      ensures !Has(data, pos, Print(Dict(fs)))
    {
      if Has(data, pos, Print(Dict(fs))) {
        DictGoesOn(data, pos, es, fs);
      }
    }
  }

  lemma {:induction false} NoDictByCount(data: Bytes, pos: nat, es: seq<Entry>)
    requires WellFormedEntries(es) && Has(data, pos + 1, PrintEntries(es)) && |es| >= MAX_ENTRIES
    requires var next := pos + 1 + |PrintEntries(es)|; next < |data| && data[next] != LETTER_E
    ensures NoDict(data, pos)
  {
    forall fs: seq<Entry> | WellFormed(Dict(fs))
      ensures !Has(data, pos, Print(Dict(fs)))
    {
      if Has(data, pos, Print(Dict(fs))) {
        DictGoesOn(data, pos, es, fs);
      }
    }
  }

  /** A list or dictionary needs its own letter first. */
  lemma {:induction false} NoBodyByLetter(data: Bytes, pos: nat)
    ensures pos >= |data| || data[pos] != LETTER_L ==> NoList(data, pos)
    ensures pos >= |data| || data[pos] != LETTER_D ==> NoDict(data, pos)
  {
    forall ts: seq<Term>, es: seq<Entry>
      ensures Has(data, pos, Print(List(ts))) ==> pos < |data| && data[pos] == LETTER_L
      ensures Has(data, pos, Print(Dict(es))) ==> pos < |data| && data[pos] == LETTER_D
    {
      HasBody(data, pos, LETTER_L, PrintItems(ts));
      HasBody(data, pos, LETTER_D, PrintEntries(es));
    }
  }

  /** An entry fails if its key does not parse, does not follow the last key, or has no value after it. */
  lemma {:induction false} NoEntryByKey(data: Bytes, pos: nat, es: seq<Entry>)
    requires NoStr(data, pos)
    ensures NoEntryAfter(data, pos, es)
  {
    forall e | WellFormedEntry(e) && Follows(es, e.key)
      ensures !Has(data, pos, PrintEntry(e))
    {
      HasConcat(data, pos, PrintStr(e.digits, e.key), Print(e.value));
    }
  }

  lemma {:induction false} NoEntryByOrderOrValue(data: Bytes, pos: nat, es: seq<Entry>, digits: Bytes, key: Bytes)
    requires WellFormedStr(digits, key) && Has(data, pos, PrintStr(digits, key))
    requires !Follows(es, key) || NoTerm(data, pos + |PrintStr(digits, key)|)
    ensures NoEntryAfter(data, pos, es)
  {
    forall e | WellFormedEntry(e) && Follows(es, e.key)
      ensures !Has(data, pos, PrintEntry(e))
    {
      HasConcat(data, pos, PrintStr(e.digits, e.key), Print(e.value));
      if Has(data, pos, PrintEntry(e)) {
        StrUnique(data, pos, digits, key, e.digits, e.key);
      }
    }
  }
}
