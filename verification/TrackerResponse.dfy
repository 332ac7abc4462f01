/**
 The tracker's answer: one bencoded dictionary and nothing else, in which the peers
 are given as a compact string or as a list.
 */
module TrackerResponse {
  import opened ByteStrings
  import opened BencodeGrammar
  import opened BencodeObject
  import opened BencodeParser
  import opened Heap
  import opened TorrentMetadata

  const INTERVAL: Bytes := [105, 110, 116, 101, 114, 118, 97, 108]
  const PEERS: Bytes := [112, 101, 101, 114, 115]

  lemma {:induction false} ResponseKeysSpelledOut()
    ensures INTERVAL == Text("interval") && PEERS == Text("peers")
  {
  }

  /** The response is, from its first byte to its last, the bencoding of a dictionary. */
  ghost predicate IsResponse(data: Bytes, t: Term) {
    WellFormed(t) && t.Dict? && Print(t) == data
  }

  lemma {:induction false} WholeInput(data: Bytes, t: Term, u: Term)
    requires WellFormed(t) && Has(data, 0, Print(t))
    requires IsResponse(data, u)
    ensures t == u && |Print(t)| == |data|
  {
    assert data[0..|data|] == data;
    PrefixFree(data, 0, t, u);
  }

  /** Every well-formed dictionary is a response, and nothing may follow it. */
  lemma {:induction false} ResponsesAreWhole(t: Term, rest: Bytes)
    requires WellFormed(t)
    ensures IsResponse(Print(t), t) <==> t.Dict?
    ensures rest != [] ==> forall u :: !IsResponse(Print(t) + rest, u)
  {
    hide Print, WellFormed;
    forall u | IsResponse(Print(t) + rest, u)
      ensures rest == []
    {
      HasAll(Print(t));
      HasConcat(Print(t) + rest, 0, Print(t), rest);
      HasAll(Print(t) + rest);
      PrefixFree(Print(t) + rest, 0, t, u);
    }
  }

  method ParseResponse(data: Bytes, heap: Allocator) returns (r: Option<Object>, ghost t: Term)
    requires |data| <= SIZE_MAX && heap.Valid()
    modifies heap
    ensures heap.Valid()
    ensures r.Some? ==> IsResponse(data, t) && Represents(r.value, t, 0)
    ensures r.Some? ==> heap.live == old(heap.live) + Blocks(r.value)
    ensures r.None? ==> heap.live == old(heap.live)
    ensures r.None? ==>
              || heap.Refusals() < old(heap.Refusals())
              || forall u :: !IsResponse(data, u)
  {
    hide Represents, Blocks, Print, WellFormed, PrintItems, Has;
    var parser := new Parser(data);
    r, t := parser.ParseBuffer(heap);
    forall u | IsResponse(data, u)
      ensures Has(data, 0, Print(u))
      ensures r.Some? ==> u == t && |Print(t)| == |data|
    {
      HasAll(data);
      if r.Some? {
        WholeInput(data, t, u);
      }
    }
    if r.None? {
      return;
    }
    RepresentsSpan(r.value, t, 0);
    if parser.position != |data| {
      var _ := heap.FreeObject(r.value);
      return None, t;
    }
    PrintIsAll(data, t);
    assert Parsed(data, r.value, t);
    ParsedKind(data, r.value, t);
    if KindOf(r.value.payload) != DictionaryKind {
      var _ := heap.FreeObject(r.value);
      return None, t;
    }
  }

  lemma {:induction false} HasAll(data: Bytes)
    ensures Has(data, 0, data)
  {
    assert data[0..|data|] == data;
  }

  lemma {:induction false} PrintIsAll(data: Bytes, t: Term)
    requires Has(data, 0, Print(t)) && |Print(t)| == |data|
    ensures Print(t) == data
  {
    assert data[0..|data|] == data;
  }

  method FindInterval(data: Bytes, response: Object, ghost t: Term) returns (r: Option<int>)
    requires Parsed(data, response, t)
    ensures r.Some? <==> Get(t, INTERVAL, IntegerKind).Some?
    ensures r.Some? ==> Get(t, INTERVAL, IntegerKind) == Some(Int(r.value))
  {
    hide Parsed, DictMap;
    var o := FindEntry(data, response, INTERVAL, IntegerKind, t);
    if o.None? {
      return None;
    }
    ParsedKind(data, o.value, Get(t, INTERVAL, IntegerKind).value);
    return Some(o.value.payload.n);
  }

  /** What a dictionary maps peers to, if a string or a list; which of the two is tried first cannot matter. */
  method FindPeers(data: Bytes, response: Object, ghost t: Term) returns (r: Option<Object>)
    requires Parsed(data, response, t)
    ensures r.Some? <==>
            && t.Dict? && PEERS in DictMap(t.entries)
            && TermKind(DictMap(t.entries)[PEERS]) in {StringKind, ListKind}
    ensures r.Some? ==>
              && Parsed(data, r.value, DictMap(t.entries)[PEERS])
              && KindOf(r.value.payload) == TermKind(DictMap(t.entries)[PEERS])
  {
    hide Parsed, DictMap;
    r := FindEntry(data, response, PEERS, StringKind, t);
    if r.Some? {
      return;
    }
    r := FindEntry(data, response, PEERS, ListKind, t);
  }
}
