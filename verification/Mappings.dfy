/** Address mappings as finite updates of an abstract map from keys to entries. */
module Mappings {
  import opened Bits
  import opened Tables

  /** The mapping after entry es[j] went to key ks[j], in order. */
  ghost function MapSeq(M: Mapping, ks: seq<Key>, es: seq<Word>): Mapping
    requires |ks| == |es|
  {
    if ks == [] then M
    else
      var last := |ks| - 1;
      MapSeq(M, ks[..last], es[..last])[ks[last] := es[last]]
  }

  /** None of the keys was mapped, and no key occurs twice. */
  ghost predicate FreshKeys(M: Mapping, ks: seq<Key>) {
    && (forall j :: 0 <= j < |ks| ==> ks[j] !in M)
    && (forall i, j :: 0 <= i < j < |ks| ==> ks[i] != ks[j])
  }

  /** Fresh keys get exactly their entries; every other key keeps what it had. */
  lemma {:induction false} MapSeqLookup(M: Mapping, ks: seq<Key>, es: seq<Word>)
    requires |ks| == |es| && FreshKeys(M, ks)
    ensures forall j :: 0 <= j < |ks| ==> ks[j] in MapSeq(M, ks, es) && MapSeq(M, ks, es)[ks[j]] == es[j]
    ensures forall k :: k !in ks ==> (k in MapSeq(M, ks, es) <==> k in M)
    ensures forall k :: k !in ks && k in M ==> MapSeq(M, ks, es)[k] == M[k]
  {
    if ks != [] {
      var last := |ks| - 1;
      var ks1, es1 := ks[..last], es[..last];
      MapSeqLookup(M, ks1, es1);
      forall j | 0 <= j < last
        ensures ks[j] in MapSeq(M, ks1, es1) && MapSeq(M, ks1, es1)[ks[j]] == es[j]
      {
        assert ks1[j] == ks[j] && es1[j] == es[j];
      }
    }
  }

  lemma MapSeqStep(M: Mapping, ks: seq<Key>, es: seq<Word>, k: Key, e: Word)
    requires |ks| == |es| && FreshKeys(M, ks) && k !in MapSeq(M, ks, es)
    ensures FreshKeys(M, ks + [k])
    ensures MapSeq(M, ks + [k], es + [e]) == MapSeq(M, ks, es)[k := e]
  {
    MapSeqLookup(M, ks, es);
    assert (ks + [k])[..|ks|] == ks && (es + [e])[..|es|] == es;
    assert k !in ks;
  }
}
