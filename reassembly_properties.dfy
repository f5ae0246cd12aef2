/** What the reassembly protocol guarantees, proved about the functions of `Reassembly`. */
module ReassemblyProperties {
  import opened Options
  import opened ChunkCodec
  import opened Reassembly

  lemma {:induction false} ConcatAppend(ss: seq<string>, s: string)
    ensures Concat(ss + [s]) == Concat(ss) + s
  {
    if ss != [] {
      assert (ss + [s])[1..] == ss[1..] + [s];
      ConcatAppend(ss[1..], s);
    }
  }

  /** Assembling one more part appends that part's text, or nothing when it is missing. */
  lemma AssembleNext(m: ChunkMap, n: nat)
    ensures Assemble(m, n + 1) == Assemble(m, n) + Lookup(m, n + 1)
    ensures n + 1 !in m ==> Assemble(m, n + 1) == Assemble(m, n)
  {
    assert Slots(m, n + 1) == Slots(m, n) + [Lookup(m, n + 1)];
    ConcatAppend(Slots(m, n), Lookup(m, n + 1));
  }

  /** The full text depends only on parts `1..n`; other keys play no part in it. */
  lemma AssembleLocal(m: ChunkMap, m': ChunkMap, n: nat)
    requires forall k :: 1 <= k <= n ==> Lookup(m, k) == Lookup(m', k)
    ensures Assemble(m, n) == Assemble(m', n)
  {
    assert Slots(m, n) == Slots(m', n);
  }

  /** A map holding `contents[i]` at part `i + 1` assembles to the contents in order. */
  lemma AssembleContents(m: ChunkMap, contents: seq<string>)
    requires forall i :: 0 <= i < |contents| ==> i + 1 in m && m[i + 1] == contents[i]
    ensures Assemble(m, |contents|) == Concat(contents)
  {
    assert Slots(m, |contents|) == contents;
  }

  /** Once a total is held, no later chunk changes it. */
  lemma {:induction false} AdoptAllPinned(t: Option<nat>, cs: seq<Chunk>)
    requires HasTotal(t)
    ensures AdoptAll(t, cs) == t
  {
    if cs != [] {
      AdoptAllPinned(t, cs[..|cs| - 1]);
    }
  }

  /** A total of 0 never counts as held, however many chunks carry it. */
  lemma {:induction false} AdoptAllZero(cs: seq<Chunk>)
    requires forall i :: 0 <= i < |cs| ==> cs[i].total == 0
    ensures !HasTotal(AdoptAll(None, cs))
  {
    if cs != [] {
      AdoptAllZero(cs[..|cs| - 1]);
    }
  }

  /** The total held is the one carried by the first chunk with a non-zero total. */
  lemma {:induction false} AdoptAllFirstSeen(cs: seq<Chunk>, i: nat)
    requires i < |cs| && cs[i].total != 0
    requires forall j :: 0 <= j < i ==> cs[j].total == 0
    ensures AdoptAll(None, cs) == Some(cs[i].total)
  {
    var init := cs[..|cs| - 1];
    if i == |cs| - 1 {
      AdoptAllZero(init);
    } else {
      AdoptAllFirstSeen(init, i);
      assert HasTotal(AdoptAll(None, init));
    }
  }

  /** Every part in `Parts(cs)` is carried by some chunk of `cs`, returned as `i`. */
  lemma {:induction false} PartsWitness(cs: seq<Chunk>, k: nat) returns (i: nat)
    requires k in Parts(cs)
    ensures i < |cs| && cs[i].part == k
    decreases |cs|
  {
    var init := cs[..|cs| - 1];
    if k == cs[|cs| - 1].part {
      i := |cs| - 1;
    } else {
      i := PartsWitness(init, k);
      assert init[i] == cs[i];
    }
  }

  lemma FreshPartsInit(m: ChunkMap, cs: seq<Chunk>)
    requires cs != [] && FreshParts(m, cs)
    ensures FreshParts(m, cs[..|cs| - 1])
    ensures cs[|cs| - 1].part !in Parts(cs[..|cs| - 1])
    ensures cs[|cs| - 1].part !in m
  {
  }

  /** Pairwise distinct parts that are not keys of `m` are fresh. */
  lemma {:induction false} DistinctPartsFresh(m: ChunkMap, cs: seq<Chunk>)
    requires forall i, j :: 0 <= i < j < |cs| ==> cs[i].part != cs[j].part
    requires forall i :: 0 <= i < |cs| ==> cs[i].part !in m
    ensures FreshParts(m, cs)
    decreases |cs|
  {
    if cs != [] {
      var init := cs[..|cs| - 1];
      assert forall i :: 0 <= i < |init| ==> init[i] == cs[i];
      DistinctPartsFresh(m, init);
      if cs[|cs| - 1].part in Parts(init) {
        var i := PartsWitness(init, cs[|cs| - 1].part);
        assert false;
      }
    }
  }

  /**
    Merging chunks whose parts are all distinct and new adds exactly the chunks' parts
    as keys, one key per chunk.
  */
  lemma {:induction false} MergeAllFreshKeys(m: ChunkMap, cs: seq<Chunk>)
    requires FreshParts(m, cs)
    decreases |cs|
    ensures MergeAll(m, cs).Keys == m.Keys + Parts(cs)
    ensures |MergeAll(m, cs)| == |m| + |cs|
  {
    if cs != [] {
      var init, last := cs[..|cs| - 1], cs[|cs| - 1];
      FreshPartsInit(m, cs);
      MergeAllFreshKeys(m, init);
      MergeAllStep(m, cs);
      FreshInsert(MergeAll(m, init), last, m.Keys, Parts(init));
    }
  }

  /** One step of the fold: the last chunk goes in unless its slot is occupied. */
  lemma MergeAllStep(m: ChunkMap, cs: seq<Chunk>)
    requires cs != []
    ensures MergeAll(m, cs) == MergeChunk(MergeAll(m, cs[..|cs| - 1]), cs[|cs| - 1])
    ensures Parts(cs) == Parts(cs[..|cs| - 1]) + {cs[|cs| - 1].part}
  {
  }

  /** Accepting one more chunk advances both folds by one step. */
  lemma FoldStep(cs: seq<Chunk>, c: Chunk)
    ensures MergeAll(map[], cs + [c]) == MergeChunk(MergeAll(map[], cs), c)
    ensures AdoptAll(None, cs + [c]) == AdoptTotal(AdoptAll(None, cs), c)
  {
    assert (cs + [c])[..|cs|] == cs;
  }

  /** Merging a chunk whose part number is new stores it and touches nothing else. */
  lemma FreshStore(r0: ChunkMap, c: Chunk)
    requires c.part !in r0
    ensures MergeChunk(r0, c) == r0[c.part := c.content]
  {
  }

  /** Merging a chunk whose part number is new keeps every entry already held. */
  lemma FreshKeep(r0: ChunkMap, c: Chunk, k: nat)
    requires c.part !in r0 && k in r0
    ensures k in MergeChunk(r0, c) && MergeChunk(r0, c)[k] == r0[k]
  {
  }

  /** Merging a chunk whose part number is new adds exactly that key. */
  lemma FreshInsert(r0: ChunkMap, c: Chunk, base: set<nat>, seen: set<nat>)
    requires r0.Keys == base + seen && c.part !in r0
    ensures MergeChunk(r0, c).Keys == base + (seen + {c.part})
    ensures |MergeChunk(r0, c)| == |r0| + 1
  {
    assert MergeChunk(r0, c) == r0[c.part := c.content];
  }


  /** Merging chunks whose parts are all distinct and new stores each chunk's content under its part. */
  lemma {:induction false} MergeAllFreshValue(m: ChunkMap, cs: seq<Chunk>, i: nat)
    requires FreshParts(m, cs) && i < |cs|
    decreases |cs|
    ensures cs[i].part in MergeAll(m, cs) && MergeAll(m, cs)[cs[i].part] == cs[i].content
  {
    var init, last := cs[..|cs| - 1], cs[|cs| - 1];
    FreshPartsInit(m, cs);
    MergeAllFreshKeys(m, init);
    MergeAllStep(m, cs);
    if i < |cs| - 1 {
      assert init[i] == cs[i];
      MergeAllFreshValue(m, init, i);
      FreshKeep(MergeAll(m, init), last, cs[i].part);
    } else {
      FreshStore(MergeAll(m, init), last);
    }
  }



  /** Merging chunks whose parts are all new keeps every earlier entry. */
  lemma {:induction false} MergeAllKeeps(m: ChunkMap, cs: seq<Chunk>, k: nat)
    requires FreshParts(m, cs) && k in m
    decreases |cs|
    ensures k in MergeAll(m, cs) && MergeAll(m, cs)[k] == m[k]
  {
    if cs != [] {
      var init := cs[..|cs| - 1];
      FreshPartsInit(m, cs);
      MergeAllFreshKeys(m, init);
      MergeAllKeeps(m, init, k);
    }
  }

  /**
    Order-independent completion: the parts `1..N` of a message, offered in any order to
    an empty map, fix the total at `N`, complete the map, and assemble to the contents
    in index order.
  */
  lemma CompleteInAnyOrder(contents: seq<string>, order: seq<nat>)
    requires |contents| > 0 && IsOrdering(order, |contents|)
    ensures var cs := Arrivals(contents, order);
      var m := MergeAll(map[], cs);
      var t := AdoptAll(None, cs);
      && t == Some(|contents|)
      && IsComplete(m, t)
      && Assemble(m, |contents|) == Concat(contents)
  {
    var cs := Arrivals(contents, order);
    AdoptAllFirstSeen(cs, 0);
    ArrivalsKeys(contents, order);
    var m := MergeAll(map[], cs);
    forall i | 0 <= i < |contents|
      ensures i + 1 in m && m[i + 1] == contents[i]
    {
      ArrivalsValue(contents, order, i + 1);
    }
    AssembleContents(m, contents);
  }

  /** Arrivals of an ordering lands on exactly the keys `1..N`. */
  lemma ArrivalsKeys(contents: seq<string>, order: seq<nat>)
    requires IsOrdering(order, |contents|)
    ensures FreshParts(map[], Arrivals(contents, order))
    ensures Parts(Arrivals(contents, order)) == PartRange(|contents|)
    ensures MergeAll(map[], Arrivals(contents, order)).Keys == PartRange(|contents|)
  {
    var cs := Arrivals(contents, order);
    DistinctPartsFresh(map[], cs);
    MergeAllFreshKeys(map[], cs);
    PartsInRange(cs, |contents|);
    FullSubset(Parts(cs), PartRange(|contents|));
  }

  lemma ArrivalsValue(contents: seq<string>, order: seq<nat>, k: nat)
    requires IsOrdering(order, |contents|) && 1 <= k <= |contents|
    ensures var m := MergeAll(map[], Arrivals(contents, order));
      k in m && m[k] == contents[k - 1]
  {
    var cs := Arrivals(contents, order);
    ArrivalsKeys(contents, order);
    var j := PartsWitness(cs, k);
    assert cs[j] == Chunk(k, |contents|, contents[k - 1]);
    MergeAllFreshValue(map[], cs, j);
  }

  /** Part numbers that all lie in `1..n` form a subset of the range. */
  lemma PartsInRange(cs: seq<Chunk>, n: nat)
    requires forall i :: 0 <= i < |cs| ==> 1 <= cs[i].part <= n
    ensures Parts(cs) <= PartRange(n)
  {
    forall k | k in Parts(cs) ensures k in PartRange(n) {
      var i := PartsWitness(cs, k);
    }
  }

  /** A subset as large as its superset is the whole of it. */
  lemma FullSubset(a: set<nat>, b: set<nat>)
    requires a <= b && |a| == |b|
    ensures a == b
  {
    assert |b - a| == |b| - |a|;
  }

  /**
    Merging touches at most the chunk's own part: an occupied part keeps its content,
    otherwise that one key takes the chunk's content, and every other key is unchanged.
  */
  lemma MergeChunkFrame(m: ChunkMap, c: Chunk)
    ensures MergeChunk(m, c).Keys == m.Keys + {c.part}
    ensures forall k :: k in m && k != c.part ==> MergeChunk(m, c)[k] == m[k]
    ensures Occupied(m, c.part) ==> MergeChunk(m, c) == m
    ensures !Occupied(m, c.part) ==> MergeChunk(m, c)[c.part] == c.content
    ensures |MergeChunk(m, c)| == if c.part in m then |m| else |m| + 1
  {
  }

  /** Offering a chunk a second time changes nothing, whatever its content. */
  lemma MergeChunkIdempotent(m: ChunkMap, c: Chunk)
    ensures MergeChunk(MergeChunk(m, c), c) == MergeChunk(m, c)
  {
  }

  /** A part stored with empty content is replaced by a later chunk for the same part. */
  lemma EmptyPartReplaced(m: ChunkMap, c: Chunk)
    requires c.part in m && m[c.part] == ""
    ensures MergeChunk(m, c) == m[c.part := c.content]
  {
  }

  /**
    Completion counts keys, not indices: a part outside `1..total` counts towards the
    total, and the part it displaced assembles as the empty string.
  */
  lemma CompletionCountsKeys()
    ensures var m := map[1 := "a", 7 := "b"];
      IsComplete(m, Some(2)) && Assemble(m, 2) == "a"
  {
    var m := map[1 := "a", 7 := "b"];
    assert m.Keys == {1, 7};
    AssembleNext(m, 1);
    AssembleNext(m, 0);
    assert Assemble(m, 0) == "";
  }

  /** The wording after 2 of 5 distinct parts. */
  lemma ProgressTwoOfFive()
    ensures ProgressMessage(2, 5) == "\U{1F4E6} 2 / 5 parts scanned (3 remaining)"
  {
    assert Decimal(2) == "2" && Decimal(5) == "5" && IntString(3) == "3";
    var s := "\U{1F4E6} " + "2" + " / " + "5";
    assert s == "\U{1F4E6} 2 / 5";
    assert s + " parts scanned (" == "\U{1F4E6} 2 / 5 parts scanned (";
  }


  /** More keys than the total: the remaining count is rendered with a minus sign. */
  lemma ProgressOverfull(n: nat, total: nat)
    requires n > total
    ensures ProgressMessage(n, total) == "\U{1F4E6} " + Decimal(n) + " / " + Decimal(total)
      + " parts scanned (-" + Decimal(n - total) + " remaining)"
  {
    var head := "\U{1F4E6} " + Decimal(n) + " / " + Decimal(total);
    assert head + " parts scanned (" + ("-" + Decimal(n - total)) + " remaining)"
        == head + " parts scanned (-" + Decimal(n - total) + " remaining)";
  }

}
