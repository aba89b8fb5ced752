/**
 `VectorStore` (utils.py): a faiss flat index paired with a dictionary from
 integer id to the text that was embedded, and the counter that hands out
 those ids. `add_texts` numbers the texts from the counter and appends the
 embeddings to the index; `search` reads row 0 of the index's answer and
 keeps, in order, the entries whose label is a known id.
 */
module Store {
  import opened FlatIndex
  import opened Selection

  /** One search result: the stored text and the distance faiss reported for it. */
  datatype Scored = Scored(text: string, distance: real)

  /** The test `idx in self.text_lookup` of the search comprehension. */
  function Known(lookup: map<int, string>): Neighbour -> bool {
    (n: Neighbour) => n.id in lookup
  }

  /** An entry that names a stored row rather than the padding label -1. */
  predicate IsLabel(n: Neighbour) {
    n.id != -1
  }

  /**
   The comprehension of `search`: for each entry of the row whose label is a
   known id, in row order, that id's text with the entry's distance.
   */
  function Resolve(row: seq<Neighbour>, lookup: map<int, string>): (r: seq<Scored>)
    ensures |r| <= |row|
    ensures forall j :: 0 <= j < |r| ==> r[j].text in lookup.Values
  {
    if row == [] then []
    else
      var n := row[|row| - 1];
      Resolve(row[..|row| - 1], lookup) + (if n.id in lookup then [Scored(lookup[n.id], n.distance)] else [])
  }

  /**
   `Resolve` keeps exactly the entries with a known id, in ascending row
   position, and each result carries that id's text and the entry's distance.
   */
  lemma {:induction false} ResolveIsSelection(row: seq<Neighbour>, lookup: map<int, string>)
    ensures |Resolve(row, lookup)| == |Positions(row, Known(lookup))|
    ensures forall j :: 0 <= j < |Resolve(row, lookup)| ==>
      var n := row[Positions(row, Known(lookup))[j]];
      n.id in lookup && Resolve(row, lookup)[j] == Scored(lookup[n.id], n.distance)
  {
    if row != [] {
      var init := row[..|row| - 1];
      ResolveIsSelection(init, lookup);
      assert forall i :: 0 <= i < |init| ==> init[i] == row[i];
    }
  }

  /**
   Results come out in the order faiss ranked them: when the row's distances
   ascend, so do the results'.
   */
  lemma ResolveKeepsOrder(row: seq<Neighbour>, lookup: map<int, string>)
    requires forall i, j :: 0 <= i < j < |row| ==> row[i].distance <= row[j].distance
    ensures forall i, j :: 0 <= i < j < |Resolve(row, lookup)| ==>
      Resolve(row, lookup)[i].distance <= Resolve(row, lookup)[j].distance
  {
    ResolveIsSelection(row, lookup);
  }

  /**
   When the ids in the dictionary are exactly the index's labels 0 .. ntotal-1,
   `Resolve` drops the padding entries and nothing else.
   */
  lemma ResolveDropsOnlyPadding(row: seq<Neighbour>, lookup: map<int, string>, k: nat, ntotal: nat)
    requires ValidRow(row, k, ntotal)
    requires forall id :: id in lookup <==> 0 <= id < ntotal
    ensures Positions(row, Known(lookup)) == Positions(row, IsLabel)
    ensures |Resolve(row, lookup)| == |Filter(row, IsLabel)|
  {
    SelectionAgrees(row, Known(lookup), IsLabel);
    ResolveIsSelection(row, lookup);
    FilterIsSelection(row, IsLabel);
  }

  /** Over an empty index every entry is padding, and no id is negative, so nothing is returned. */
  lemma {:induction false} ResolveOverEmptyIndex(row: seq<Neighbour>, lookup: map<int, string>, k: nat)
    requires ValidRow(row, k, 0)
    requires forall id :: id in lookup ==> id >= 0
    ensures Resolve(row, lookup) == []
  {
    if row != [] {
      ResolveOverEmptyIndex(row[..|row| - 1], lookup, k - 1);
    }
  }

  class VectorStore {
    /** `self.index`. */
    const index: IndexFlatL2
    /** `self.text_lookup`. */
    var textLookup: map<int, string>
    /** `self.current_id`: the next id to hand out. */
    var currentId: nat
    /** The texts added so far, in order; text i is stored under id i. */
    ghost var segments: seq<string>

    /** The dictionary holds exactly the ids 0 .. currentId-1, id i mapping to the i-th text added. */
    ghost predicate Valid()
      reads this
    {
      && currentId == |segments|
      && (forall id :: id in textLookup <==> 0 <= id < currentId)
      && (forall id :: 0 <= id < currentId ==> textLookup[id] == segments[id])
    }

    /** The index holds one row per id handed out, so labels and ids coincide. */
    predicate InLockstep()
      reads this, index
    {
      index.NTotal() == currentId
    }

    /** `VectorStore(dimension)`: an empty index, an empty dictionary and the counter at 0. */
    constructor (dimension: nat)
      ensures Valid() && InLockstep()
      ensures fresh(index) && index.d == dimension && index.vectors == []
      ensures textLookup == map[] && currentId == 0 && segments == []
    {
      index := new IndexFlatL2(dimension);
      textLookup := map[];
      currentId := 0;
      segments := [];
    }

    /**
     `add_texts(texts, embeddings)`: the texts get the ids currentId ..
     currentId+|texts|-1 in order, earlier entries are untouched, and the
     index grows by the number of embedding rows. Nothing checks that the two
     counts agree: the gap between index size and counter moves by their
     difference, so the two stay in lockstep only when they are equal.
     */
    method AddTexts(texts: seq<string>, embeddings: seq<Vector>)
      requires Valid()
      modifies this, index
      ensures Valid()
      ensures segments == old(segments) + texts
      ensures currentId == old(currentId) + |texts|
      ensures forall i :: 0 <= i < |texts| ==> old(currentId) + i in textLookup && textLookup[old(currentId) + i] == texts[i]
      ensures forall id :: id in old(textLookup) ==> id in textLookup && textLookup[id] == old(textLookup)[id]
      ensures index.vectors == old(index.vectors) + embeddings
      ensures index.NTotal() - currentId == old(index.NTotal() - currentId) + |embeddings| - |texts|
      ensures old(InLockstep()) && |embeddings| == |texts| ==> InLockstep()
    {
      for i := 0 to |texts|
        invariant currentId == old(currentId) + i
        invariant segments == old(segments) + texts[..i]
        invariant Valid()
        invariant forall id :: id in old(textLookup) ==> id in textLookup && textLookup[id] == old(textLookup)[id]
        invariant index.vectors == old(index.vectors)
      {
        textLookup := textLookup[currentId := texts[i]];
        currentId := currentId + 1;
        segments := segments + [texts[i]];
      }
      assert texts[..|texts|] == texts;
      index.Add(embeddings);
    }

    /**
     `search(query_vector, k)` where faiss answered the query's batch with
     `answer`: a 1-D query counts as a batch of one and only row 0 is read.
     The result keeps that row's order, has at most `k` entries,
     is empty over an empty index, and, with the stores in lockstep, loses
     only the padding. Nothing in the store changes.
     */
    method Search(query: Query, k: nat, answer: seq<seq<Neighbour>>) returns (results: seq<Scored>)
      requires Valid()
      requires |Rows(query)| >= 1
      requires index.Answers(Rows(query), k, answer)
      ensures results == Resolve(answer[0], textLookup)
      ensures |results| <= k
      ensures index.NTotal() == 0 ==> results == []
      ensures InLockstep() ==> |results| == |Filter(answer[0], IsLabel)|
    {
      var row := answer[0];
      assert ValidRow(row, k, index.NTotal());
      results := Resolve(row, textLookup);
      if index.NTotal() == 0 {
        ResolveOverEmptyIndex(row, textLookup, k);
      }
      if InLockstep() {
        ResolveDropsOnlyPadding(row, textLookup, k, currentId);
      }
    }
  }

  /**
   The ingestion and query sequence of the command-line and web front ends
   on three short texts: the oracle's answers are the ones an exact L2 search
   gives, including the -1 padding when `k` exceeds the stored count.
   */
  method ThreeTextScenario() {
    var store := new VectorStore(2);
    store.AddTexts(["A", "B", "C"], [[1.0, 0.0], [0.0, 1.0], [0.9, 0.1]]);
    assert store.InLockstep() && store.textLookup[0] == "A" && store.textLookup[1] == "B" && store.textLookup[2] == "C";
    assert -1 !in store.textLookup;

    var top2row := [Neighbour(0, 0.0), Neighbour(2, 0.02)];
    var padded := [Neighbour(0, 0.0), Neighbour(2, 0.02), Neighbour(1, 2.0), Neighbour(-1, FltMax), Neighbour(-1, FltMax)];
    ScenarioRows(top2row, padded, store.textLookup);

    var top2 := store.Search(Flat([1.0, 0.0]), 2, [top2row]);
    assert top2 == [Scored("A", 0.0), Scored("C", 0.02)];

    var top5 := store.Search(Flat([1.0, 0.0]), 5, [padded]);
    assert top5 == [Scored("A", 0.0), Scored("C", 0.02), Scored("B", 2.0)];
  }

  /**
   The two answers of the scenario above: the exact top two, and the top
   five with two padding entries, which are dropped.
   */
  lemma ScenarioRows(top2: seq<Neighbour>, padded: seq<Neighbour>, lookup: map<int, string>)
    requires top2 == [Neighbour(0, 0.0), Neighbour(2, 0.02)]
    requires padded == [Neighbour(0, 0.0), Neighbour(2, 0.02), Neighbour(1, 2.0), Neighbour(-1, FltMax), Neighbour(-1, FltMax)]
    requires 0 in lookup && 1 in lookup && 2 in lookup && -1 !in lookup
    requires lookup[0] == "A" && lookup[1] == "B" && lookup[2] == "C"
    ensures Resolve(top2, lookup) == [Scored("A", 0.0), Scored("C", 0.02)]
    ensures Resolve(padded, lookup) == [Scored("A", 0.0), Scored("C", 0.02), Scored("B", 2.0)]
  {
    assert top2[..1] == padded[..1] && top2 == padded[..2];
    assert padded[..1][..0] == [] && padded[..2][..1] == padded[..1];
    assert padded[..3][..2] == padded[..2] && padded[..4][..3] == padded[..3] && padded[..5] == padded;
    assert Resolve(padded[..1], lookup) == [Scored("A", 0.0)];
    assert Resolve(padded[..2], lookup) == [Scored("A", 0.0), Scored("C", 0.02)];
    assert Resolve(padded[..3], lookup) == [Scored("A", 0.0), Scored("C", 0.02), Scored("B", 2.0)];
  }
}
