/**
 The faiss `IndexFlatL2` that `VectorStore` wraps, seen from outside. The
 index keeps the rows it was given and hands out their positions as
 labels. Its nearest-neighbour ranking and its float distances belong to
 the library, so the model does not compute a search answer: the caller
 passes one in, and `ValidRow` states what faiss promises about it.
 */
module FlatIndex {

  /** One embedding row (float32 in the source; no arithmetic is done on it here). */
  type Vector = seq<real>

  /**
   The distance faiss reports for a padding entry of an L2 search: the largest
   finite float32, FLT_MAX = (2 - 2^-23) * 2^127.
   */
  const FltMax: real := 340282346638528859811704183484516925440.0

  /** One entry of a search row: a stored row's label, or -1 as padding, and its distance. */
  datatype Neighbour = Neighbour(id: int, distance: real)

  /**
   What faiss returns as one row of `(distances, indices)` for a search with
   `k` neighbours over `ntotal` stored rows: exactly `k` entries, each label
   either the padding -1 or a stored position.
   */
  predicate ValidRow(row: seq<Neighbour>, k: nat, ntotal: nat) {
    && |row| == k
    && forall j :: 0 <= j < |row| ==> row[j].id == -1 || 0 <= row[j].id < ntotal
  }

  /** A query as handed to `VectorStore.search`: a single 1-D vector or a 2-D batch. */
  datatype Query = Flat(v: Vector) | Batch(rows: seq<Vector>)

  /**
   The batch the index is searched with: a 1-D query is reshaped with
   `reshape(1, -1)` into one row holding the whole vector; a 2-D query is
   passed as it is.
   */
  function Rows(q: Query): (rows: seq<Vector>)
    ensures q.Flat? ==> |rows| == 1 && rows[0] == q.v
    ensures q.Batch? ==> rows == q.rows
  {
    match q
    case Flat(v) => [v]
    case Batch(rows) => rows
  }

  class IndexFlatL2 {
    /** The dimension fixed at construction. */
    const d: nat
    /** The stored rows, in insertion order; a row's label is its position. */
    var vectors: seq<Vector>

    /** faiss's `ntotal`: how many rows are stored. */
    function NTotal(): nat
      reads this
    {
      |vectors|
    }

    /** `faiss.IndexFlatL2(d)`: an empty index of dimension `d`. */
    constructor (d: nat)
      ensures this.d == d && vectors == [] && NTotal() == 0
    {
      this.d := d;
      vectors := [];
    }

    /** `index.add(x)`: appends every row of `x`, labelled `ntotal ..` in order. */
    method Add(x: seq<Vector>)
      modifies this
      ensures vectors == old(vectors) + x
      ensures NTotal() == old(NTotal()) + |x|
    {
      vectors := vectors + x;
    }

    /** `search(xq, k)` answered with `answer`: one valid row per query row. */
    predicate Answers(xq: seq<Vector>, k: nat, answer: seq<seq<Neighbour>>)
      reads this
    {
      && |answer| == |xq|
      && forall r :: 0 <= r < |answer| ==> ValidRow(answer[r], k, NTotal())
    }
  }
}
