/** Putting the vectors of a provider's reply, which may come in any order, at the places they name. */
module EmbeddingResponse {
  import opened Results

  datatype Item = Item(index: int, embedding: seq<real>)

  /** A decoded reply: indexed data, or a single embedding. */
  datatype Response = Response(data: seq<Item>, embedding: seq<real>)

  datatype ResponseError =
    | WrongCount(count: nat)
    | WrongDimension(dimension: nat)
    | InvalidIndex(index: int)
    | DuplicateIndex(index: int)
    | OmittedIndex(index: int)
    | SingleForMany
    | Missing

  predicate Placed(data: seq<Item>, expected: nat) {
    && |data| == expected
    && (forall i :: 0 <= i < |data| ==> 0 <= data[i].index < expected)
    && (forall i, j :: 0 <= i < j < |data| ==> data[i].index != data[j].index)
  }

  predicate Dimensioned(data: seq<Item>, dimension: nat) {
    forall i :: 0 <= i < |data| ==> |data[i].embedding| == dimension
  }

  function Embeddings(data: seq<Item>): (r: seq<seq<real>>)
    ensures |r| == |data|
  {
    seq(|data|, i requires 0 <= i < |data| => data[i].embedding)
  }

  function Indices(data: seq<Item>): set<int> {
    set i | 0 <= i < |data| :: data[i].index
  }

  lemma IndicesSnoc(data: seq<Item>, k: nat)
    requires k < |data|
    ensures Indices(data[..k + 1]) == Indices(data[..k]) + {data[k].index}
    ensures Embeddings(data[..k + 1]) == Embeddings(data[..k]) + [data[k].embedding]
  {
    assert data[..k + 1] == data[..k] + [data[k]];
    forall x | x in Indices(data[..k]) + {data[k].index}
      ensures x in Indices(data[..k + 1])
    {
      if x in Indices(data[..k]) {
        var i :| 0 <= i < k && data[..k][i].index == x;
        assert data[..k + 1][i].index == x;
      } else {
        assert data[..k + 1][k].index == x;
      }
    }
  }

  lemma {:induction false} BoundedSize(used: set<int>, n: nat)
    requires forall x :: x in used ==> 0 <= x < n
    ensures |used| <= n
    decreases n
  {
    if n > 0 {
      BoundedSize(used - {n - 1}, n - 1);
    } else {
      assert forall x :: x !in used;
    }
  }

  /** As many different indices as places fill every place. */
  lemma {:induction false} Pigeonhole(used: set<int>, n: nat)
    requires |used| == n && forall x :: x in used ==> 0 <= x < n
    ensures forall i :: 0 <= i < n ==> i in used
    decreases n
  {
    if n > 0 {
      BoundedSize(used - {n - 1}, n - 1);
      assert n - 1 in used;
      Pigeonhole(used - {n - 1}, n - 1);
      forall i | 0 <= i < n
        ensures i in used
      {
        assert i == n - 1 || i in used - {n - 1};
      }
    }
  }

  function Repeated(n: nat): seq<seq<real>> {
    seq(n, i => [])
  }

  lemma {:induction false} RepeatedBag(n: nat)
    ensures multiset(Repeated(n)) == multiset{}[[] := n]
  {
    if n > 0 {
      RepeatedBag(n - 1);
      assert Repeated(n) == Repeated(n - 1) + [[]];
    } else {
      assert Repeated(n) == [];
    }
  }

  /**
    parseEmbeddingResponse after decoding. On indexed data it succeeds exactly when there
    are as many items as inputs, every embedding has the dimension, and the indices are in
    range and different; then each vector stands at its own index and the result is a
    permutation of the embeddings. An omitted index is never reported.
   */
  method Parse(response: Response, expected: nat, dimension: nat) returns (r: Result<seq<seq<real>>, ResponseError>)
    ensures response.data != [] ==>
              (r.Ok? <==> Placed(response.data, expected) && Dimensioned(response.data, dimension))
    ensures r.Ok? && response.data != [] ==>
              && |r.value| == expected
              && (forall k :: 0 <= k < expected ==> 0 <= response.data[k].index < expected &&
                                                     r.value[response.data[k].index] == response.data[k].embedding)
              && multiset(r.value) == multiset(Embeddings(response.data))
    ensures response.data == [] ==>
              (r.Ok? <==> response.embedding != [] && expected == 1 && |response.embedding| == dimension)
    ensures r.Ok? && response.data == [] ==> r.value == [response.embedding]
    ensures r.Err? ==> !r.error.OmittedIndex?
  {
    if |response.data| > 0 {
      if |response.data| != expected {
        return Err(WrongCount(|response.data|));
      }
      r := PlaceVectors(response.data, dimension);
      return;
    }
    if |response.embedding| > 0 {
      if expected != 1 {
        return Err(SingleForMany);
      }
      if |response.embedding| != dimension {
        return Err(WrongDimension(|response.embedding|));
      }
      return Ok([response.embedding]);
    }
    return Err(Missing);
  }

  // The first k items are placed; the other places still hold the empty vector.
  predicate PlacedSoFar(data: seq<Item>, k: nat, used: set<int>, vectors: seq<seq<real>>)
    requires k <= |data|
  {
    && |vectors| == |data|
    && used == Indices(data[..k]) && |used| == k
    && (forall x :: x in used ==> 0 <= x < |data|)
    && (forall i :: 0 <= i < k ==> data[i].index in used)
    && (forall i, j :: 0 <= i < j < k ==> data[i].index != data[j].index)
    && (forall i :: 0 <= i < k ==> 0 <= data[i].index < |data| && vectors[data[i].index] == data[i].embedding)
    && (forall i :: 0 <= i < |data| && i !in used ==> vectors[i] == [])
  }

  // Counted with repetition, the places hold the placed embeddings and empty vectors.
  predicate BagSoFar(data: seq<Item>, k: nat, vectors: seq<seq<real>>)
    requires k <= |data|
  {
    multiset(vectors) == multiset(Embeddings(data[..k])) + multiset{}[[] := |data| - k]
  }

  lemma NothingPlaced(data: seq<Item>)
    ensures PlacedSoFar(data, 0, {}, Repeated(|data|)) && BagSoFar(data, 0, Repeated(|data|))
  {
    RepeatedBag(|data|);
    assert Embeddings([]) == [] && data[..0] == [];
  }

  lemma OneMorePlaced(data: seq<Item>, k: nat, used: set<int>, vectors: seq<seq<real>>)
    requires k < |data| && PlacedSoFar(data, k, used, vectors)
    requires 0 <= data[k].index < |data| && data[k].index !in used
    ensures PlacedSoFar(data, k + 1, used + {data[k].index}, vectors[data[k].index := data[k].embedding])
  {
    hide Indices, Embeddings;
    IndicesSnoc(data, k);
  }

  lemma OneMoreCounted(data: seq<Item>, k: nat, vectors: seq<seq<real>>, at: nat)
    requires k < |data| && BagSoFar(data, k, vectors) && at < |vectors| && vectors[at] == []
    ensures BagSoFar(data, k + 1, vectors[at := data[k].embedding])
  {
    hide Indices, Embeddings;
    IndicesSnoc(data, k);
    var v := data[k].embedding;
    assert multiset(vectors[at := v]) == multiset(vectors) - multiset{vectors[at]} + multiset{v};
    assert multiset(Embeddings(data[..k + 1])) == multiset(Embeddings(data[..k])) + multiset{v};
    OneMoreInBag(multiset(vectors), multiset(Embeddings(data[..k])), |data| - k, v);
  }

  lemma OneMoreInBag(bag: multiset<seq<real>>, done: multiset<seq<real>>, left: nat, v: seq<real>)
    requires left > 0 && bag == done + multiset{}[[] := left]
    ensures bag - multiset{[]} + multiset{v} == done + multiset{v} + multiset{}[[] := left - 1]
  {
  }

  // The indexed branch: an array of empty vectors is filled in the order of the reply.
  method PlaceVectors(data: seq<Item>, dimension: nat) returns (r: Result<seq<seq<real>>, ResponseError>)
    requires data != []
    ensures r.Ok? <==> Placed(data, |data|) && Dimensioned(data, dimension)
    ensures r.Ok? ==>
              && |r.value| == |data|
              && (forall k :: 0 <= k < |data| ==> 0 <= data[k].index < |data| && r.value[data[k].index] == data[k].embedding)
              && multiset(r.value) == multiset(Embeddings(data))
    ensures r.Err? ==> !r.error.OmittedIndex?
  {
    hide Embeddings, Indices, PlacedSoFar, BagSoFar;
    var expected := |data|;
    var vectors := new seq<real>[expected](_ => []);
    var used: set<int> := {};
    assert vectors[..] == Repeated(expected);
    NothingPlaced(data);
    for k := 0 to expected
      invariant Dimensioned(data[..k], dimension)
      invariant PlacedSoFar(data, k, used, vectors[..])
      invariant BagSoFar(data, k, vectors[..])
    {
      var item := data[k];
      UsedMeansSeen(data, k, item.index);
      UsedIsIndices(data, k, used, vectors[..]);
      if |item.embedding| != dimension {
        return Err(WrongDimension(|item.embedding|));
      }
      if item.index < 0 || item.index >= expected {
        return Err(InvalidIndex(item.index));
      }
      if item.index in used {
        return Err(DuplicateIndex(item.index));
      }
      OneMorePlaced(data, k, used, vectors[..]);
      OneMoreCounted(data, k, vectors[..], item.index);
      used := used + {item.index};
      vectors[item.index] := item.embedding;
    }
    assert data[..expected] == data;
    AllPlaced(data, used, vectors[..]);
    for i := 0 to expected
    {
      if i !in used {
        return Err(OmittedIndex(i));
      }
    }
    return Ok(vectors[..]);
  }

  lemma UsedIsIndices(data: seq<Item>, k: nat, used: set<int>, vectors: seq<seq<real>>)
    requires k <= |data| && PlacedSoFar(data, k, used, vectors)
    ensures used == Indices(data[..k]) && |vectors| == |data|
    ensures forall i :: 0 <= i < |data| && i !in used ==> vectors[i] == []
  {
  }

  lemma AllPlaced(data: seq<Item>, used: set<int>, vectors: seq<seq<real>>)
    requires PlacedSoFar(data, |data|, used, vectors) && BagSoFar(data, |data|, vectors)
    ensures Placed(data, |data|) && forall i :: 0 <= i < |data| ==> i in used
    ensures forall k :: 0 <= k < |data| ==> 0 <= data[k].index < |data| && vectors[data[k].index] == data[k].embedding
    ensures multiset(vectors) == multiset(Embeddings(data))
  {
    hide Embeddings, Indices;
    Pigeonhole(used, |data|);
    assert data[..|data|] == data;
  }

  lemma UsedMeansSeen(data: seq<Item>, k: nat, index: int)
    requires k < |data|
    ensures index in Indices(data[..k]) <==> exists i :: 0 <= i < k && data[i].index == index
  {
    if i :| 0 <= i < k && data[i].index == index {
      assert data[..k][i].index == index;
    }
  }

  /** The places are determined: an embedding stands at position p exactly when an item names p. */
  lemma PlacementIsInverse(data: seq<Item>, vectors: seq<seq<real>>, p: int) returns (k: nat)
    requires data != [] && Placed(data, |data|) && |vectors| == |data| && 0 <= p < |data|
    requires forall k :: 0 <= k < |data| ==> vectors[data[k].index] == data[k].embedding
    ensures k < |data| && data[k].index == p && vectors[p] == data[k].embedding
  {
    PlacedFills(data);
    assert forall x :: x in Indices(data) ==> 0 <= x < |data|;
    Pigeonhole(Indices(data), |data|);
    assert p in Indices(data);
    k :| 0 <= k < |data| && data[k].index == p;
  }

  lemma PlacedFills(data: seq<Item>)
    requires Placed(data, |data|)
    ensures |Indices(data)| == |data|
  {
    assert data[..|data|] == data;
    PrefixFills(data, |data|);
  }

  lemma {:induction false} PrefixFills(data: seq<Item>, k: nat)
    requires k <= |data| && Placed(data, |data|)
    ensures |Indices(data[..k])| == k
  {
    if k > 0 {
      PrefixFills(data, k - 1);
      IndicesSnoc(data, k - 1);
      UsedMeansSeen(data, k - 1, data[k - 1].index);
    }
  }
}
