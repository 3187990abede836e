/** Sequences of blocks laid end to end, as the generators emit them: one
    block of parts per panel, one group of words per chunk. */
module Blocks {

  /** The blocks of `blocks`, one after the other. */
  function Flatten<T>(blocks: seq<seq<T>>): seq<T>
  {
    if blocks == [] then [] else Flatten(blocks[..|blocks| - 1]) + blocks[|blocks| - 1]
  }

  lemma {:induction false} FlattenLength<T>(blocks: seq<seq<T>>, size: nat)
    requires forall i :: 0 <= i < |blocks| ==> |blocks[i]| == size
    ensures |Flatten(blocks)| == |blocks| * size
    decreases |blocks|
  {
    if blocks != [] {
      FlattenLength(blocks[..|blocks| - 1], size);
      assert (|blocks| - 1) * size + size == |blocks| * size;
    }
  }

  /** Flattening blocks of one size puts element `q` of block `j` at `j * size + q`. */
  lemma {:induction false} FlattenAt<T>(blocks: seq<seq<T>>, size: nat, j: nat, q: nat)
    requires forall i :: 0 <= i < |blocks| ==> |blocks[i]| == size
    requires j < |blocks| && q < size
    ensures j * size + q < |Flatten(blocks)|
    ensures Flatten(blocks)[j * size + q] == blocks[j][q]
    decreases |blocks|
  {
    var init := blocks[..|blocks| - 1];
    FlattenLength(blocks, size);
    FlattenLength(init, size);
    if j < |blocks| - 1 {
      FlattenAt(init, size, j, q);
      assert (j + 1) * size <= |init| * size;
    } else {
      assert j * size == |init| * size;
    }
  }

  /** Every element of a flattening comes from one of the blocks. */
  lemma {:induction false} FlattenFrom<T>(blocks: seq<seq<T>>, x: T)
    requires x in Flatten(blocks)
    ensures exists j :: 0 <= j < |blocks| && x in blocks[j]
    decreases |blocks|
  {
    var init := blocks[..|blocks| - 1];
    if x !in blocks[|blocks| - 1] {
      FlattenFrom(init, x);
      var j :| 0 <= j < |init| && x in init[j];
      assert blocks[j] == init[j];
    }
  }

  /** Where block `j` of equally long blocks of `size` parts begins. */
  function BlockStart(j: nat, size: nat): nat
  {
    j * size
  }

  /** Part `q` of block `j` sits at `BlockStart(j, size) + q` of the flattened blocks. */
  lemma BlockAt<T>(blocks: seq<seq<T>>, size: nat, j: nat, q: nat)
    requires forall i :: 0 <= i < |blocks| ==> |blocks[i]| == size
    requires j < |blocks| && q < size
    ensures BlockStart(j, size) + q < |Flatten(blocks)|
    ensures Flatten(blocks)[BlockStart(j, size) + q] == blocks[j][q]
  {
    FlattenAt(blocks, size, j, q);
  }
}
