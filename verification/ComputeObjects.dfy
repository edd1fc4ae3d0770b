/**
  The compute objects: sizing a node leaves its data in the object's state,
  filling the node takes it out again.
 */
module ComputeObjects {
  import opened Options
  import opened YellowPaper
  import opened MerkleCompute
  import opened ChildEncoding

  /** The data a node is created with. */
  function NodeData(kec: Keccak, path: Nibbles, refs: seq<ChildRef>, value: Option<Bytes>): Bytes {
    if path == [] || refs == [] then [] else Reference(kec, EncodeBranch(refs, value))
  }

  class VarLenMerkleCompute {
    const kec: Keccak
    var buffer: Bytes

    constructor (hash: Keccak)
      ensures kec == hash && buffer == []
    {
      kec, buffer := hash, [];
    }

    method DoComputeNodeDataLen(children: seq<ChildData>, value: Option<Bytes>) returns (len: nat)
      requires InOrder(children, 0)
      modifies this
      ensures buffer == Reference(kec, EncodeBranch(Valid(children), value)) && len == |buffer|
    {
      var items := EncodeChildSpan(children);
      var last := if value.Some? && |value.value| > 0 then RlpString(value.value) else [0x80];
      buffer := Reference(kec, RlpList(items + last));
      len := |buffer|;
    }

    method ComputeNodeDataLen(children: seq<ChildData>, path: Nibbles, value: Option<Bytes>) returns (len: nat)
      requires InOrder(children, 0) && Valid(children) != []
      modifies this
      ensures len == |NodeData(kec, path, Valid(children), value)|
      ensures buffer == if path == [] then old(buffer) else NodeData(kec, path, Valid(children), value)
    {
      if path == [] {
        return 0;
      }
      len := DoComputeNodeDataLen(children, value);
    }

    method SetNodeData() returns (data: Bytes)
      modifies this
      ensures data == old(buffer) && buffer == []
    {
      data := buffer;
      buffer := [];
    }

    /** Sizing and filling one node leaves the state empty for the next. */
    method CreateNode(children: seq<ChildData>, path: Nibbles, value: Option<Bytes>) returns (data: Bytes)
      requires InOrder(children, 0) && Valid(children) != [] && buffer == []
      modifies this
      ensures data == NodeData(kec, path, Valid(children), value) && buffer == []
    {
      var len := ComputeNodeDataLen(children, path, value);
      data := SetNodeData();
    }

    /** The reference of a created node in its parent, from what the node stores. */
    method ComputeReference(t: Trie, refs: seq<ChildRef>, data: Bytes) returns (r: Bytes)
      requires refs == Refs(kec, t.kids) && data == NodeData(kec, t.path, refs, t.value)
      ensures r == Compute(kec, t)
    {
      if refs == [] {
        r := Reference(kec, EncodeTwoPieces(t.path, ValueOf(t.value), true));
      } else if t.path != [] {
        r := Reference(kec, EncodeTwoPieces(t.path, data, false));
      } else {
        r := Reference(kec, EncodeBranch(refs, t.value));
      }
    }

    /** `RootVarLenMerkleCompute`: the root data, from the children's references and the only child's node. */
    method CreateRoot(children: seq<ChildData>, kids: KidList, value: Option<Bytes>, childData: Bytes)
        returns (data: Bytes)
      requires InOrder(children, 0) && kids.Kid? && Valid(children) == Refs(kec, kids)
      requires childData == NodeData(kec, kids.sub.path, Refs(kec, kids.sub.kids), kids.sub.value)
      modifies this
      ensures data == RootData(kec, kids, value) && |data| == 32 && buffer == []
    {
      if kids.rest.NoKids? {
        var t := kids.sub;
        var second := if t.kids.NoKids? then ValueOf(t.value) else if childData != [] then childData
          else BranchData(kec, t);
        ChildDataIsBranchData(kec, t);
        buffer := Reference(kec, EncodeTwoPieces([kids.branch] + t.path, second, t.kids.NoKids?));
      } else {
        var len := DoComputeNodeDataLen(children, value);
      }
      if |buffer| < 32 {
        buffer := kec(buffer);
      }
      data := SetNodeData();
    }
  }

  lemma ChildDataIsBranchData(kec: Keccak, t: Trie)
    ensures
      var data := NodeData(kec, t.path, Refs(kec, t.kids), t.value);
      data != [] ==> data == BranchData(kec, t)
  {
  }
}
