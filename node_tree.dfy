/** The node tree of the in-memory filesystem. A node is a value (its kind,
    its named children, and a reference to its byte vector); the tree's shape
    is rebuilt when a child is inserted, while the byte vectors the nodes refer
    to are shared objects that stay put. */
module NodeTree {
  import opened Io
  import opened Paths
  import opened FileHandle

  datatype NodeKind = Directory | File

  /** Every node, directories included, carries a byte vector; files have no
      children in practice, but nothing stops a directory from being created
      under one (the kind is never checked on the way down). */
  datatype FsNode = FsNode(kind: NodeKind, children: map<string, FsNode>, data: DataHandle)

  datatype MemoryMetadata = MemoryMetadata(kind: NodeKind, len: nat) {
    predicate IsDir() { kind == Directory }
    predicate IsFile() { kind == File }
  }

  method NewDirectory() returns (n: FsNode)
    ensures n.kind == Directory && n.children == map[]
    ensures fresh(n.data) && n.data.bytes == []
  {
    var h := new DataHandle();
    n := FsNode(Directory, map[], h);
  }

  method NewFile() returns (n: FsNode)
    ensures n.kind == File && n.children == map[]
    ensures fresh(n.data) && n.data.bytes == []
  {
    var h := new DataHandle();
    n := FsNode(File, map[], h);
  }

  /** `FsNode::metadata`: the node's kind and the current length of its
      vector, whatever the kind. */
  function Metadata(node: FsNode): (m: MemoryMetadata)
    reads node.data
    ensures m.IsDir() <==> node.kind == Directory
    ensures m.IsFile() <==> node.kind == File
    ensures m.len == |node.data.bytes|
  {
    MemoryMetadata(node.kind, |node.data.bytes|)
  }

  /** `traverse_with`: descend one segment at a time, skipping empty segments;
      a missing child fails with `Other`. */
  function Lookup(node: FsNode, comps: seq<string>): (r: Result<FsNode>)
    ensures r.Err? ==> r.error == Other
    decreases |comps|
  {
    if comps == [] then Ok(node)
    else if comps[0] == "" then Lookup(node, comps[1..])
    else if comps[0] in node.children then Lookup(node.children[comps[0]], comps[1..])
    else Err(Other)
  }

  /** The node reached by following exactly the names in `q`, with no
      skipping. Paths of this kind name the nodes of a tree one-to-one. */
  function Walk(node: FsNode, q: seq<string>): Option<FsNode>
    decreases |q|
  {
    if q == [] then Some(node)
    else if q[0] in node.children then Walk(node.children[q[0]], q[1..])
    else None
  }

  /** Traversal is the exact walk along the non-empty segments: it succeeds
      exactly when every non-empty segment names an existing child, and then
      lands on the same node. */
  lemma {:induction false} LookupWalk(node: FsNode, comps: seq<string>)
    ensures Lookup(node, comps).Ok? <==> Walk(node, NonEmpty(comps)).Some?
    ensures Lookup(node, comps).Ok? ==> Lookup(node, comps).value == Walk(node, NonEmpty(comps)).value
    decreases |comps|
  {
    if comps != [] {
      if comps[0] == "" {
        LookupWalk(node, comps[1..]);
      } else {
        var ne := NonEmpty(comps);
        assert ne == [comps[0]] + NonEmpty(comps[1..]);
        assert ne[0] == comps[0] && ne[1..] == NonEmpty(comps[1..]);
        if comps[0] in node.children {
          LookupWalk(node.children[comps[0]], comps[1..]);
        }
      }
    }
  }

  lemma {:induction false} WalkAppend(node: FsNode, q: seq<string>, name: string)
    requires Walk(node, q).Some?
    ensures Walk(node, q + [name])
         == if name in Walk(node, q).value.children then Some(Walk(node, q).value.children[name]) else None
    decreases |q|
  {
    if q == [] {
      assert q + [name] == [name];
      assert [name][1..] == [];
    } else {
      assert (q + [name])[0] == q[0] && (q + [name])[1..] == q[1..] + [name];
      WalkAppend(node.children[q[0]], q[1..], name);
    }
  }

  /** A path reaches a node only through its parent. */
  lemma {:induction false} WalkPrefix(node: FsNode, q: seq<string>, name: string)
    ensures Walk(node, q + [name]).Some? ==> Walk(node, q).Some?
    decreases |q|
  {
    if q != [] {
      assert (q + [name])[0] == q[0] && (q + [name])[1..] == q[1..] + [name];
      if q[0] in node.children {
        WalkPrefix(node.children[q[0]], q[1..], name);
      }
    }
  }

  /** Every prefix of a path that reaches a node reaches one too. */
  lemma {:induction false} WalkPrefixClosed(node: FsNode, p: seq<string>, q: seq<string>)
    requires IsPrefix(p, q) && Walk(node, q).Some?
    ensures Walk(node, p).Some?
    decreases |p|
  {
    if p != [] {
      assert q[0] == p[0] && IsPrefix(p[1..], q[1..]);
      WalkPrefixClosed(node.children[q[0]], p[1..], q[1..]);
    }
  }

  /** A walk through a node whose child `k` was replaced by `x`. */
  lemma WalkUpdate(node: FsNode, k: string, x: FsNode, q: seq<string>)
    ensures Walk(node.(children := node.children[k := x]), q)
         == if q == [] then Some(node.(children := node.children[k := x]))
            else if q[0] == k then Walk(x, q[1..])
            else Walk(node, q)
  {
  }

  /** Below a node with no children only the empty path leads anywhere. */
  lemma WalkLeaf(node: FsNode, q: seq<string>)
    requires node.children == map[]
    ensures Walk(node, q).Some? <==> q == []
  {
  }

  /** Every node of `t` is still in `t'`, at the same path, with the same kind
      and the same byte vector. */
  ghost predicate Preserves(t: FsNode, t': FsNode)
  {
    forall q :: Walk(t, q).Some? ==>
      Walk(t', q).Some? && Walk(t', q).value.kind == Walk(t, q).value.kind
      && Walk(t', q).value.data == Walk(t, q).value.data
  }

  function IsPrefix(p: seq<string>, q: seq<string>): bool
  {
    |p| <= |q| && p == q[..|p|]
  }

  /** The closure `create` and `append` run on the parent node: rebuild the
      tree with `child` inserted under `name` below the node `comps` reaches.
      Only called when `name` is absent there. */
  function InsertChild(node: FsNode, comps: seq<string>, name: string, child: FsNode): (r: FsNode)
    requires Lookup(node, comps).Ok?
    requires name !in Lookup(node, comps).value.children
    ensures r.kind == node.kind && r.data == node.data
    decreases |comps|
  {
    if comps == [] then node.(children := node.children[name := child])
    else if comps[0] == "" then InsertChild(node, comps[1..], name, child)
    else node.(children := node.children[comps[0] := InsertChild(node.children[comps[0]], comps[1..], name, child)])
  }

  /** What inserting a child does to the tree: the new child sits at the
      parent's non-empty segments followed by `name`, every old node is kept
      with its kind and vector, and no other path appears. */
  lemma {:induction false} InsertChildEffect(node: FsNode, comps: seq<string>, name: string, child: FsNode)
    requires Lookup(node, comps).Ok?
    requires name !in Lookup(node, comps).value.children
    requires child.children == map[]
    ensures Walk(InsertChild(node, comps, name, child), NonEmpty(comps) + [name]) == Some(child)
    ensures Preserves(node, InsertChild(node, comps, name, child))
    ensures forall q :: Walk(InsertChild(node, comps, name, child), q).Some? && Walk(node, q).None?
              ==> q == NonEmpty(comps) + [name]
    decreases |comps|
  {
    var r := InsertChild(node, comps, name, child);
    if comps == [] {
      assert NonEmpty(comps) + [name] == [name];
      forall q | Walk(r, q).Some?
        ensures Walk(node, q).None? ==> q == [name]
      {
        WalkUpdate(node, name, child, q);
        if q != [] && q[0] == name {
          WalkLeaf(child, q[1..]);
          assert q == [name] + q[1..];
        }
      }
      forall q | Walk(node, q).Some?
        ensures Walk(r, q).Some? && Walk(r, q).value.kind == Walk(node, q).value.kind
        ensures Walk(r, q).value.data == Walk(node, q).value.data
      {
        WalkUpdate(node, name, child, q);
      }
      WalkUpdate(node, name, child, [name]);
    } else if comps[0] == "" {
      InsertChildEffect(node, comps[1..], name, child);
    } else {
      var c := comps[0];
      var sub := InsertChild(node.children[c], comps[1..], name, child);
      InsertChildEffect(node.children[c], comps[1..], name, child);
      var target := NonEmpty(comps) + [name];
      assert target == [c] + (NonEmpty(comps[1..]) + [name]);
      WalkUpdate(node, c, sub, target);
      forall q | Walk(r, q).Some?
        ensures Walk(node, q).None? ==> q == target
      {
        WalkUpdate(node, c, sub, q);
        if q != [] && q[0] == c {
          assert q == [c] + q[1..];
        }
      }
      forall q | Walk(node, q).Some?
        ensures Walk(r, q).Some? && Walk(r, q).value.kind == Walk(node, q).value.kind
        ensures Walk(r, q).value.data == Walk(node, q).value.data
      {
        WalkUpdate(node, c, sub, q);
      }
    }
  }

  /** `traverse_mkdir`: descend along every segment, empty ones included,
      inserting a fresh empty directory wherever a child is missing. Existing
      nodes are entered whatever their kind. */
  method TraverseMkdir(node: FsNode, comps: seq<string>) returns (r: FsNode)
    ensures r.kind == node.kind && r.data == node.data
    ensures Walk(r, comps).Some?
    ensures Preserves(node, r)
    ensures forall q :: Walk(r, q).Some? && Walk(node, q).None? ==>
      IsPrefix(q, comps) && Walk(r, q).value.kind == Directory
      && fresh(Walk(r, q).value.data) && Walk(r, q).value.data.bytes == []
    decreases |comps|
  {
    if comps == [] {
      return node;
    }
    var c := comps[0];
    var child: FsNode;
    if c in node.children {
      child := node.children[c];
    } else {
      child := NewDirectory();
    }
    var sub := TraverseMkdir(child, comps[1..]);
    r := node.(children := node.children[c := sub]);
    assert comps == [c] + comps[1..];
    WalkUpdate(node, c, sub, comps);
    forall q | Walk(node, q).Some?
      ensures Walk(r, q).Some? && Walk(r, q).value.kind == Walk(node, q).value.kind
      ensures Walk(r, q).value.data == Walk(node, q).value.data
    {
      WalkUpdate(node, c, sub, q);
    }
    forall q | Walk(r, q).Some? && Walk(node, q).None?
      ensures IsPrefix(q, comps) && Walk(r, q).value.kind == Directory
      ensures fresh(Walk(r, q).value.data) && Walk(r, q).value.data.bytes == []
    {
      WalkUpdate(node, c, sub, q);
      assert q != [] && q[0] == c;
      assert q == [c] + q[1..];
      if c !in node.children {
        WalkLeaf(child, q[1..]);
      }
    }
  }
}
