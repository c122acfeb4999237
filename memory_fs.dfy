/** The filesystem itself and the path handles its operations go through.
    `MemoryFS` owns the root node; a `MemoryPath` is a path string bound to
    one filesystem, and every operation resolves the string against the tree
    afresh. */
module MemoryFs {
  import opened Io
  import opened Paths
  import opened FileHandle
  import opened NodeTree

  /** The filesystem state (`MemoryFSImpl` behind its shared handle): one root
      directory, never removed. */
  class MemoryFS {
    var root: FsNode

    constructor ()
      ensures root.kind == Directory && root.children == map[]
      ensures fresh(root.data) && root.data.bytes == []
    {
      var dir := NewDirectory();
      root := dir;
    }

    /** `VFS::path`: bind a path string to this filesystem; nothing is looked up. */
    method Path(path: string) returns (p: MemoryPath)
      ensures fresh(p) && p.path == path && p.fs == this
    {
      p := new MemoryPath(this, path);
    }
  }

  class MemoryPath {
    var path: string
    const fs: MemoryFS

    constructor (fs: MemoryFS, path: string)
      ensures this.fs == fs && this.path == path
    {
      this.fs := fs;
      this.path := path;
    }

    /** `with_node`: the node the path resolves to, from the root, along the
        split path with its first piece dropped. */
    function WithNode(): (r: Result<FsNode>)
      reads this, fs
      ensures r.Err? ==> r.error == Other
      ensures r.Ok? <==> Walk(fs.root, NonEmpty(Components(path))).Some?
      ensures r.Ok? ==> r.value == Walk(fs.root, NonEmpty(Components(path))).value
    {
      LookupWalk(fs.root, Components(path));
      Lookup(fs.root, Components(path))
    }

    /** The vector of the node the path resolves to, as a frame. */
    function NodeData(): set<DataHandle>
      reads this, fs
    {
      if WithNode().Ok? then {WithNode().value.data} else {}
    }

    /** `open`: a handle on the node's own vector (not a copy), at cursor 0.
        The source unwraps the lookup, so a path that does not resolve is a
        panic; the node's kind is not checked. */
    method Open() returns (r: Result<MemoryFile>)
      requires WithNode().Ok?
      ensures r.Ok? && fresh(r.value)
      ensures r.value.data == WithNode().value.data && r.value.pos == 0
    {
      var node := WithNode().value;
      var f := new MemoryFile(node.data, 0);
      r := Ok(f);
    }

    /** The get-or-insert that `create` and `append` run under the parent
        directory: fails with `Other` when the parent does not resolve, and
        then leaves the tree alone; otherwise returns the vector of the
        existing node of that name, whatever its kind, or inserts a new empty
        file and returns its vector. */
    method FileData() returns (r: Result<DataHandle>)
      requires DecomposePath(path).0.Some?
      modifies fs
      ensures r.Err? <==> Lookup(old(fs.root), Components(DecomposePath(path).0.value)).Err?
      ensures r.Err? ==> r.error == Other && fs.root == old(fs.root)
      ensures r.Ok? ==> WithNode().Ok? && WithNode().value.data == r.value
      ensures old(WithNode()).Ok? ==> fs.root == old(fs.root) && r == Ok(old(WithNode()).value.data)
      ensures r.Ok? && old(WithNode()).Err? ==>
        && fresh(r.value) && r.value.bytes == [] && WithNode().value.kind == File
        && Preserves(old(fs.root), fs.root)
        && forall q :: Walk(fs.root, q).Some? && Walk(old(fs.root), q).None? ==> q == NonEmpty(Components(path))
    {
      var parentPath, name := DecomposePath(path).0.value, DecomposePath(path).1;
      var pcomps := Components(parentPath);
      ComponentsOfChild(path);
      LookupWalk(fs.root, pcomps);
      LookupWalk(fs.root, Components(path));
      var parent := Lookup(fs.root, pcomps);
      if parent.Err? {
        if Walk(fs.root, NonEmpty(Components(path))).Some? {
          WalkPrefix(fs.root, NonEmpty(pcomps), name);
        }
        return Err(parent.error);
      }
      WalkAppend(fs.root, NonEmpty(pcomps), name);
      if name in parent.value.children {
        r := Ok(parent.value.children[name].data);
      } else {
        var node := NewFile();
        InsertChildEffect(fs.root, pcomps, name, node);
        fs.root := InsertChild(fs.root, pcomps, name, node);
        LookupWalk(fs.root, Components(path));
        r := Ok(node.data);
      }
    }

    /** `create`: get or insert the file, then clear its vector in place, so
        every handle already open on it sees it empty; a handle at cursor 0.
        A path with no parent (such as "/") is a panic in the source. */
    method Create() returns (r: Result<MemoryFile>)
      requires DecomposePath(path).0.Some?
      modifies fs, NodeData()
      ensures r.Err? <==> Lookup(old(fs.root), Components(DecomposePath(path).0.value)).Err?
      ensures r.Err? ==> r.error == Other && fs.root == old(fs.root)
      ensures r.Ok? ==> fresh(r.value) && r.value.pos == 0 && r.value.data.bytes == []
      ensures r.Ok? ==> WithNode().Ok? && WithNode().value.data == r.value.data
      ensures old(WithNode()).Ok? ==> fs.root == old(fs.root) && r.Ok? && r.value.data == old(WithNode()).value.data
      ensures r.Ok? && old(WithNode()).Err? ==>
        && fresh(r.value.data) && WithNode().value.kind == File
        && Preserves(old(fs.root), fs.root)
        && forall q :: Walk(fs.root, q).Some? && Walk(old(fs.root), q).None? ==> q == NonEmpty(Components(path))
    {
      var data := FileData();
      if data.Err? {
        return Err(data.error);
      }
      data.value.bytes := [];
      var f := new MemoryFile(data.value, 0);
      r := Ok(f);
    }

    /** `append`: get or insert the file and keep its content; a handle whose
        cursor is at the current end. */
    method Append() returns (r: Result<MemoryFile>)
      requires DecomposePath(path).0.Some?
      modifies fs
      ensures r.Err? <==> Lookup(old(fs.root), Components(DecomposePath(path).0.value)).Err?
      ensures r.Err? ==> r.error == Other && fs.root == old(fs.root)
      ensures r.Ok? ==> fresh(r.value) && r.value.pos == |r.value.data.bytes|
      ensures r.Ok? ==> WithNode().Ok? && WithNode().value.data == r.value.data
      ensures old(WithNode()).Ok? ==> fs.root == old(fs.root) && r.Ok? && r.value.data == old(WithNode()).value.data
      ensures r.Ok? && old(WithNode()).Err? ==>
        && fresh(r.value.data) && r.value.data.bytes == [] && WithNode().value.kind == File
        && Preserves(old(fs.root), fs.root)
        && forall q :: Walk(fs.root, q).Some? && Walk(old(fs.root), q).None? ==> q == NonEmpty(Components(path))
    {
      var data := FileData();
      if data.Err? {
        return Err(data.error);
      }
      var f := new MemoryFile(data.value, |data.value.bytes|);
      r := Ok(f);
    }

    /** `mkdir`: never fails. Every segment, empty ones included, is entered
        or created as an empty directory; existing nodes keep their kind and
        vector. When every empty segment comes after all the non-empty ones
        (as for "/a/b" or "/a/"), the path resolves afterwards, and if it did
        not resolve before it is now an empty directory. */
    method Mkdir() returns (r: Result<()>)
      modifies fs
      ensures r.Ok?
      ensures Walk(fs.root, Components(path)).Some?
      ensures Preserves(old(fs.root), fs.root)
      ensures forall q :: Walk(fs.root, q).Some? && Walk(old(fs.root), q).None? ==>
        IsPrefix(q, Components(path)) && Walk(fs.root, q).value.kind == Directory
        && fresh(Walk(fs.root, q).value.data) && Walk(fs.root, q).value.data.bytes == []
      ensures IsPrefix(NonEmpty(Components(path)), Components(path)) ==> WithNode().Ok?
      ensures IsPrefix(NonEmpty(Components(path)), Components(path)) && old(WithNode()).Err? ==>
        NodeTree.Metadata(WithNode().value) == MemoryMetadata(Directory, 0)
    {
      var comps := Components(path);
      fs.root := TraverseMkdir(fs.root, comps);
      if IsPrefix(NonEmpty(comps), comps) {
        WalkPrefixClosed(fs.root, NonEmpty(comps), comps);
      }
      r := Ok(());
    }

    /** `exists`: exactly whether the path resolves. */
    method Exists() returns (b: bool)
      ensures b <==> WithNode().Ok?
    {
      b := WithNode().Ok?;
    }

    /** `metadata`: the resolved node's kind and current vector length, or the
        traversal's error. */
    method Metadata() returns (r: Result<MemoryMetadata>)
      ensures r.Ok? <==> WithNode().Ok?
      ensures r.Err? ==> r.error == Other
      ensures r.Ok? ==> r.value.kind == WithNode().value.kind && r.value.len == |WithNode().value.data.bytes|
    {
      var node := WithNode();
      if node.Err? {
        return Err(node.error);
      }
      r := Ok(NodeTree.Metadata(node.value));
    }

    /** `read_dir`: one path per direct child, the path string followed by '/'
        and the child's name; the order of the source's listing is unspecified,
        so it is a set here. */
    method ReadDir() returns (r: Result<set<string>>)
      ensures r.Ok? <==> WithNode().Ok?
      ensures r.Err? ==> r.error == Other
      ensures r.Ok? ==> forall name :: name in WithNode().value.children ==> ChildPath(path, name) in r.value
      ensures r.Ok? ==> forall s :: s in r.value ==> exists name :: name in WithNode().value.children && s == ChildPath(path, name)
      ensures r.Ok? ==> |r.value| == |WithNode().value.children|
    {
      var node := WithNode();
      if node.Err? {
        return Err(node.error);
      }
      var names := node.value.children.Keys;
      ChildPathsCount(path, names);
      r := Ok(set name | name in names :: ChildPath(path, name));
    }

    /** `parent`: a new path handle on the same filesystem for the part before
        the last '/', or none for "/" and for paths without a parent. */
    method Parent() returns (r: Option<MemoryPath>)
      ensures r.None? <==> DecomposePath(path).0.None?
      ensures r.Some? ==> fresh(r.value) && r.value.fs == fs && r.value.path == DecomposePath(path).0.value
    {
      var (parent, _) := DecomposePath(path);
      if parent.None? {
        return None;
      }
      var p := new MemoryPath(fs, parent.value);
      r := Some(p);
    }

    /** `file_name`: always present; the name part of the decomposition, which
        for "/" is "/" and for a path ending in '/' is the text before it. */
    method FileName() returns (r: Option<string>)
      ensures r.Some? && r.value == DecomposePath(path).1
    {
      r := Some(DecomposePath(path).1);
    }

    /** `push`: extend the path in place by one segment, with exactly one '/'
        inserted unless the path already ends with one. */
    method Push(segment: string)
      modifies this
      ensures path == Pushed(old(path), segment)
    {
      if !(|path| > 0 && path[|path| - 1] == '/') {
        path := path + "/";
      }
      path := path + segment;
    }
  }
}
