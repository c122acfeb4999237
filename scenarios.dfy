/** The source's own test scenarios, replayed as clients of the model: each
    method drives the filesystem through its public operations and asserts
    what the corresponding test checks, using nothing but the operations'
    contracts. */
module Scenarios {
  import opened Io
  import opened Paths
  import opened FileHandle
  import opened NodeTree
  import opened MemoryFs

  /** A segment name as the tests use them: non-empty, without '/'. */
  predicate IsName(name: string)
  {
    name != "" && '/' !in name
  }

  /** A file directly under the root: its parent is "/", which resolves to
      the root in any tree. */
  lemma TopLevel(name: string)
    requires IsName(name)
    ensures DecomposePath("/" + name) == (Some("/"), name)
    ensures Components("/") == [""]
    ensures Components("/" + name) == [name]
  {
    assert "/" + name == ChildPath("", name);
    DecomposeChild("", name);
    SplitChild("", name);
    assert "/" == ChildPath("", "");
    SplitChild("", "");
  }

  /** The segments of "/a/b" are [a, b]; "/a" is its parent. */
  lemma TwoLevels(a: string, b: string)
    requires IsName(a) && IsName(b)
    ensures Components(ChildPath("/" + a, b)) == [a, b]
    ensures DecomposePath(ChildPath("/" + a, b)) == (Some("/" + a), b)
  {
    TopLevel(a);
    SplitChild("/" + a, b);
    DecomposeChild("/" + a, b);
  }

  /** Test `mkdir` ("/foo/bar/baz"): a three-level path does not exist, is
      created, and is then an empty directory. */
  method MkdirScenario(a: string, b: string, c: string)
    requires IsName(a) && IsName(b) && IsName(c)
  {
    var fs := new MemoryFS();
    var p := ChildPath(ChildPath("/" + a, b), c);
    var path := fs.Path(p);
    TwoLevels(a, b);
    SplitChild(ChildPath("/" + a, b), c);
    assert Components(p) == [a, b, c];
    assert "" !in Components(p);
    var e := path.Exists();
    assert !e;
    assert path.WithNode().Err?;
    var ok := path.Mkdir();
    assert NodeTree.Metadata(path.WithNode().value) == MemoryMetadata(Directory, 0);
    e := path.Exists();
    assert e;
    var m := path.Metadata();
    assert m.value.len == |path.WithNode().value.data.bytes|;
    assert m.Ok? && m.value.IsDir() && !m.value.IsFile() && m.value.len == 0;
  }

  /** A doubled separator ("/a//b") is entered as an empty-named directory by
      `mkdir` but skipped by traversal, so the path still does not exist
      afterwards. */
  method MkdirDoubleSlashScenario(a: string, b: string)
    requires IsName(a) && IsName(b)
  {
    var fs := new MemoryFS();
    var p := ChildPath(ChildPath("/" + a, ""), b);
    var path := fs.Path(p);
    TopLevel(a);
    SplitChild("/" + a, "");
    SplitChild(ChildPath("/" + a, ""), b);
    var comps := Components(p);
    assert comps == [a, "", b];
    assert NonEmpty(comps) == [a, b] by {
      assert comps[1..][1..] == [b];
      assert NonEmpty([b]) == [b] + NonEmpty([]);
    }
    ghost var empty := fs.root;
    var ok := path.Mkdir();
    LookupWalk(fs.root, comps);
    WalkLeaf(empty, [a, b]);
    assert [a, b] != comps[..2];
    var e := path.Exists();
    assert !e;
  }

  /** A trailing separator ("/a/") leaves an empty segment after the name:
      `mkdir` creates an empty-named directory below "a", traversal skips that
      segment, and the path exists afterwards. */
  method MkdirTrailingSlashScenario(a: string)
    requires IsName(a)
  {
    var fs := new MemoryFS();
    var p := ChildPath("/" + a, "");
    var path := fs.Path(p);
    TopLevel(a);
    var comps := Components(p);
    assert comps == [a, ""];
    assert NonEmpty(comps) == [a] by {
      assert comps[1..] == [""];
      assert NonEmpty([""]) == NonEmpty([]);
    }
    assert IsPrefix(NonEmpty(comps), comps);
    var ok := path.Mkdir();
    var e := path.Exists();
    assert e;
  }

  /** Test `read_empty_file`: a created file reads back empty. */
  method ReadEmptyFileScenario(name: string)
    requires IsName(name)
  {
    var fs := new MemoryFS();
    TopLevel(name);
    var path := fs.Path("/" + name);
    var c := path.Create();
    var f := path.Open();
    var s := f.value.ReadToEnd();
    assert s == [];
  }

  /** Chunks written one after another through a handle from `create` read
      back, through a fresh handle, as their concatenation. */
  method WriteChunksScenario(name: string, chunks: seq<seq<bv8>>)
    requires IsName(name)
  {
    var fs := new MemoryFS();
    TopLevel(name);
    var path := fs.Path("/" + name);
    var c := path.Create();
    var f := c.value;
    var i := 0;
    while i < |chunks|
      invariant 0 <= i <= |chunks|
      invariant path.WithNode().Ok? && path.WithNode().value.data == f.data
      invariant (f.data.bytes, f.pos) == WriteAll([], 0, chunks[..i])
      modifies f, f.data
    {
      WriteAllStep(chunks, i);
      var n := f.Write(chunks[i]);
      i := i + 1;
    }
    assert chunks[..i] == chunks;
    WriteAllAppends([], chunks);
    var g := path.Open();
    var s := g.value.ReadToEnd();
    assert s == Concat(chunks);
  }

  lemma {:induction false} WriteAllStep(chunks: seq<seq<bv8>>, i: nat)
    requires i < |chunks|
    ensures var (d, p) := WriteAll([], 0, chunks[..i]);
      WriteAll([], 0, chunks[..i + 1]) == (WriteAt(d, p, chunks[i]), p + |chunks[i]|)
  {
    WriteAllSnoc([], 0, chunks[..i], chunks[i]);
    assert chunks[..i + 1] == chunks[..i] + [chunks[i]];
  }

  lemma {:induction false} WriteAllSnoc(d: seq<bv8>, p: nat, cs: seq<seq<bv8>>, c: seq<bv8>)
    ensures var (d', p') := WriteAll(d, p, cs);
      WriteAll(d, p, cs + [c]) == (WriteAt(d', p', c), p' + |c|)
    decreases |cs|
  {
    if cs == [] {
      assert cs + [c] == [c];
      assert [c][1..] == [];
    } else {
      assert (cs + [c])[0] == cs[0] && (cs + [c])[1..] == cs[1..] + [c];
      WriteAllSnoc(WriteAt(d, p, cs[0]), p + |cs[0]|, cs[1..], c);
    }
  }

  /** A file created and written with `content` in one go, and a path
      handle on it. */
  method CreateWith(name: string, content: seq<bv8>) returns (path: MemoryPath, f: MemoryFile)
    requires IsName(name)
    ensures fresh(path) && fresh(path.fs) && fresh(f) && fresh(f.data)
    ensures path.WithNode().Ok? && path.WithNode().value.data == f.data
    ensures f.data.bytes == content && f.pos == |content|
    ensures DecomposePath(path.path).0.Some?
  {
    var fs := new MemoryFS();
    TopLevel(name);
    path := fs.Path("/" + name);
    var c := path.Create();
    f := c.value;
    var n := f.Write(content);
    WriteAtEnd([], content);
    assert [] + content == content;
  }

  /** Test `write_and_read_file`, first part ("Hello world" then "!"): two
      writes read back, through a fresh handle, as one. */
  method WriteTwiceScenario(name: string, first: seq<bv8>, second: seq<bv8>)
    requires IsName(name)
  {
    var path, f := CreateWith(name, first);
    var n := f.Write(second);
    WriteAtEnd(first, second);
    var g := path.Open();
    var s := g.value.ReadToEnd();
    assert s == first + second;
  }

  /** Test `write_and_read_file`, second part ("Hello world!" becomes
      "Hallo world!"): after `Start(1)` a one-byte write replaces exactly that
      byte, seen through the next handle. */
  method SeekStartOverwriteScenario(name: string, content: seq<bv8>, x: bv8)
    requires IsName(name) && |content| >= 2
  {
    var path, f := CreateWith(name, content);
    var g := path.Open();
    var sk := g.value.Seek(Start(1));
    var n := g.value.Write([x]);
    WriteAtInside(content, 1, [x]);
    g := path.Open();
    var s := g.value.ReadToEnd();
    assert s == content[..1] + [x] + content[2..];
  }

  /** Test `write_and_read_file`, third part: after `End(-1)` only the last
      byte is read. */
  method SeekEndScenario(name: string, content: seq<bv8>)
    requires IsName(name) && |content| >= 1
  {
    var path, f := CreateWith(name, content);
    var g := path.Open();
    var sk := g.value.Seek(End(-1));
    assert sk == Ok(|content| - 1);
    var s := g.value.ReadToEnd();
    assert s == [content[|content| - 1]];
  }

  /** Test `write_and_read_file`, last part: `create` on an existing file
      empties it in place, for the handles already open on it as well as for
      the next one. */
  method CreateTruncatesScenario(name: string, content: seq<bv8>)
    requires IsName(name)
  {
    var path, f := CreateWith(name, content);
    var g := path.Open();
    var again := path.Create();
    assert f.data.bytes == [] && g.value.data.bytes == [];
    g := path.Open();
    var s := g.value.ReadToEnd();
    assert s == [];
  }

  /** Test `append` ("Hello", " world", then "!"): a new file is appended to
      twice, read back, appended to again through a new handle, and read back. */
  method AppendScenario(name: string, first: seq<bv8>, second: seq<bv8>, third: seq<bv8>)
    requires IsName(name)
  {
    var fs := new MemoryFS();
    TopLevel(name);
    var path := fs.Path("/" + name);
    var a := path.Append();
    var n := a.value.Write(first);
    WriteAtEnd([], first);
    assert [] + first == first;
    n := a.value.Write(second);
    WriteAtEnd(first, second);

    var g := path.Open();
    var s := g.value.ReadToEnd();
    assert s == first + second;

    a := path.Append();
    n := a.value.Write(third);
    WriteAtEnd(first + second, third);
    g := path.Open();
    s := g.value.ReadToEnd();
    assert s == first + second + third;
  }

  /** Test `push`. */
  method PushScenario() {
    var fs := new MemoryFS();
    var path := fs.Path("/");
    var path2 := fs.Path("/");
    path.Push("foo");
    assert path.path == "/foo";
    path.Push("bar");
    assert path.path == "/foo/bar";
    assert path2.path == "/";
    path2.Push("foo/bar");
    assert path2.path == "/foo/bar";
  }

  /** Test `parent`. */
  method ParentScenario() {
    var fs := new MemoryFS();
    var path := fs.Path("/foo");
    var path2 := fs.Path("/foo/bar");
    DecomposeExamples();
    var p2 := path2.Parent();
    assert p2.Some? && p2.value.path == path.path;
    var p := path.Parent();
    assert p.Some? && p.value.path == "/";
    var root := fs.Path("/");
    var none := root.Parent();
    assert none.None?;
  }

  /** The shape `read_dir`'s test builds: after `mkdir` of [a, b] on an empty
      root and the creation of [a, c], the node at [a] has exactly b and c
      as children. */
  lemma {:induction false} MkdirThenCreateChildren(t0: FsNode, t1: FsNode, t2: FsNode, a: string, b: string, c: string)
    requires t0.children == map[]
    requires Walk(t1, [a, b]).Some? && Preserves(t0, t1)
    requires forall q :: Walk(t1, q).Some? && Walk(t0, q).None? ==> IsPrefix(q, [a, b])
    requires Walk(t2, [a, c]).Some? && Preserves(t1, t2)
    requires forall q :: Walk(t2, q).Some? && Walk(t1, q).None? ==> q == [a, c]
    ensures Walk(t2, [a]).Some? && Walk(t2, [a]).value.children.Keys == {b, c}
  {
    WalkPrefix(t2, [a], c);
    assert [a] + [c] == [a, c];
    assert [a] + [b] == [a, b];
    WalkAppend(t2, [a], c);
    WalkAppend(t1, [a], b);
    WalkPrefix(t1, [a], b);
    WalkAppend(t2, [a], b);
    forall name | name in Walk(t2, [a]).value.children
      ensures name == b || name == c
    {
      WalkAppend(t2, [a], name);
      assert [a] + [name] == [a, name];
      WalkLeaf(t0, [a, name]);
      if Walk(t1, [a, name]).Some? {
        assert IsPrefix([a, name], [a, b]);
      }
    }
  }

  /** The tree `read_dir`'s test lists: a directory made by `mkdir` at
      "/a/b" and a file made by `create` at "/a/c". */
  method MkdirThenCreate(a: string, b: string, c: string) returns (path: MemoryPath)
    requires IsName(a) && IsName(b) && IsName(c) && b != c
    ensures path.path == "/" + a && path.WithNode().Ok?
    ensures path.WithNode().value.children.Keys == {b, c}
  {
    var fs := new MemoryFS();
    var dir := "/" + a;
    path := fs.Path(dir);
    var path2 := fs.Path(ChildPath(dir, b));
    var path3 := fs.Path(ChildPath(dir, c));
    TopLevel(a);
    TwoLevels(a, b);
    TwoLevels(a, c);
    assert NonEmpty([a, c]) == [a, c] by {
      assert NonEmpty([c]) == [c] + NonEmpty([]);
    }
    assert NonEmpty([a]) == [a];

    ghost var t0 := fs.root;
    var ok := path2.Mkdir();
    ghost var t1 := fs.root;
    LookupWalk(t1, [a]);
    LookupWalk(t1, [a, c]);
    WalkLeaf(t0, [a, c]);
    assert !IsPrefix([a, c], [a, b]);
    var created := path3.Create();
    ghost var t2 := fs.root;
    LookupWalk(t2, [a, c]);
    assert Walk(t1, [a, c]).None?;
    MkdirThenCreateChildren(t0, t1, t2, a, b, c);
    LookupWalk(t2, [a]);
  }

  /** Test `read_dir` ("/foo" holding "bar" and "baz"): the directory and
      the file are listed, each as the directory's path, '/' and its name,
      and nothing else is. */
  method ReadDirScenario(a: string, b: string, c: string)
    requires IsName(a) && IsName(b) && IsName(c) && b != c
  {
    var path := MkdirThenCreate(a, b, c);
    var dir := "/" + a;
    var entries := path.ReadDir();
    var node := path.WithNode().value;
    forall e | e in entries.value
      ensures e == ChildPath(dir, b) || e == ChildPath(dir, c)
    {
      var name :| name in node.children && e == ChildPath(dir, name);
    }
    assert ChildPath(dir, b) in entries.value && ChildPath(dir, c) in entries.value;
    assert entries.value == {ChildPath(dir, b), ChildPath(dir, c)};
  }
}
