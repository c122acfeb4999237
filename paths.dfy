/** The string side of `MemoryPath`: splitting a path into segments, the
    (parent, file name) decomposition at the last '/', and `push`. No
    canonicalisation happens anywhere: "//" and trailing '/' are kept as
    written. */
module Paths {
  import opened Io

  /** The pieces between '/' separators, as `str::split("/")` yields them:
      "" gives [""], "/" gives ["", ""], "/a/b" gives ["", "a", "b"]. */
  function Split(s: string): (r: seq<string>)
    ensures |r| >= 1
    ensures forall i :: 0 <= i < |r| ==> '/' !in r[i]
    decreases |s|
  {
    if s == [] then [""]
    else if s[0] == '/' then [""] + Split(s[1..])
    else
      var t := Split(s[1..]);
      [[s[0]] + t[0]] + t[1..]
  }

  /** Glue segments back together with '/' between them. */
  function Join(segs: seq<string>): string
    requires |segs| >= 1
    decreases |segs|
  {
    if |segs| == 1 then segs[0] else segs[0] + "/" + Join(segs[1..])
  }

  lemma {:induction false} JoinSplit(s: string)
    ensures Join(Split(s)) == s
    decreases |s|
  {
    if s == [] {
    } else if s[0] == '/' {
      JoinSplit(s[1..]);
      assert s == "/" + s[1..];
    } else {
      JoinSplit(s[1..]);
      var t := Split(s[1..]);
      if |t| == 1 {
        assert Join(t) == t[0];
      } else {
        assert Join(t) == t[0] + "/" + Join(t[1..]);
        assert ([[s[0]] + t[0]] + t[1..])[1..] == t[1..];
      }
      assert s == [s[0]] + s[1..];
    }
  }

  /** A segment with no separator is split into itself. */
  lemma {:induction false} SplitSegment(k: string)
    requires '/' !in k
    ensures Split(k) == [k]
    decreases |k|
  {
    if k != [] {
      assert k[0] in k;
      assert forall c :: c in k[1..] ==> c in k;
      SplitSegment(k[1..]);
      assert k == [k[0]] + k[1..];
    }
  }

  /** Splitting `p + "/" + k` for a separator-free `k` adds `k` as a last segment. */
  lemma {:induction false} SplitChild(p: string, k: string)
    requires '/' !in k
    ensures Split(p + "/" + k) == Split(p) + [k]
    decreases |p|
  {
    if p == [] {
      assert p + "/" + k == "/" + k;
      SplitSegment(k);
    } else {
      assert (p + "/" + k)[1..] == p[1..] + "/" + k;
      SplitChild(p[1..], k);
    }
  }

  /** The segments the tree is walked with (`with_node`, `mkdir`): the split
      path with its first piece dropped, whatever that piece was. For an
      absolute path the dropped piece is the empty one before the leading '/';
      for a relative path it is the path's first real segment. */
  function Components(path: string): (r: seq<string>)
    ensures forall i :: 0 <= i < |r| ==> '/' !in r[i]
    ensures '/' !in path ==> r == []
    ensures |path| > 0 && path[0] == '/' ==> r == Split(path[1..]) && Join(r) == path[1..]
  {
    var r := Split(path)[1..];
    assert '/' !in path ==> r == [] by {
      if '/' !in path {
        SplitSegment(path);
      }
    }
    assert |path| > 0 && path[0] == '/' ==> Join(Split(path[1..])) == path[1..] by {
      if |path| > 0 && path[0] == '/' {
        JoinSplit(path[1..]);
      }
    }
    r
  }

  /** The segments that traversal actually descends through: empty ones
      (from "//", a trailing '/', or the root's own split) are skipped. */
  function NonEmpty(comps: seq<string>): (r: seq<string>)
    ensures forall i :: 0 <= i < |r| ==> r[i] != ""
    ensures |r| <= |comps|
    ensures forall s :: s in r <==> s in comps && s != ""
    ensures "" !in comps ==> r == comps
    decreases |comps|
  {
    if comps == [] then []
    else
      assert comps == [comps[0]] + comps[1..];
      if comps[0] == "" then NonEmpty(comps[1..])
      else [comps[0]] + NonEmpty(comps[1..])
  }

  lemma {:induction false} NonEmptyAppend(a: seq<string>, b: seq<string>)
    ensures NonEmpty(a + b) == NonEmpty(a) + NonEmpty(b)
    decreases |a|
  {
    if a != [] {
      assert (a + b)[0] == a[0];
      assert (a + b)[1..] == a[1..] + b;
      NonEmptyAppend(a[1..], b);
      if a[0] != "" {
        calc {
          NonEmpty(a + b);
          [a[0]] + NonEmpty(a[1..] + b);
          [a[0]] + (NonEmpty(a[1..]) + NonEmpty(b));
          ([a[0]] + NonEmpty(a[1..])) + NonEmpty(b);
        }
      }
    } else {
      assert a + b == b;
    }
  }

  /** Index of the last '/' in `s`, if any. */
  function RFindSlash(s: string): (r: Option<nat>)
    ensures r.Some? ==> r.value < |s| && s[r.value] == '/'
    ensures r.Some? ==> forall j :: r.value < j < |s| ==> s[j] != '/'
    ensures r.None? ==> '/' !in s
    decreases |s|
  {
    if s == [] then None
    else if s[|s| - 1] == '/' then Some(|s| - 1)
    else RFindSlash(s[..|s| - 1])
  }

  /** `decompose_path`: split at the last '/' into (parent, file name). An empty
      parent becomes "/"; an empty file name (the path ends with '/') gives no
      parent and the parent text as the name; a path with no '/' is all name. */
  function DecomposePath(path: string): (r: (Option<string>, string))
    ensures r.0.None? <==> '/' !in path || (|path| > 0 && path[|path| - 1] == '/')
    ensures '/' !in path ==> r.1 == path
    ensures r.0.None? && '/' in path ==> r.1 == if |path| == 1 then "/" else path[..|path| - 1]
    ensures r.0.Some? ==> r.0.value != "" && r.1 != "" && '/' !in r.1
    ensures r.0.Some? ==> path == r.0.value + "/" + r.1 || (r.0.value == "/" && path == "/" + r.1)
  {
    match RFindSlash(path)
    case None => (None, path)
    case Some(i) =>
      var parent := if i == 0 then "/" else path[..i];
      var fileName := path[i + 1..];
      assert '/' !in fileName by {
        forall j | 0 <= j < |fileName|
          ensures fileName[j] != '/'
        {
          assert fileName[j] == path[i + 1 + j];
        }
      }
      assert path == path[..i] + "/" + fileName;
      if fileName == "" then (None, parent) else (Some(parent), fileName)
  }

  /** `push`: a '/' is inserted only when the path does not already end with
      one, then the segment is appended verbatim. */
  function Pushed(path: string, segment: string): (r: string)
    ensures |path| + |segment| <= |r| <= |path| + 1 + |segment| && |segment| < |r|
    ensures r[..|path|] == path && r[|r| - |segment|..] == segment
    ensures r[|r| - |segment| - 1] == '/'
    ensures |r| == |path| + |segment| <==> |path| > 0 && path[|path| - 1] == '/'
  {
    if |path| > 0 && path[|path| - 1] == '/' then path + segment
    else path + "/" + segment
  }

  /** The child path `read_dir` synthesises for a child named `name`. */
  function ChildPath(path: string, name: string): (r: string)
    ensures '/' !in name ==> Components(r) == Components(path) + [name]
  {
    var r := path + "/" + name;
    assert '/' !in name ==> Split(r) == Split(path) + [name] by {
      if '/' !in name {
        SplitChild(path, name);
      }
    }
    r
  }

  /** The last '/' of `p + "/" + k` is the one just inserted, whatever `p` holds. */
  lemma {:induction false} RFindSlashChild(p: string, k: string)
    requires '/' !in k
    ensures RFindSlash(p + "/" + k) == Some(|p|)
    decreases |k|
  {
    var s := p + "/" + k;
    if k != [] {
      assert k[|k| - 1] in k;
      assert s[|s| - 1] == k[|k| - 1];
      assert s[..|s| - 1] == p + "/" + k[..|k| - 1];
      assert forall c :: c in k[..|k| - 1] ==> c in k;
      RFindSlashChild(p, k[..|k| - 1]);
    }
  }

  /** A non-empty, separator-free name appended below any path decomposes
      back into that path (or "/" for the empty one) and the name. */
  lemma DecomposeChild(p: string, k: string)
    requires k != "" && '/' !in k
    ensures DecomposePath(ChildPath(p, k)) == (Some(if p == "" then "/" else p), k)
  {
    var s := ChildPath(p, k);
    RFindSlashChild(p, k);
    assert s[..|p|] == p;
    assert s[|p| + 1..] == k;
  }

  lemma DecomposeExamples()
    ensures DecomposePath("/") == (None, "/")
    ensures DecomposePath("/foo") == (Some("/"), "foo")
    ensures DecomposePath("/foo/bar") == (Some("/foo"), "bar")
  {
    assert "/foo" == ChildPath("", "foo");
    DecomposeChild("", "foo");
    assert "/foo/bar" == ChildPath("/foo", "bar");
    DecomposeChild("/foo", "bar");
  }

  /** `parent` then `push(file_name)` is the identity, provided the path has a
      parent and its last '/' is not doubled (a path such as "//foo" comes back
      as "/foo", since nothing is canonicalised). */
  lemma PushOfDecompose(path: string)
    requires DecomposePath(path).0.Some?
    requires RFindSlash(path).value == 0 || path[RFindSlash(path).value - 1] != '/'
    ensures Pushed(DecomposePath(path).0.value, DecomposePath(path).1) == path
  {
    var i := RFindSlash(path).value;
    var name := path[i + 1..];
    assert DecomposePath(path).1 == name;
    if i == 0 {
      assert DecomposePath(path).0.value == "/";
      assert path == "/" + name;
    } else {
      var parent := path[..i];
      assert DecomposePath(path).0.value == parent;
      assert parent[|parent| - 1] != '/';
      assert path == parent + "/" + name;
    }
  }

  /** The exception "//foo": its parent is "/", and pushing "foo" onto "/"
      gives "/foo". */
  lemma PushOfDecomposeDoubleSlash()
    ensures DecomposePath("//foo") == (Some("/"), "foo")
    ensures Pushed("/", "foo") == "/foo" != "//foo"
  {
    assert "//foo" == ChildPath("/", "foo");
    DecomposeChild("/", "foo");
  }

  /** `push` then `parent`/`file_name` recovers the path and the segment, for a
      non-empty separator-free segment and a path that is "/" or does not end
      with '/'. */
  lemma ParentOfPush(path: string, segment: string)
    requires segment != "" && '/' !in segment
    requires path == "/" || (path != "" && path[|path| - 1] != '/')
    ensures DecomposePath(Pushed(path, segment)) == (Some(path), segment)
  {
    if path == "/" {
      assert Pushed(path, segment) == ChildPath("", segment);
      DecomposeChild("", segment);
    } else {
      DecomposeChild(path, segment);
    }
  }

  lemma PushExamples()
    ensures Pushed("/", "foo") == "/foo"
    ensures Pushed("/foo", "bar") == "/foo/bar"
    ensures Pushed("/", "foo/bar") == "/foo/bar"
  {
  }

  /** Whenever a path has a parent, the segments reached through it are the
      parent's segments followed by the file name, so looking up the path and
      looking up the name under its parent land on the same node. */
  lemma {:induction false} ComponentsOfChild(path: string)
    requires DecomposePath(path).0.Some?
    ensures NonEmpty(Components(path))
         == NonEmpty(Components(DecomposePath(path).0.value)) + [DecomposePath(path).1]
  {
    var i := RFindSlash(path).value;
    var p, k := path[..i], path[i + 1..];
    assert path == p + "/" + k;
    assert '/' !in k by {
      forall c | c in k ensures c != '/' {
        var j :| 0 <= j < |k| && k[j] == c;
        assert path[i + 1 + j] == c;
      }
    }
    SplitChild(p, k);
    var parent := DecomposePath(path).0.value;
    if i == 0 {
      assert parent == "/";
      assert Split(p) == [""];
      assert Split("/") == [""] + Split("");
      assert Components(parent) == [""];
      assert Components(path) == [k];
      assert NonEmpty([k]) == [k] + NonEmpty([]);
      assert NonEmpty([""]) == NonEmpty([]);
    } else {
      assert parent == p;
      assert Components(path) == Components(p) + [k];
      NonEmptyAppend(Components(p), [k]);
      assert NonEmpty([k]) == [k] + NonEmpty([]);
    }
  }

  lemma ChildPathInjective(path: string, a: string, b: string)
    ensures ChildPath(path, a) == ChildPath(path, b) ==> a == b
  {
    assert ChildPath(path, a)[|path| + 1..] == a;
    assert ChildPath(path, b)[|path| + 1..] == b;
  }

  /** Distinct names give distinct child paths, so a listing has exactly one
      entry per child. */
  lemma {:induction false} ChildPathsCount(path: string, names: set<string>)
    ensures |set n | n in names :: ChildPath(path, n)| == |names|
    decreases |names|
  {
    var paths := set n | n in names :: ChildPath(path, n);
    if names != {} {
      var x :| x in names;
      var rest := names - {x};
      var restPaths := set n | n in rest :: ChildPath(path, n);
      ChildPathsCount(path, rest);
      assert paths == restPaths + {ChildPath(path, x)};
      forall y | y in rest
        ensures ChildPath(path, y) != ChildPath(path, x)
      {
        ChildPathInjective(path, x, y);
      }
    } else {
      assert paths == {};
    }
  }
}
