# In-memory filesystem of rust-vfs, modelled in Dafny

This project models `src/memory.rs` of rust-vfs. That file is an ephemeral filesystem that lives only in process memory. It has three parts:

- **File contents and handles.** A file node owns a growable byte vector (`DataHandle`). The node shares that vector by reference with every handle opened on it (`MemoryFile`). A handle is that reference plus a cursor of its own. `read`, `write` and `seek` work on the shared vector. A write past the end zero-fills the gap first.
- **The node tree.** Every node is a Directory or a File. It has a map from child names to child nodes and a byte vector. `traverse_with` looks a path up and skips empty segments. `traverse_mkdir` creates every missing segment as an empty directory. `create` and `append` get the leaf under an existing parent, or insert it.
- **Path strings.** `MemoryPath` holds a path string and the filesystem it belongs to. It splits the string at '/', decomposes it into parent and file name at the last '/', and `push` extends it in place.

## How the model is laid out

- `io.dfy` (`Io`): `Option`, `Result`, and the two error kinds the file raises, `Other` and `InvalidInput`.
- `file_handle.dfy` (`FileHandle`):
  - `DataHandle` is a class whose `bytes: seq<bv8>` field is reassigned in place. Sharing a vector is sharing the object, so a change through one handle is seen through every other.
  - `MemoryFile` is a class with the `data` reference and a `pos` cursor.
  - `WriteAt` is a byte-by-byte specification of a write.
  - `Write` follows the source's steps (resize, overwrite, extend) and is proved equal to `WriteAt`.
  - Lemmas on `WriteAt` give the append, in-place and hole-filling cases, and show that chunks written in sequence read back as their concatenation.
- `paths.dfy` (`Paths`):
  - `Split` is `str::split("/")`.
  - `Components` is `with_node`'s split path with its first piece dropped.
  - `NonEmpty` gives the segments traversal actually follows.
  - Also here: `DecomposePath`, `Pushed` (the string `push` produces), the round-trip lemmas between `push` and `parent`/`file_name`, and the child paths `read_dir` synthesises.
- `node_tree.dfy` (`NodeTree`):
  - `FsNode` is a datatype. Its `data` is a `DataHandle` reference.
  - `Lookup` is `traverse_with`.
  - `Walk` follows an exact list of names. `LookupWalk` proves that `Lookup` is `Walk` along the non-empty segments.
  - `InsertChild` is the insertion `create` and `append` perform. `InsertChildEffect` states which nodes it adds and keeps.
  - `TraverseMkdir` is a recursive method that allocates a fresh vector for each directory it creates.
- `memory_fs.dfy` (`MemoryFs`):
  - `MemoryFS` holds the root as a field that operations reassign.
  - `MemoryPath` holds the path string and the filesystem. Its methods are `open`, `create`, `append`, `mkdir`, `exists`, `metadata`, `read_dir`, `parent`, `file_name` and `push`.
  - Each method's contract says:
    - when it fails;
    - what the tree holds afterwards, in terms of `Walk`;
    - which byte vector the returned handle shares.
- `scenarios.dfy` (`Scenarios`): the source's unit tests (src/memory.rs:361-493) as client methods, generalised over the names and the byte contents. Each one uses only the operations' contracts:
  - `MkdirScenario`
  - `ReadEmptyFileScenario`
  - `WriteTwiceScenario`, `SeekStartOverwriteScenario`, `SeekEndScenario` and `CreateTruncatesScenario`, which together make up the test `write_and_read_file`
  - `AppendScenario`
  - `PushScenario`
  - `ParentScenario`
  - `ReadDirScenario`
  - `WriteChunksScenario`, which writes any list of chunks and reads back their concatenation
  - `MkdirDoubleSlashScenario` and `MkdirTrailingSlashScenario`, explained below

## Quirks of the code that the model keeps

- A missing path segment fails with `ErrorKind::Other`, not NotFound (src/memory.rs:240).
- `open` unwraps the lookup, so a path that does not resolve is a panic. It is a precondition of `MemoryPath.Open`.
- `create` and `append` unwrap `parent()`. A path with no parent, such as "/" or one ending in '/', is a panic. It is a precondition.
- `read` slices the vector at the cursor, which panics when the cursor lies past the end. It is a precondition of `MemoryFile.Read`.
- A seek to a negative position fails with `InvalidInput` (src/memory.rs:140).
- `with_node` and `mkdir` drop the first piece of the split path unconditionally. For a relative path such as "a/b", that piece is the real segment "a".
- `traverse_mkdir` does not skip empty segments, while `traverse_with` does. So after `mkdir("/a//b")` the path "/a//b" still does not exist: the "b" was created under an empty-named child of "a". `MkdirDoubleSlashScenario` proves this. `mkdir` establishes `exists` exactly when every empty segment comes after all the non-empty ones. That holds for "/a/b" and for "/a/": `MkdirTrailingSlashScenario` shows "/a/" exists afterwards.
- The kind of an existing node is never checked:
  - `create` and `append` reuse whatever node has the name;
  - `open` opens a directory's vector;
  - `mkdir` descends into files.
- `metadata` reports the vector's length for a node of either kind. A directory reports 0 only as long as nobody has written to its vector through a handle from `open`, `create` or `append`.
- `decompose_path` of a path ending in '/' gives no parent and the text before the '/' as the file name. For example, "/foo/" gives (None, "/foo").
- `parent` followed by `push(file_name)` gives the path back only when its last '/' is not doubled. "//foo" comes back as "/foo" (`PushOfDecomposeDoubleSlash`).

## Model

| member | source | states |
|---|---|---|
| `Paths.Split` | src/memory.rs:193 | splitting at '/' yields at least one piece and no piece contains '/' |
| `Paths.JoinSplit` | src/memory.rs:193 | joining the pieces with '/' gives the original string back |
| `Paths.SplitChild` | src/memory.rs:193 | splitting `p + "/" + k` for a separator-free `k` yields the pieces of `p` followed by `k` |
| `Paths.Components` | src/memory.rs:191-197 | the segments contain no '/'; a path without '/' has none (its only piece is dropped); for an absolute path they are the split of what follows the leading '/' and join back into it |
| `Paths.NonEmpty` | src/memory.rs:232-235 | the segments traversal descends through are exactly the non-empty ones: every kept segment is non-empty, every non-empty segment is kept, none is added, and a list without empty segments is kept whole |
| `Paths.RFindSlash` | src/memory.rs:200 | the result is the index of a '/' with none after it, or there is no '/' at all |
| `Paths.DecomposePath` | src/memory.rs:199-214 | splits at the last '/': no parent exactly when there is no '/' or the path ends with '/'; with no '/' the name is the whole path; with a trailing '/' the name is the text before it ("/" for "/"); otherwise the parent is non-empty, the name is non-empty and separator-free, and the path is parent + "/" + name (or "/" + name when the parent is the root) |
| `Paths.DecomposeChild` | src/memory.rs:199-214 | a path ending in '/' then a non-empty separator-free name decomposes into (the path, or "/" when empty) and that name |
| `Paths.DecomposeExamples` | src/memory.rs:473-480 | "/" has no parent; "/foo" is ("/", "foo"); "/foo/bar" is ("/foo", "bar") |
| `Paths.Pushed` | src/memory.rs:300-306 | the pushed path starts with the old path and ends with the segment, with a '/' right before the segment; a '/' is inserted (the result is one longer than path + segment) exactly when the path is empty or does not already end with '/' |
| `Paths.PushOfDecompose` | src/memory.rs:291-306 | pushing the file name onto the parent gives the path back when its last '/' is not doubled |
| `Paths.PushOfDecomposeDoubleSlash` | src/memory.rs:300-306 | "//foo" decomposes into ("/", "foo"), and pushing "foo" onto "/" gives "/foo" rather than "//foo" |
| `Paths.ParentOfPush` | src/memory.rs:300-306 | after pushing a non-empty separator-free segment onto "/" or a path not ending in '/', the parent is that path and the file name is the segment |
| `Paths.PushExamples` | src/memory.rs:457-470 | "/" + "foo" is "/foo", "/foo" + "bar" is "/foo/bar", "/" + "foo/bar" is "/foo/bar" |
| `Paths.ComponentsOfChild` | src/memory.rs:259-263 | when a path has a parent, the segments traversed for it are the parent's followed by the file name |
| `Paths.ChildPath` | src/memory.rs:328 | the path listed for a separator-free child name has the parent's segments followed by that name |
| `Paths.ChildPathsCount` | src/memory.rs:327-329 | distinct child names give distinct listed paths, one per child |
| `FileHandle.DataHandle.constructor` | src/memory.rs:24-26 | a new vector is empty |
| `FileHandle.MemoryFile.Read` | src/memory.rs:94-98 | copies min(remaining, capacity) bytes equal to the data from the cursor on, leaves the rest of the buffer and the data alone, advances the cursor by that count, and returns 0 exactly at the end or for an empty buffer |
| `FileHandle.WriteAt` | src/memory.rs:102-121 | the effect of a write: the length is max(len, p+n); [p, p+n) holds the bytes; the data before p and after p+n is kept; a gap [len, p) reads as zeros |
| `FileHandle.MemoryFile.Write` | src/memory.rs:102-121 | the new data is `WriteAt(old data, old cursor, bytes)`; returns the byte count and moves the cursor past the bytes |
| `FileHandle.WriteAtEnd` | src/memory.rs:113-115 | writing at the end appends |
| `FileHandle.WriteAtInside` | src/memory.rs:113-114 | writing inside the data replaces exactly [p, p+n) and keeps the length |
| `FileHandle.WriteAtPastEnd` | src/memory.rs:106-109 | writing past the end zero-fills [len, p) and then appends |
| `FileHandle.WriteAtReadBack` | src/memory.rs:110-115 | the written bytes sit at [p, p+n), and writing them again changes nothing |
| `FileHandle.WriteAllAppends` | src/memory.rs:389-398 | chunks written in sequence from the end of the data leave the data followed by their concatenation, with the cursor at the new end |
| `FileHandle.MemoryFile.Flush` | src/memory.rs:122-125 | always succeeds and changes nothing |
| `FileHandle.MemoryFile.Seek` | src/memory.rs:129-146 | Start(n) goes to n, End(n) to len+n, Current(n) to cursor+n; a non-negative target becomes the cursor and is returned, a negative one gives InvalidInput and leaves the cursor |
| `FileHandle.MemoryFile.ReadToEnd` | src/memory.rs:395-398 | reading until a read returns 0 yields the data from the cursor to the end and leaves the cursor at the end |
| `NodeTree.NewDirectory` | src/memory.rs:43-49 | an empty directory with a fresh, empty vector |
| `NodeTree.NewFile` | src/memory.rs:51-57 | an empty file with a fresh, empty vector |
| `NodeTree.Metadata` | src/memory.rs:59-64 | `is_dir` and `is_file` follow the node's kind; the length is the vector's current length, whatever the kind |
| `NodeTree.Lookup` | src/memory.rs:228-245 | traversal fails only with Other |
| `NodeTree.LookupWalk` | src/memory.rs:232-241 | traversal succeeds exactly when every non-empty segment names an existing child, and then reaches the node at those names |
| `NodeTree.InsertChild` | src/memory.rs:260-263 | the rebuilt root keeps its kind and vector |
| `NodeTree.InsertChildEffect` | src/memory.rs:260-263 | after the insertion the new file sits at the parent's path plus the name; every old node keeps its path, kind and vector; no other path appears |
| `NodeTree.TraverseMkdir` | src/memory.rs:217-226 | afterwards the exact segment path exists; every old node keeps its path, kind and vector; each new node lies on the segment path and is a directory with a fresh, empty vector |
| `MemoryFs.MemoryFS.constructor` | src/memory.rs:81-83 | the filesystem starts as an empty root directory |
| `MemoryFs.MemoryFS.Path` | src/memory.rs:171-173 | a new path handle on this filesystem holding the string as given |
| `MemoryFs.MemoryPath.constructor` | src/memory.rs:184-189 | a path handle holding the given string, bound to the given filesystem |
| `MemoryFs.MemoryPath.WithNode` | src/memory.rs:191-197 | the lookup fails only with Other, and succeeds exactly when the walk along the non-empty segments of the path does, landing on the same node |
| `MemoryFs.MemoryPath.Open` | src/memory.rs:250-256 | the handle shares the resolved node's vector (no copy) and starts at cursor 0 |
| `MemoryFs.MemoryPath.FileData` | src/memory.rs:259-266 | fails with Other exactly when the parent does not resolve, and then leaves the tree alone; otherwise returns the existing node's vector unchanged, or inserts a new empty file at the path and nothing else |
| `MemoryFs.MemoryPath.Create` | src/memory.rs:258-272 | as FileData, then the shared vector is emptied in place (so every open handle sees it empty) and the handle is at cursor 0 |
| `MemoryFs.MemoryPath.Append` | src/memory.rs:274-288 | as FileData, the content is kept, and the handle's cursor is the current length |
| `MemoryFs.MemoryPath.Mkdir` | src/memory.rs:309-315 | always Ok; the exact segment path exists afterwards; old nodes are kept; new nodes are empty directories on that path; a path whose empty segments all come after its non-empty ones then resolves, and if it did not before it reports Directory with length 0 |
| `MemoryFs.MemoryPath.Exists` | src/memory.rs:317-319 | true exactly when traversal succeeds |
| `MemoryFs.MemoryPath.Metadata` | src/memory.rs:321-323 | fails with Other exactly when traversal fails; otherwise the node's kind and its vector's current length |
| `MemoryFs.MemoryPath.ReadDir` | src/memory.rs:325-333 | fails with Other exactly when traversal fails; otherwise the listing is exactly path + "/" + name for each child, one entry per child |
| `MemoryFs.MemoryPath.Parent` | src/memory.rs:291-293 | none exactly when the decomposition has no parent; otherwise a new path on the same filesystem holding the parent string |
| `MemoryFs.MemoryPath.FileName` | src/memory.rs:296-298 | always present: the name part of `decompose_path` (so "/" for "/" and "/foo" for "/foo/") |
| `MemoryFs.MemoryPath.Push` | src/memory.rs:300-306 | the path becomes the old path, a '/' unless it already ended with one, and the segment |
| `Scenarios.CreateWith` | src/memory.rs:389-393 | a created file written once holds exactly what was written, and its path resolves to the handle's vector |
| `Scenarios.MkdirThenCreateChildren` | src/memory.rs:484-489 | after mkdir "/a/b" and create "/a/c" on an empty root, "/a" has exactly the children b and c |
| `Scenarios.MkdirThenCreate` | src/memory.rs:484-489 | the same through the path operations: "/a" resolves to a node whose children are b and c |

## Left out

- Thread safety is left out: the `Arc`/`RwLock` around the tree and around each vector (src/memory.rs:21, 72, 192, 310). The model is single-threaded. Sharing a vector is modelled by object identity.
- Dropping a vector when its last reference goes away. Dafny objects are never freed, and the difference cannot be observed.
- The order of `read_dir`'s listing, which comes from `HashMap` iteration. The listing is a set.
- MemoryFs.MemoryPath.ReadDir returns the child path strings, not `MemoryPath` handles each wrapped in `Ok`, because each such handle would be just that string bound to the same filesystem.
- The `VFS`/`VPath`/`VMetadata` trait plumbing, the generic `Into` conversions, the `Debug` derives, `From<&MemoryPath> for String`, and `PartialEq` for `MemoryPath`. `PartialEq` compares the path strings, and the scenarios compare `path` fields directly.
- FileHandle.MemoryFile.Seek: the `u64`/`i64` casts of the length and cursor are not modelled (src/memory.rs:135-136), and neither is their overflow. Cursors and offsets are unbounded integers.
- FileHandle.MemoryFile.Write: the cursor addition `pos + buf.len()` and the `usize` conversions cannot overflow in the model.
- Rust panics are preconditions rather than behaviour:
  - `unwrap` in `open`, `create` and `append`;
  - the out-of-range slice in `read`.
- Error message strings. Only the error kind is kept.
- `read_to_string`'s UTF-8 check. FileHandle.MemoryFile.ReadToEnd models only the loop that reads until 0. Its 32-byte scratch buffer stands in for the growing vector std uses; the chunk size cannot be observed.
