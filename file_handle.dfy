/** File contents and the handles that read and write them: `DataHandle`, the
    growable byte vector a file node owns and shares with every handle opened
    on it, and `MemoryFile`, a cursor over one such vector. */
module FileHandle {
  import opened Io

  /** A shared, growable byte vector. A node and every handle opened on it hold
      the same object, so a change through one is seen through all. */
  class DataHandle {
    var bytes: seq<bv8>

    constructor ()
      ensures bytes == []
    {
      bytes := [];
    }
  }

  function Min(a: int, b: int): int { if a <= b then a else b }

  function Max(a: int, b: int): int { if a >= b then a else b }

  function Zeros(n: nat): (z: seq<bv8>)
    ensures |z| == n && forall i :: 0 <= i < n ==> z[i] == 0
  {
    seq(n, _ => 0)
  }

  /** The contents after writing `b` at offset `p` into `d`, stated byte by
      byte: `b` lands at [p, p + |b|), a gap between the old end and `p` reads
      as zero, and every other byte keeps its old value. */
  function WriteAt(d: seq<bv8>, p: nat, b: seq<bv8>): (r: seq<bv8>)
    ensures |r| == Max(|d|, p + |b|)
    ensures r[p..p + |b|] == b
    ensures r[..Min(p, |d|)] == d[..Min(p, |d|)]
    ensures p + |b| <= |d| ==> r[p + |b|..] == d[p + |b|..]
    ensures p > |d| ==> r[|d|..p] == Zeros(p - |d|)
  {
    seq(Max(|d|, p + |b|), i requires 0 <= i < Max(|d|, p + |b|) =>
      if p <= i < p + |b| then b[i - p] else if i < |d| then d[i] else 0)
  }

  /** Where a seek lands, before the check for a negative target. */
  datatype SeekFrom = Start(offset: nat) | End(delta: int) | Current(delta: int)

  function SeekTarget(style: SeekFrom, len: nat, pos: nat): int
  {
    match style
    case Start(n) => n
    case End(n) => len + n
    case Current(n) => pos + n
  }

  /** An open file: a reference to the node's byte vector and a cursor of its
      own, which may lie beyond the end of the data. */
  class MemoryFile {
    const data: DataHandle
    var pos: nat

    constructor (data: DataHandle, pos: nat)
      ensures this.data == data && this.pos == pos
    {
      this.data := data;
      this.pos := pos;
    }

    /** Copies as many bytes from the cursor on as fit in `buf`; 0 exactly at
        the end of the data. The source slices the vector at the cursor, which
        panics when the cursor lies beyond the end: callers must not do that. */
    method Read(buf: array<bv8>) returns (n: nat)
      requires pos <= |data.bytes|
      modifies this, buf
      ensures n == Min(|data.bytes| - old(pos), buf.Length)
      ensures buf[..n] == data.bytes[old(pos)..old(pos) + n]
      ensures buf[n..] == old(buf[n..])
      ensures pos == old(pos) + n
      ensures n == 0 <==> old(pos) == |data.bytes| || buf.Length == 0
    {
      var rest := data.bytes[pos..];
      n := Min(|rest|, buf.Length);
      forall i | 0 <= i < n {
        buf[i] := rest[i];
      }
      pos := pos + n;
    }

    /** Writes all of `b` at the cursor: first zero-fills the vector up to the
        cursor if the cursor is past its end, then overwrites what overlaps and
        appends the rest; the cursor moves past the written bytes. */
    method Write(b: seq<bv8>) returns (n: nat)
      modifies this, data
      ensures data.bytes == WriteAt(old(data.bytes), old(pos), b)
      ensures n == |b| && pos == old(pos) + |b|
    {
      var vec := data.bytes;
      var p := pos;
      var len := |vec|;
      var amt := if p > len then p - len else 0;
      vec := vec + Zeros(amt);
      var space := |vec| - p;
      var left, right := b[..Min(space, |b|)], b[Min(space, |b|)..];
      vec := vec[..p] + left + vec[p + |left|..];
      vec := vec + right;
      assert |vec| == Max(len, p + |b|);
      forall i | 0 <= i < |vec|
        ensures vec[i] == WriteAt(old(data.bytes), p, b)[i]
      {
        if i < p {
        } else if i < p + |left| {
          assert vec[i] == left[i - p];
        } else if i < p + |b| {
          assert vec[i] == right[i - p - |left|];
        }
      }
      data.bytes := vec;
      pos := p + |b|;
      n := |b|;
    }

    /** Nothing is buffered in the handle, so there is nothing to flush. */
    method Flush() returns (r: Result<()>)
      ensures r.Ok?
    {
      r := Ok(());
    }

    /** `Start(n)` always succeeds, even beyond the end; `End(n)` and
        `Current(n)` are relative to the length and the cursor; a negative
        target is refused with InvalidInput and the cursor stays put. */
    method Seek(style: SeekFrom) returns (r: Result<nat>)
      modifies this
      ensures var target := SeekTarget(style, |data.bytes|, old(pos));
        if target >= 0 then r == Ok(target) && pos == target
        else r == Err(InvalidInput) && pos == old(pos)
    {
      var target: int;
      match style {
        case Start(n) =>
          pos := n;
          return Ok(n);
        case End(n) =>
          target := |data.bytes| + n;
        case Current(n) =>
          target := pos + n;
      }
      if target < 0 {
        r := Err(InvalidInput);
      } else {
        pos := target;
        r := Ok(pos);
      }
    }

    /** The default `read_to_end` loop: read into a scratch buffer until a read
        returns 0, collecting what was read. */
    method ReadToEnd() returns (s: seq<bv8>)
      requires pos <= |data.bytes|
      modifies this
      ensures s == data.bytes[old(pos)..]
      ensures pos == |data.bytes|
    {
      var chunk := new bv8[32];
      s := [];
      while true
        invariant old(pos) <= pos <= |data.bytes|
        invariant s == data.bytes[old(pos)..pos]
        decreases |data.bytes| - pos
      {
        var n := Read(chunk);
        if n == 0 {
          break;
        }
        s := s + chunk[..n];
      }
    }
  }

  /** Writing at the end of the data appends. */
  lemma WriteAtEnd(d: seq<bv8>, b: seq<bv8>)
    ensures WriteAt(d, |d|, b) == d + b
  {
    assert forall i :: 0 <= i < |d| + |b| ==> WriteAt(d, |d|, b)[i] == (d + b)[i];
  }

  /** Writing inside the data replaces exactly [p, p + |b|) and keeps the length. */
  lemma WriteAtInside(d: seq<bv8>, p: nat, b: seq<bv8>)
    requires p + |b| <= |d|
    ensures WriteAt(d, p, b) == d[..p] + b + d[p + |b|..]
  {
    assert forall i :: 0 <= i < |d| ==> WriteAt(d, p, b)[i] == (d[..p] + b + d[p + |b|..])[i];
  }

  /** Writing past the end zero-fills the gap [|d|, p) first. */
  lemma WriteAtPastEnd(d: seq<bv8>, p: nat, b: seq<bv8>)
    requires p >= |d|
    ensures WriteAt(d, p, b) == d + Zeros(p - |d|) + b
  {
    var r := d + Zeros(p - |d|) + b;
    assert forall i :: 0 <= i < p + |b| ==> WriteAt(d, p, b)[i] == r[i];
  }

  /** Reading back what was just written gives it, and writing the same bytes
      again at the same place changes nothing. */
  lemma WriteAtReadBack(d: seq<bv8>, p: nat, b: seq<bv8>)
    ensures WriteAt(d, p, b)[p..p + |b|] == b
    ensures WriteAt(WriteAt(d, p, b), p, b) == WriteAt(d, p, b)
  {
    var w := WriteAt(d, p, b);
    assert forall i :: 0 <= i < |b| ==> w[p..p + |b|][i] == b[i];
  }

  /** The content and cursor after writing `chunks` one after another through
      one handle, starting at cursor `p`. */
  function WriteAll(d: seq<bv8>, p: nat, chunks: seq<seq<bv8>>): (seq<bv8>, nat)
    decreases |chunks|
  {
    if chunks == [] then (d, p)
    else WriteAll(WriteAt(d, p, chunks[0]), p + |chunks[0]|, chunks[1..])
  }

  function Concat(chunks: seq<seq<bv8>>): seq<bv8>
    decreases |chunks|
  {
    if chunks == [] then [] else chunks[0] + Concat(chunks[1..])
  }

  /** Writing chunks from the end of the data (as after `create`, at 0 on an
      empty vector, or after `append`) leaves the data followed by the
      concatenation of the chunks, and the cursor at the new end. */
  lemma {:induction false} WriteAllAppends(d: seq<bv8>, chunks: seq<seq<bv8>>)
    ensures WriteAll(d, |d|, chunks) == (d + Concat(chunks), |d + Concat(chunks)|)
    decreases |chunks|
  {
    if chunks != [] {
      WriteAtEnd(d, chunks[0]);
      WriteAllAppends(d + chunks[0], chunks[1..]);
      assert d + chunks[0] + Concat(chunks[1..]) == d + Concat(chunks);
    } else {
      assert d + Concat(chunks) == d;
    }
  }
}
