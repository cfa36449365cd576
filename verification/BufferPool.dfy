/** The pool of reusable byte buffers. */
module BufferPool {
  import opened Seqs
  import opened Bytes

  const TAR_BUFFER_SIZE: nat := 65536
  const MAX_RETAINED_BUFFER_SIZE: nat := 1048576

  ghost predicate Zeroed(buffer: array<byte>)
    reads buffer
  {
    forall i :: 0 <= i < buffer.Length ==> buffer[i] == 0
  }

  /** `pool` holds what may be handed out again; `lent` is the record of buffers handed out and not
      yet returned. */
  class BufferPool {
    var pool: seq<array<byte>>
    var tarHits: nat
    var tarMisses: nat
    ghost var lent: set<array<byte>>

    /** What the pool guarantees as long as its users return what they got, once. */
    ghost predicate Disciplined()
      reads this, pool
    {
      && NoDuplicates(pool)
      && (forall b :: b in pool ==> b !in lent && b.Length == TAR_BUFFER_SIZE && Zeroed(b))
      && (forall b :: b in lent ==> b.Length == TAR_BUFFER_SIZE)
      && tarMisses <= tarHits
    }

    constructor ()
      ensures Disciplined() && pool == [] && lent == {} && tarHits == tarMisses == 0
    {
      pool := [];
      tarHits, tarMisses := 0, 0;
      lent := {};
    }

    /** The pool picks any pooled buffer, or makes a new one. */
    method Get() returns (buffer: array<byte>)
      modifies this
      ensures tarHits == old(tarHits) + 1
      ensures buffer in old(pool) || (fresh(buffer) && tarMisses == old(tarMisses) + 1)
      ensures old(Disciplined()) ==>
        && Disciplined()
        && buffer.Length == 65536 && Zeroed(buffer)
        && buffer !in old(lent) && buffer !in pool && lent == old(lent) + {buffer}
      ensures forall b :: b in pool ==> b in old(pool)
      ensures multiset(pool) + multiset{buffer} ==
              old(multiset(pool)) + (if fresh(buffer) then multiset{buffer} else multiset{})
    {
      tarHits := tarHits + 1;
      var reuse: bool := *;
      if reuse && |pool| > 0 {
        var i :| 0 <= i < |pool|;
        buffer := pool[i];
        assert pool == pool[..i] + [pool[i]] + pool[i + 1..];
        pool := Without(pool, i);
      } else {
        tarMisses := tarMisses + 1;
        buffer := new byte[TAR_BUFFER_SIZE](_ => 0);
      }
      lent := lent + {buffer};
    }

    /** Oversized buffers are left to the collector; all others are cleared in place and pooled. */
    method Put(buffer: array<byte>)
      modifies this, buffer
      ensures tarHits == old(tarHits) && tarMisses == old(tarMisses)
      ensures buffer.Length > 1048576 ==> pool == old(pool) && buffer[..] == old(buffer[..])
      ensures buffer.Length <= 1048576 ==> pool == old(pool) + [buffer] && Zeroed(buffer)
      ensures old(Disciplined()) && buffer in old(lent) ==> Disciplined() && lent == old(lent) - {buffer}
    {
      if buffer.Length > MAX_RETAINED_BUFFER_SIZE {
        return;
      }
      var i := 0;
      while i < buffer.Length
        invariant 0 <= i <= buffer.Length
        invariant forall k :: 0 <= k < i ==> buffer[k] == 0
        modifies buffer
      {
        buffer[i] := 0;
        i := i + 1;
      }
      pool := pool + [buffer];
      lent := lent - {buffer};
    }
  }

  // ---------- files, read in pieces ----------

  /** A regular file as a walk finds it: what opening, stat-ing and reading it will do. */
  datatype File = File(
    path: string,
    size: nat,
    statOk: bool,
    headerOk: bool,
    encodable: bool,
    openable: bool,
    readable: bool,
    content: seq<byte>)

  datatype ReadStatus = More | Eof | Failed

  /** What one call of Read may do at `pos` with a buffer of `room` bytes: deliver `n` bytes and end
      the stream only when a readable file is exhausted, or fail when the file is not readable.
      A call that reports no end delivers something. */
  predicate ReadMay(f: File, pos: nat, room: nat, n: nat, status: ReadStatus) {
    && n <= room && pos + n <= |f.content|
    && match status
       case More => n > 0
       case Eof => f.readable && pos + n == |f.content|
       case Failed => !f.readable
  }

  class FileReader {
    const file: File
    var pos: nat

    ghost predicate Valid() reads this { pos <= |file.content| }

    constructor (file: File)
      ensures Valid() && this.file == file && pos == 0
    {
      this.file := file;
      pos := 0;
    }

    /** Anything ReadMay allows can happen. */
    method Read(p: array<byte>) returns (n: nat, status: ReadStatus)
      requires Valid() && p.Length > 0
      modifies this, p
      ensures Valid() && pos == old(pos) + n
      ensures ReadMay(file, old(pos), p.Length, n, status)
      ensures p[..n] == file.content[old(pos)..old(pos) + n]
    {
      var left := |file.content| - pos;
      assert ReadMay(file, pos, p.Length, 0, Failed)
          || ReadMay(file, pos, p.Length, if left == 0 then 0 else 1, if left == 0 then Eof else More);
      var k: nat, st :| ReadMay(file, pos, p.Length, k, st);
      assert ReadMay(file, pos, p.Length, k, st);
      n, status := k, st;
      forall i | 0 <= i < n {
        p[i] := file.content[pos + i];
      }
      pos := pos + n;
    }
  }

  /** Reading a whole file through a pooled buffer: the bytes are copied out before the buffer is
      cleared and pooled again, so what is returned does not depend on the buffer's later use.
      Like the code, the result is nil both when a read fails and when the file is empty. */
  method ReadPooled(buffers: BufferPool, file: File) returns (content: Option<seq<byte>>)
    requires buffers.Disciplined()
    modifies buffers, buffers.pool
    ensures buffers.Disciplined() && buffers.lent == old(buffers.lent)
    ensures content == if file.readable && file.content != [] then Some(file.content) else None
    ensures fresh(Elements(buffers.pool) - old(Elements(buffers.pool)))
  {
    var buffer := buffers.Get();
    var reader := new FileReader(file);
    var result: seq<byte> := [];
    var status := More;
    while status == More
      invariant reader.Valid() && reader.file == file && fresh(reader)
      invariant buffers.Disciplined() && buffer in buffers.lent && buffer.Length == TAR_BUFFER_SIZE
      invariant buffers.lent == old(buffers.lent) + {buffer} && buffer !in old(buffers.lent)
      invariant buffer in old(buffers.pool) || fresh(buffer)
      invariant forall b :: b in buffers.pool ==> b in old(buffers.pool)
      invariant result == file.content[..reader.pos]
      invariant status == Eof ==> file.readable && reader.pos == |file.content|
      invariant status == Failed ==> !file.readable
      decreases status == More, |file.content| - reader.pos
    {
      var n;
      n, status := reader.Read(buffer);
      if n > 0 {
        result := result + buffer[..n];
      }
    }
    content := if status == Failed || result == [] then None else Some(result);
    assert status == Eof ==> result == file.content;
    buffers.Put(buffer);
  }
}
