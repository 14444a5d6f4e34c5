// Files as helper/replay.c uses them: pwrite, write on an O_APPEND descriptor,
// and pread, which may return fewer bytes than asked for.
module Files {
  import opened Bytes
  import opened Options
  import opened Splicing

  type File = seq<byte>

  function Zeros(n: nat): (z: seq<byte>)
    ensures |z| == n && forall i :: 0 <= i < n ==> z[i] == 0
  {
    seq(n, _ => 0)
  }

  // A file reads as zero where nothing was written.
  function ByteAt(f: File, i: nat): byte
  {
    if i < |f| then f[i] else 0
  }

  function Padded(f: File, n: nat): (r: File)
    ensures |r| >= n && |r| == if |f| < n then n else |f|
    ensures forall i :: 0 <= i < |r| ==> r[i] == ByteAt(f, i)
  {
    if |f| < n then f + Zeros(n - |f|) else f
  }

  // pwrite
  function WriteAt(f: File, ofs: nat, b: seq<byte>): (r: File)
  {
    Splice(Padded(f, ofs + |b|), ofs, b)
  }

  // n bytes from ofs on, with zeros past the end.
  function ReadAt(f: File, ofs: nat, n: nat): (b: seq<byte>)
    ensures |b| == n
    ensures forall i :: 0 <= i < n ==> b[i] == ByteAt(f, ofs + i)
  {
    seq<byte>(n, i requires 0 <= i < n => ByteAt(f, ofs + i))
  }

  // ----- laws -----

  lemma WriteAtByte(f: File, ofs: nat, b: seq<byte>, i: nat)
    ensures ByteAt(WriteAt(f, ofs, b), i) == if ofs <= i < ofs + |b| then b[i - ofs] else ByteAt(f, i)
    ensures |WriteAt(f, ofs, b)| == if |f| < ofs + |b| then ofs + |b| else |f|
  {
    var r := Splice(Padded(f, ofs + |b|), ofs, b);
    if ofs <= i < ofs + |b| {
      assert r[ofs..ofs + |b|][i - ofs] == r[i];
    }
  }

  // A length and the bytes determine a file.
  lemma SameFile(f: File, g: File)
    requires |f| == |g| && forall i :: 0 <= i < |f| ==> ByteAt(f, i) == ByteAt(g, i)
    ensures f == g
  {
    forall i | 0 <= i < |f|
      ensures f[i] == g[i]
    {
      assert ByteAt(f, i) == ByteAt(g, i);
    }
  }

  // Writing b and then c behind it is one write of b + c.
  lemma WriteTwice(f: File, ofs: nat, b: seq<byte>, c: seq<byte>)
    ensures WriteAt(WriteAt(f, ofs, b), ofs + |b|, c) == WriteAt(f, ofs, b + c)
  {
    hide WriteAt;
    var l, r := WriteAt(WriteAt(f, ofs, b), ofs + |b|, c), WriteAt(f, ofs, b + c);
    WriteAtByte(f, ofs, b, 0);
    WriteAtByte(WriteAt(f, ofs, b), ofs + |b|, c, 0);
    WriteAtByte(f, ofs, b + c, 0);
    forall i | 0 <= i < |l|
      ensures ByteAt(l, i) == ByteAt(r, i)
    {
      WriteAtByte(f, ofs, b, i);
      WriteAtByte(WriteAt(f, ofs, b), ofs + |b|, c, i);
      WriteAtByte(f, ofs, b + c, i);
    }
    SameFile(l, r);
  }

  lemma ReadTwice(f: File, ofs: nat, m: nat, n: nat)
    ensures ReadAt(f, ofs, m + n) == ReadAt(f, ofs, m) + ReadAt(f, ofs + m, n)
  {
    var l, r := ReadAt(f, ofs, m + n), ReadAt(f, ofs, m) + ReadAt(f, ofs + m, n);
    forall i | 0 <= i < m + n
      ensures l[i] == r[i]
    {
    }
  }

  lemma ReadBack(f: File, ofs: nat, b: seq<byte>)
    ensures ReadAt(WriteAt(f, ofs, b), ofs, |b|) == b
  {
    forall i | 0 <= i < |b|
      ensures ReadAt(WriteAt(f, ofs, b), ofs, |b|)[i] == b[i]
    {
      WriteAtByte(f, ofs, b, ofs + i);
    }
  }

  lemma ReadElsewhere(f: File, ofs: nat, b: seq<byte>, at: nat, n: nat)
    requires at + n <= ofs || ofs + |b| <= at
    ensures ReadAt(WriteAt(f, ofs, b), at, n) == ReadAt(f, at, n)
  {
    forall i | 0 <= i < n
      ensures ReadAt(WriteAt(f, ofs, b), at, n)[i] == ReadAt(f, at, n)[i]
    {
      WriteAtByte(f, ofs, b, at + i);
    }
  }

  // ----- an open file -----

  class Handle {
    var content: File

    // access and open: a file that exists keeps its content, whatever the mode,
    // a missing one is created empty.
    constructor (existing: Option<File>)
      ensures content == if existing.Some? then existing.value else []
    {
      if existing.Some? {
        content := existing.value;
      } else {
        content := [];
      }
    }

    // pwrite of the first `count` bytes of the buffer
    method PWrite(buf: array<byte>, count: nat, ofs: nat)
      requires 0 < count <= buf.Length
      modifies this
      ensures content == WriteAt(old(content), ofs, buf[..count])
    {
      content := WriteAt(content, ofs, buf[..count]);
    }

    // write, when opened with O_APPEND
    method Append(buf: array<byte>, count: nat)
      requires count <= buf.Length
      modifies this
      ensures content == old(content) + buf[..count]
    {
      content := content + buf[..count];
    }

    // pread of up to `count` bytes to buf[at..]: at the end of the file 0,
    // otherwise at least one byte, but possibly fewer than there are.
    method PRead(buf: array<byte>, at: nat, count: nat, ofs: nat) returns (ret: nat)
      requires at + count <= buf.Length && count > 0
      modifies buf
      ensures ret <= count && (ret == 0 <==> ofs >= |content|) && (ret > 0 ==> ofs + ret <= |content|)
      ensures buf[..] == Splice(old(buf[..]), at, ReadAt(content, ofs, ret))
    {
      if ofs >= |content| {
        SpliceEmpty(buf[..], at);
        assert ReadAt(content, ofs, 0) == [];
        return 0;
      }
      var avail := if |content| - ofs < count then |content| - ofs else count;
      ret :| 0 < ret <= avail;
      assert ReadAt(content, ofs, ret) == content[ofs..ofs + ret];
      Copy(buf, at, content[ofs..ofs + ret]);
    }
  }
}
