// Writing a stretch of elements into a buffer.
module Splicing {
  // A buffer after the elements b are written at this position.
  function Splice<T>(s: seq<T>, at: nat, b: seq<T>): (r: seq<T>)
    requires at + |b| <= |s|
    ensures |r| == |s|
    ensures r[at..at + |b|] == b
  {
    s[..at] + b + s[at + |b|..]
  }

  lemma SpliceEmpty<T>(s: seq<T>, at: nat)
    requires at <= |s|
    ensures Splice(s, at, []) == s
  {
  }

  // Writing b and then c right after it writes b + c.
  lemma SpliceTwice<T>(s: seq<T>, at: nat, b: seq<T>, c: seq<T>)
    requires at + |b| + |c| <= |s|
    ensures Splice(Splice(s, at, b), at + |b|, c) == Splice(s, at, b + c)
  {
    var r := Splice(s, at, b);
    assert r[..at + |b|] == s[..at] + b;
    assert r[at + |b| + |c|..] == s[at + |b + c|..];
  }

  // A later write over the same place is all that remains.
  lemma SpliceOver<T>(s: seq<T>, at: nat, b: seq<T>, c: seq<T>)
    requires at + |b| <= |s| && |c| == |b|
    ensures Splice(Splice(s, at, b), at, c) == Splice(s, at, c)
  {
    var r := Splice(s, at, b);
    assert r[..at] == s[..at] && r[at + |b|..] == s[at + |b|..];
  }

  // memcpy
  method Copy<T>(buf: array<T>, at: nat, b: seq<T>)
    requires at + |b| <= buf.Length
    modifies buf
    ensures buf[..] == Splice(old(buf[..]), at, b)
  {
    forall k | 0 <= k < |b| {
      buf[at + k] := b[k];
    }
  }
}
