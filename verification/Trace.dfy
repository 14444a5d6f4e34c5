// Trace records of helper/replay.c.  A `struct trace_info *` is the number of
// its line in the parsed trace.
module Trace {
  import opened FillBlock

  datatype TraceInfo = TraceInfo(ts: nat, lba: nat, rw: char, md5: Digest)
  {
    // `info->lba << 9`, set while parsing
    function Ofs(): nat
    {
      512 * lba
    }
  }

  type Line = nat

  ghost predicate InTrace(infos: seq<TraceInfo>, lines: seq<Line>)
  {
    forall i :: 0 <= i < |lines| ==> lines[i] < |infos|
  }

  function Ts(infos: seq<TraceInfo>, l: Line): nat
  {
    if l < |infos| then infos[l].ts else 0
  }
}
