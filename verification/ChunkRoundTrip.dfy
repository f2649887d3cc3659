/** Loading what was dumped gives it back. */
module ChunkRoundTrip {
  import opened Chunk
  import opened ChunkDump
  import opened ChunkLoad

  /** Dumping a function and loading the chunk, whatever follows it, gives the
      same function, or without its debug information if that was stripped, and
      reads just the chunk. */
  method DumpThenLoad(pl: Platform, p: Proto, strip: bool, rest: Bytes) returns (r: Result<Proto>, remaining: Bytes)
    requires pl.Valid() && Dumpable(pl, p, strip)
    ensures r == Ok(if strip then Stripped(p) else p) && remaining == rest
  {
    hide FunctionBytes, HeaderBytes, Fits, ReuseBit;
    var out := Dump(pl, p, strip);
    r, remaining := Load(pl, out + rest, p, strip, rest, []);
  }

  /** Cutting the chunk short anywhere is found out, and nothing is loaded. */
  method DumpThenCut(pl: Platform, p: Proto, strip: bool, n: nat) returns (r: Result<Proto>)
    requires pl.Valid() && Dumpable(pl, p, strip) && n < |ChunkBytes(pl, p, strip)|
    ensures r == Err(Truncated)
  {
    hide FunctionBytes, HeaderBytes, Fits, ReuseBit;
    var out := Dump(pl, p, strip);
    assert out[..n] + out[n..] == out;
    var remaining;
    r, remaining := Load(pl, out[..n], p, strip, [], out[n..]);
  }
}
