/**
  The receive side of a serial or TCP device: the octets that will arrive, handed out in
  pieces whose sizes the reader cannot predict.
 */
module Stream {
  import opened Octets

  class Source {
    /** The octets not yet read, in order of arrival. */
    var stream: seq<octet>
    /** What a call returns that brings nothing, zero or an error code. */
    const nothing: int

    constructor (data: seq<octet>, nothing: int)
      requires nothing <= 0
      ensures stream == data && this.nothing == nothing
    {
      stream, this.nothing := data, nothing;
    }

    /** More octets arrive. */
    method Arrive(data: seq<octet>)
      modifies this
      ensures stream == old(stream) + data
    {
      stream := stream + data;
    }

    /** Reads some of the waiting octets into `buf[at..at + max]`: at least one when there is
        room and something is waiting, otherwise none. Where the stream is cut is arbitrary. */
    method Recv(buf: array<octet>, at: nat, max: nat) returns (n: nat)
      requires at + max <= buf.Length
      modifies this, buf
      ensures n <= max && n <= |old(stream)|
      ensures n == 0 <==> max == 0 || old(stream) == []
      ensures stream == old(stream)[n..]
      ensures buf[..] == old(buf[..at]) + old(stream)[..n] + old(buf[at + n..])
    {
      var most := if max <= |stream| then max else |stream|;
      var least := if most == 0 then 0 else 1;
      assert least <= most <= most;
      n :| least <= n <= most;
      for i := 0 to n
        invariant stream == old(stream)
        invariant forall m :: 0 <= m < buf.Length ==>
                    buf[m] == if at <= m < at + i then stream[m - at] else old(buf[m])
      {
        buf[at + i] := stream[i];
      }
      stream := stream[n..];
    }
  }

  /** Moves `n` octets from `from` down to the start of the buffer, lowest first. */
  method ShiftDown(buf: array<octet>, from: nat, n: nat)
    requires from + n <= buf.Length
    modifies buf
    ensures buf[..n] == old(buf[from..from + n])
    ensures buf[n..] == old(buf[n..])
  {
    ghost var before := buf[..];
    for i := 0 to n
      invariant buf[..i] == before[from..from + i]
      invariant buf[i..] == before[i..]
    {
      buf[i] := buf[from + i];
      assert before[from..from + i + 1] == before[from..from + i] + [before[from + i]];
    }
  }
}
