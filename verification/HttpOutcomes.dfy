/**
  What every way of ending an HTTP header means for the octets: not only when it is complete, but
  also which octets are rejected, overflow the buffer, or end too early.
 */
module HttpOutcomes {
  import opened Octets
  import opened HttpHeader

  /** Lines, each with its CR LF, and no empty line after them. */
  function Begun(lines: seq<seq<octet>>): seq<octet>
  {
    if lines == [] then [] else lines[0] + [CR, LF] + Begun(lines[1..])
  }

  /** No line ends within the first 272 octets. */
  predicate NoLineEnd(s: seq<octet>)
  {
    forall j :: 0 <= j <= 270 ==> !EolAt(s, j)
  }

  /** Complete: acceptable lines, an empty line, the rest. Rejected: acceptable lines, then a plain
      one that the field parser does not take. Overflow: acceptable lines, then 272 octets or more
      without the end of one. Ended: acceptable lines, then fewer. */
  ghost predicate Means(accept: Judge, s: seq<octet>, o: Outcome)
  {
    var n := |o.lines|;
    && Begun(o.lines) <= s
    && (var tail := s[|Begun(o.lines)|..];
        match o
        case Complete(lines, rest) => Acceptable(accept, lines, 0) && tail == [CR, LF] + rest
        case Rejected(lines) =>
          n > 0 && Acceptable(accept, lines[..n - 1], 0) && Plain(lines[n - 1]) && !accept(lines[..n - 1], lines[n - 1])
        case Overflow(lines) => Acceptable(accept, lines, 0) && |tail| >= 272 && NoLineEnd(tail)
        case Ended(lines) => Acceptable(accept, lines, 0) && |tail| < 272 && NoLineEnd(tail))
  }

  lemma {:induction false} BegunReads(accept: Judge, lines: seq<seq<octet>>, n: nat, tail: seq<octet>)
    requires n <= |lines| && Acceptable(accept, lines, n)
    ensures Parse(accept, lines[..n], Begun(lines[n..]) + tail) == Parse(accept, lines, tail)
    decreases |lines| - n
  {
    hide Plain, Parse;
    if n == |lines| {
      assert lines[..n] == lines && lines[n..] == [] && Begun(lines[n..]) + tail == tail;
    } else {
      var line, more := lines[n], Begun(lines[n + 1..]) + tail;
      assert lines[n..][0] == line && lines[n..][1..] == lines[n + 1..];
      assert Begun(lines[n..]) + tail == line + [CR, LF] + more;
      assert lines[..n] + [line] == lines[..n + 1];
      ParseLine(accept, lines[..n], line, more);
      BegunReads(accept, lines, n + 1, tail);
    }
  }

  lemma {:induction false} BegunAppend(lines: seq<seq<octet>>, line: seq<octet>)
    ensures Begun(lines + [line]) == Begun(lines) + (line + [CR, LF])
  {
    if lines == [] {
      assert [line][1..] == [] && lines + [line] == [line];
    } else {
      assert (lines + [line])[0] == lines[0] && (lines + [line])[1..] == lines[1..] + [line];
      BegunAppend(lines[1..], line);
    }
  }

  /** A tail without the end of a line is an overflow or an early end. */
  lemma UnfinishedTail(accept: Judge, done: seq<seq<octet>>, tail: seq<octet>)
    requires NoLineEnd(tail)
    ensures Parse(accept, done, tail) == if |tail| >= 272 then Overflow(done) else Ended(done)
  {
    var k := FirstEol(tail);
    assert k < |tail| ==> EolAt(tail, k);
  }

  /** What has the meaning is read that way. */
  lemma MeaningReads(accept: Judge, s: seq<octet>, o: Outcome)
    requires Means(accept, s, o)
    ensures Parse(accept, [], s) == o
  {
    hide Parse, Plain, Begun;
    var lines, n := o.lines, |o.lines|;
    var tail := s[|Begun(lines)|..];
    assert s == Begun(lines) + tail;
    if o.Rejected? {
      var done, line := lines[..n - 1], lines[n - 1];
      assert lines == done + [line] && done[..0] == [] && done[0..] == done;
      BegunAppend(done, line);
      assert s == Begun(done) + (line + [CR, LF] + tail);
      BegunReads(accept, done, 0, line + [CR, LF] + tail);
      ParseLine(accept, done, line, tail);
    } else {
      assert lines[..0] == [] && lines[0..] == lines;
      BegunReads(accept, lines, 0, tail);
      if o.Complete? {
        EndOfHeader(accept, lines, o.rest);
      } else {
        UnfinishedTail(accept, lines, tail);
      }
    }
  }

  lemma AcceptableNext(accept: Judge, lines: seq<seq<octet>>, line: seq<octet>)
    requires Acceptable(accept, lines, 0) && Plain(line) && accept(lines, line)
    ensures Acceptable(accept, lines + [line], 0)
  {
    hide Plain;
    var more := lines + [line];
    forall i | 0 <= i < |more| ensures Plain(more[i]) && accept(more[..i], more[i]) {
      assert if i < |lines| then more[..i] == lines[..i] && more[i] == lines[i] else more[..i] == lines;
    }
  }

  /** And whatever is read has the meaning of what it is read as. */
  lemma {:induction false} ReadsMeaning(accept: Judge, s: seq<octet>, done: seq<seq<octet>>, tail: seq<octet>)
    requires Acceptable(accept, done, 0) && s == Begun(done) + tail
    ensures Means(accept, s, Parse(accept, done, tail))
    decreases |tail|
  {
    hide FirstEol, Plain, Begun, Acceptable;
    var k := FirstEol(tail);
    assert s[|Begun(done)|..] == tail;
    if k < |tail| && k + 2 <= BUFFER {
      var line, rest := tail[..k], tail[k + 2..];
      assert tail == line + [CR, LF] + rest;
      if k > 0 {
        EolBefore(tail);
        PlainLine(line);
        BegunAppend(done, line);
        assert s == Begun(done + [line]) + rest;
        if accept(done, line) {
          AcceptableNext(accept, done, line);
          ReadsMeaning(accept, s, done + [line], rest);
        } else {
          assert (done + [line])[..|done|] == done;
        }
      }
    }
  }

  lemma PlainLine(line: seq<octet>)
    requires 0 < |line| <= BUFFER - 2 && FirstEol(line) == |line|
    ensures Plain(line)
  {
  }

  /** Every outcome, exactly: a header is read with a given outcome if and only if its octets mean
      that. */
  lemma OutcomeExactly(accept: Judge, s: seq<octet>, o: Outcome)
    ensures Parse(accept, [], s) == o <==> Means(accept, s, o)
  {
    hide Parse, Means;
    assert Acceptable(accept, [], 0) && Begun([]) + s == s;
    ReadsMeaning(accept, s, [], s);
    if Means(accept, s, o) {
      MeaningReads(accept, s, o);
    }
  }

  /** Reading a header: whatever the pieces, the lines handed over, the code and what is left are
      those of the one outcome that the octets mean: 0 for a complete header, -1 for one rejected
      or too long, and what the connection returned for one that ends. */
  method ReadHeader(rd: Reader, accept: Judge, closed: int) returns (code: int, ghost o: Outcome)
    requires rd.Ready() && rd.lines == [] && closed <= 0
    modifies rd, rd.buf, rd.src
    ensures Means(accept, old(rd.Pending()), o) && rd.lines == o.lines
    ensures o.Complete? ==> code == 0 && rd.Ready() && rd.Pending() == o.rest
    ensures o.Rejected? || o.Overflow? ==> code == -1
    ensures o.Ended? ==> code == closed
  {
    hide Parse, Means;
    o := Parse(accept, [], rd.Pending());
    OutcomeExactly(accept, rd.Pending(), o);
    code := rd.ParseHeader(accept, closed);
  }
}
