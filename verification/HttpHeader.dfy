/**
  The reader of an HTTP request header (section 4.2 of RFC 2616): octets arrive from TCP in
  arbitrary pieces, lines are cut out of a small buffer that is compacted when it fills up,
  and each line goes to the field parser.
 */
module HttpHeader {
  import opened Octets
  import opened Stream

  /** `HTTP_RCVBUF_LEN`. */
  const BUFFER: nat := 272

  const CR: octet := 13
  const LF: octet := 10

  /** How reading the header ended, with the lines handed to the field parser. */
  datatype Outcome =
    | Complete(lines: seq<seq<octet>>, rest: seq<octet>)
    | Rejected(lines: seq<seq<octet>>)
    | Overflow(lines: seq<seq<octet>>)
    | Ended(lines: seq<seq<octet>>)

  predicate EolAt(s: seq<octet>, k: nat)
  {
    k + 1 < |s| && s[k] == CR && s[k + 1] == LF
  }

  /** Where the first CR LF starts, or the length if there is none. */
  function FirstEol(s: seq<octet>): (k: nat)
    ensures k <= |s| && (k < |s| ==> EolAt(s, k))
    ensures forall j :: 0 <= j < k ==> !EolAt(s, j)
  {
    FirstEolFrom(s, 0)
  }

  function FirstEolFrom(s: seq<octet>, i: nat): (k: nat)
    requires i <= |s|
    ensures i <= k <= |s| && (k < |s| ==> EolAt(s, k))
    ensures forall j :: i <= j < k ==> !EolAt(s, j)
    decreases |s| - i
  {
    if i == |s| || EolAt(s, i) then i else FirstEolFrom(s, i + 1)
  }

  lemma FirstEolIs(s: seq<octet>, k: nat)
    requires k <= |s| && (k < |s| ==> EolAt(s, k)) && forall j :: 0 <= j < k ==> !EolAt(s, j)
    ensures FirstEol(s) == k
  {
  }

  type Judge = (seq<seq<octet>>, seq<octet>) -> bool

  /** What the octets of a header mean, however they arrive: `done` are the lines so far. The
      judge says whether the field parser takes a line after those. */
  function Parse(accept: Judge, done: seq<seq<octet>>, s: seq<octet>): Outcome
    decreases |s|
  {
    var k := FirstEol(s);
    if k < |s| && k + 2 <= BUFFER then
      if k == 0 then Complete(done, s[2..])
      else if !accept(done, s[..k]) then Rejected(done + [s[..k]])
      else Parse(accept, done + [s[..k]], s[k + 2..])
    else if |s| >= BUFFER then Overflow(done)
    else Ended(done)
  }

  // ----- The meaning, without the buffer -----

  /** Lines written out, each with its CR LF, then an empty line. */
  function Written(lines: seq<seq<octet>>): seq<octet>
  {
    if lines == [] then [CR, LF] else lines[0] + [CR, LF] + Written(lines[1..])
  }

  /** A line that can be read: not empty, no CR LF inside, and short enough for the buffer. */
  predicate Plain(line: seq<octet>)
  {
    0 < |line| <= BUFFER - 2 && FirstEol(line) == |line|
  }

  /** Every line from the one numbered `from` on is plain and accepted after those before it. */
  ghost predicate Acceptable(accept: Judge, lines: seq<seq<octet>>, from: nat)
  {
    forall i :: from <= i < |lines| ==> Plain(lines[i]) && accept(lines[..i], lines[i])
  }

  lemma EolAfter(line: seq<octet>, rest: seq<octet>)
    requires FirstEol(line) == |line|
    ensures FirstEol(line + [CR, LF] + rest) == |line|
  {
    var s := line + [CR, LF] + rest;
    forall j | 0 <= j < |line| ensures !EolAt(s, j) {
      assert !EolAt(line, j);
    }
    FirstEolIs(s, |line|);
  }

  lemma EolBefore(s: seq<octet>)
    ensures FirstEol(s[..FirstEol(s)]) == FirstEol(s)
  {
    var k := FirstEol(s);
    forall j | 0 <= j < k ensures !EolAt(s[..k], j) {
      assert !EolAt(s, j);
    }
    FirstEolIs(s[..k], k);
  }

  lemma ParseLine(accept: Judge, done: seq<seq<octet>>, line: seq<octet>, rest: seq<octet>)
    requires Plain(line)
    ensures Parse(accept, done, line + [CR, LF] + rest) ==
            if accept(done, line) then Parse(accept, done + [line], rest) else Rejected(done + [line])
  {
    hide FirstEol;
    var s := line + [CR, LF] + rest;
    EolAfter(line, rest);
    assert s[..|line|] == line && s[|line| + 2..] == rest;
  }

  /** Acceptable lines, written out, read back as themselves, and what follows is left alone. */
  lemma {:induction false} WrittenReads(accept: Judge, lines: seq<seq<octet>>, n: nat, rest: seq<octet>)
    requires n <= |lines| && Acceptable(accept, lines, n)
    ensures Parse(accept, lines[..n], Written(lines[n..]) + rest) == Complete(lines, rest)
    decreases |lines| - n
  {
    hide Plain, Parse;
    if n == |lines| {
      assert lines[..n] == lines && lines[n..] == [];
      EndOfHeader(accept, lines, rest);
    } else {
      var line, more := lines[n], Written(lines[n + 1..]) + rest;
      assert lines[n..][0] == line && lines[n..][1..] == lines[n + 1..];
      assert Written(lines[n..]) + rest == line + [CR, LF] + more;
      assert lines[..n] + [line] == lines[..n + 1];
      ParseLine(accept, lines[..n], line, more);
      WrittenReads(accept, lines, n + 1, rest);
    }
  }

  lemma EndOfHeader(accept: Judge, done: seq<seq<octet>>, rest: seq<octet>)
    ensures Parse(accept, done, [CR, LF] + rest) == Complete(done, rest)
  {
    var s := [CR, LF] + rest;
    assert EolAt(s, 0) && s[2..] == rest;
    FirstEolIs(s, 0);
  }

  /** A complete header is the empty line, or a line that is taken and a complete header. */
  lemma CompleteCases(accept: Judge, done: seq<seq<octet>>, s: seq<octet>)
    requires Parse(accept, done, s).Complete?
    ensures
      var k := FirstEol(s);
      && k + 2 <= |s| && s == s[..k] + [CR, LF] + s[k + 2..]
      && if k == 0 then Parse(accept, done, s) == Complete(done, s[2..])
         else Plain(s[..k]) && accept(done, s[..k]) && Parse(accept, done, s) == Parse(accept, done + [s[..k]], s[k + 2..])
  {
    hide FirstEol;
    EolBefore(s);
  }

  lemma FirstOfRest(done: seq<seq<octet>>, line: seq<octet>, lines: seq<seq<octet>>)
    requires done + [line] <= lines
    ensures done <= lines && Written(lines[|done|..]) == line + [CR, LF] + Written(lines[|done| + 1..])
    ensures lines[..|done|] == done && lines[|done|] == line
  {
    var rest := lines[|done|..];
    assert rest[0] == line && rest[1..] == lines[|done| + 1..];
  }

  /** Nothing else is read as a complete header. */
  lemma {:induction false} ReadsOnlyWritten(accept: Judge, done: seq<seq<octet>>, s: seq<octet>)
    requires Parse(accept, done, s).Complete?
    ensures
      var o := Parse(accept, done, s);
      && done <= o.lines && s == Written(o.lines[|done|..]) + o.rest
      && Acceptable(accept, o.lines, |done|)
    decreases |s|
  {
    hide FirstEol, Parse, Plain, Written;
    var k, o := FirstEol(s), Parse(accept, done, s);
    CompleteCases(accept, done, s);
    if k == 0 {
      assert o.lines[|done|..] == [];
      assert s == Written([]) + s[2..] by { OnlyEmptyLine(); }
    } else {
      ReadsOnlyWritten(accept, done + [s[..k]], s[k + 2..]);
      FirstOfRest(done, s[..k], o.lines);
    }
  }

  lemma OnlyEmptyLine()
    ensures Written([]) == [CR, LF]
  {
  }

  /** A header is read as `lines` with `rest` left over if and only if it is those lines, each
      plain and accepted after the ones before it, written out and followed by `rest`. */
  lemma CompleteExactly(accept: Judge, s: seq<octet>, lines: seq<seq<octet>>, rest: seq<octet>)
    ensures Parse(accept, [], s) == Complete(lines, rest) <==>
            s == Written(lines) + rest && Acceptable(accept, lines, 0)
  {
    hide Parse;
    if Parse(accept, [], s) == Complete(lines, rest) {
      ReadsOnlyWritten(accept, [], s);
      assert lines[0..] == lines;
    }
    if s == Written(lines) + rest && Acceptable(accept, lines, 0) {
      assert lines[..0] == [] && lines[0..] == lines;
      WrittenReads(accept, lines, 0, rest);
    }
  }

  // ----- The buffer -----

  /** The meaning of a window that starts with a line and its end. */
  lemma WindowLine(accept: Judge, done: seq<seq<octet>>, line: seq<octet>, rest: seq<octet>, more: seq<octet>)
    requires FirstEol(line) == |line| <= BUFFER - 2
    ensures
      Parse(accept, done, line + [CR, LF] + rest + more) ==
        if line == [] then Complete(done, rest + more)
        else if !accept(done, line) then Rejected(done + [line])
        else Parse(accept, done + [line], rest + more)
  {
    hide FirstEol, Parse;
    assert line + [CR, LF] + rest + more == line + [CR, LF] + (rest + more);
    if line == [] {
      assert line + [CR, LF] + (rest + more) == [CR, LF] + (rest + more);
      EndOfHeader(accept, done, rest + more);
    } else {
      ParseLine(accept, done, line, rest + more);
    }
  }

  /** A full window without a line end is an overflow. */
  lemma WindowFull(accept: Judge, done: seq<seq<octet>>, w: seq<octet>, more: seq<octet>)
    requires FirstEol(w) == |w| == BUFFER
    ensures Parse(accept, done, w + more) == Overflow(done)
  {
    hide FirstEol;
    var s := w + more;
    assert forall k: nat :: k + 1 < BUFFER ==> (EolAt(s, k) <==> EolAt(w, k));
  }

  lemma StreamEnded(accept: Judge, done: seq<seq<octet>>, w: seq<octet>)
    requires FirstEol(w) == |w| < BUFFER
    ensures Parse(accept, done, w + []) == Ended(done)
  {
    assert w + [] == w;
  }

  class Reader {
    const src: Source
    const buf: array<octet>
    var head: nat
    var pos: nat
    var tail: nat
    /** Lines handed to the field parser. */
    var lines: seq<seq<octet>>

    constructor (src: Source)
      ensures this.src == src && fresh(buf) && lines == [] && head == 0 && Ready()
    {
      this.src := src;
      buf := new octet[BUFFER](_ => 0);
      head, pos, tail, lines := 0, 0, 0, [];
    }

    /** The queue as the request line leaves it: what precedes the next line ends in LF. */
    ghost predicate Ready()
      reads this, buf
    {
      buf.Length == BUFFER && tail == pos <= head <= BUFFER && (pos > 0 ==> buf[pos - 1] != CR)
    }

    /** The octets not yet read as header: queued, then still to come. */
    ghost function Pending(): seq<octet>
      requires tail <= head <= buf.Length
      reads this, buf, src
    {
      buf[tail..head] + src.stream
    }

    /** Looks for the end of the line that starts at `lin`, from `from` on. */
    method SeekEol(lin: nat, from: nat, cnt: nat, last: octet) returns (found: bool, p: nat, c1: octet)
      requires lin <= from <= cnt <= buf.Length && FirstEol(buf[lin..from]) == from - lin
      requires if from > lin then last == buf[from - 1] else last != CR
      ensures from <= p <= cnt
      ensures found ==> from < p && lin + 2 <= p && FirstEol(buf[lin..p - 2]) == p - 2 - lin
      ensures found ==> buf[lin..cnt] == buf[lin..p - 2] + [CR, LF] + buf[p..cnt]
      ensures !found ==> p == cnt && FirstEol(buf[lin..cnt]) == cnt - lin && (if p > lin then c1 == buf[p - 1] else c1 != CR)
    {
      hide FirstEol;
      ClearSlice(buf[..], lin, from);
      found, p, c1 := Scan(lin, from, cnt, last);
      if found {
        ClearSlice(buf[..], lin, p - 2);
        FoundSlice(buf[..], lin, p, cnt);
      } else {
        ClearSlice(buf[..], lin, cnt);
      }
    }

    /** The search itself, one octet at a time. */
    method Scan(lin: nat, from: nat, cnt: nat, last: octet) returns (found: bool, p: nat, c1: octet)
      requires lin <= from <= cnt <= buf.Length
      requires if from > lin then last == buf[from - 1] else last != CR
      requires forall j :: lin <= j < from - 1 ==> !(buf[j] == CR && buf[j + 1] == LF)
      ensures from <= p <= cnt && (!found ==> p == cnt)
      ensures if p > lin then c1 == buf[p - 1] else c1 != CR
      ensures found ==> from < p && lin + 2 <= p && buf[p - 2] == CR && buf[p - 1] == LF
      ensures forall j :: lin <= j < (if found then p - 2 else p - 1) ==> !(buf[j] == CR && buf[j + 1] == LF)
    {
      p, c1, found := from, last, false;
      while p < cnt && !found
        invariant from <= p <= cnt
        invariant if p > lin then c1 == buf[p - 1] else c1 != CR
        invariant found ==> from < p && lin + 2 <= p && buf[p - 2] == CR && buf[p - 1] == LF
        invariant forall j :: lin <= j < (if found then p - 2 else p - 1) ==> !(buf[j] == CR && buf[j + 1] == LF)
      {
        var c2 := buf[p];
        p := p + 1;
        if c1 == CR && c2 == LF {
          found := true;
        }
        c1 := c2;
      }
    }

    /** Keeps what was received after the header and forgets the rest. */
    method Leave(p: nat, cnt: nat)
      requires buf.Length == BUFFER && 2 <= p <= cnt <= BUFFER
      modifies this, buf
      ensures lines == old(lines) && tail == pos == 0 && head < BUFFER && Ready()
      ensures buf[tail..head] == old(buf[p..cnt]) && buf[head] == 0
    {
      var n := cnt - p;
      ShiftDown(buf, p, n);
      head, pos, tail := n, 0, 0;
      ghost var kept := buf[..n];
      buf[n] := 0;
      assert buf[..n] == kept;
    }

    /** What the caller sees when the header has been read with outcome `o`. */
    ghost predicate Reported(o: Outcome, code: int, closed: int)
      reads this, buf, src
    {
      && lines == o.lines
      && code == (match o case Complete(_, _) => 0 case Ended(_) => closed case _ => -1)
      && (o.Complete? ==> Ready() && tail == 0 && Pending() == o.rest && head < BUFFER && buf[head] == 0)
    }

    /** Hands over the line that ends before `p`, or stops at the empty line. */
    method HandLine(accept: Judge, lin: nat, p: nat, cnt: nat, ghost closed: int) returns (stop: bool, code: int)
      requires buf.Length == BUFFER && lin + 2 <= p <= cnt <= BUFFER && FirstEol(buf[lin..p - 2]) == p - 2 - lin
      requires buf[lin..cnt] == buf[lin..p - 2] + [CR, LF] + buf[p..cnt]
      modifies this, buf
      ensures
        var o := old(Parse(accept, lines, buf[lin..cnt] + src.stream));
        if stop then Reported(o, code, closed) else Parse(accept, lines, buf[p..cnt] + src.stream) == o
    {
      hide FirstEol, Parse;
      WindowLine(accept, lines, buf[lin..p - 2], buf[p..cnt], src.stream);
      stop, code := true, 0;
      if p == lin + 2 {
        Leave(p, cnt);
      } else {
        ghost var rest := buf[p..cnt];
        var line := buf[lin..p - 2];
        buf[p - 2] := 0;
        assert buf[p..cnt] == rest;
        var ok := accept(lines, line);
        lines := lines + [line];
        if ok {
          stop := false;
        } else {
          code := -1;
        }
      }
    }

    /** Makes room if the buffer is full and receives more; the window slides but keeps its
        octets. */
    method Refill(from: nat, upto: nat) returns (lin: nat, p: nat, cnt: nat)
      requires buf.Length == BUFFER && from <= upto <= BUFFER && !(from == 0 && upto == BUFFER)
      modifies buf, src
      ensures lin <= p <= cnt <= BUFFER && buf[lin..p] == old(buf[from..upto])
      ensures buf[lin..cnt] + src.stream == old(buf[from..upto] + src.stream)
      ensures if old(src.stream) == [] then cnt == p && src.stream == [] else |src.stream| < |old(src.stream)|
    {
      lin, p := Compact(from, upto);
      ghost var before, waiting := buf[..], src.stream;
      var n := src.Recv(buf, p, BUFFER - p);
      cnt := p + n;
      ReceivedAt(before, buf[..], lin, p, waiting[..n]);
      assert buf[lin..p] + waiting[..n] + waiting[n..] == buf[lin..p] + waiting;
    }

    /** Moves a partial line to the start of a full buffer. */
    method Compact(from: nat, upto: nat) returns (lin: nat, cnt: nat)
      requires buf.Length == BUFFER && from <= upto <= BUFFER && !(from == 0 && upto == BUFFER)
      modifies buf
      ensures lin <= cnt < BUFFER && buf[lin..cnt] == old(buf[from..upto])
    {
      lin, cnt := from, upto;
      if cnt == BUFFER {
        cnt := cnt - lin;
        ShiftDown(buf, lin, cnt);
        lin := 0;
      }
    }

    /** Receives more of an unfinished line, or reports why that is not possible. */
    method ReadMore(ghost accept: Judge, from: nat, upto: nat, ghost c1: octet, closed: int)
      returns (stop: bool, code: int, lin: nat, p: nat, cnt: nat)
      requires buf.Length == BUFFER && from <= upto <= BUFFER && FirstEol(buf[from..upto]) == upto - from
      requires if upto > from then c1 == buf[upto - 1] else c1 != CR
      modifies buf, src
      ensures
        var o := old(Parse(accept, lines, buf[from..upto] + src.stream));
        if stop then !o.Complete? && Reported(o, code, closed)
        else
          && lin <= p <= cnt <= BUFFER && FirstEol(buf[lin..p]) == p - lin
          && (if p > lin then c1 == buf[p - 1] else c1 != CR)
          && Parse(accept, lines, buf[lin..cnt] + src.stream) == o && |src.stream| < |old(src.stream)|
    {
      hide FirstEol, Parse;
      ghost var w := buf[from..upto];
      stop, code, lin, p, cnt := true, -1, from, upto, upto;
      if upto == BUFFER && from == 0 {
        WindowFull(accept, lines, w, src.stream);
      } else {
        lin, p, cnt := Refill(from, upto);
        LastOf(buf[..], lin, p);
        if cnt == p {
          StreamEnded(accept, lines, w);
          code := closed;
        } else {
          stop := false;
        }
      }
    }

    /** Reads the header: whatever the pieces, the lines handed over and the result are those
        the octets mean, and after a complete header the queue holds what followed it. */
    method ParseHeader(accept: Judge, closed: int) returns (code: int)
      requires Ready() && closed <= 0
      modifies this, buf, src
      ensures Reported(Parse(accept, old(lines), old(Pending())), code, closed)
    {
      hide FirstEol, Parse;
      ghost var o := Parse(accept, lines, Pending());
      var cnt: nat, p: nat, lin: nat := head, pos, tail;
      var c1 := if p > 0 then buf[p - 1] else 0;
      NoOctets(buf[lin..p]);
      while true
        invariant buf.Length == BUFFER && lin <= p <= cnt <= BUFFER
        invariant FirstEol(buf[lin..p]) == p - lin
        invariant if p > lin then c1 == buf[p - 1] else c1 != CR
        invariant Parse(accept, lines, buf[lin..cnt] + src.stream) == o
        decreases |src.stream|, cnt - p
      {
        var found;
        found, p, c1 := SeekEol(lin, p, cnt, c1);
        var stop;
        if found {
          stop, code := HandLine(accept, lin, p, cnt, closed);
          lin, c1 := p, LF;
          NoOctets(buf[lin..p]);
        } else {
          stop, code, lin, p, cnt := ReadMore(accept, lin, cnt, c1, closed);
        }
        if stop {
          return;
        }
      }
    }
  }

  lemma ReceivedAt(b: seq<octet>, b': seq<octet>, lin: nat, at: nat, got: seq<octet>)
    requires lin <= at && at + |got| <= |b| && b' == b[..at] + got + b[at + |got|..]
    ensures b'[lin..at] == b[lin..at] && b'[lin..at + |got|] == b[lin..at] + got
  {
  }

  lemma LastOf(s: seq<octet>, lin: nat, p: nat)
    requires lin <= p <= |s|
    ensures lin < p ==> s[p - 1] == s[lin..p][p - lin - 1]
  {
  }

  lemma NoOctets(s: seq<octet>)
    ensures s == [] ==> FirstEol(s) == 0
  {
  }

  /** A slice has no line end if and only if none lies between its ends in the whole. */
  lemma ClearSlice(s: seq<octet>, lin: nat, p: nat)
    requires lin <= p <= |s|
    ensures FirstEol(s[lin..p]) == p - lin <==> forall j :: lin <= j < p - 1 ==> !(s[j] == CR && s[j + 1] == LF)
  {
    var w := s[lin..p];
    if FirstEol(w) == p - lin {
      forall j | lin <= j < p - 1 ensures !(s[j] == CR && s[j + 1] == LF) {
        assert !EolAt(w, j - lin);
      }
    } else {
      assert EolAt(w, FirstEol(w));
    }
  }

  lemma FoundSlice(s: seq<octet>, lin: nat, p: nat, cnt: nat)
    requires lin + 2 <= p <= cnt <= |s| && s[p - 2] == CR && s[p - 1] == LF
    ensures s[lin..cnt] == s[lin..p - 2] + [CR, LF] + s[p..cnt]
  {
  }
}
