/**
  Where the capture driver cuts the line into packets, said in plain numbers: a packet begins at
  an octet exactly when the line was quiet before it for longer than the maximal gap or the packet
  before it is full. No other cut meets these words.
 */
module CaptureCut {
  import opened Octets
  import opened Capture

  /** Before octet `n` the line was quiet for longer than the maximal gap. */
  predicate Quiet(cfg: Config, start: nat, heard: seq<Action>, n: nat)
    requires AllOctets(heard)
  {
    n < |heard| && (heard[n].now - (if n == 0 then start else heard[n - 1].now)) % 0x1_0000_0000 > cfg.maxGap
  }

  // ----- Cuts -----

  /** A cut of `total` octets is given by the octets that begin packets, after packet 0. */
  ghost predicate Rising(begins: seq<nat>, total: nat)
  {
    && (forall k :: 0 <= k < |begins| ==> begins[k] < total)
    && (forall j, k :: 0 <= j < k < |begins| ==> begins[j] < begins[k])
  }

  /** First octet of packet `k`, and first octet after it. */
  function Begin(begins: seq<nat>, k: nat): nat
    requires k <= |begins|
  {
    if k == 0 then 0 else begins[k - 1]
  }

  function End(begins: seq<nat>, k: nat, total: nat): nat
    requires k <= |begins|
  {
    if k == |begins| then total else begins[k]
  }

  ghost predicate Narrow(begins: seq<nat>, total: nat)
  {
    forall k :: 0 <= k <= |begins| ==> End(begins, k, total) - Begin(begins, k) <= 256
  }

  /** No packet has more than 256 octets; one begins only after a long quiet or a full packet, and
      wherever there was a long quiet one begins. */
  ghost predicate IsCut(cfg: Config, start: nat, heard: seq<Action>, begins: seq<nat>)
    requires AllOctets(heard)
  {
    && Rising(begins, |heard|) && Narrow(begins, |heard|)
    && (forall k :: 0 <= k < |begins| ==>
                      Quiet(cfg, start, heard, begins[k]) || begins[k] - Begin(begins, k) == 256)
    && (forall n: nat :: Quiet(cfg, start, heard, n) ==> n in begins)
  }

  /** The packets of a cut: numbered in order, stamped with the time their first octet began on
      the line, each with its octets. */
  ghost function Packets(cfg: Config, start: nat, heard: seq<Action>, begins: seq<nat>): seq<Packet>
    requires AllOctets(heard) && Rising(begins, |heard|)
  {
    seq(|begins| + 1, k requires 0 <= k <= |begins| =>
      Packet(if k == 0 then start else (heard[begins[k - 1]].now - cfg.byteTime) % 0x1_0000_0000,
             k % 0x1_0000,
             Characters(heard)[Begin(begins, k)..End(begins, k, |heard|)]))
  }

  // ----- One octet more -----

  lemma QuietBefore(cfg: Config, start: nat, heard: seq<Action>)
    requires AllOctets(heard) && heard != []
    ensures
      var n := |heard| - 1;
      && (forall m: nat :: m < n ==> (Quiet(cfg, start, heard, m) <==> Quiet(cfg, start, heard[..n], m)))
      && (forall m: nat :: n <= m ==> !Quiet(cfg, start, heard[..n], m))
      && (forall m: nat :: n < m ==> !Quiet(cfg, start, heard, m))
  {
  }

  /** The last packet goes on, or the last octet begins one. */
  lemma ExtendCut(cfg: Config, start: nat, heard: seq<Action>, begins: seq<nat>)
    requires AllOctets(heard) && heard != []
    requires IsCut(cfg, start, heard[..|heard| - 1], begins) && !Quiet(cfg, start, heard, |heard| - 1)
    requires |heard| - 1 - Begin(begins, |begins|) < 256
    ensures IsCut(cfg, start, heard, begins)
  {
    hide Quiet;
    QuietBefore(cfg, start, heard);
    assert forall k :: 0 <= k < |begins| ==> End(begins, k, |heard| - 1) == End(begins, k, |heard|);
  }

  lemma NewCut(cfg: Config, start: nat, heard: seq<Action>, begins: seq<nat>)
    requires AllOctets(heard) && heard != [] && IsCut(cfg, start, heard[..|heard| - 1], begins)
    requires Quiet(cfg, start, heard, |heard| - 1) || |heard| - 1 - Begin(begins, |begins|) == 256
    ensures IsCut(cfg, start, heard, begins + [|heard| - 1])
  {
    hide Quiet;
    var n := |heard| - 1;
    var more := begins + [n];
    QuietBefore(cfg, start, heard);
    assert more[|begins|] == n;
    forall m: nat | Quiet(cfg, start, heard, m) ensures m in more {
      assert m == n || Quiet(cfg, start, heard[..n], m);
    }
    assert forall k :: 0 <= k <= |begins| ==> Begin(more, k) == Begin(begins, k) && End(more, k, n + 1) == End(begins, k, n);
  }

  /** And the other way. */
  lemma LastDropped(less: seq<nat>, n: nat)
    requires Rising(less + [n], n + 1) && Narrow(less + [n], n + 1)
    ensures Rising(less, n) && Narrow(less, n)
  {
    var begins := less + [n];
    assert begins[|less|] == n;
    forall k | 0 <= k <= |less| ensures End(less, k, n) - Begin(less, k) <= 256 {
      assert Begin(less, k) == Begin(begins, k) && End(less, k, n) == End(begins, k, n + 1);
    }
    assert forall k :: 0 <= k < |less| ==> less[k] == begins[k] < begins[|less|];
    assert forall j, k :: 0 <= j < k < |less| ==> less[j] == begins[j] < begins[k] == less[k];
  }

  lemma TrimmedBegun(cfg: Config, start: nat, heard: seq<Action>, less: seq<nat>)
    requires AllOctets(heard) && heard != [] && IsCut(cfg, start, heard, less + [|heard| - 1])
    ensures IsCut(cfg, start, heard[..|heard| - 1], less)
    ensures Quiet(cfg, start, heard, |heard| - 1) || |heard| - 1 - Begin(less, |less|) == 256
  {
    hide Quiet, Narrow;
    var n, m, begins := |heard| - 1, |less|, less + [|heard| - 1];
    QuietBefore(cfg, start, heard);
    assert begins[m] == n && Begin(begins, m) == Begin(less, m);
    LastDropped(less, n);
    forall k | 0 <= k < m ensures less[k] < n && (Quiet(cfg, start, heard[..n], less[k]) || less[k] - Begin(less, k) == 256) {
      assert begins[k] == less[k] < begins[m] && Begin(begins, k) == Begin(less, k);
    }
    forall q: nat | Quiet(cfg, start, heard[..n], q) ensures q in less {
      assert Quiet(cfg, start, heard, q) && q in begins;
    }
  }

  lemma OneLess(begins: seq<nat>, n: nat)
    requires Rising(begins, n + 1) && Narrow(begins, n + 1) && (begins == [] || begins[|begins| - 1] != n)
    ensures Rising(begins, n) && Narrow(begins, n) && n !in begins && n - Begin(begins, |begins|) < 256
  {
    var m := |begins|;
    assert forall k :: 0 <= k < m ==> begins[k] <= begins[m - 1] < n;
    assert End(begins, m, n + 1) == n + 1 && End(begins, m, n) == n;
    assert forall k :: 0 <= k < m ==> End(begins, k, n) == End(begins, k, n + 1);
  }

  lemma TrimmedExtended(cfg: Config, start: nat, heard: seq<Action>, begins: seq<nat>)
    requires AllOctets(heard) && heard != [] && IsCut(cfg, start, heard, begins)
    requires begins == [] || begins[|begins| - 1] != |heard| - 1
    ensures IsCut(cfg, start, heard[..|heard| - 1], begins)
    ensures !Quiet(cfg, start, heard, |heard| - 1) && |heard| - 1 - Begin(begins, |begins|) < 256
  {
    hide Quiet, Narrow, Begin;
    QuietBefore(cfg, start, heard);
    OneLess(begins, |heard| - 1);
  }

  // ----- The driver's cut -----

  /** The octets at which the driver begins a packet. */
  ghost function Begins(cfg: Config, start: nat, heard: seq<Action>): seq<nat>
    requires AllOctets(heard)
  {
    if heard == [] then []
    else
      var n := |heard| - 1;
      Begins(cfg, start, heard[..n]) +
      if |CutOf(cfg, start, heard).finished| > |CutOf(cfg, start, heard[..n]).finished| then [n] else []
  }

  lemma LastOctet(heard: seq<Action>)
    requires AllOctets(heard) && heard != []
    ensures
      var n := |heard| - 1;
      Characters(heard) == Characters(heard[..n]) + [heard[n].c] && |Characters(heard[..n])| == n
  {
  }

  /** The packets once the last octet is added to the last packet. */
  lemma PacketsExtended(cfg: Config, start: nat, heard: seq<Action>, begins: seq<nat>)
    requires AllOctets(heard) && heard != [] && Rising(begins, |heard| - 1)
    ensures
      var n, m := |heard| - 1, |begins|;
      var before := Packets(cfg, start, heard[..n], begins);
      Packets(cfg, start, heard, begins) == before[..m] + [before[m].(data := before[m].data + [heard[n].c])]
  {
    hide Characters;
    var n, m := |heard| - 1, |begins|;
    var before, after := Packets(cfg, start, heard[..n], begins), Packets(cfg, start, heard, begins);
    LastOctet(heard);
    forall k | 0 <= k < m ensures after[k] == before[k] {
      assert Characters(heard)[Begin(begins, k)..begins[k]] == Characters(heard[..n])[Begin(begins, k)..begins[k]];
    }
    assert Characters(heard)[Begin(begins, m)..n + 1] == Characters(heard[..n])[Begin(begins, m)..n] + [heard[n].c];
  }

  lemma PacketsBegun(cfg: Config, start: nat, heard: seq<Action>, begins: seq<nat>)
    requires AllOctets(heard) && heard != [] && Rising(begins, |heard| - 1)
    ensures
      var n, m := |heard| - 1, |begins|;
      Rising(begins + [n], |heard|) &&
      Packets(cfg, start, heard, begins + [n]) ==
        Packets(cfg, start, heard[..n], begins) +
        [Packet((heard[n].now - cfg.byteTime) % 0x1_0000_0000, (m + 1) % 0x1_0000, [heard[n].c])]
  {
    hide Characters;
    var n, m := |heard| - 1, |begins|;
    var more := begins + [n];
    var before, after := Packets(cfg, start, heard[..n], begins), Packets(cfg, start, heard, more);
    LastOctet(heard);
    forall k | 0 <= k <= m ensures after[k] == before[k] {
      assert Begin(more, k) == Begin(begins, k) && End(more, k, n + 1) == End(begins, k, n) <= n;
      assert Characters(heard)[Begin(begins, k)..End(begins, k, n)] == Characters(heard[..n])[Begin(begins, k)..End(begins, k, n)];
    }
    assert Characters(heard)[n..n + 1] == [heard[n].c];
  }

  /** What one more octet does to the driver's packets. */
  lemma NextOctet(cfg: Config, start: nat, heard: seq<Action>)
    requires AllOctets(heard) && heard != []
    ensures
      var n := |heard| - 1;
      var b, a := CutOf(cfg, start, heard[..n]), CutOf(cfg, start, heard);
      if Quiet(cfg, start, heard, n) || |b.open.data| == 256 then
        a == Cut(b.finished + [b.open], Opened(cfg, heard[n].now, |b.finished| + 1, heard[n].c))
      else a == Cut(b.finished, b.open.(data := b.open.data + [heard[n].c]))
  {
    hide Ends, Opened, Quiet, LastClock;
    QuietIs(cfg, start, heard, CutOf(cfg, start, heard[..|heard| - 1]).open);
  }

  lemma QuietIs(cfg: Config, start: nat, heard: seq<Action>, open: Packet)
    requires AllOctets(heard) && heard != []
    ensures
      var n := |heard| - 1;
      Ends(cfg, LastClock(start, heard[..n]), heard[n].now, open) <==> Quiet(cfg, start, heard, n) || |open.data| == 256
  {
  }

  lemma OpenedIs(cfg: Config, now: nat, k: nat, c: octet)
    ensures Opened(cfg, now, k, c) == Packet((now - cfg.byteTime) % 0x1_0000_0000, k % 0x1_0000, [c])
  {
  }

  lemma OpenLength(cfg: Config, start: nat, heard: seq<Action>, begins: seq<nat>, all: seq<Packet>)
    requires AllOctets(heard) && Rising(begins, |heard|) && all == Packets(cfg, start, heard, begins)
    ensures |all| == |begins| + 1 && |all[|begins|].data| == |heard| - Begin(begins, |begins|)
  {
  }

  /** The driver's packets are those of a cut that meets the description. */
  lemma {:induction false} CutMeets(cfg: Config, start: nat, heard: seq<Action>)
    requires AllOctets(heard)
    ensures
      var cut, begins := CutOf(cfg, start, heard), Begins(cfg, start, heard);
      IsCut(cfg, start, heard, begins) && cut.finished + [cut.open] == Packets(cfg, start, heard, begins)
  {
    hide CutOf, Packets, Quiet, IsCut, Characters, Opened;
    if heard == [] {
      FirstCut(cfg, start);
    } else {
      var n := |heard| - 1;
      var b, begins := CutOf(cfg, start, heard[..n]), Begins(cfg, start, heard[..n]);
      CutMeets(cfg, start, heard[..n]);
      CutRises(cfg, start, heard[..n], begins);
      NextOctet(cfg, start, heard);
      var all := b.finished + [b.open];
      OpenLength(cfg, start, heard[..n], begins, all);
      assert all[|begins|] == b.open && all[..|begins|] == b.finished;
      if Quiet(cfg, start, heard, n) || |b.open.data| == 256 {
        NewCut(cfg, start, heard, begins);
        PacketsBegun(cfg, start, heard, begins);
        OpenedIs(cfg, heard[n].now, |begins| + 1, heard[n].c);
      } else {
        CutWidth(cfg, start, heard[..n], begins);
        ExtendCut(cfg, start, heard, begins);
        PacketsExtended(cfg, start, heard, begins);
        assert Begins(cfg, start, heard) == begins;
      }
    }
  }

  lemma CutRises(cfg: Config, start: nat, heard: seq<Action>, begins: seq<nat>)
    requires AllOctets(heard) && IsCut(cfg, start, heard, begins)
    ensures Rising(begins, |heard|)
  {
  }

  lemma CutWidth(cfg: Config, start: nat, heard: seq<Action>, begins: seq<nat>)
    requires AllOctets(heard) && IsCut(cfg, start, heard, begins)
    ensures |heard| - Begin(begins, |begins|) <= 256
  {
    assert End(begins, |begins|, |heard|) == |heard|;
  }

  lemma FirstCut(cfg: Config, start: nat)
    ensures IsCut(cfg, start, [], []) && CutOf(cfg, start, []) == Cut([], Packet(start, 0, []))
    ensures Packets(cfg, start, [], []) == [Packet(start, 0, [])]
  {
  }

  /** No other cut meets it. */
  lemma {:induction false} CutUnique(cfg: Config, start: nat, heard: seq<Action>, begins: seq<nat>)
    requires AllOctets(heard) && IsCut(cfg, start, heard, begins)
    ensures begins == Begins(cfg, start, heard)
    decreases |heard|
  {
    hide CutOf, Quiet, Packets, IsCut;
    if heard == [] {
      CutRises(cfg, start, heard, begins);
      assert begins == [];
    } else {
      var n, m := |heard| - 1, |begins| - 1;
      var last := begins != [] && begins[m] == n;
      var less := if last then begins[..m] else begins;
      if last {
        assert begins == less + [n];
        TrimmedBegun(cfg, start, heard, less);
      } else {
        TrimmedExtended(cfg, start, heard, begins);
      }
      CutUnique(cfg, start, heard[..n], less);
      CutMeets(cfg, start, heard[..n]);
      CutRises(cfg, start, heard[..n], less);
      NextOctet(cfg, start, heard);
      var b := CutOf(cfg, start, heard[..n]);
      OpenLength(cfg, start, heard[..n], less, b.finished + [b.open]);
      assert (b.finished + [b.open])[|less|] == b.open;
    }
  }

  /** The cut in one line: octets begin packets in the driver if and only if they meet the
      description, and the driver's packets are those of this cut. */
  lemma CutExactly(cfg: Config, start: nat, heard: seq<Action>, begins: seq<nat>)
    requires AllOctets(heard)
    ensures begins == Begins(cfg, start, heard) <==> IsCut(cfg, start, heard, begins)
    ensures
      var cut := CutOf(cfg, start, heard);
      IsCut(cfg, start, heard, begins) ==> cut.finished + [cut.open] == Packets(cfg, start, heard, begins)
  {
    hide IsCut, CutOf, Begins;
    CutMeets(cfg, start, heard);
    if IsCut(cfg, start, heard, begins) {
      CutUnique(cfg, start, heard, begins);
    }
  }

  /** Inside a packet neighbouring octets are at most the maximal gap apart. */
  lemma WithinPacket(cfg: Config, start: nat, heard: seq<Action>, begins: seq<nat>, k: nat, n: nat)
    requires AllOctets(heard) && IsCut(cfg, start, heard, begins) && k <= |begins|
    requires Begin(begins, k) < n < End(begins, k, |heard|)
    ensures (heard[n].now - heard[n - 1].now) % 0x1_0000_0000 <= cfg.maxGap
  {
    assert !Quiet(cfg, start, heard, n) by {
      hide Quiet;
      NotBegun(begins, |heard|, k, n);
    }
  }

  lemma NotBegun(begins: seq<nat>, total: nat, k: nat, n: nat)
    requires Rising(begins, total) && k <= |begins| && Begin(begins, k) < n < End(begins, k, total)
    ensures n !in begins
  {
    forall j | 0 <= j < |begins| ensures begins[j] != n {
      assert j + 1 < k ==> begins[j] < begins[k - 1];
      assert k < j ==> begins[k] < begins[j];
    }
  }

  /** In every interleaving: the packets handed out are, in order, packets of the one cut of the
      octets heard that meets the description. */
  lemma CapturedPackets(now: nat, buf: seq<Packet>, cfg: Config, acts: seq<Action>) returns (begins: seq<nat>)
    requires |buf| == SLOTS
    ensures
      var w := Run(Initial(now, buf), cfg, acts);
      && AllOctets(w.heard) && IsCut(cfg, now, w.heard, begins)
      && w.finished + [w.open] == Packets(cfg, now, w.heard, begins)
      && |w.out| <= |w.kept| && (forall i :: 0 <= i < |w.out| ==> w.kept[i] < |begins|)
      && (forall i :: 0 <= i < |w.out| ==> w.out[i] == Packets(cfg, now, w.heard, begins)[w.kept[i]])
      && (forall i, j :: 0 <= i < j < |w.out| ==> w.kept[i] < w.kept[j])
  {
    hide IsCut, Initial, Step, CutOf, Packets;
    var w := Run(Initial(now, buf), cfg, acts);
    CutIndependent(now, buf, cfg, acts);
    CaptureSafe(now, buf, cfg, acts);
    begins := Begins(cfg, now, w.heard);
    CutMeets(cfg, now, w.heard);
    CutRises(cfg, now, w.heard, begins);
    OpenLength(cfg, now, w.heard, begins, w.finished + [w.open]);
  }
}
