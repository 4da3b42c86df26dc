/**
  Query strings (application/x-www-form-urlencoded, section 17.13.4.1 of HTML 4.01): decoded in
  place into NUL-terminated keys and values, indexed by lengths packed into 5 and 11 bits, and
  looked up by walking the lengths.
 */
module Query {
  import opened Octets
  import opened Options

  const PLUS: octet := 43
  const PERCENT: octet := 37
  const AMPERSAND: octet := 38
  const SEMICOLON: octet := 59
  const EQUALS: octet := 61
  const HASH: octet := 35
  const SPACE: octet := 32
  const NUL: octet := 0

  const KEY_RANGE: nat := 32
  const VALUE_RANGE: nat := 2048

  /** The lengths stored for one pair, each with its terminating NUL. */
  datatype Item = Item(keyLen: nat, valLen: nat)

  /** What has been decoded so far: where the current key starts, and its value (0 if the
      equals sign has not come). */
  datatype Decoded = Decoded(out: seq<octet>, items: seq<Item>, k: nat, v: nat)

  function Digit(c: octet): int
  {
    if c <= 57 then c as int - 48 else c as int - 55
  }

  function Escaped(hi: octet, lo: octet): octet
  {
    ((Digit(hi) * 16 + Digit(lo)) % 256) as octet
  }

  /** Lengths as the bit fields keep them: of the key from `k` to `v`, and of the value up to `j`. */
  function Packed(k: nat, v: nat, j: nat): Item
  {
    Item((v - k) % KEY_RANGE, (j - v) % VALUE_RANGE)
  }

  function Entry(d: Decoded): Item
  {
    Packed(d.k, d.v, |d.out|)
  }

  function Put(d: Decoded, c: octet): Decoded
  {
    d.(out := d.out + [c])
  }

  /** The end of a pair; once the index is full the lengths are no longer recorded. */
  function Separate(d: Decoded, max: nat): Decoded
  {
    var d := Put(d, NUL);
    if |d.items| < max then d.(items := d.items + [Entry(d)], k := |d.out|, v := 0) else d
  }

  function Equals(d: Decoded): Decoded
  {
    var d := Put(d, NUL);
    d.(v := |d.out|)
  }

  /** How many octets of input a character takes. */
  function Width(c: octet): nat
  {
    if c == PERCENT then 3 else 1
  }

  /** What one character of input does; `hi` and `lo` are the two octets after it. */
  function Act(d: Decoded, c: octet, hi: octet, lo: octet, max: nat): (r: Decoded)
    ensures |r.out| <= |d.out| + 1
  {
    if c == PLUS then Put(d, SPACE)
    else if c == PERCENT then Put(d, Escaped(hi, lo))
    else if c == AMPERSAND || c == SEMICOLON then Separate(d, max)
    else if c == EQUALS then Equals(d)
    else if c == HASH then d
    else Put(d, c)
  }

  /** Decodes the first `n` octets of `s`; an escape may look past them. */
  function Decode(s: seq<octet>, n: int, d: Decoded, max: nat): (r: Decoded)
    requires n + 2 <= |s|
    ensures |r.out| <= |d.out| + (if n < 0 then 0 else n)
    decreases |s|
  {
    if n <= 0 || s[0] == NUL then d
    else Decode(s[Width(s[0])..], n - Width(s[0]), Act(d, s[0], s[1], s[2], max), max)
  }

  /** The index, with the last pair added. */
  function Index(d: Decoded, max: nat): seq<Item>
  {
    if |d.items| < max then d.items + [Entry(d)] else d.items
  }

  const START := Decoded([], [], 0, 0)

  lemma NextOctet(mem: seq<octet>, len: nat, i: nat, d: Decoded, max: nat)
    requires i < len && len + 2 <= |mem|
    ensures Decode(mem[i..], len - i, d, max) ==
            if mem[i] == NUL then d
            else Decode(mem[i + Width(mem[i])..], len - i - Width(mem[i]), Act(d, mem[i], mem[i + 1], mem[i + 2], max), max)
  {
    var s := mem[i..];
    assert s[0] == mem[i] && s[1] == mem[i + 1] && s[2] == mem[i + 2];
    assert s[Width(s[0])..] == mem[i + Width(mem[i])..];
  }

  method Emit(buf: array<octet>, j: nat, c: octet)
    requires j < buf.Length
    modifies buf
    ensures buf[..j + 1] == old(buf[..j]) + [c] && buf[j + 1..] == old(buf[j + 1..])
  {
    buf[j] := c;
  }

  /** One turn of the loop at octet `i`, with `j` octets written. */
  method Translate(buf: array<octet>, i: nat, j: nat, items: seq<Item>, k: nat, v: nat, max: nat)
    returns (j': nat, items': seq<Item>, k': nat, v': nat)
    requires j <= i && i + 2 < buf.Length
    modifies buf
    ensures j <= j' <= j + 1 && buf[i + 1..] == old(buf[i + 1..])
    ensures buf[j'..] == old(buf[j'..])
    ensures Decoded(buf[..j'], items', k', v') ==
            Act(Decoded(old(buf[..j]), items, k, v), old(buf[i]), old(buf[i + 1]), old(buf[i + 2]), max)
  {
    hide Escaped, Packed;
    ghost var mem := buf[..];
    var c := buf[i];
    j', items', k', v' := j, items, k, v;
    if c == PLUS {
      Emit(buf, j, SPACE);
      j' := j + 1;
    } else if c == PERCENT {
      Emit(buf, j, Escaped(buf[i + 1], buf[i + 2]));
      j' := j + 1;
    } else if c == AMPERSAND || c == SEMICOLON {
      Emit(buf, j, NUL);
      j' := j + 1;
      if |items| < max {
        items' := items + [Packed(k, v, j')];
        k', v' := j', 0;
      }
    } else if c == EQUALS {
      Emit(buf, j, NUL);
      j' := j + 1;
      v' := j';
    } else if c != HASH {
      Emit(buf, j, c);
      j' := j + 1;
    }
    SameTail(buf[..], mem, j', i + 1);
  }

  /** One turn with the step it takes: what is left to decode then gives the same result. */
  method Advance(buf: array<octet>, ghost mem: seq<octet>, ghost len: nat, i: nat, j: nat,
                 items: seq<Item>, k: nat, v: nat, max: nat)
    returns (i': nat, j': nat, items': seq<Item>, k': nat, v': nat)
    requires j <= i < len && len + 2 <= buf.Length == |mem| && buf[j..] == mem[j..] && buf[i] != NUL
    modifies buf
    ensures j' <= i' && i < i' <= len + 2 && buf[j'..] == mem[j'..]
    ensures Decode(mem[i..], len - i, Decoded(old(buf[..j]), items, k, v), max) ==
            Decode(mem[i'..], len - i', Decoded(buf[..j'], items', k', v'), max)
  {
    hide Decode, Act;
    SameFrom(buf[..], mem, j, i);
    NextOctet(mem, len, i, Decoded(buf[..j], items, k, v), max);
    var c := buf[i];
    ghost var before := buf[..];
    j', items', k', v' := Translate(buf, i, j, items, k, v, max);
    SameTail(before, mem, j, j');
    i' := i + 1;
    if c == PERCENT {
      i' := i' + 2;
    }
  }

  /** Decodes `buf[..len]` in place: the writing never overtakes the reading. */
  method DecodeQuery(buf: array<octet>, len: nat, max: nat) returns (items: seq<Item>, ghost end: nat)
    requires len + 2 <= buf.Length
    modifies buf
    ensures
      var d := Decode(old(buf[..]), len, START, max);
      && items == Index(d, max) && end == |d.out| <= len
      && buf[..] == d.out + [NUL] + old(buf[..])[end + 1..]
  {
    hide Decode, Index;
    ghost var mem: seq<octet> := buf[..];
    items := [];
    var k: nat, v: nat, i: nat, j: nat := 0, 0, 0, 0;
    assert mem[0..] == mem && buf[..0] == [];
    while i < len && buf[i] != NUL
      invariant j <= i <= len + 2 && i <= buf.Length
      invariant buf[j..] == mem[j..]
      invariant Decode(mem, len, START, max) == Decode(mem[i..], len - i, Decoded(buf[..j], items, k, v), max)
      decreases len - i
    {
      i, j, items, k, v := Advance(buf, mem, len, i, j, items, k, v, max);
    }
    if i < len {
      SameFrom(buf[..], mem, j, i);
    }
    Stopped(mem, len, i, Decoded(buf[..j], items, k, v), max);
    end := j;
    items := Finish(buf, mem, j, items, k, v, max);
  }

  lemma Stopped(mem: seq<octet>, len: nat, i: nat, d: Decoded, max: nat)
    requires i <= |mem| && len + 2 <= |mem| && i <= len + 2 && (i < len ==> mem[i] == NUL)
    ensures Decode(mem[i..], len - i, d, max) == d
  {
  }

  method Finish(buf: array<octet>, ghost mem: seq<octet>, j: nat, items: seq<Item>, k: nat, v: nat, max: nat)
    returns (items': seq<Item>)
    requires j < buf.Length == |mem| && buf[j..] == mem[j..]
    modifies buf
    ensures items' == Index(Decoded(old(buf[..j]), items, k, v), max)
    ensures buf[..] == old(buf[..j]) + [NUL] + mem[j + 1..]
  {
    hide Packed;
    items' := items;
    assert buf[j + 1..] == buf[j..][1..] && mem[j + 1..] == mem[j..][1..];
    Emit(buf, j, NUL);
    if |items| < max {
      items' := items + [Packed(k, v, j)];
    }
    assert buf[..] == buf[..j + 1] + buf[j + 1..];
  }

  lemma SameTail(a: seq<octet>, b: seq<octet>, j: nat, i: nat)
    requires j <= i <= |a| == |b| && a[j..] == b[j..]
    ensures a[i..] == b[i..]
  {
    assert a[i..] == a[j..][i - j..] && b[i..] == b[j..][i - j..];
  }

  lemma SameFrom(a: seq<octet>, b: seq<octet>, j: nat, i: nat)
    requires j <= i < |a| == |b| && a[j..] == b[j..]
    ensures a[i] == b[i] && (i + 2 < |a| ==> a[i + 1] == b[i + 1] && a[i + 2] == b[i + 2])
  {
    assert forall m :: j <= m < |a| ==> a[m] == a[j..][m - j];
    assert forall m :: j <= m < |a| ==> b[m] == b[j..][m - j];
  }

  lemma NothingLeft(s: seq<octet>, n: int, d: Decoded, max: nat)
    requires n + 2 <= |s| && n <= 0
    ensures Decode(s, n, d, max) == d
  {
  }

  // ----- Encoding -----

  predicate Special(c: octet)
  {
    c == PLUS || c == PERCENT || c == AMPERSAND || c == SEMICOLON || c == EQUALS || c == HASH || c == NUL
  }

  /** The upper-case hexadecimal digit. */
  function Hex(n: octet): octet
    requires n < 16
  {
    if n < 10 then n + 48 else n + 55
  }

  /** One way to send octet `c`: as it is, as a plus sign, or escaped. */
  predicate Code(e: seq<octet>, c: octet)
  {
    (e == [c] && !Special(c)) || (e == [PLUS] && c == SPACE) || e == [PERCENT, Hex(c / 16), Hex(c % 16)]
  }

  /** An encoder picks a code for every octet. */
  type Encoder = octet -> seq<octet>

  ghost predicate Encodes(enc: Encoder)
  {
    forall c :: Code(enc(c), c)
  }

  function Encoded(enc: Encoder, w: seq<octet>): seq<octet>
  {
    if w == [] then [] else enc(w[0]) + Encoded(enc, w[1..])
  }

  datatype Pair = Pair(key: seq<octet>, value: seq<octet>)

  function EncodedPair(enc: Encoder, p: Pair): seq<octet>
  {
    Encoded(enc, p.key) + [EQUALS] + Encoded(enc, p.value)
  }

  /** The pairs joined by separators. */
  function Form(enc: Encoder, sep: octet, pairs: seq<Pair>): seq<octet>
    requires pairs != []
  {
    EncodedPair(enc, pairs[0]) + if |pairs| == 1 then [] else [sep] + Form(enc, sep, pairs[1..])
  }

  lemma EscapeUndone(c: octet)
    ensures Escaped(Hex(c / 16), Hex(c % 16)) == c
  {
  }

  lemma OneCode(e: seq<octet>, c: octet, s: seq<octet>, n: nat, d: Decoded, max: nat)
    requires Code(e, c) && n + 2 <= |s|
    ensures Decode(e + s, |e| + n, d, max) == Decode(s, n, Put(d, c), max)
  {
    hide Escaped, Hex;
    EscapeUndone(c);
    var t := e + s;
    assert t[Width(e[0])..] == s;
  }

  lemma {:induction false} DecodesEncoded(enc: Encoder, w: seq<octet>, s: seq<octet>, n: nat, d: Decoded, max: nat)
    requires Encodes(enc) && n + 2 <= |s|
    ensures Decode(Encoded(enc, w) + s, |Encoded(enc, w)| + n, d, max) == Decode(s, n, d.(out := d.out + w), max)
    decreases |w|
  {
    hide Decode, Code;
    if w == [] {
      assert Encoded(enc, w) + s == s && d.out + w == d.out;
    } else {
      var rest := Encoded(enc, w[1..]);
      assert Encoded(enc, w) + s == enc(w[0]) + (rest + s);
      OneCode(enc(w[0]), w[0], rest + s, |rest| + n, d, max);
      DecodesEncoded(enc, w[1..], s, n, Put(d, w[0]), max);
      assert d.out + [w[0]] + w[1..] == d.out + w;
    }
  }

  lemma OneSign(c: octet, s: seq<octet>, n: nat, d: Decoded, max: nat)
    requires n + 2 <= |s| && (c == EQUALS || c == AMPERSAND || c == SEMICOLON)
    ensures Decode([c] + s, 1 + n, d, max) == Decode(s, n, if c == EQUALS then Equals(d) else Separate(d, max), max)
  {
    hide Separate, Equals;
    var t := [c] + s;
    assert t[1..] == s;
  }

  /** A pair taken in, up to the end of its value. */
  function WithPair(d: Decoded, p: Pair): Decoded
  {
    d.(out := d.out + p.key + [NUL] + p.value, v := |d.out| + |p.key| + 1)
  }

  /** A pair decodes to its key, a NUL and its value. */
  lemma DecodesPair(enc: Encoder, p: Pair, s: seq<octet>, n: nat, d: Decoded, max: nat)
    requires Encodes(enc) && n + 2 <= |s|
    ensures
      var e := EncodedPair(enc, p);
      Decode(e + s, |e| + n, d, max) == Decode(s, n, WithPair(d, p), max)
  {
    hide Decode, Encoded;
    var a, b := Encoded(enc, p.key), Encoded(enc, p.value);
    var d1 := d.(out := d.out + p.key);
    assert EncodedPair(enc, p) + s == a + ([EQUALS] + (b + s));
    DecodesEncoded(enc, p.key, [EQUALS] + (b + s), 1 + (|b| + n), d, max);
    OneSign(EQUALS, b + s, |b| + n, d1, max);
    DecodesEncoded(enc, p.value, s, n, Equals(d1), max);
  }

  // ----- The decoded form -----

  /** A key and its value, each with its NUL. */
  function Chunk(p: Pair): seq<octet>
  {
    p.key + [NUL] + p.value + [NUL]
  }

  function Flat(pairs: seq<Pair>): seq<octet>
  {
    if pairs == [] then [] else Chunk(pairs[0]) + Flat(pairs[1..])
  }

  /** The lengths recorded for a pair; the last value's NUL is not counted. */
  function Recorded(p: Pair, last: bool): Item
  {
    Item((|p.key| + 1) % KEY_RANGE, (|p.value| + if last then 0 else 1) % VALUE_RANGE)
  }

  /** The lengths of the first `n` pairs, as the index keeps them. */
  function Lengths(pairs: seq<Pair>, n: nat): seq<Item>
  {
    if pairs == [] || n == 0 then [] else [Recorded(pairs[0], |pairs| == 1)] + Lengths(pairs[1..], n - 1)
  }

  /** The index has room only if the current key starts where the output ends. */
  predicate AtKey(d: Decoded, max: nat)
  {
    |d.items| <= max && (|d.items| < max ==> d.k == |d.out|)
  }

  lemma SeparatedPair(d: Decoded, p: Pair, max: nat)
    requires AtKey(d, max)
    ensures
      var d' := Separate(WithPair(d, p), max);
      && |d.items| <= max && AtKey(d', max) && d'.out == d.out + Chunk(p)
      && d'.items == if |d.items| < max then d.items + [Recorded(p, false)] else d.items
  {
    assert d.out + p.key + [NUL] + p.value + [NUL] == d.out + Chunk(p);
  }

  lemma LastPair(d: Decoded, p: Pair, max: nat)
    requires AtKey(d, max)
    ensures WithPair(d, p).out + [NUL] == d.out + Flat([p])
    ensures Index(WithPair(d, p), max) == d.items + Lengths([p], max - |d.items|)
  {
    assert [p][1..] == [] && Flat([p]) == Chunk(p) + [];
    assert d.out + p.key + [NUL] + p.value + [NUL] == d.out + (Chunk(p) + []);
    if |d.items| < max {
      assert Lengths([p], max - |d.items|) == [Recorded(p, true)] + [];
    }
  }

  lemma DecodesLast(enc: Encoder, sep: octet, p: Pair, s: seq<octet>, d: Decoded, max: nat)
    requires Encodes(enc) && |s| >= 2 && AtKey(d, max)
    ensures
      var e := Form(enc, sep, [p]);
      var r := Decode(e + s, |e|, d, max);
      r.out + [NUL] == d.out + Flat([p]) && Index(r, max) == d.items + Lengths([p], max - |d.items|)
  {
    hide Decode, EncodedPair, Flat, Lengths, Index, WithPair, Encodes;
    assert Form(enc, sep, [p]) == EncodedPair(enc, p) + [] == EncodedPair(enc, p);
    DecodesPair(enc, p, s, 0, d, max);
    NothingLeft(s, 0, WithPair(d, p), max);
    LastPair(d, p, max);
  }

  /** A pair with more to come. */
  lemma DecodesFirst(enc: Encoder, sep: octet, p: Pair, rest: seq<octet>, s: seq<octet>, d: Decoded, max: nat)
    requires Encodes(enc) && (sep == AMPERSAND || sep == SEMICOLON) && |s| >= 2
    ensures
      var e := EncodedPair(enc, p) + ([sep] + rest);
      Decode(e + s, |e|, d, max) == Decode(rest + s, |rest|, Separate(WithPair(d, p), max), max)
  {
    hide Decode, EncodedPair, Separate, WithPair, Encodes;
    var e, t := EncodedPair(enc, p), [sep] + (rest + s);
    assert e + ([sep] + rest) + s == e + t;
    DecodesPair(enc, p, t, 1 + |rest|, d, max);
    OneSign(sep, rest + s, |rest|, WithPair(d, p), max);
  }

  /** Decoding a form gives its keys and values back, with an index of the lengths of as many
      pairs as it has room for. */
  lemma {:induction false} DecodesForm(enc: Encoder, sep: octet, pairs: seq<Pair>, s: seq<octet>, d: Decoded, max: nat)
    requires Encodes(enc) && (sep == AMPERSAND || sep == SEMICOLON) && |s| >= 2
    requires pairs != [] && AtKey(d, max)
    ensures
      var e := Form(enc, sep, pairs);
      var r := Decode(e + s, |e|, d, max);
      r.out + [NUL] == d.out + Flat(pairs) && Index(r, max) == d.items + Lengths(pairs, max - |d.items|)
    decreases |pairs|
  {
    hide Decode, EncodedPair, Separate, WithPair, Encodes, Index, Chunk, Recorded, Flat, Lengths, AtKey;
    var p := pairs[0];
    if |pairs| == 1 {
      assert pairs == [p];
      DecodesLast(enc, sep, p, s, d, max);
    } else {
      var d' := Separate(WithPair(d, p), max);
      DecodesFirst(enc, sep, p, Form(enc, sep, pairs[1..]), s, d, max);
      SeparatedPair(d, p, max);
      DecodesForm(enc, sep, pairs[1..], s, d', max);
      PartsAfter(d, d', pairs, max);
    }
  }

  lemma PartsAfter(d: Decoded, d': Decoded, pairs: seq<Pair>, max: nat)
    requires |pairs| > 1 && |d.items| <= max && d'.out == d.out + Chunk(pairs[0])
    requires d'.items == if |d.items| < max then d.items + [Recorded(pairs[0], false)] else d.items
    ensures d'.out + Flat(pairs[1..]) == d.out + Flat(pairs)
    ensures d'.items + Lengths(pairs[1..], max - |d'.items|) == d.items + Lengths(pairs, max - |d.items|)
  {
    hide Chunk, Recorded;
  }

  // ----- Lookup -----

  /** Where the string at `p` ends. */
  function EndOf(mem: seq<octet>, p: nat): (q: nat)
    requires p <= |mem|
    ensures p <= q <= |mem| && (q < |mem| ==> mem[q] == NUL) && NUL !in mem[p..q]
    decreases |mem| - p
  {
    if p == |mem| || mem[p] == NUL then p
    else
      var q := EndOf(mem, p + 1);
      assert mem[p..q] == [mem[p]] + mem[p + 1..q];
      q
  }

  /** The NUL-terminated string at `p`. */
  function Text(mem: seq<octet>, p: nat): seq<octet>
    requires p <= |mem|
  {
    mem[p..EndOf(mem, p)]
  }

  /** Memory within reach of the lengths of a full index. */
  function Reach(items: seq<Item>): nat
  {
    if items == [] then 0 else items[0].keyLen + items[0].valLen + Reach(items[1..])
  }

  /** The value of the first pair whose key is `key`, by address. */
  function Found(mem: seq<octet>, items: seq<Item>, p: nat, key: seq<octet>): Option<nat>
    requires p + Reach(items) <= |mem|
  {
    if items == [] then None
    else if Text(mem, p) == key then Some(p + items[0].keyLen)
    else Found(mem, items[1..], p + items[0].keyLen + items[0].valLen, key)
  }

  lemma {:induction false} ReachAt(items: seq<Item>, i: nat)
    requires i < |items|
    ensures Reach(items[i..]) == items[i].keyLen + items[i].valLen + Reach(items[i + 1..])
  {
    assert items[i..][0] == items[i] && items[i..][1..] == items[i + 1..];
  }

  method Lookup(mem: seq<octet>, items: seq<Item>, key: seq<octet>) returns (r: Option<nat>)
    requires Reach(items) <= |mem|
    ensures r == Found(mem, items, 0, key)
  {
    var cp := 0;
    assert items[0..] == items;
    for i := 0 to |items|
      invariant 0 <= cp && cp + Reach(items[i..]) <= |mem|
      invariant Found(mem, items, 0, key) == Found(mem, items[i..], cp, key)
    {
      ReachAt(items, i);
      assert items[i..][0] == items[i] && items[i..][1..] == items[i + 1..];
      var field := cp;
      cp := cp + items[i].keyLen;
      var val := cp;
      cp := cp + items[i].valLen;
      if Text(mem, field) == key {
        return Some(val);
      }
    }
    r := None;
  }

  // ----- Lookup undoes encoding -----

  /** Keys and values that strings can hold. */
  predicate NulFree(pairs: seq<Pair>)
  {
    forall i :: 0 <= i < |pairs| ==> NUL !in pairs[i].key && NUL !in pairs[i].value
  }

  /** The lengths of the first `n` pairs survive the bit fields: every key, and every value with
      another of these pairs after it. */
  predicate Fits(pairs: seq<Pair>, n: nat)
  {
    pairs == [] || n == 0 ||
    (&& |pairs[0].key| <= KEY_RANGE - 2
     && (|pairs| == 1 || n == 1 || |pairs[0].value| <= VALUE_RANGE - 2)
     && Fits(pairs[1..], n - 1))
  }

  /** The value of the first of `n` pairs with that key. */
  function FirstValue(pairs: seq<Pair>, n: nat, key: seq<octet>): Option<seq<octet>>
  {
    if pairs == [] || n == 0 then None
    else if pairs[0].key == key then Some(pairs[0].value)
    else FirstValue(pairs[1..], n - 1, key)
  }

  /** Its address, when the pairs are laid out from `p` on. */
  function FirstAt(pairs: seq<Pair>, n: nat, p: nat, key: seq<octet>): (r: Option<nat>)
    ensures r.Some? ==> p < r.value
  {
    if pairs == [] || n == 0 then None
    else if pairs[0].key == key then Some(p + |key| + 1)
    else FirstAt(pairs[1..], n - 1, p + |Chunk(pairs[0])|, key)
  }

  /** The lookup that starts at `p` finds `value`, or nothing. */
  ghost predicate Finds(mem: seq<octet>, items: seq<Item>, p: nat, key: seq<octet>, value: Option<seq<octet>>)
  {
    p + Reach(items) <= |mem| &&
    match Found(mem, items, p, key)
    case None => value == None
    case Some(a) => a <= |mem| && value == Some(Text(mem, a))
  }

  lemma {:induction false} EndIs(mem: seq<octet>, p: nat, q: nat)
    requires p <= q < |mem| && mem[q] == NUL && NUL !in mem[p..q]
    ensures EndOf(mem, p) == q
    decreases q - p
  {
    if p < q {
      assert mem[p] in mem[p..q] && mem[p..q] == [mem[p]] + mem[p + 1..q];
      EndIs(mem, p + 1, q);
    }
  }

  lemma TextAt(pre: seq<octet>, w: seq<octet>, rest: seq<octet>)
    requires NUL !in w
    ensures Text(pre + w + [NUL] + rest, |pre|) == w
  {
    var mem, p := pre + w + [NUL] + rest, |pre|;
    assert mem[p..p + |w|] == w && mem[p + |w|] == NUL;
    EndIs(mem, p, p + |w|);
  }

  lemma ChunkTexts(pre: seq<octet>, p: Pair, rest: seq<octet>)
    requires NUL !in p.key && NUL !in p.value
    ensures
      var mem := pre + Chunk(p) + rest;
      Text(mem, |pre|) == p.key && Text(mem, |pre| + |p.key| + 1) == p.value
  {
    hide Text;
    var mem := pre + Chunk(p) + rest;
    var inner := p.value + [NUL] + rest;
    assert mem == pre + p.key + [NUL] + inner;
    assert mem == (pre + p.key + [NUL]) + p.value + [NUL] + rest;
    TextAt(pre, p.key, inner);
    TextAt(pre + p.key + [NUL], p.value, rest);
  }

  lemma ChunkLength(p: Pair)
    ensures |Chunk(p)| == |p.key| + |p.value| + 2
  {
  }

  /** What is recorded is never more than the true length, and the true length if it fits. */
  lemma RecordedIs(p: Pair, last: bool)
    ensures
      var x, v := Recorded(p, last), |p.value| + if last then 0 else 1;
      && x.keyLen <= |p.key| + 1 && x.valLen <= v && x.keyLen < KEY_RANGE
      && (x.keyLen == |p.key| + 1 <==> |p.key| <= KEY_RANGE - 2)
      && (x.valLen == v <==> v < VALUE_RANGE)
      && (v >= VALUE_RANGE ==> x.valLen <= v - VALUE_RANGE)
  {
  }

  lemma {:induction false} ReachWithin(pairs: seq<Pair>, n: nat)
    ensures Reach(Lengths(pairs, n)) <= |Flat(pairs)|
    decreases |pairs|
  {
    hide Chunk, Recorded;
    if pairs != [] && n > 0 {
      ChunkLength(pairs[0]);
      RecordedIs(pairs[0], |pairs| == 1);
      ReachWithin(pairs[1..], n - 1);
      ReachOf(Recorded(pairs[0], |pairs| == 1), Lengths(pairs[1..], n - 1));
    }
  }

  lemma ReachOf(x: Item, items: seq<Item>)
    ensures Reach([x] + items) == x.keyLen + x.valLen + Reach(items)
  {
    assert ([x] + items)[1..] == items;
  }

  /** A lookup that meets one entry. */
  lemma FoundNext(mem: seq<octet>, x: Item, items: seq<Item>, p: nat, key: seq<octet>)
    requires p + Reach([x] + items) <= |mem|
    ensures Reach([x] + items) == x.keyLen + x.valLen + Reach(items)
    ensures Found(mem, [x] + items, p, key) ==
            if Text(mem, p) == key then Some(p + x.keyLen) else Found(mem, items, p + x.keyLen + x.valLen, key)
  {
    hide Text;
    assert ([x] + items)[1..] == items;
  }

  /** One entry of a decoded form, whether or not it fits. */
  lemma FoundInFlat(pre: seq<octet>, pairs: seq<Pair>, n: nat, tail: seq<octet>, key: seq<octet>)
    requires NulFree(pairs) && pairs != [] && n > 0
    ensures
      var mem, p, x := pre + Flat(pairs) + tail, pairs[0], Recorded(pairs[0], |pairs| == 1);
      && |pre| + Reach(Lengths(pairs, n)) <= |mem|
      && |pre| + x.keyLen + x.valLen + Reach(Lengths(pairs[1..], n - 1)) <= |mem|
      && mem == (pre + Chunk(p)) + Flat(pairs[1..]) + tail
      && Text(mem, |pre|) == p.key
      && Found(mem, Lengths(pairs, n), |pre|, key) ==
         if p.key == key then Some(|pre| + x.keyLen)
         else Found(mem, Lengths(pairs[1..], n - 1), |pre| + x.keyLen + x.valLen, key)
  {
    hide Text, Found, Chunk, Recorded;
    var mem, p, rest := pre + Flat(pairs) + tail, pairs[0], pairs[1..];
    assert mem == pre + Chunk(p) + (Flat(rest) + tail) == (pre + Chunk(p)) + Flat(rest) + tail;
    ChunkTexts(pre, p, Flat(rest) + tail);
    ReachWithin(pairs, n);
    FoundNext(mem, Recorded(p, |pairs| == 1), Lengths(rest, n - 1), |pre|, key);
  }

  /** Lengths that fit lead the lookup to the first occurrence of every key. */
  lemma {:induction false} FoundWhenFits(pre: seq<octet>, pairs: seq<Pair>, n: nat, tail: seq<octet>, key: seq<octet>)
    requires NulFree(pairs) && Fits(pairs, n)
    ensures
      var mem := pre + Flat(pairs) + tail;
      && |pre| + Reach(Lengths(pairs, n)) <= |mem|
      && Found(mem, Lengths(pairs, n), |pre|, key) == FirstAt(pairs, n, |pre|, key)
    decreases |pairs|
  {
    hide Text, Chunk, Recorded, Flat;
    ReachWithin(pairs, n);
    if pairs != [] && n > 0 {
      var p, rest := pairs[0], pairs[1..];
      FoundInFlat(pre, pairs, n, tail, key);
      RecordedIs(p, |pairs| == 1);
      ChunkLength(p);
      if |pairs| > 1 && n > 1 {
        FoundWhenFits(pre + Chunk(p), rest, n - 1, tail, key);
      }
    }
  }

  /** Lengths that do not fit mislead the lookup of some key: the first one that is too long, or
      what is left of the first value that is too long where the lookup resumes in it. */
  lemma {:induction false} Misled(pre: seq<octet>, pairs: seq<Pair>, n: nat, tail: seq<octet>) returns (key: seq<octet>)
    requires NulFree(pairs) && !Fits(pairs, n)
    ensures
      var mem := pre + Flat(pairs) + tail;
      && |key| > KEY_RANGE - 2 && |pre| + Reach(Lengths(pairs, n)) <= |mem|
      && Found(mem, Lengths(pairs, n), |pre|, key) != FirstAt(pairs, n, |pre|, key)
    decreases |pairs|
  {
    hide Text, Chunk, Recorded, Flat;
    ReachWithin(pairs, n);
    var p, rest := pairs[0], pairs[1..];
    ChunkLength(p);
    RecordedIs(p, |pairs| == 1);
    if |p.key| > KEY_RANGE - 2 {
      key := p.key;
      FoundInFlat(pre, pairs, n, tail, key);
    } else if |pairs| > 1 && n > 1 && |p.value| > VALUE_RANGE - 2 {
      var r := Recorded(p, false).valLen;
      key := p.value[r..];
      FoundInFlat(pre, pairs, n, tail, key);
      ResumedInside(pre, p, Flat(rest) + tail, r);
      assert pre + Chunk(p) + (Flat(rest) + tail) == pre + Chunk(p) + Flat(rest) + tail;
      RecordedIs(rest[0], |rest| == 1);
      FoundNext(pre + Flat(pairs) + tail, Recorded(rest[0], |rest| == 1), Lengths(rest[1..], n - 2), |pre| + |p.key| + 1 + r, key);
    } else {
      key := Misled(pre + Chunk(p), rest, n - 1, tail);
      FoundInFlat(pre, pairs, n, tail, key);
    }
  }

  lemma ResumedInside(pre: seq<octet>, p: Pair, rest: seq<octet>, r: nat)
    requires NUL !in p.value && r <= |p.value|
    ensures |pre| + |p.key| + 1 + r <= |pre + Chunk(p) + rest|
    ensures Text(pre + Chunk(p) + rest, |pre| + |p.key| + 1 + r) == p.value[r..]
  {
    hide Text;
    var front := pre + p.key + [NUL] + p.value[..r];
    assert pre + Chunk(p) + rest == front + p.value[r..] + [NUL] + rest;
    TextAt(front, p.value[r..], rest);
  }

  lemma {:induction false} FirstAtText(pre: seq<octet>, pairs: seq<Pair>, n: nat, tail: seq<octet>, key: seq<octet>)
    requires NulFree(pairs)
    ensures
      var mem := pre + Flat(pairs) + tail;
      match FirstAt(pairs, n, |pre|, key)
      case None => FirstValue(pairs, n, key) == None
      case Some(a) => a <= |mem| && FirstValue(pairs, n, key) == Some(Text(mem, a))
    decreases |pairs|
  {
    hide Text, Chunk;
    if pairs != [] && n > 0 {
      var p, rest := pairs[0], pairs[1..];
      ChunkLength(p);
      assert pre + Flat(pairs) + tail == pre + Chunk(p) + (Flat(rest) + tail) == (pre + Chunk(p)) + Flat(rest) + tail;
      ChunkTexts(pre, p, Flat(rest) + tail);
      FirstAtText(pre + Chunk(p), rest, n - 1, tail, key);
    }
  }

  // ----- Decoding, then looking up -----

  /** Pairs the index has room for, `HTTP_QUERY_LST_MAX`. */
  const PAIRS: nat := 15

  /** The memory and the index that decoding a form leaves behind. */
  function DecodedForm(enc: Encoder, sep: octet, pairs: seq<Pair>, junk: seq<octet>): (seq<octet>, seq<Item>)
    requires pairs != [] && |junk| >= 2
  {
    var e := Form(enc, sep, pairs);
    var d := Decode(e + junk, |e|, START, PAIRS);
    (d.out + [NUL] + (e + junk)[|d.out| + 1..], Index(d, PAIRS))
  }

  lemma FormDecoded(enc: Encoder, sep: octet, pairs: seq<Pair>, junk: seq<octet>) returns (tail: seq<octet>)
    requires Encodes(enc) && (sep == AMPERSAND || sep == SEMICOLON) && |junk| >= 2 && pairs != []
    ensures DecodedForm(enc, sep, pairs, junk) == ([] + Flat(pairs) + tail, Lengths(pairs, PAIRS))
  {
    hide Form, Decode, Index, Encodes, Flat, Lengths;
    var e := Form(enc, sep, pairs);
    DecodesForm(enc, sep, pairs, junk, START, PAIRS);
    var d := Decode(e + junk, |e|, START, PAIRS);
    tail := (e + junk)[|d.out| + 1..];
    assert [] + Flat(pairs) == Flat(pairs) && [] + Lengths(pairs, PAIRS) == Lengths(pairs, PAIRS);
    assert [] + Flat(pairs) + tail == d.out + [NUL] + tail;
  }

  /** Decoding an encoded form and looking a key up gives the value of its first occurrence among
      the first 15 pairs, or nothing if it does not occur there: for any encoder, either
      separator, any number of pairs whose lengths fit, and any memory after the string. */
  lemma LookupUndoesEncoding(enc: Encoder, sep: octet, pairs: seq<Pair>, junk: seq<octet>, key: seq<octet>)
    requires Encodes(enc) && (sep == AMPERSAND || sep == SEMICOLON) && |junk| >= 2
    requires pairs != [] && NulFree(pairs) && Fits(pairs, PAIRS)
    ensures
      var (mem, items) := DecodedForm(enc, sep, pairs, junk);
      Finds(mem, items, 0, key, FirstValue(pairs, PAIRS, key))
  {
    hide DecodedForm, Encodes, Fits, NulFree, Found, FirstAt, FirstValue, Text;
    var tail := FormDecoded(enc, sep, pairs, junk);
    FoundWhenFits([], pairs, PAIRS, tail, key);
    FirstAtText([], pairs, PAIRS, tail, key);
  }

  /** The condition is exact: every key leads to the address of the value of its first occurrence
      among the first 15 pairs, or to none if it does not occur there, if and only if every key
      among them has at most 30 octets and every value that another of them follows at most 2046. */
  lemma LookupExactly(enc: Encoder, sep: octet, pairs: seq<Pair>, junk: seq<octet>)
    requires Encodes(enc) && (sep == AMPERSAND || sep == SEMICOLON) && |junk| >= 2
    requires pairs != [] && NulFree(pairs)
    ensures
      var (mem, items) := DecodedForm(enc, sep, pairs, junk);
      && Reach(items) <= |mem|
      && ((forall key :: Found(mem, items, 0, key) == FirstAt(pairs, PAIRS, 0, key)) <==> Fits(pairs, PAIRS))
  {
    hide DecodedForm, Encodes, Fits, NulFree, Found, FirstAt;
    var tail := FormDecoded(enc, sep, pairs, junk);
    ReachWithin(pairs, PAIRS);
    if Fits(pairs, PAIRS) {
      forall key ensures Found([] + Flat(pairs) + tail, Lengths(pairs, PAIRS), 0, key) == FirstAt(pairs, PAIRS, 0, key) {
        FoundWhenFits([], pairs, PAIRS, tail, key);
      }
    } else {
      var key := Misled([], pairs, PAIRS, tail);
    }
  }

  /** In particular a single pair is looked up right if and only if its key has at most 30 octets;
      a key of 31, stored as length 0, is its own value. */
  lemma LongKeyMisread(enc: Encoder, sep: octet, p: Pair, junk: seq<octet>)
    requires Encodes(enc) && (sep == AMPERSAND || sep == SEMICOLON) && |junk| >= 2 && NulFree([p])
    ensures
      var (mem, items) := DecodedForm(enc, sep, [p], junk);
      && Reach(items) <= |mem|
      && Found(mem, items, 0, p.key) == Some((|p.key| + 1) % KEY_RANGE)
      && (Found(mem, items, 0, p.key) == Some(|p.key| + 1) <==> |p.key| <= KEY_RANGE - 2)
      && Text(mem, 0) == p.key
  {
    hide DecodedForm, Encodes, Found, Text, Flat;
    var tail := FormDecoded(enc, sep, [p], junk);
    FoundInFlat([], [p], PAIRS, tail, p.key);
    RecordedIs(p, true);
  }
}
