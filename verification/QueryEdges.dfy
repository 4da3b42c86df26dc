/**
  Query strings that are not lists of pairs in upper case: fields without an equals sign, number
  signs, and escapes with lower-case digits.
 */
module QueryEdges {
  import opened Octets
  import opened Options
  import opened Query

  // ----- Escapes -----

  predicate LowerCase(c: octet)
  {
    97 <= c <= 102
  }

  predicate HexDigit(c: octet)
  {
    48 <= c <= 57 || 65 <= c <= 70 || LowerCase(c)
  }

  /** The value of a hexadecimal digit of either case. */
  function ValueOf(c: octet): int
    requires HexDigit(c)
  {
    if c <= 57 then c as int - 48 else if c <= 70 then c as int - 55 else c as int - 87
  }

  /** An escape is read right if and only if its second digit is not in lower case; the first may
      be, because what is wrong with it is shifted out of the octet. */
  lemma EscapeExactly(hi: octet, lo: octet)
    requires HexDigit(hi) && HexDigit(lo)
    ensures Escaped(hi, lo) as int == 16 * ValueOf(hi) + ValueOf(lo) <==> !LowerCase(lo)
  {
    hide Digit, ValueOf, LowerCase, HexDigit;
    DigitIs(hi);
    DigitIs(lo);
  }

  lemma DigitIs(c: octet)
    requires HexDigit(c)
    ensures Digit(c) == ValueOf(c) + (if LowerCase(c) then 32 else 0) && 0 <= ValueOf(c) < 16
  {
  }

  // ----- Number signs -----

  function WithoutHashes(s: seq<octet>): seq<octet>
  {
    if s == [] then [] else (if s[0] == HASH then [] else [s[0]]) + WithoutHashes(s[1..])
  }

  /** A number sign disappears; what follows it is decoded as if it had not been there. */
  lemma {:induction false} HashesDropped(s: seq<octet>, junk: seq<octet>, d: Decoded, max: nat)
    requires PERCENT !in s && |junk| >= 2
    ensures Decode(s + junk, |s|, d, max) == Decode(WithoutHashes(s) + junk, |WithoutHashes(s)|, d, max)
    decreases |s|
  {
    hide Act;
    if s != [] && s[0] != NUL {
      var t, w := s + junk, WithoutHashes(s[1..]);
      assert t[0] == s[0] && t[1..] == s[1..] + junk && s[0] in s;
      HashActs(d, t[1], t[2], max);
      HashesDropped(s[1..], junk, Act(d, s[0], t[1], t[2], max), max);
      if s[0] != HASH {
        var u := [s[0]] + w + junk;
        assert u[0] == s[0] && u[1..] == w + junk && [s[0]] + w == WithoutHashes(s);
        SameAct(d, s[0], t[1], t[2], u[1], u[2], max);
      } else {
        assert [] + w == w;
      }
    }
  }

  lemma HashActs(d: Decoded, hi: octet, lo: octet, max: nat)
    ensures Act(d, HASH, hi, lo, max) == d
  {
  }

  lemma SameAct(d: Decoded, c: octet, hi: octet, lo: octet, hi': octet, lo': octet, max: nat)
    requires c != PERCENT
    ensures Act(d, c, hi, lo, max) == Act(d, c, hi', lo', max)
  {
  }

  // ----- Fields without an equals sign -----

  /** A field without an equals sign, then a form. */
  function FlagForm(enc: Encoder, sep: octet, flag: seq<octet>, pairs: seq<Pair>): seq<octet>
    requires pairs != []
  {
    Encoded(enc, flag) + ([sep] + Form(enc, sep, pairs))
  }

  /** What is recorded for such a field of `len` octets, its NUL included, that starts at `k`: the
      missing equals sign counts as one at address 0. */
  function FlagEntry(k: nat, len: nat): Item
  {
    Item((0 - k) % 32, (k + len) % 2048)
  }

  lemma FlagSeparated(d: Decoded, flag: seq<octet>, max: nat)
    requires AtKey(d, max) && |d.items| < max && d.v == 0
    ensures
      var d' := Separate(d.(out := d.out + flag), max);
      && d'.out == d.out + flag + [NUL] && AtKey(d', max) && d'.v == 0
      && d'.items == d.items + [FlagEntry(|d.out|, |flag| + 1)]
  {
  }

  /** The lengths recorded for it lead the lookup on to the next field if and only if it starts
      within the 32 octets up to a multiple of 2048 and is not too long: at the very start of the
      string, for one. */
  lemma FlagExactly(k: nat, len: nat)
    ensures
      var x := FlagEntry(k, len);
      && (x.keyLen + x.valLen == len <==> (k + x.keyLen) % 2048 == 0 && x.keyLen <= len < 2048 + x.keyLen)
      && (k + len < 2048 ==> x.keyLen + x.valLen == len + (k + 31) / 32 * 32)
  {
  }

  lemma FlagDecoded(enc: Encoder, sep: octet, flag: seq<octet>, pairs: seq<Pair>, junk: seq<octet>)
    requires Encodes(enc) && (sep == AMPERSAND || sep == SEMICOLON) && |junk| >= 2 && pairs != []
    ensures
      var e := FlagForm(enc, sep, flag, pairs);
      var r := Decode(e + junk, |e|, START, PAIRS);
      r.out + [NUL] == (flag + [NUL]) + Flat(pairs) && Index(r, PAIRS) == [FlagEntry(0, |flag| + 1)] + Lengths(pairs, PAIRS - 1)
  {
    hide Decode, Encodes, Form, Flat, Lengths, Index, Encoded, Separate, FlagEntry;
    var form := Form(enc, sep, pairs);
    var d1 := START.(out := START.out + flag);
    var d2 := Separate(d1, PAIRS);
    assert FlagForm(enc, sep, flag, pairs) + junk == Encoded(enc, flag) + ([sep] + (form + junk));
    DecodesEncoded(enc, flag, [sep] + (form + junk), 1 + |form|, START, PAIRS);
    OneSign(sep, form + junk, |form|, d1, PAIRS);
    FlagSeparated(START, flag, PAIRS);
    DecodesForm(enc, sep, pairs, junk, d2, PAIRS);
    assert [] + flag == flag && [] + [FlagEntry(0, |flag| + 1)] == [FlagEntry(0, |flag| + 1)];
  }

  /** A field without an equals sign in front of a form: every key of the form is still found where
      its first occurrence among the next 14 pairs is, or nowhere, and the field itself leads to
      its own name. */
  lemma LeadingFlag(enc: Encoder, sep: octet, flag: seq<octet>, pairs: seq<Pair>, junk: seq<octet>, key: seq<octet>)
    requires Encodes(enc) && (sep == AMPERSAND || sep == SEMICOLON) && |junk| >= 2 && pairs != []
    requires NUL !in flag && NulFree(pairs) && Fits(pairs, PAIRS - 1) && |flag| <= 2046
    ensures
      var e := FlagForm(enc, sep, flag, pairs);
      var r := Decode(e + junk, |e|, START, PAIRS);
      var mem, items := r.out + [NUL] + (e + junk)[|r.out| + 1..], Index(r, PAIRS);
      && Reach(items) <= |mem|
      && Found(mem, items, 0, key) == (if key == flag then Some(0) else FirstAt(pairs, PAIRS - 1, |flag| + 1, key))
      && Text(mem, 0) == flag
  {
    hide Decode, Encodes, FlagForm, Flat, Lengths, Index, Found, FirstAt, Text, Fits;
    var e := FlagForm(enc, sep, flag, pairs);
    var r := Decode(e + junk, |e|, START, PAIRS);
    var pre, tail, rest := flag + [NUL], (e + junk)[|r.out| + 1..], Lengths(pairs, PAIRS - 1);
    var mem := pre + Flat(pairs) + tail;
    FlagDecoded(enc, sep, flag, pairs, junk);
    FoundWhenFits(pre, pairs, PAIRS - 1, tail, key);
    ReachOf(FlagEntry(0, |flag| + 1), rest);
    assert mem == [] + flag + [NUL] + (Flat(pairs) + tail);
    TextAt([], flag, Flat(pairs) + tail);
    FoundNext(mem, FlagEntry(0, |flag| + 1), rest, 0, key);
  }
}
